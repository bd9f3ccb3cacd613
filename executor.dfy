/**
 * The runtime a compiled template runs on (index.js:264-322): a current
 * path that starts empty, an output buffer `__out` joined at the end, and
 * the helpers `resolve` and `each`. `keepPath` (index.js:254-256) gives a
 * body its own copy of `path`, so the path is put back when the body ends.
 */
module Executor {
  import opened Wrappers
  import opened Values
  import opened Paths
  import opened Resolver
  import opened Program
  import Escape
  import opened Seqs

  /** The user functions of the `fn` macro: name, current path and data root to the text spliced in. */
  type Fns = (string, string, Value) -> string

  /** `data || {}` (index.js:266): falsy data is replaced by an empty object. */
  function Normalize(data: Value): (r: Value)
    ensures Truthy(r)
    ensures Truthy(data) ==> r == data
  {
    if Truthy(data) then data else Obj([])
  }

  /** The decimal keys "0", "1", ... of the first `n` indices. */
  function Indices(n: nat): (keys: seq<string>)
    ensures |keys| == n
    ensures forall i :: 0 <= i < n ==> keys[i] == NatToString(i)
  {
    if n == 0 then [] else Indices(n - 1) + [NatToString(n - 1)]
  }

  /** The keys `for (key in obj)` with `hasOwnProperty` visits: a string's indices, an object's own keys. */
  function ForInKeys(v: Value): seq<string>
  {
    match v
    case Str(s) => Indices(|s|)
    case Obj(fields) => Keys(fields)
    case _ => []
  }

  /**
   * The keys `each` (index.js:309-321) hands to its iterator: none for a
   * missing or falsy value, the indices of an array in ascending order,
   * otherwise the for-in keys.
   */
  function EntryKeys(v: Option<Value>): seq<string>
  {
    if v.None? || !Truthy(v.value) then []
    else if v.value.Arr? then Indices(|v.value.elems|)
    else ForInKeys(v.value)
  }

  // ----- What a program outputs -----

  /** The text a program appends to `__out`, run at `path` against `root`. */
  function Output(prog: seq<Instr>, root: Value, path: string, fns: Fns): string
    decreases ProgSize(prog), 1, 0
  {
    if prog == [] then ""
    else
      InstrSizeBounded(prog, 0);
      InstrOutput(prog[0], root, path, fns) + Output(prog[1..], root, path, fns)
  }

  function InstrOutput(i: Instr, root: Value, path: string, fns: Fns): string
    decreases InstrSize(i), 0, 0
  {
    match i
    case EmitLiteral(t) => t
    case EmitResolved(p) => ItemText(ResolvePath(root, AddToPath(path, p)))
    case EmitPath(p) => AddToPath(path, p)
    case WithPath(p, body) => Output(body, root, AddToPath(path, p), fns)
    case IfDefined(p, body) =>
      if ResolvePath(root, AddToPath(path, p)).Some? then Output(body, root, path, fns) else ""
    case ForEach(p, body) =>
      var q := AddToPath(path, p);
      EachOutput(body, root, q, EntryKeys(ResolvePath(root, q)), fns)
    case CallFn(name) => fns(name, path, root)
  }

  /** The body run once per key, in order, each time at `path` extended by the key. */
  function EachOutput(body: seq<Instr>, root: Value, path: string, keys: seq<string>, fns: Fns): string
    decreases ProgSize(body), 4, |keys|
  {
    if keys == [] then ""
    else
      EachOutput(body, root, path, keys[..|keys| - 1], fns)
        + Output(body, root, AddToPath(path, keys[|keys| - 1]), fns)
  }

  /** Output of a concatenation is the concatenation of outputs. */
  lemma {:induction false} OutputAppend(a: seq<Instr>, b: seq<Instr>, root: Value, path: string, fns: Fns)
    ensures Output(a + b, root, path, fns) == Output(a, root, path, fns) + Output(b, root, path, fns)
    decreases |a|
  {
    if a == [] {
      assert a + b == b;
    } else {
      assert (a + b)[1..] == a[1..] + b;
      assert (a + b)[0] == a[0];
      OutputAppend(a[1..], b, root, path, fns);
    }
  }

  /** A one-instruction program outputs what its instruction outputs. */
  lemma OutputSingle(a: Instr, root: Value, path: string, fns: Fns)
    ensures Output([a], root, path, fns) == InstrOutput(a, root, path, fns)
  {
    assert [a][1..] == [];
  }

  /** A two-instruction program outputs what its two instructions output, in order. */
  lemma OutputPair(a: Instr, b: Instr, root: Value, path: string, fns: Fns)
    ensures Output([a, b], root, path, fns) == InstrOutput(a, root, path, fns) + InstrOutput(b, root, path, fns)
  {
    assert [a, b][1..] == [b] && [b][1..] == [];
    assert Output([b], root, path, fns) == InstrOutput(b, root, path, fns) + Output([], root, path, fns);
  }

  /**
   * A literal outputs its text exactly, which is what the generated code
   * reads back once the text is escaped with the corrected `escapeJS`.
   */
  lemma LiteralOutput(t: string, root: Value, path: string, fns: Fns)
    ensures Escape.Unquote(Escape.EscapeText(t)) == Some(InstrOutput(EmitLiteral(t), root, path, fns))
  {
    Escape.EscapeRoundTrip(t);
  }

  // ----- What `each` visits -----

  /**
   * `each` visits exactly the entries a value has: an array's or string's
   * indices (every member but `length`), an object's own keys, and nothing
   * for a number or boolean.
   */
  lemma EntryKeysAreEntries(v: Value, k: string)
    requires Truthy(v)
    ensures v.Arr? || v.Str? ==> (k in EntryKeys(Some(v)) <==> k != "length" && Member(v, k).Some?)
    ensures v.Obj? ==> (k in EntryKeys(Some(v)) <==> Member(v, k).Some?)
    ensures v.Num? || v.Bool? ==> EntryKeys(Some(v)) == []
  {
    if v.Arr? || v.Str? {
      var n := if v.Arr? then |v.elems| else |v.s|;
      var keys := EntryKeys(Some(v));
      assert keys == Indices(n);
      if k in keys {
        var i :| 0 <= i < n && keys[i] == k;
        ArrayIndexRoundTrip(i, k);
        assert IsDigit(k[0]);
      }
      if k != "length" && Member(v, k).Some? {
        var i := ArrayIndex(k).value;
        ArrayIndexRoundTrip(i, k);
        assert keys[i] == k;
      }
    }
    if v.Obj? {
      KeysAreLookups(v.fields, k);
    }
  }

  /** No key is visited twice; array indices are visited in ascending order. */
  lemma EntryKeysOrdered(v: Option<Value>)
    ensures var keys := EntryKeys(v);
      forall i, j :: 0 <= i < j < |keys| ==> keys[i] != keys[j]
    ensures v.Some? && v.value.Arr? && Truthy(v.value) ==>
      forall i :: 0 <= i < |EntryKeys(v)| ==> ArrayIndex(EntryKeys(v)[i]) == Some(i)
  {
    var keys := EntryKeys(v);
    if v.Some? && Truthy(v.value) && (v.value.Arr? || v.value.Str?) {
      forall i | 0 <= i < |keys|
        ensures ArrayIndex(keys[i]) == Some(i)
      {
        ArrayIndexRoundTrip(i, keys[i]);
      }
      forall i, j | 0 <= i < j < |keys|
        ensures keys[i] != keys[j]
      {
        ArrayIndexRoundTrip(i, keys[i]);
        ArrayIndexRoundTrip(j, keys[j]);
      }
    }
  }

  /**
   * Inside `each` over an array found at path `q`, the path of the i-th
   * iteration resolves to the i-th element when it is truthy.
   */
  lemma EachBindsElement(root: Value, q: string, xs: seq<Value>, i: nat)
    requires q != "." && ResolvePath(root, q) == Some(Arr(xs)) && i < |xs|
    ensures i < |EntryKeys(Some(Arr(xs)))|
    ensures ResolvePath(root, AddToPath(q, EntryKeys(Some(Arr(xs)))[i]))
         == (if Truthy(xs[i]) then Some(xs[i]) else None)
  {
    var key := NatToString(i);
    assert EntryKeys(Some(Arr(xs)))[i] == key;
    assert forall j :: 0 <= j < |key| ==> key[j] != '.' by {
      forall j | 0 <= j < |key| ensures key[j] != '.' {
        assert IsDigit(key[j]);
      }
    }
    ResolveAddToPath(root, q, key);
    ArrayIndexRoundTrip(i, key);
    assert key != "length" by {
      assert IsDigit(key[0]);
    }
  }

  /**
   * Inside `each` over an object found at path `q`, the path of the
   * iteration for a dot-free key resolves to that key's field when it is
   * truthy.
   */
  lemma EachBindsField(root: Value, q: string, fields: seq<(string, Value)>, k: string)
    requires q != "." && ResolvePath(root, q) == Some(Obj(fields))
    requires k in EntryKeys(Some(Obj(fields))) && Segment(k)
    ensures Lookup(fields, k).Some?
    ensures ResolvePath(root, AddToPath(q, k))
         == (if Truthy(Lookup(fields, k).value) then Lookup(fields, k) else None)
  {
    KeysAreLookups(fields, k);
    ResolveAddToPath(root, q, k);
  }

  // ----- The machine -----

  /** The state of one running template: the data root, the user functions, the path and the buffer. */
  class Runtime {
    const root: Value
    const fns: Fns
    var path: string
    var out: string

    /** `var path = "", __out = []; data = data || {};` */
    constructor (data: Value, fns: Fns)
      ensures root == Normalize(data) && this.fns == fns
      ensures path == "" && out == ""
    {
      root := Normalize(data);
      this.fns := fns;
      path := "";
      out := "";
    }

    /** Runs a program: appends its output and leaves the path as it found it. */
    method Run(prog: seq<Instr>)
      modifies this
      ensures path == old(path)
      ensures out == old(out) + Output(prog, root, old(path), fns)
      decreases ProgSize(prog), 1, 0
    {
      var k := 0;
      while k < |prog|
        invariant 0 <= k <= |prog|
        invariant path == old(path)
        invariant out == old(out) + Output(prog[..k], root, path, fns)
      {
        InstrSizeBounded(prog, k);
        Exec(prog[k]);
        OutputSnoc(prog, k, root, path, fns);
        k := k + 1;
      }
      assert prog[..|prog|] == prog;
    }

    /** Runs one instruction; a body that moves the path runs on its own copy of it. */
    method Exec(instr: Instr)
      modifies this
      ensures path == old(path)
      ensures out == old(out) + InstrOutput(instr, root, old(path), fns)
      decreases InstrSize(instr), 0, 0
    {
      match instr
      case EmitLiteral(t) =>
        out := out + t;
      case EmitResolved(p) =>
        var v := Resolve(root, AddToPath(path, p));
        out := out + ItemText(v);
      case EmitPath(p) =>
        out := out + AddToPath(path, p);
      case WithPath(p, body) =>
        var saved := path;
        path := AddToPath(path, p);
        Run(body);
        path := saved;
      case IfDefined(p, body) =>
        var v := Resolve(root, AddToPath(path, p));
        if v.Some? {
          Run(body);
        }
      case ForEach(p, body) =>
        var saved := path;
        path := AddToPath(path, p);
        var v := Resolve(root, path);
        Each(v, body);
        path := saved;
      case CallFn(name) =>
        out := out + fns(name, path, root);
    }

    /**
     * `each(obj, iterator)` with the iterator of the `each` macro: runs the
     * body once per entry, at the path extended by the entry's key.
     */
    method Each(v: Option<Value>, body: seq<Instr>)
      modifies this
      ensures path == old(path)
      ensures out == old(out) + EachOutput(body, root, old(path), EntryKeys(v), fns)
      decreases ProgSize(body), 3, 0
    {
      if v.None? || !Truthy(v.value) {
        return;
      }
      if v.value.Arr? {
        EachIndex(|v.value.elems|, body);
      } else {
        EachKey(ForInKeys(v.value), body);
      }
    }

    /** The array branch of `each`: indices 0 up to `n - 1`, in order. */
    method EachIndex(n: nat, body: seq<Instr>)
      modifies this
      ensures path == old(path)
      ensures out == old(out) + EachOutput(body, root, old(path), Indices(n), fns)
      decreases ProgSize(body), 2, 0
    {
      ghost var keys := Indices(n);
      var i := 0;
      while i < n
        invariant 0 <= i <= n
        invariant path == old(path)
        invariant out == old(out) + EachOutput(body, root, path, keys[..i], fns)
      {
        var saved := path;
        path := AddToPath(path, NatToString(i));
        Run(body);
        path := saved;
        EachKeyStep(body, root, path, keys, i, fns);
        ConcatAssoc(old(out), EachOutput(body, root, path, keys[..i], fns), Output(body, root, AddToPath(path, keys[i]), fns));
        i := i + 1;
      }
      assert keys[..n] == keys;
    }

    /** The for-in branch of `each`: the given keys, in order. */
    method EachKey(keys: seq<string>, body: seq<Instr>)
      modifies this
      ensures path == old(path)
      ensures out == old(out) + EachOutput(body, root, old(path), keys, fns)
      decreases ProgSize(body), 2, 0
    {
      var k := 0;
      while k < |keys|
        invariant 0 <= k <= |keys|
        invariant path == old(path)
        invariant out == old(out) + EachOutput(body, root, path, keys[..k], fns)
      {
        var saved := path;
        path := AddToPath(path, keys[k]);
        Run(body);
        path := saved;
        EachKeyStep(body, root, path, keys, k, fns);
        ConcatAssoc(old(out), EachOutput(body, root, path, keys[..k], fns), Output(body, root, AddToPath(path, keys[k]), fns));
        k := k + 1;
      }
      assert keys[..|keys|] == keys;
    }
  }

  /** The output of the first k + 1 instructions extends that of the first k by the k-th. */
  lemma OutputSnoc(prog: seq<Instr>, k: nat, root: Value, path: string, fns: Fns)
    requires k < |prog|
    ensures Output(prog[..k + 1], root, path, fns) == Output(prog[..k], root, path, fns) + InstrOutput(prog[k], root, path, fns)
  {
    assert prog[..k + 1] == prog[..k] + [prog[k]];
    OutputAppend(prog[..k], [prog[k]], root, path, fns);
    assert [prog[k]][1..] == [];
  }

  /** Visiting one more key appends the pass at that key. */
  lemma EachOutputSnoc(body: seq<Instr>, root: Value, path: string, keys: seq<string>, key: string, fns: Fns)
    ensures EachOutput(body, root, path, keys + [key], fns)
         == EachOutput(body, root, path, keys, fns) + Output(body, root, AddToPath(path, key), fns)
  {
    assert (keys + [key])[..|keys|] == keys;
  }

  /** The for-in loop's output for k + 1 keys extends that for k by the pass at key k. */
  lemma EachKeyStep(body: seq<Instr>, root: Value, path: string, keys: seq<string>, k: nat, fns: Fns)
    requires k < |keys|
    ensures EachOutput(body, root, path, keys[..k + 1], fns)
         == EachOutput(body, root, path, keys[..k], fns) + Output(body, root, AddToPath(path, keys[k]), fns)
  {
    assert keys[..k + 1] == keys[..k] + [keys[k]];
    EachOutputSnoc(body, root, path, keys[..k], keys[k], fns);
  }

  /** Runs a compiled template against `data` and returns `__out.join("")`. */
  method Render(prog: seq<Instr>, data: Value, fns: Fns) returns (s: string)
    ensures s == Output(prog, Normalize(data), "", fns)
  {
    var m := new Runtime(data, fns);
    m.Run(prog);
    s := m.out;
  }
}
