/**
 * `resolve` (index.js:284-300): looks a dotted path up in the data, one
 * piece at a time, stopping at the first piece whose value is falsy. The
 * data root is passed explicitly, as src/macro.js:18 does.
 */
module Resolver {
  import opened Wrappers
  import opened Values
  import opened Paths

  /** One step of the walk: `obj[key]`, kept only when it is truthy. */
  function Child(v: Value, key: string): (r: Option<Value>)
    ensures r.Some? ==> Truthy(r.value) && Member(v, key) == r
    ensures r.None? ==> Member(v, key).None? || !Truthy(Member(v, key).value)
  {
    var m := Member(v, key);
    if m.Some? && Truthy(m.value) then m else None
  }

  /** The value reached by following `parts` from `v`, or None once a step finds nothing truthy. */
  function Descend(v: Value, parts: seq<string>): Option<Value>
    decreases |parts|
  {
    if parts == [] then Some(v)
    else
      match Child(v, parts[0])
      case None => None
      case Some(w) => Descend(w, parts[1..])
  }

  /** What `resolve(data, path)` returns: the root for "" and ".", otherwise the walk over the split path. */
  function ResolvePath(root: Value, path: string): Option<Value>
  {
    if path == "" || path == "." then Some(root) else Descend(root, Split(path))
  }

  /**
   * The loop of `resolve`: walk while the next piece names a truthy value,
   * then report undefined if pieces are left over.
   */
  method Resolve(data: Value, path: string) returns (r: Option<Value>)
    ensures r == ResolvePath(data, path)
  {
    var obj := data;
    var parts := Split(path);
    if path == "" || path == "." {
      return Some(obj);
    }
    while |parts| > 0 && Member(obj, parts[0]).Some? && Truthy(Member(obj, parts[0]).value)
      invariant Descend(obj, parts) == Descend(data, Split(path))
      decreases |parts|
    {
      obj := Member(obj, parts[0]).value;
      parts := parts[1..];
    }
    if |parts| > 0 {
      return None;
    }
    return Some(obj);
  }

  /** Walking `ps` then `k` is walking `ps + [k]`. */
  lemma {:induction false} DescendSnoc(v: Value, ps: seq<string>, k: string)
    ensures Descend(v, ps + [k]) == (match Descend(v, ps) case None => None case Some(w) => Child(w, k))
    decreases |ps|
  {
    if ps == [] {
      assert [k][1..] == [];
    } else {
      assert (ps + [k])[1..] == ps[1..] + [k];
      match Child(v, ps[0])
      case None =>
      case Some(w) => DescendSnoc(w, ps[1..], k);
    }
  }

  /** Anything the walk reaches after at least one step is truthy: `resolve` never yields 0, "", false or null. */
  lemma {:induction false} DescendTruthy(v: Value, parts: seq<string>)
    requires parts != [] && Descend(v, parts).Some?
    ensures Truthy(Descend(v, parts).value)
    decreases |parts|
  {
    if |parts| > 1 {
      DescendTruthy(Child(v, parts[0]).value, parts[1..]);
    }
  }

  /** A path other than the root resolves to a truthy value or to nothing. */
  lemma ResolveTruthy(root: Value, path: string)
    requires path != "" && path != "." && ResolvePath(root, path).Some?
    ensures Truthy(ResolvePath(root, path).value)
  {
    DescendTruthy(root, Split(path));
  }

  /**
   * Extending the current path by a segment resolves to that segment's
   * truthy member of what the current path resolves to. The root "." is
   * the exception (see DotContext).
   */
  lemma ResolveAddToPath(root: Value, path: string, k: string)
    requires path != "." && Segment(k)
    ensures ResolvePath(root, AddToPath(path, k))
         == (match ResolvePath(root, path) case None => None case Some(w) => Child(w, k))
  {
    if path == "" {
      SplitDotFree(k);
      assert AddToPath(path, k) == k && k != "." && k[0] != '.';
      assert Split(k)[1..] == [];
      match Child(root, k)
      case None =>
      case Some(w) => assert Descend(w, []) == Some(w);
    } else {
      SplitAddToPath(path, k);
      DescendSnoc(root, Split(path), k);
    }
  }

  /**
   * After the path has become ".", adding a segment `k` gives "..k", whose
   * two empty leading pieces are looked up as the key "" of the root: unless
   * the root has a truthy member named "", nothing under "." resolves.
   */
  lemma DotContext(root: Value, k: string)
    requires Segment(k) && Child(root, "").None?
    ensures AddToPath(".", k) == ".." + k
    ensures ResolvePath(root, AddToPath(".", k)) == None
  {
    SplitAddToPath(".", k);
    assert Split(".") == ["", ""] by {
      SplitSnocDot("");
      assert "" + "." == ".";
    }
  }

  /** `{a: {b: 1}}` resolves "a.b" to 1. */
  lemma ResolveNestedExample()
    ensures ResolvePath(Obj([("a", Obj([("b", Num(1))]))]), "a.b") == Some(Num(1))
  {
    var root := Obj([("a", Obj([("b", Num(1))]))]);
    assert Segment("a") && Segment("b");
    ResolveAddToPath(root, "", "a");
    ResolveAddToPath(root, "a", "b");
    assert AddToPath("", "a") == "a" && AddToPath("a", "b") == "a.b";
  }

  /** `{a: {b: 0}}` resolves "a.b" to nothing: the walk stops at the falsy 0. */
  lemma ResolveFalsyExample()
    ensures ResolvePath(Obj([("a", Obj([("b", Num(0))]))]), "a.b") == None
  {
    var root := Obj([("a", Obj([("b", Num(0))]))]);
    assert Segment("a") && Segment("b");
    ResolveAddToPath(root, "", "a");
    ResolveAddToPath(root, "a", "b");
    assert AddToPath("", "a") == "a" && AddToPath("a", "b") == "a.b";
  }
}
