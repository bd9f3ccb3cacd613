/**
 * The macro compiler: `compile` and its recursive `transform`
 * (index.js:25-43), the argument reader `helper.parseArg`/`parsePath`
 * (index.js:193-201), `helper.transformTree` and `helper.output`
 * (index.js:222-244), and the built-in macros of src/macro.js:6-126, each
 * producing instructions instead of JavaScript text.
 */
module Macros {
  import opened Wrappers
  import opened Tree
  import opened Program
  import BraceParser
  import opened Seqs

  // ----- Reading the macro name and argument -----

  /** The characters the regular expression class `\s` matches. */
  predicate IsSpace(c: char)
  {
    || c == '\t' || c == '\n' || c == '\U{000B}' || c == '\U{000C}' || c == '\r' || c == ' '
    || c == '\U{00A0}' || c == '\U{1680}' || ('\U{2000}' <= c <= '\U{200A}')
    || c == '\U{2028}' || c == '\U{2029}' || c == '\U{202F}' || c == '\U{205F}'
    || c == '\U{3000}' || c == '\U{FEFF}'
  }

  /** The end of the run of non-space characters that starts at `i`. */
  function TokenEnd(s: string, i: nat): (j: nat)
    requires i <= |s|
    ensures i <= j <= |s|
    ensures forall k :: i <= k < j ==> !IsSpace(s[k])
    ensures j < |s| ==> IsSpace(s[j])
    decreases |s| - i
  {
    if i == |s| || IsSpace(s[i]) then i else TokenEnd(s, i + 1)
  }

  /** The end of the run of white space that starts at `i`. */
  function SpaceEnd(s: string, i: nat): (j: nat)
    requires i <= |s|
    ensures i <= j <= |s|
    ensures forall k :: i <= k < j ==> IsSpace(s[k])
    ensures j < |s| ==> !IsSpace(s[j])
    decreases |s| - i
  {
    if i == |s| || !IsSpace(s[i]) then i else SpaceEnd(s, i + 1)
  }

  /** What `/^\S+/` matches, or "" when `s` is empty or starts with white space. */
  function LeadingToken(s: string): (tok: string)
    ensures tok <= s
    ensures forall i :: 0 <= i < |tok| ==> !IsSpace(tok[i])
    ensures |tok| < |s| ==> IsSpace(s[|tok|])
  {
    s[..TokenEnd(s, 0)]
  }

  /** `s.replace(/^\s+/, '')`: `s` without its leading run of white space. */
  function TrimStart(s: string): (r: string)
    ensures |r| <= |s| && r == s[|s| - |r|..]
    ensures r == [] || !IsSpace(r[0])
  {
    s[SpaceEnd(s, 0)..]
  }

  /** A run of non-space characters followed by white space or the end is the leading token. */
  lemma LeadingTokenOf(w: string, rest: string)
    requires forall i :: 0 <= i < |w| ==> !IsSpace(w[i])
    requires rest == [] || IsSpace(rest[0])
    ensures LeadingToken(w + rest) == w
  {
    var s := w + rest;
    var j := TokenEnd(s, 0);
    assert s[..|w|] == w;
  }

  /** Trimming drops exactly a leading run of white space. */
  lemma TrimStartOf(sp: string, r: string)
    requires forall i :: 0 <= i < |sp| ==> IsSpace(sp[i])
    requires r == [] || !IsSpace(r[0])
    ensures TrimStart(sp + r) == r
  {
    var s := sp + r;
    var j := SpaceEnd(s, 0);
    assert s[|sp|..] == r;
  }

  /**
   * A text that is a token `w`, then white space `sp`, then `r` not
   * starting with white space: the token read is `w` and what is left is
   * `r`. The white space may be missing only when nothing follows.
   */
  lemma ReadsArg(w: string, sp: string, r: string)
    requires forall i :: 0 <= i < |w| ==> !IsSpace(w[i])
    requires forall i :: 0 <= i < |sp| ==> IsSpace(sp[i])
    requires sp == [] ==> r == []
    requires r == [] || !IsSpace(r[0])
    ensures LeadingToken(w + sp + r) == w
    ensures TrimStart((w + sp + r)[|w|..]) == r
  {
    ConcatAssoc(w, sp, r);
    assert (w + (sp + r))[|w|..] == sp + r;
    LeadingTokenOf(w, sp + r);
    TrimStartOf(sp, r);
  }

  /**
   * `helper.parseArg`: splits the leading token off the group's first text
   * and leaves that text without the token and the white space after it.
   * The source rewrites `tree[0]` in place; here the rewritten group is
   * returned beside the token. `parsePath` is the same operation.
   */
  function ParseArg(tree: seq<Node>): (r: (string, seq<Node>))
    requires |tree| >= 1 && tree[0].Text?
    ensures |r.1| == |tree| && r.1[0].Text? && r.1[1..] == tree[1..]
    ensures HeadsText(tree) ==> HeadsText(r.1)
    ensures Size(r.1) == Size(tree)
  {
    var t := tree[0].text;
    var arg := LeadingToken(t);
    var h := TrimStart(t[|arg|..]);
    HeadTextReplaced(tree, h);
    (arg, [Text(h)] + tree[1..])
  }

  /** The token read is the leading token of the first text; only white space separates it from the new first text. */
  lemma ParseArgSplits(tree: seq<Node>)
    requires |tree| >= 1 && tree[0].Text?
    ensures SplitsArg(tree[0].text, ParseArg(tree).0, ParseArg(tree).1[0].text)
  {
    ArgSplit(tree[0].text);
  }

  /** ParseArg unfolded once, for reasoning about particular groups. */
  lemma ParseArgDef(tree: seq<Node>)
    requires |tree| >= 1 && tree[0].Text?
    ensures var arg := LeadingToken(tree[0].text);
      ParseArg(tree) == (arg, [Text(TrimStart(tree[0].text[|arg|..]))] + tree[1..])
  {
  }

  /**
   * `t` is the token `arg` (no white space, and not followed by anything
   * but white space or the end), then white space, then `h`, which does
   * not start with white space.
   */
  predicate SplitsArg(t: string, arg: string, h: string)
  {
    && arg <= t
    && (forall i :: 0 <= i < |arg| ==> !IsSpace(arg[i]))
    && (|arg| < |t| ==> IsSpace(t[|arg|]))
    && |arg| + |h| <= |t| && h == t[|t| - |h|..]
    && (forall i :: |arg| <= i < |t| - |h| ==> IsSpace(t[i]))
    && (h == [] || !IsSpace(h[0]))
  }

  lemma ArgSplit(t: string)
    ensures var arg := LeadingToken(t); SplitsArg(t, arg, TrimStart(t[|arg|..]))
  {
    var arg := LeadingToken(t);
    var h := TrimStart(t[|arg|..]);
    TrimmedSuffix(t, |arg|);
    assert arg <= t && (forall i :: 0 <= i < |arg| ==> !IsSpace(arg[i])) && (|arg| < |t| ==> IsSpace(t[|arg|]));
    assert |arg| + |h| <= |t| && h == t[|t| - |h|..];
    assert forall i :: |arg| <= i < |t| - |h| ==> IsSpace(t[i]);
    assert h == [] || !IsSpace(h[0]);
    SplitsArgIntro(t, arg, h);
  }

  /** SplitsArg from its parts, kept apart from the definitions that supply them. */
  lemma SplitsArgIntro(t: string, arg: string, h: string)
    requires arg <= t && |arg| + |h| <= |t| && h == t[|t| - |h|..]
    requires forall i :: 0 <= i < |arg| ==> !IsSpace(arg[i])
    requires |arg| < |t| ==> IsSpace(t[|arg|])
    requires forall i :: |arg| <= i < |t| - |h| ==> IsSpace(t[i])
    requires h == [] || !IsSpace(h[0])
    ensures SplitsArg(t, arg, h)
  {
  }

  /** Trimming the suffix of `t` from `n` leaves a suffix of `t` after only white space. */
  lemma TrimmedSuffix(t: string, n: nat)
    requires n <= |t|
    ensures n + |TrimStart(t[n..])| <= |t|
    ensures TrimStart(t[n..]) == t[|t| - |TrimStart(t[n..])|..]
    ensures forall i :: n <= i < |t| - |TrimStart(t[n..])| ==> IsSpace(t[i])
  {
    var u := t[n..];
    var e := SpaceEnd(u, 0);
    assert TrimStart(u) == u[e..] == t[n + e..];
    forall i | n <= i < n + e
      ensures IsSpace(t[i])
    {
      assert t[i] == u[i - n];
    }
  }

  lemma HeadTextReplaced(tree: seq<Node>, h: string)
    requires |tree| >= 1 && tree[0].Text?
    ensures ([Text(h)] + tree[1..])[1..] == tree[1..]
    ensures HeadsText(tree) ==> HeadsText([Text(h)] + tree[1..])
    ensures Size([Text(h)] + tree[1..]) == Size(tree)
  {
    var rest := [Text(h)] + tree[1..];
    assert rest[1..] == tree[1..];
    assert Size(rest) == 1 + Size(tree[1..]);
    assert Size(tree) == 1 + Size(tree[1..]);
    assert GroupsHeadText(rest) == GroupsHeadText(tree[1..]);
    assert GroupsHeadText(tree) ==> GroupsHeadText(tree[1..]);
  }

  // ----- The macro table -----

  /** The built-in macros of src/macro.js. */
  datatype Builtin = Dot | Arrow | Has | Each | Literal | PathOf | Out | Fn

  function BuiltinName(b: Builtin): string
  {
    match b
    case Dot => "."
    case Arrow => "->"
    case Has => "has"
    case Each => "each"
    case Literal => "literal"
    case PathOf => "path"
    case Out => "out"
    case Fn => "fn"
  }

  /** The built-in macro a name selects, if any. */
  function BuiltinNamed(name: string): Option<Builtin>
  {
    if name == "." then Some(Dot)
    else if name == "->" then Some(Arrow)
    else if name == "has" then Some(Has)
    else if name == "each" then Some(Each)
    else if name == "literal" then Some(Literal)
    else if name == "path" then Some(PathOf)
    else if name == "out" then Some(Out)
    else if name == "fn" then Some(Fn)
    else None
  }

  /** Each built-in is found under its own name and under no other. */
  lemma BuiltinNamedName(name: string, b: Builtin)
    ensures BuiltinNamed(name) == Some(b) <==> BuiltinName(b) == name
  {
  }

  /**
   * A user macro receives the group with its name already read off and
   * gives the instructions it stands for.
   */
  type UserMacros = map<string, seq<Node> -> seq<Instr>>

  predicate Known(user: UserMacros, name: string)
  {
    name in user || BuiltinNamed(name).Some?
  }

  // ----- Transforming groups -----

  /**
   * `transform`: read the macro name off the group, then run the user macro
   * of that name, else the built-in of that name, else fail with
   * NotAMacro.
   */
  function Transform(user: UserMacros, tree: seq<Node>): Result<seq<Instr>, TemplateError>
    requires HeadsText(tree)
    decreases Size(tree), 2
  {
    var (name, rest) := ParseArg(tree);
    if name in user then Ok(user[name](rest))
    else
      match BuiltinNamed(name)
      case None => Err(NotAMacro(name))
      case Some(b) => Expand(user, b, rest)
  }

  /** The body of one built-in macro, applied to the group after its name. */
  function Expand(user: UserMacros, b: Builtin, tree: seq<Node>): Result<seq<Instr>, TemplateError>
    requires HeadsText(tree)
    decreases Size(tree), 1
  {
    match b
    case Out => TransformTree(user, tree)
    case Literal => Ok([EmitLiteral(Rejoin(tree))])
    case Dot => Ok([EmitResolved(ParseArg(tree).0)])
    case PathOf => Ok([EmitPath(ParseArg(tree).0)])
    case Fn => Ok([CallFn(ParseArg(tree).0)])
    case Arrow =>
      var (path, body) := ParseArg(tree);
      var inner := TransformTree(user, body);
      if inner.Err? then Err(inner.error) else Ok([WithPath(path, inner.value)])
    case Has =>
      var (path, body) := ParseArg(tree);
      var inner := TransformTree(user, body);
      if inner.Err? then Err(inner.error) else Ok([IfDefined(path, inner.value)])
    case Each =>
      var (path, body) := ParseArg(tree);
      var inner := TransformTree(user, body);
      if inner.Err? then Err(inner.error) else Ok([ForEach(path, inner.value)])
  }

  /** What `helper.output` emits for a text: nothing for an empty text, else the text. */
  function TextInstrs(t: string): seq<Instr>
  {
    if t == "" then [] else [EmitLiteral(t)]
  }

  /**
   * `helper.transformTree`: the items in order, a text as a literal (an
   * empty text as nothing, as `helper.output` does) and a group through
   * `transform`; the first failure aborts.
   */
  function TransformTree(user: UserMacros, items: seq<Node>): Result<seq<Instr>, TemplateError>
    requires GroupsHeadText(items)
    decreases Size(items), 0
  {
    if items == [] then Ok([])
    else
      var head :=
        match items[0]
        case Text(t) => Ok(TextInstrs(t))
        case Group(g) => Transform(user, g);
      if head.Err? then head
      else
        var tail := TransformTree(user, items[1..]);
        if tail.Err? then tail else Ok(head.value + tail.value)
  }

  // ----- Which groups `transform` visits -----

  /**
   * `n` is the name of a group that transforming `g` reads: `g` itself,
   * and, when `g` selects `out`, `->`, `has` or `each` (and no user macro
   * replaces it), the groups among the items that built-in transforms in
   * turn. The rest of a `.`, `path` or `fn` group, everything under
   * `literal` and whatever a user macro receives are never read as macro
   * calls.
   */
  predicate VisitedName(user: UserMacros, g: seq<Node>, n: string)
    requires HeadsText(g)
    decreases Size(g), 2
  {
    var (name, rest) := ParseArg(g);
    name == n || (name !in user && BuiltinNamed(name).Some? && VisitedIn(user, BuiltinNamed(name).value, rest, n))
  }

  /** `n` names a group that the built-in `b` transforms when applied to `tree`. */
  predicate VisitedIn(user: UserMacros, b: Builtin, tree: seq<Node>, n: string)
    requires HeadsText(tree)
    decreases Size(tree), 1
  {
    match b
    case Out => VisitedInItems(user, tree, n)
    case Arrow => VisitedInItems(user, ParseArg(tree).1, n)
    case Has => VisitedInItems(user, ParseArg(tree).1, n)
    case Each => VisitedInItems(user, ParseArg(tree).1, n)
    case _ => false
  }

  /** `n` names a group visited by transforming one of the groups among `items`. */
  predicate VisitedInItems(user: UserMacros, items: seq<Node>, n: string)
    requires GroupsHeadText(items)
    decreases Size(items), 0
  {
    items != [] && ((items[0].Group? && VisitedName(user, items[0].items, n)) || VisitedInItems(user, items[1..], n))
  }

  /** A failure names an unknown macro of a visited group. */
  lemma {:induction false} TransformErrorVisited(user: UserMacros, tree: seq<Node>)
    requires HeadsText(tree)
    ensures var r := Transform(user, tree);
      r.Err? ==> r.error.NotAMacro? && !Known(user, r.error.name) && VisitedName(user, tree, r.error.name)
    decreases Size(tree), 2
  {
    var (name, rest) := ParseArg(tree);
    if name !in user && BuiltinNamed(name).Some? {
      var b := BuiltinNamed(name).value;
      assert Transform(user, tree) == Expand(user, b, rest);
      ExpandErrorVisited(user, b, rest);
    }
  }

  lemma {:induction false} ExpandErrorVisited(user: UserMacros, b: Builtin, tree: seq<Node>)
    requires HeadsText(tree)
    ensures var r := Expand(user, b, tree);
      r.Err? ==> r.error.NotAMacro? && !Known(user, r.error.name) && VisitedIn(user, b, tree, r.error.name)
    decreases Size(tree), 1
  {
    match b
    case Out => TransformTreeErrorVisited(user, tree);
    case Arrow => TransformTreeErrorVisited(user, ParseArg(tree).1);
    case Has => TransformTreeErrorVisited(user, ParseArg(tree).1);
    case Each => TransformTreeErrorVisited(user, ParseArg(tree).1);
    case _ =>
  }

  lemma {:induction false} TransformTreeErrorVisited(user: UserMacros, items: seq<Node>)
    requires GroupsHeadText(items)
    ensures var r := TransformTree(user, items);
      r.Err? ==> r.error.NotAMacro? && !Known(user, r.error.name) && VisitedInItems(user, items, r.error.name)
    decreases Size(items), 0
  {
    if items != [] {
      if items[0].Group? {
        TransformErrorVisited(user, items[0].items);
      }
      TransformTreeErrorVisited(user, items[1..]);
    }
  }

  /** A visited group with an unknown name makes the transformation fail. */
  lemma {:induction false} VisitedUnknownFails(user: UserMacros, tree: seq<Node>, n: string)
    requires HeadsText(tree) && VisitedName(user, tree, n) && !Known(user, n)
    ensures Transform(user, tree).Err?
    decreases Size(tree), 2
  {
    var (name, rest) := ParseArg(tree);
    if name != n {
      var b := BuiltinNamed(name).value;
      assert Transform(user, tree) == Expand(user, b, rest);
      ExpandVisitedUnknownFails(user, b, rest, n);
    }
  }

  lemma {:induction false} ExpandVisitedUnknownFails(user: UserMacros, b: Builtin, tree: seq<Node>, n: string)
    requires HeadsText(tree) && VisitedIn(user, b, tree, n) && !Known(user, n)
    ensures Expand(user, b, tree).Err?
    decreases Size(tree), 1
  {
    match b
    case Out => ItemsVisitedUnknownFails(user, tree, n);
    case Arrow => ItemsVisitedUnknownFails(user, ParseArg(tree).1, n);
    case Has => ItemsVisitedUnknownFails(user, ParseArg(tree).1, n);
    case Each => ItemsVisitedUnknownFails(user, ParseArg(tree).1, n);
  }

  lemma {:induction false} ItemsVisitedUnknownFails(user: UserMacros, items: seq<Node>, n: string)
    requires GroupsHeadText(items) && VisitedInItems(user, items, n) && !Known(user, n)
    ensures TransformTree(user, items).Err?
    decreases Size(items), 0
  {
    if items[0].Group? && VisitedName(user, items[0].items, n) {
      VisitedUnknownFails(user, items[0].items, n);
    } else {
      ItemsVisitedUnknownFails(user, items[1..], n);
    }
  }

  /**
   * Transformation fails exactly when some group it visits starts with a
   * name that is neither a user macro nor a built-in.
   */
  lemma TransformFailsIff(user: UserMacros, tree: seq<Node>)
    requires HeadsText(tree)
    ensures Transform(user, tree).Err? <==> exists n :: VisitedName(user, tree, n) && !Known(user, n)
  {
    TransformErrorVisited(user, tree);
    if exists n :: VisitedName(user, tree, n) && !Known(user, n) {
      var n :| VisitedName(user, tree, n) && !Known(user, n);
      VisitedUnknownFails(user, tree, n);
    }
  }

  /** A tree whose visited groups all start with known names transforms without error. */
  lemma TransformSucceeds(user: UserMacros, tree: seq<Node>)
    requires HeadsText(tree) && forall n :: VisitedName(user, tree, n) ==> Known(user, n)
    ensures Transform(user, tree).Ok?
  {
    TransformFailsIff(user, tree);
  }

  /** `user` and `other` both lack a macro named `n`, or both have one that gives the same instructions for every group. */
  ghost predicate SameMacro(user: UserMacros, other: UserMacros, n: string)
  {
    (n in user <==> n in other) && (n in user ==> forall g :: user[n](g) == other[n](g))
  }

  /**
   * The user macros matter only through the names of the visited groups:
   * two tables that agree on those names transform the tree alike. So a
   * user macro whose name heads no visited group has no effect, and one
   * that does replaces the built-in of that name.
   */
  lemma {:induction false} TransformUsesVisited(user: UserMacros, other: UserMacros, tree: seq<Node>)
    requires HeadsText(tree)
    requires forall n :: VisitedName(user, tree, n) ==> SameMacro(user, other, n)
    ensures Transform(user, tree) == Transform(other, tree)
    decreases Size(tree), 2
  {
    var (name, rest) := ParseArg(tree);
    assert VisitedName(user, tree, name);
    if name !in user && BuiltinNamed(name).Some? {
      var b := BuiltinNamed(name).value;
      assert forall n :: VisitedIn(user, b, rest, n) ==> VisitedName(user, tree, n);
      ExpandUsesVisited(user, other, b, rest);
    }
  }

  lemma {:induction false} ExpandUsesVisited(user: UserMacros, other: UserMacros, b: Builtin, tree: seq<Node>)
    requires HeadsText(tree)
    requires forall n :: VisitedIn(user, b, tree, n) ==> SameMacro(user, other, n)
    ensures Expand(user, b, tree) == Expand(other, b, tree)
    decreases Size(tree), 1
  {
    match b
    case Out => ItemsUseVisited(user, other, tree);
    case Arrow => ItemsUseVisited(user, other, ParseArg(tree).1);
    case Has => ItemsUseVisited(user, other, ParseArg(tree).1);
    case Each => ItemsUseVisited(user, other, ParseArg(tree).1);
    case _ =>
  }

  lemma {:induction false} ItemsUseVisited(user: UserMacros, other: UserMacros, items: seq<Node>)
    requires GroupsHeadText(items)
    requires forall n :: VisitedInItems(user, items, n) ==> SameMacro(user, other, n)
    ensures TransformTree(user, items) == TransformTree(other, items)
    decreases Size(items), 0
  {
    if items != [] {
      if items[0].Group? {
        TransformUsesVisited(user, other, items[0].items);
      }
      ItemsUseVisited(user, other, items[1..]);
    }
  }

  /** Without a user macro of its name, a built-in runs on the group after its name. */
  lemma BuiltinWhenNoUser(user: UserMacros, tree: seq<Node>, b: Builtin)
    requires HeadsText(tree) && ParseArg(tree).0 !in user && BuiltinNamed(ParseArg(tree).0) == Some(b)
    ensures Transform(user, tree) == Expand(user, b, ParseArg(tree).1)
  {
  }

  /** `out` transforms the items of its group in order. */
  lemma ExpandOut(user: UserMacros, tree: seq<Node>)
    requires HeadsText(tree)
    ensures Expand(user, Out, tree) == TransformTree(user, tree)
  {
  }

  /** `each` loops over its argument path with the rest of the group, transformed, as its body. */
  lemma ExpandEach(user: UserMacros, tree: seq<Node>, p: string, body: seq<Node>, q: seq<Instr>)
    requires HeadsText(tree) && ParseArg(tree) == (p, body) && TransformTree(user, body) == Ok(q)
    ensures Expand(user, Each, tree) == Ok([ForEach(p, q)])
  {
  }

  /** A name that is neither fails, carrying the name. */
  lemma UnknownMacro(user: UserMacros, tree: seq<Node>, name: string)
    requires HeadsText(tree) && ParseArg(tree).0 == name && !Known(user, name)
    ensures Transform(user, tree) == Err(NotAMacro(name))
  {
  }

  /** `whole` is `arg`, then all the white space that follows it, then `s`. */
  predicate ArgThenSpace(whole: string, arg: string, s: string)
  {
    && |arg| + |s| <= |whole|
    && whole == arg + whole[|arg|..|whole| - |s|] + s
    && (forall i :: |arg| <= i < |whole| - |s| ==> IsSpace(whole[i]))
    && (s == [] || !IsSpace(s[0]))
  }

  /** What follows `arg` and its white space is determined by `whole` and `arg`. */
  lemma ArgThenSpaceUnique(whole: string, arg: string, s1: string, s2: string)
    requires ArgThenSpace(whole, arg, s1) && ArgThenSpace(whole, arg, s2)
    ensures s1 == s2
  {
    assert s1 == whole[|whole| - |s1|..] && s2 == whole[|whole| - |s2|..];
  }

  /** Text after the split item carries over unchanged, provided it does not start with white space. */
  lemma ArgThenSpaceAppend(t: string, arg: string, h: string, rest: string)
    requires SplitsArg(t, arg, h)
    requires h == [] ==> rest == [] || !IsSpace(rest[0])
    ensures ArgThenSpace(t + rest, arg, h + rest)
  {
    var m := t[|arg|..|t| - |h|];
    assert t == t[..|arg|] + m + t[|t| - |h|..];
    ConcatAssoc(arg + m, h, rest);
    var whole := t + rest;
    assert whole == arg + m + (h + rest);
    assert whole[|arg|..|whole| - |h + rest|] == m;
    NoLeadingSpaceAppend(h, rest);
    ArgThenSpaceIntro(whole, arg, h + rest);
  }

  lemma NoLeadingSpaceAppend(h: string, rest: string)
    requires h == [] || !IsSpace(h[0])
    requires h == [] ==> rest == [] || !IsSpace(rest[0])
    ensures h + rest == [] || !IsSpace((h + rest)[0])
  {
    if h != [] {
      assert (h + rest)[0] == h[0];
    }
  }

  lemma ArgThenSpaceIntro(whole: string, arg: string, s: string)
    requires |arg| + |s| <= |whole|
    requires whole == arg + whole[|arg|..|whole| - |s|] + s
    requires forall i :: |arg| <= i < |whole| - |s| ==> IsSpace(whole[i])
    requires s == [] || !IsSpace(s[0])
    ensures ArgThenSpace(whole, arg, s)
  {
  }

  /**
   * `literal` emits the text of its group after the name and the white
   * space following it, braces of nested groups included, without
   * transforming anything inside.
   */
  lemma LiteralReproducesSource(user: UserMacros, g: seq<Node>)
    requires Alternating(g) && LeadingToken(g[0].text) == "literal" && "literal" !in user
    ensures Transform(user, g).Ok? && |Transform(user, g).value| == 1
    ensures var s := Transform(user, g).value[0];
      s.EmitLiteral? && ArgThenSpace(Rejoin(g), "literal", s.text)
  {
    assert BuiltinNamed("literal") == Some(Literal);
    LiteralNamed(user, g, "literal");
  }

  /** LiteralReproducesSource for any name that selects the `literal` built-in. */
  lemma LiteralNamed(user: UserMacros, g: seq<Node>, name: string)
    requires Alternating(g) && LeadingToken(g[0].text) == name && name !in user
    requires BuiltinNamed(name) == Some(Literal)
    ensures Transform(user, g) == Ok([EmitLiteral(Rejoin(ParseArg(g).1))])
    ensures ArgThenSpace(Rejoin(g), name, Rejoin(ParseArg(g).1))
  {
    var rest := ParseArg(g).1;
    ParseArgDef(g);
    assert ParseArg(g).0 == name;
    assert Transform(user, g) == Expand(user, Literal, rest);
    ExpandLiteral(user, rest);
    RejoinUnfoldHead(g);
    RejoinUnfoldHead(rest);
    RejoinAfterHead(g);
    ParseArgSplits(g);
    ArgThenSpaceAppend(g[0].text, name, rest[0].text, Rejoin(g[1..]));
  }

  lemma ExpandLiteral(user: UserMacros, tree: seq<Node>)
    requires HeadsText(tree)
    ensures Expand(user, Literal, tree) == Ok([EmitLiteral(Rejoin(tree))])
  {
  }

  lemma RejoinUnfoldHead(items: seq<Node>)
    requires |items| >= 1 && items[0].Text?
    ensures Rejoin(items) == items[0].text + Rejoin(items[1..])
  {
  }

  // ----- Compiling a template -----

  /**
   * `compile`: parse "out " + input, so that the whole template is one
   * group handled by the `out` macro, then transform it. Unbalanced braces
   * fail in the parser; otherwise the result is the transformation of the
   * one tree the text parses to.
   */
  method Compile(input: string, user: UserMacros) returns (r: Result<seq<Instr>, TemplateError>)
    ensures r == Err(UnmatchedBrace) <==> NeverNegative(input) && Net(input) > 0
    ensures r == Err(StrayClose) <==> !NeverNegative(input)
    ensures forall t :: ParsesTo("out " + input, t) ==> r == Transform(user, t)
    ensures Balanced(input) ==> exists t :: ParsesTo("out " + input, t) && r == Transform(user, t)
    ensures r.Err? && r.error.NotAMacro? ==> Balanced(input) && !Known(user, r.error.name)
  {
    var source := "out " + input;
    assert BraceFree("out ");
    BraceFreePrefix("out ", input);
    var tree := BraceParser.Parse(source);
    if tree.Err? {
      assert source[..|source|] == source;
      forall t | ParsesTo(source, t)
        ensures false
      {
        AlternatingBalanced(t);
      }
      return Err(tree.error);
    }
    TransformErrorVisited(user, tree.value);
    r := Transform(user, tree.value);
    forall t | ParsesTo(source, t)
      ensures r == Transform(user, t)
    {
      RejoinInjective(t, tree.value);
    }
  }
}
