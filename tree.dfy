/**
 * The parsed form of a template (index.js:45-58): a list whose items are
 * either literal text or nested groups, one group per matched `{...}` span.
 * This module also holds `rejoin` from the `literal` macro, which puts the
 * braces back, and the brace-counting notions that say when parsing succeeds.
 */
module Tree {
  import opened Seqs

  datatype Node = Text(text: string) | Group(items: seq<Node>)

  /** The ways compiling a template can fail. */
  datatype TemplateError =
    | UnmatchedBrace          // a `{` still open at the end of the input
    | StrayClose              // a `}` with no open `{`: the parser pops an empty stack
    | NotAMacro(name: string) // a group whose leading token names no macro

  /** A measure that proves recursion over rewritten trees terminates. */
  function Size(items: seq<Node>): nat
  {
    if items == [] then 0
    else (if items[0].Group? then 1 + Size(items[0].items) else 1) + Size(items[1..])
  }

  predicate IsBrace(c: char)
  {
    c == '{' || c == '}'
  }

  predicate BraceFree(s: string)
  {
    forall i :: 0 <= i < |s| ==> !IsBrace(s[i])
  }

  /**
   * `rejoin` of the `literal` macro (src/macro.js:85-95): text items as they
   * are, each nested group wrapped in braces around its own rejoined items.
   */
  function Rejoin(items: seq<Node>): string
  {
    if items == [] then "" else RejoinNode(items[0]) + Rejoin(items[1..])
  }

  function RejoinNode(n: Node): string
  {
    match n
    case Text(t) => t
    case Group(items) => "{" + Rejoin(items) + "}"
  }

  /** In a parser-shaped tree, what follows the first text is empty or a group's `{`. */
  lemma RejoinAfterHead(items: seq<Node>)
    requires Alternating(items)
    ensures Rejoin(items[1..]) == [] || Rejoin(items[1..])[0] == '{'
  {
    if |items| > 1 {
      assert Rejoin(items[1..]) == RejoinNode(items[1]) + Rejoin(items[2..]);
    }
  }

  /**
   * Every group the compiler visits starts with a text item: `parseArg`
   * (index.js:193-197) reads and rewrites `tree[0]` as a string.
   */
  predicate HeadsText(tree: seq<Node>)
    decreases tree, 1
  {
    |tree| >= 1 && tree[0].Text? && GroupsHeadText(tree)
  }

  predicate GroupsHeadText(items: seq<Node>)
    decreases items, 0
  {
    items == [] || ((items[0].Text? || HeadsText(items[0].items)) && GroupsHeadText(items[1..]))
  }

  lemma GroupsHeadTextCons(n: Node, items: seq<Node>)
    ensures GroupsHeadText([n] + items) == ((n.Text? || HeadsText(n.items)) && GroupsHeadText(items))
  {
    assert ([n] + items)[1..] == items;
  }

  /**
   * The shape `parse` (index.js:59-85) produces: text, group, text, ...,
   * text, where every text is free of braces and every group has that shape
   * again. A group always starts with text and a closed group is always
   * followed by a fresh text item.
   */
  predicate Alternating(items: seq<Node>)
    ensures Alternating(items) ==> HeadsText(items)
  {
    && |items| >= 1
    && items[0].Text? && BraceFree(items[0].text)
    && (|items| == 1 ||
        (&& |items| >= 3
         && items[1].Group? && Alternating(items[1].items)
         && Alternating(items[2..])))
  }

  /** `t` is what parsing `s` yields: it has the parser's shape and gives `s` back. */
  predicate ParsesTo(s: string, t: seq<Node>)
  {
    Alternating(t) && Rejoin(t) == s
  }

  // ----- Counting braces -----

  function Delta(c: char): int
  {
    if c == '{' then 1 else if c == '}' then -1 else 0
  }

  /** Number of `{` minus number of `}` in `s`. */
  function Net(s: string): int
  {
    if s == [] then 0 else Net(s[..|s| - 1]) + Delta(s[|s| - 1])
  }

  /** No prefix of `s` closes more groups than it opened. */
  predicate NeverNegative(s: string)
  {
    forall j :: 0 <= j <= |s| ==> Net(s[..j]) >= 0
  }

  predicate Balanced(s: string)
  {
    NeverNegative(s) && Net(s) == 0
  }

  // ----- Lemmas about Rejoin -----

  lemma {:induction false} RejoinAppend(a: seq<Node>, b: seq<Node>)
    ensures Rejoin(a + b) == Rejoin(a) + Rejoin(b)
    decreases |a|
  {
    if a == [] {
      assert a + b == b;
    } else {
      assert (a + b)[0] == a[0];
      assert (a + b)[1..] == a[1..] + b;
      RejoinAppend(a[1..], b);
    }
  }

  /** Rejoin of a text, a group and the rest, spelled out. */
  lemma RejoinUnfold(items: seq<Node>)
    requires |items| >= 3 && items[0].Text? && items[1].Group?
    ensures Rejoin(items) == items[0].text + "{" + Rejoin(items[1].items) + "}" + Rejoin(items[2..])
  {
    assert Rejoin(items) == items[0].text + Rejoin(items[1..]);
    assert items[1..][1..] == items[2..];
    assert items[1..][0] == items[1];
    var a, g, r := items[0].text, Rejoin(items[1].items), Rejoin(items[2..]);
    assert Rejoin(items[1..]) == "{" + g + "}" + r;
    ConcatAssoc(a, "{" + g + "}", r);
    ConcatAssoc(a, "{" + g, "}");
    ConcatAssoc(a, "{", g);
  }

  lemma AlternatingLast(items: seq<Node>)
    requires Alternating(items)
    ensures items[|items| - 1].Text? && BraceFree(items[|items| - 1].text)
    ensures |items| % 2 == 1
    decreases |items|
  {
    if |items| > 1 {
      AlternatingLast(items[2..]);
      assert items[2..][|items[2..]| - 1] == items[|items| - 1];
    }
  }

  /** A text, one group, then a text parses back to the text with the group in braces. */
  lemma OneGroupParses(a: string, g: seq<Node>, b: string)
    requires BraceFree(a) && Alternating(g) && BraceFree(b)
    ensures Alternating([Text(a), Group(g), Text(b)])
    ensures Rejoin([Text(a), Group(g), Text(b)]) == a + "{" + Rejoin(g) + "}" + b
  {
    var t := [Text(a), Group(g), Text(b)];
    assert t[2..] == [Text(b)];
    assert t[1..][1..] == [Text(b)] && [Text(b)][1..] == [];
    assert Rejoin([Text(b)]) == b;
    assert Rejoin(t[1..]) == "{" + Rejoin(g) + "}" + b;
    assert Rejoin(t) == a + ("{" + Rejoin(g) + "}" + b);
  }

  /** Closing a group appends its text between braces. */
  lemma RejoinCloseGroup(parent: seq<Node>, child: seq<Node>)
    ensures Rejoin(parent + [Group(child), Text("")]) == Rejoin(parent) + ("{" + Rejoin(child) + "}")
  {
    var closed := [Group(child), Text("")];
    assert closed[1..] == [Text("")] && closed[1..][1..] == [];
    assert Rejoin(closed[1..]) == "";
    assert Rejoin(closed) == "{" + Rejoin(child) + "}";
    RejoinAppend(parent, closed);
  }

  /** Closing a group appends the group and a fresh empty text to its parent. */
  lemma {:induction false} AlternatingCloseGroup(parent: seq<Node>, child: seq<Node>)
    requires Alternating(parent) && Alternating(child)
    ensures Alternating(parent + [Group(child), Text("")])
    decreases |parent|
  {
    var r := parent + [Group(child), Text("")];
    if |parent| == 1 {
      assert r[2..] == [Text("")];
      assert r[1] == Group(child);
    } else {
      AlternatingCloseGroup(parent[2..], child);
      assert r[2..] == parent[2..] + [Group(child), Text("")];
      assert r[1] == parent[1];
      assert r[0] == parent[0];
    }
  }

  /** Appending an ordinary character extends the last text item. */
  lemma {:induction false} AlternatingExtendLast(items: seq<Node>, c: char)
    requires Alternating(items) && !IsBrace(c)
    ensures items[|items| - 1].Text?
    ensures Alternating(items[..|items| - 1] + [Text(items[|items| - 1].text + [c])])
    decreases |items|
  {
    AlternatingLast(items);
    var n := |items|;
    var r := items[..n - 1] + [Text(items[n - 1].text + [c])];
    if n == 1 {
      var t := items[0].text + [c];
      assert r == [Text(t)];
      assert forall i :: 0 <= i < |t| ==> t[i] == (if i < |items[0].text| then items[0].text[i] else c);
    } else {
      AlternatingExtendLast(items[2..], c);
      assert items[2..][..|items[2..]| - 1] == items[2..n - 1];
      assert items[2..][|items[2..]| - 1] == items[n - 1];
      assert r[2..] == items[2..n - 1] + [Text(items[n - 1].text + [c])];
      assert r[0] == items[0] && r[1] == items[1];
    }
  }

  lemma RejoinExtendLast(items: seq<Node>, c: char)
    requires |items| >= 1 && items[|items| - 1].Text?
    ensures Rejoin(items[..|items| - 1] + [Text(items[|items| - 1].text + [c])]) == Rejoin(items) + [c]
  {
    var n := |items|;
    var t := items[n - 1].text;
    RejoinAppend(items[..n - 1], [Text(t + [c])]);
    RejoinAppend(items[..n - 1], [items[n - 1]]);
    assert items[..n - 1] + [items[n - 1]] == items;
    assert [Text(t + [c])][1..] == [] && Rejoin([Text(t + [c])]) == t + [c];
    assert [items[n - 1]][1..] == [] && Rejoin([items[n - 1]]) == t;
    ConcatAssoc(Rejoin(items[..n - 1]), t, [c]);
  }

  // ----- Lemmas about brace counting -----

  lemma {:induction false} NetAppend(a: string, b: string)
    ensures Net(a + b) == Net(a) + Net(b)
    decreases |b|
  {
    if b == [] {
      assert a + b == a;
    } else {
      var ab := a + b;
      assert ab[..|ab| - 1] == a + b[..|b| - 1];
      assert ab[|ab| - 1] == b[|b| - 1];
      NetAppend(a, b[..|b| - 1]);
    }
  }

  lemma {:induction false} NetBraceFree(s: string)
    requires BraceFree(s)
    ensures Net(s) == 0
    decreases |s|
  {
    if s != [] {
      NetBraceFree(s[..|s| - 1]);
    }
  }

  lemma BraceFreeBalanced(s: string)
    requires BraceFree(s)
    ensures Balanced(s)
  {
    forall j | 0 <= j <= |s|
      ensures Net(s[..j]) >= 0
    {
      NetBraceFree(s[..j]);
    }
    assert s[..|s|] == s;
    NetBraceFree(s);
  }

  lemma BalancedAppend(a: string, b: string)
    requires Balanced(a) && Balanced(b)
    ensures Balanced(a + b)
  {
    assert a[..|a|] == a;
    forall j | 0 <= j <= |a + b|
      ensures Net((a + b)[..j]) >= 0
    {
      if j <= |a| {
        assert (a + b)[..j] == a[..j];
      } else {
        assert (a + b)[..j] == a + b[..j - |a|];
        NetAppend(a, b[..j - |a|]);
      }
    }
    NetAppend(a, b);
  }

  /** A brace-free prefix changes neither the count nor whether it ever goes negative. */
  lemma BraceFreePrefix(p: string, s: string)
    requires BraceFree(p)
    ensures Net(p + s) == Net(s)
    ensures NeverNegative(p + s) <==> NeverNegative(s)
  {
    NetBraceFree(p);
    NetAppend(p, s);
    if NeverNegative(s) {
      forall j | 0 <= j <= |p + s|
        ensures Net((p + s)[..j]) >= 0
      {
        if j <= |p| {
          assert (p + s)[..j] == p[..j];
          NetBraceFree(p[..j]);
        } else {
          assert (p + s)[..j] == p + s[..j - |p|];
          NetAppend(p, s[..j - |p|]);
        }
      }
    }
    if NeverNegative(p + s) {
      forall j | 0 <= j <= |s|
        ensures Net(s[..j]) >= 0
      {
        assert (p + s)[..|p| + j] == p + s[..j];
        NetAppend(p, s[..j]);
      }
    }
  }

  lemma BalancedWrap(u: string)
    requires Balanced(u)
    ensures Balanced("{" + u + "}")
  {
    var w := "{" + u + "}";
    forall j | 0 <= j <= |w|
      ensures Net(w[..j]) >= 0
    {
      if 1 <= j <= |u| + 1 {
        assert w[..j] == "{" + u[..j - 1];
        NetAppend("{", u[..j - 1]);
      } else if j == |w| {
        assert w[..j] == w;
        NetAppend("{" + u, "}");
        NetAppend("{", u);
      }
    }
    assert w[..|w|] == w;
    NetAppend("{" + u, "}");
    NetAppend("{", u);
  }

  /** Every tree of the parser's shape rejoins to a balanced string. */
  lemma {:induction false} AlternatingBalanced(items: seq<Node>)
    requires Alternating(items)
    ensures Balanced(Rejoin(items))
    decreases items
  {
    BraceFreeBalanced(items[0].text);
    if |items| == 1 {
      assert items[1..] == [];
      assert Rejoin(items) == items[0].text + Rejoin(items[1..]) == items[0].text;
    } else {
      RejoinUnfold(items);
      AlternatingBalanced(items[1].items);
      AlternatingBalanced(items[2..]);
      BalancedWrap(Rejoin(items[1].items));
      BalancedAppend("{" + Rejoin(items[1].items) + "}", Rejoin(items[2..]));
      BalancedAppend(items[0].text, "{" + Rejoin(items[1].items) + "}" + Rejoin(items[2..]));
      assert items[0].text + "{" + Rejoin(items[1].items) + "}" + Rejoin(items[2..])
          == items[0].text + ("{" + Rejoin(items[1].items) + "}" + Rejoin(items[2..]));
    }
  }

  /** A `}` right after a balanced string cannot fall inside a string that never goes negative. */
  lemma CloseNotInside(u: string, x: string, v: string, y: string)
    requires Balanced(u) && NeverNegative(v)
    ensures |u| < |v| ==> u + "}" + x != v + "}" + y
  {
    if |u| < |v| {
      assert (u + "}" + x)[..|u| + 1] == u + "}";
      assert (v + "}" + y)[..|u| + 1] == v[..|u| + 1];
      NetAppend(u, "}");
      assert Net(v[..|u| + 1]) >= 0;
    }
  }

  /** The first `}` that closes a balanced prefix is found at one place only. */
  lemma BalancedPrefixUnique(u: string, x: string, v: string, y: string)
    requires Balanced(u) && Balanced(v)
    requires u + "}" + x == v + "}" + y
    ensures u == v && x == y
  {
    CloseNotInside(u, x, v, y);
    CloseNotInside(v, y, u, x);
    assert u == (u + "}" + x)[..|u|];
    assert v == (v + "}" + y)[..|v|];
    assert x == (u + "}" + x)[|u| + 1..];
    assert y == (v + "}" + y)[|v| + 1..];
  }

  lemma OpenAt(a: string, x: string)
    ensures (a + "{" + x)[|a|] == '{'
  {
  }

  /** Text without braces never contains an opening brace. */
  lemma BraceFreeNoOpen(s: string, a: string, x: string)
    requires BraceFree(s)
    ensures s != a + "{" + x
  {
    OpenAt(a, x);
    if |a| < |s| {
      assert !IsBrace(s[|a|]);
    }
  }

  /** A `{` right after brace-free text cannot fall inside other brace-free text. */
  lemma OpenNotInside(a: string, x: string, b: string, y: string)
    requires BraceFree(b)
    ensures |a| < |b| ==> a + "{" + x != b + "{" + y
  {
    if |a| < |b| {
      OpenAt(a, x);
      assert (b + "{" + y)[|a|] == b[|a|];
      assert !IsBrace(b[|a|]);
    }
  }

  /** The first `{` after brace-free text is found at one place only. */
  lemma BraceFreePrefixUnique(a: string, x: string, b: string, y: string)
    requires BraceFree(a) && BraceFree(b)
    requires a + "{" + x == b + "{" + y
    ensures a == b && x == y
  {
    OpenNotInside(a, x, b, y);
    OpenNotInside(b, y, a, x);
    assert a == (a + "{" + x)[..|a|];
    assert b == (b + "{" + y)[..|b|];
    assert x == (a + "{" + x)[|a| + 1..];
    assert y == (b + "{" + y)[|b| + 1..];
  }

  /** A tree of the parser's shape with a group in it never rejoins to brace-free text. */
  lemma GroupNotBraceFree(t: seq<Node>, s: string)
    requires Alternating(t) && BraceFree(s)
    ensures |t| != 1 ==> Rejoin(t) != s
  {
    if |t| != 1 {
      var a, g, r := t[0].text, Rejoin(t[1].items), Rejoin(t[2..]);
      RejoinUnfold(t);
      ConcatAssoc(a + "{", g, "}");
      ConcatAssoc(a + "{", g + "}", r);
      BraceFreeNoOpen(s, a, g + "}" + r);
    }
  }

  /** A lone text item is the only tree of the parser's shape for its string. */
  lemma RejoinInjectiveText(t1: seq<Node>, t2: seq<Node>)
    requires Alternating(t1) && Alternating(t2)
    requires Rejoin(t1) == Rejoin(t2)
    requires |t1| == 1
    ensures t1 == t2
  {
    var a1 := t1[0].text;
    assert t1[1..] == [];
    assert Rejoin(t1) == a1 + Rejoin(t1[1..]) == a1;
    GroupNotBraceFree(t2, a1);
    var a2 := t2[0].text;
    assert t2[1..] == [];
    assert Rejoin(t2) == a2 + Rejoin(t2[1..]) == a2;
    assert t1 == [Text(a1)] && t2 == [Text(a2)];
  }

  /**
   * Rejoin is one-to-one on trees of the parser's shape: a string has at most
   * one such tree, so parsing undoes Rejoin.
   */
  lemma {:induction false} RejoinInjective(t1: seq<Node>, t2: seq<Node>)
    requires Alternating(t1) && Alternating(t2)
    requires Rejoin(t1) == Rejoin(t2)
    ensures t1 == t2
    decreases t1
  {
    if |t1| == 1 {
      RejoinInjectiveText(t1, t2);
    } else if |t2| == 1 {
      RejoinInjectiveText(t2, t1);
    } else {
      RejoinHeadsUnique(t1, t2);
      RejoinInjective(t1[1].items, t2[1].items);
      RejoinInjective(t1[2..], t2[2..]);
      assert t1[0] == t2[0] && t1[1] == t2[1];
      assert t1 == [t1[0], t1[1]] + t1[2..];
      assert t2 == [t2[0], t2[1]] + t2[2..];
    }
  }

  /** Two trees with groups that rejoin alike agree on the first text, the first group's text and the rest. */
  lemma RejoinHeadsUnique(t1: seq<Node>, t2: seq<Node>)
    requires Alternating(t1) && Alternating(t2) && |t1| != 1 && |t2| != 1
    requires Rejoin(t1) == Rejoin(t2)
    ensures t1[0] == t2[0]
    ensures Rejoin(t1[1].items) == Rejoin(t2[1].items) && Rejoin(t1[2..]) == Rejoin(t2[2..])
  {
    var a1, a2 := t1[0].text, t2[0].text;
    var g1, g2 := Rejoin(t1[1].items), Rejoin(t2[1].items);
    var r1, r2 := Rejoin(t1[2..]), Rejoin(t2[2..]);
    RejoinUnfold(t1);
    RejoinUnfold(t2);
    ConcatAssoc(a1 + "{", g1, "}");
    ConcatAssoc(a1 + "{", g1 + "}", r1);
    ConcatAssoc(a2 + "{", g2, "}");
    ConcatAssoc(a2 + "{", g2 + "}", r2);
    BraceFreePrefixUnique(a1, g1 + "}" + r1, a2, g2 + "}" + r2);
    AlternatingBalanced(t1[1].items);
    AlternatingBalanced(t2[1].items);
    BalancedPrefixUnique(g1, r1, g2, r2);
  }
}
