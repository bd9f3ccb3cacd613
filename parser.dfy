/**
 * The brace parser, `parse` in index.js:59-85. It scans the template one
 * character at a time, keeping the group being built in `current` and the
 * enclosing, still-open groups on `stack`.
 */
module BraceParser {
  import opened Wrappers
  import opened Tree

  /** The text of the open groups on the stack, each followed by its `{`. */
  function StackText(stack: seq<seq<Node>>): string
  {
    if stack == [] then "" else StackText(stack[..|stack| - 1]) + Rejoin(stack[|stack| - 1]) + "{"
  }

  lemma NetStep(s: string, i: nat)
    requires i < |s|
    ensures Net(s[..i + 1]) == Net(s[..i]) + Delta(s[i])
  {
    assert s[..i + 1][..i] == s[..i];
  }

  /** What holds after the parser has read `s[..i]`. */
  predicate ScanState(s: string, i: nat, stack: seq<seq<Node>>, current: seq<Node>)
  {
    && i <= |s|
    && Alternating(current)
    && (forall k :: 0 <= k < |stack| ==> Alternating(stack[k]))
    && StackText(stack) + Rejoin(current) == s[..i]
    && |stack| == Net(s[..i])
    && (forall j :: 0 <= j <= i ==> Net(s[..j]) >= 0)
  }

  lemma ScanOpen(s: string, i: nat, stack: seq<seq<Node>>, current: seq<Node>)
    requires ScanState(s, i, stack, current) && i < |s| && s[i] == '{'
    ensures ScanState(s, i + 1, stack + [current], [Text("")])
  {
    NetStep(s, i);
    assert s[..i + 1] == s[..i] + [s[i]];
    assert (stack + [current])[..|stack|] == stack;
    assert Rejoin([Text("")]) == "";
  }

  /** The text after a `}`: the closed group's braces around what was read since its `{`. */
  lemma CloseText(outer: string, parent: string, current: string, read: string)
    requires outer + parent + "{" + current == read
    ensures outer + (parent + ("{" + current + "}")) == read + "}"
  {
  }

  lemma ScanClose(s: string, i: nat, stack: seq<seq<Node>>, current: seq<Node>)
    requires ScanState(s, i, stack, current) && i < |s| && s[i] == '}' && |stack| > 0
    ensures ScanState(s, i + 1, stack[..|stack| - 1], stack[|stack| - 1] + [Group(current), Text("")])
  {
    assert s[..i + 1] == s[..i] + "}";
    var parent, outer := stack[|stack| - 1], stack[..|stack| - 1];
    var closed := parent + [Group(current), Text("")];
    RejoinCloseGroup(parent, current);
    assert StackText(stack) == StackText(outer) + Rejoin(parent) + "{";
    CloseText(StackText(outer), Rejoin(parent), Rejoin(current), s[..i]);
    NetStep(s, i);
    AlternatingCloseGroup(parent, current);
    assert forall k :: 0 <= k < |outer| ==> outer[k] == stack[k];
    assert StackText(outer) + Rejoin(closed) == s[..i + 1];
    assert |outer| == Net(s[..i + 1]);
    forall j | 0 <= j <= i + 1
      ensures Net(s[..j]) >= 0
    {
      if j == i + 1 {
        assert Net(s[..j]) == |outer|;
      }
    }
    ScanStateIntro(s, i + 1, outer, closed);
  }

  lemma ScanStateIntro(s: string, i: nat, stack: seq<seq<Node>>, current: seq<Node>)
    requires i <= |s| && Alternating(current)
    requires forall k :: 0 <= k < |stack| ==> Alternating(stack[k])
    requires StackText(stack) + Rejoin(current) == s[..i]
    requires |stack| == Net(s[..i])
    requires forall j :: 0 <= j <= i ==> Net(s[..j]) >= 0
    ensures ScanState(s, i, stack, current)
  {
  }

  lemma ScanStray(s: string, i: nat, current: seq<Node>)
    requires ScanState(s, i, [], current) && i < |s| && s[i] == '}'
    ensures !NeverNegative(s)
  {
    NetStep(s, i);
    assert Net(s[..i + 1]) < 0;
  }

  lemma ScanChar(s: string, i: nat, stack: seq<seq<Node>>, current: seq<Node>)
    requires ScanState(s, i, stack, current) && i < |s| && !IsBrace(s[i])
    ensures current[|current| - 1].Text?
    ensures ScanState(s, i + 1, stack,
      current[..|current| - 1] + [Text(current[|current| - 1].text + [s[i]])])
  {
    NetStep(s, i);
    assert s[..i + 1] == s[..i] + [s[i]];
    AlternatingExtendLast(current, s[i]);
    RejoinExtendLast(current, s[i]);
  }

  /**
   * Parses `s` into its tree of text and groups. A `{` left open at the end
   * fails with UnmatchedBrace; a `}` that finds the stack empty fails with
   * StrayClose, where the source crashes popping the empty stack. On success
   * the tree has the parser's shape and rejoins to `s`.
   */
  method Parse(s: string) returns (r: Result<seq<Node>, TemplateError>)
    ensures r.Ok? <==> Balanced(s)
    ensures r == Err(StrayClose) <==> !NeverNegative(s)
    ensures r == Err(UnmatchedBrace) <==> NeverNegative(s) && Net(s) > 0
    ensures r.Ok? ==> ParsesTo(s, r.value)
  {
    var current: seq<Node> := [Text("")];
    var stack: seq<seq<Node>> := [];
    var i := 0;
    assert Rejoin(current) == "" && s[..0] == "";
    while i < |s|
      invariant ScanState(s, i, stack, current)
    {
      if s[i] == '{' {
        ScanOpen(s, i, stack, current);
        stack := stack + [current];
        current := [Text("")];
      } else if s[i] == '}' {
        if |stack| == 0 {
          ScanStray(s, i, current);
          return Err(StrayClose);
        }
        ScanClose(s, i, stack, current);
        current := stack[|stack| - 1] + [Group(current), Text("")];
        stack := stack[..|stack| - 1];
      } else {
        ScanChar(s, i, stack, current);
        current := current[..|current| - 1] + [Text(current[|current| - 1].text + [s[i]])];
      }
      i := i + 1;
    }
    assert s[..i] == s;
    if |stack| != 0 {
      return Err(UnmatchedBrace);
    }
    return Ok(current);
  }

  /**
   * Parsing undoes Rejoin: every tree of the parser's shape is what parsing
   * its rejoined text gives back.
   */
  method ParseRejoin(t: seq<Node>) returns (r: Result<seq<Node>, TemplateError>)
    requires Alternating(t)
    ensures r == Ok(t)
  {
    AlternatingBalanced(t);
    r := Parse(Rejoin(t));
    RejoinInjective(r.value, t);
  }

  /** The tree of `{a {b} c}` has the parser's shape and rejoins to that text. */
  lemma NestedExampleTree()
    ensures ParsesTo("{a {b} c}", [Text(""), Group([Text("a "), Group([Text("b")]), Text(" c")]), Text("")])
  {
    assert "" + "{" + ("a " + "{" + "b" + "}" + " c") + "}" + "" == "{a {b} c}";
    var b := [Text("b")];
    assert Alternating(b) && Rejoin(b) == "b";
    assert BraceFree("a ") && BraceFree(" c") && BraceFree("");
    OneGroupParses("a ", b, " c");
    OneGroupParses("", [Text("a "), Group(b), Text(" c")], "");
  }

  /** `{a {b} c}` parses to a group holding "a ", the group for b, then " c". */
  method ParseNestedExample() returns (r: Result<seq<Node>, TemplateError>)
    ensures r == Ok([Text(""), Group([Text("a "), Group([Text("b")]), Text(" c")]), Text("")])
  {
    var t := [Text(""), Group([Text("a "), Group([Text("b")]), Text(" c")]), Text("")];
    NestedExampleTree();
    AlternatingBalanced(t);
    r := Parse("{a {b} c}");
    RejoinInjective(r.value, t);
  }

  /** An unclosed `{` fails with UnmatchedBrace. */
  method ParseUnclosedExample() returns (r: Result<seq<Node>, TemplateError>)
    ensures r == Err(UnmatchedBrace)
  {
    r := Parse("{a");
    var s := "{a";
    assert s[..0] == [] && s[..1] == "{" && s[..2] == s;
    assert Net(s[..1]) == 1;
    assert NeverNegative(s) && Net(s) == 1;
  }

  /** A `}` with nothing open fails with StrayClose. */
  method ParseStrayCloseExample() returns (r: Result<seq<Node>, TemplateError>)
    ensures r == Err(StrayClose)
  {
    r := Parse("a}");
    var s := "a}";
    assert s[..1] == "a" && s[..2] == s;
    assert Net(s[..1]) == 0;
    assert Net(s[..2]) == -1;
  }
}
