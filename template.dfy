/**
 * `render(str, data, macros)` (index.js:14-16): compile the template, then
 * run it against the data.
 */
module Template {
  import opened Wrappers
  import opened Tree
  import opened Values
  import opened Paths
  import opened Resolver
  import opened Program
  import opened Macros
  import opened Executor
  import opened Seqs

  /** The rendering of a compiled template, or the compile error. */
  function Rendered(compiled: Result<seq<Instr>, TemplateError>, data: Value, fns: Fns): Result<string, TemplateError>
  {
    match compiled
    case Ok(prog) => Ok(Output(prog, Normalize(data), "", fns))
    case Err(e) => Err(e)
  }

  /**
   * Renders `str` against `data`: unbalanced braces and unknown macro
   * names fail; otherwise the text is what the compiled program outputs
   * from the empty path.
   */
  method Render(str: string, data: Value, user: UserMacros, fns: Fns) returns (r: Result<string, TemplateError>)
    ensures r == Err(UnmatchedBrace) <==> NeverNegative(str) && Net(str) > 0
    ensures r == Err(StrayClose) <==> !NeverNegative(str)
    ensures forall t :: ParsesTo("out " + str, t) ==> r == Rendered(Transform(user, t), data, fns)
    ensures Balanced(str) ==> exists t :: ParsesTo("out " + str, t) && r == Rendered(Transform(user, t), data, fns)
  {
    var prog := Compile(str, user);
    if prog.Err? {
      return Err(prog.error);
    }
    var s := Executor.Render(prog.value, data, fns);
    return Ok(s);
  }

  // ----- Steps of compiling a template with one macro call -----

  /** A text, one group, then a text: the shape of a template holding one macro call. */
  lemma OneGroupHeadsText(a: string, g: seq<Node>, b: string)
    requires HeadsText(g)
    ensures HeadsText([Text(a), Group(g), Text(b)])
  {
    GroupsHeadTextCons(Text(b), []);
    assert [Text(b)] == [Text(b)] + [];
    GroupsHeadTextCons(Group(g), [Text(b)]);
    assert [Group(g), Text(b)] == [Group(g)] + [Text(b)];
    GroupsHeadTextCons(Text(a), [Group(g), Text(b)]);
    assert [Text(a), Group(g), Text(b)] == [Text(a)] + [Group(g), Text(b)];
  }

  /** The name parseArg reads from `{out ...}`, which the root group is wrapped in. */
  lemma OutArgs()
    ensures LeadingToken("out ") == "out" && TrimStart("out "[3..]) == ""
  {
    assert "out" + " " + "" == "out ";
    ReadsArg("out", " ", "");
  }

  /** The name parseArg reads from `{bogus x}`. */
  lemma BogusArgs()
    ensures LeadingToken("bogus x") == "bogus"
  {
    assert "bogus" + " " + "x" == "bogus x";
    ReadsArg("bogus", " ", "x");
  }

  /** The name and argument parseArg reads from `{. title}`. */
  lemma TitleArgs()
    ensures LeadingToken(". title") == "." && TrimStart(". title"[1..]) == "title" && LeadingToken("title") == "title"
  {
    assert "." + " " + "title" == ". title" && "title" + "" + "" == "title";
    ReadsArg(".", " ", "title");
    ReadsArg("title", "", "");
  }

  /** The names parseArg reads from `{each pages ...}` and then from its argument. */
  lemma EachArgs()
    ensures LeadingToken("each pages ") == "each" && TrimStart("each pages "[4..]) == "pages "
    ensures LeadingToken("pages ") == "pages" && TrimStart("pages "[5..]) == ""
  {
    assert "each" + " " + "pages " == "each pages " && "pages" + " " + "" == "pages ";
    ReadsArg("each", " ", "pages ");
    ReadsArg("pages", " ", "");
  }

  /** ParseArg on a text, a group and a text rewrites only the first text. */
  lemma ParseArgOneGroup(a: string, arg: string, a2: string, g: seq<Node>, b: string)
    requires LeadingToken(a) == arg && TrimStart(a[|arg|..]) == a2
    ensures ParseArg([Text(a), Group(g), Text(b)]) == (arg, [Text(a2), Group(g), Text(b)])
  {
    var t := [Text(a), Group(g), Text(b)];
    assert t[1..] == [Group(g), Text(b)];
    assert [Text(a2)] + [Group(g), Text(b)] == [Text(a2), Group(g), Text(b)];
    ParseArgDef(t);
  }

  /** The root text "out " gives the name `out` and leaves an empty text. */
  lemma OutRoot(g: seq<Node>)
    ensures ParseArg([Text("out "), Group(g), Text("")]) == ("out", [Text(""), Group(g), Text("")])
  {
    OutArgs();
    ParseArgOneGroup("out ", "out", "", g, "");
  }

  /** TransformTree on a text followed by more items. */
  lemma TransformTreeText(user: UserMacros, t: string, items: seq<Node>)
    requires GroupsHeadText(items)
    ensures GroupsHeadText([Text(t)] + items)
    ensures var r := TransformTree(user, items);
      TransformTree(user, [Text(t)] + items) == if r.Err? then r else Ok(TextInstrs(t) + r.value)
  {
    GroupsHeadTextCons(Text(t), items);
    assert ([Text(t)] + items)[1..] == items;
  }

  /** TransformTree on a group followed by more items. */
  lemma TransformTreeGroup(user: UserMacros, g: seq<Node>, items: seq<Node>)
    requires HeadsText(g) && GroupsHeadText(items)
    ensures GroupsHeadText([Group(g)] + items)
    ensures var h, r := Transform(user, g), TransformTree(user, items);
      TransformTree(user, [Group(g)] + items) == if h.Err? then h else if r.Err? then r else Ok(h.value + r.value)
  {
    GroupsHeadTextCons(Group(g), items);
    assert ([Group(g)] + items)[1..] == items;
  }

  /** The items text, group, text transform to the first text, the group's instructions, then the last text. */
  lemma TransformTreeOneGroup(user: UserMacros, a: string, g: seq<Node>, b: string)
    requires HeadsText(g)
    ensures GroupsHeadText([Text(a), Group(g), Text(b)])
    ensures var h := Transform(user, g);
      TransformTree(user, [Text(a), Group(g), Text(b)]) == if h.Err? then h else Ok(TextInstrs(a) + (h.value + TextInstrs(b)))
  {
    assert [Text(b)] + [] == [Text(b)];
    assert [Group(g)] + [Text(b)] == [Group(g), Text(b)];
    assert [Text(a)] + [Group(g), Text(b)] == [Text(a), Group(g), Text(b)];
    assert TextInstrs(b) + [] == TextInstrs(b);
    assert TransformTree(user, []) == Ok([]);
    assert GroupsHeadText([]);
    TransformTreeText(user, b, []);
    TransformTreeGroup(user, g, [Text(b)]);
    TransformTreeText(user, a, [Group(g), Text(b)]);
  }

  /** The items of the root after its name: an empty text, the group, an empty text. */
  lemma OneGroupTransformTree(user: UserMacros, g: seq<Node>)
    requires HeadsText(g)
    ensures GroupsHeadText([Text(""), Group(g), Text("")])
    ensures TransformTree(user, [Text(""), Group(g), Text("")]) == Transform(user, g)
  {
    assert TextInstrs("") == [];
    TransformTreeBareGroup(user, "", g, "");
  }

  /** Texts that emit nothing leave only the group's instructions. */
  lemma TransformTreeBareGroup(user: UserMacros, a: string, g: seq<Node>, b: string)
    requires HeadsText(g) && TextInstrs(a) == [] && TextInstrs(b) == []
    ensures GroupsHeadText([Text(a), Group(g), Text(b)])
    ensures TransformTree(user, [Text(a), Group(g), Text(b)]) == Transform(user, g)
  {
    TransformTreeOneGroup(user, a, g, b);
    match Transform(user, g)
    case Err(_) =>
    case Ok(v) => EmptyUnit(v);
  }

  /** "out " + a template that is one macro call compiles to that call's instructions. */
  lemma OneGroupTemplate(user: UserMacros, g: seq<Node>)
    requires HeadsText(g) && "out" !in user
    ensures HeadsText([Text("out "), Group(g), Text("")])
    ensures Transform(user, [Text("out "), Group(g), Text("")]) == Transform(user, g)
  {
    assert BuiltinNamed("out") == Some(Out);
    OutRoot(g);
    RootCall(user, "out ", "out", g);
  }

  /** A root text naming the `out` macro, then one group: the result is that group's transformation. */
  lemma RootCall(user: UserMacros, a: string, n: string, g: seq<Node>)
    requires HeadsText(g) && n !in user && BuiltinNamed(n) == Some(Out)
    requires ParseArg([Text(a), Group(g), Text("")]) == (n, [Text(""), Group(g), Text("")])
    ensures HeadsText([Text(a), Group(g), Text("")])
    ensures Transform(user, [Text(a), Group(g), Text("")]) == Transform(user, g)
  {
    var t := [Text(a), Group(g), Text("")];
    OneGroupHeadsText(a, g, "");
    BuiltinWhenNoUser(user, t, Out);
    ExpandOut(user, [Text(""), Group(g), Text("")]);
    OneGroupTransformTree(user, g);
  }

  // ----- `{literal {hello: bla}}` -----

  /** The name parseArg reads from `{literal ...}`. */
  lemma LiteralArgs()
    ensures LeadingToken("literal ") == "literal"
  {
    assert "literal" + " " + "" == "literal ";
    ReadsArg("literal", " ", "");
  }

  /** The text `literal` emits for its group, spelled out: the name and the space dropped, the braces kept. */
  lemma LiteralGroupText()
    ensures ArgThenSpace("literal " + "{hello: bla}", "literal", "{hello: bla}")
  {
    var whole := "literal " + "{hello: bla}";
    assert whole[|"literal"|..|whole| - |"{hello: bla}"|] == " ";
    ArgThenSpaceIntro(whole, "literal", "{hello: bla}");
  }

  lemma LiteralExampleTree()
    ensures ParsesTo("literal " + "{hello: bla}", [Text("literal "), Group([Text("hello: bla")]), Text("")])
  {
    assert "literal " + "{" + "hello: bla" + "}" + "" == "literal " + "{hello: bla}";
    var h := [Text("hello: bla")];
    assert Alternating(h) && Rejoin(h) == "hello: bla";
    assert BraceFree("literal ") && BraceFree("");
    OneGroupParses("literal ", h, "");
  }

  /** The example of src/macro.js:78: `{literal {hello: bla}}` outputs `{hello: bla}`. */
  lemma LiteralExample(user: UserMacros)
    requires "literal" !in user
    ensures HeadsText([Text("literal "), Group([Text("hello: bla")]), Text("")])
    ensures Transform(user, [Text("literal "), Group([Text("hello: bla")]), Text("")]) == Ok([EmitLiteral("{hello: bla}")])
  {
    var g := [Text("literal "), Group([Text("hello: bla")]), Text("")];
    LiteralExampleTree();
    LiteralArgs();
    LiteralReproducesSource(user, g);
    LiteralGroupText();
    var r := Transform(user, g);
    ArgThenSpaceUnique(Rejoin(g), "literal", r.value[0].text, "{hello: bla}");
    assert r.value[0] == EmitLiteral("{hello: bla}");
    assert r.value == [r.value[0]];
  }

  // ----- `{bogus x}` -----

  lemma UnknownMacroTree()
    ensures ParsesTo("out " + "{bogus x}", [Text("out "), Group([Text("bogus x")]), Text("")])
  {
    assert "out " + "{" + "bogus x" + "}" + "" == "out " + "{bogus x}";
    var g := [Text("bogus x")];
    assert Alternating(g) && Rejoin(g) == "bogus x";
    assert BraceFree("out ") && BraceFree("");
    OneGroupParses("out ", g, "");
  }

  lemma UnknownSingle(user: UserMacros, s: string, n: string)
    requires LeadingToken(s) == n && !Known(user, n)
    ensures HeadsText([Text(s)]) && Transform(user, [Text(s)]) == Err(NotAMacro(n))
  {
    ParseArgDef([Text(s)]);
    assert [Text(s)][1..] == [];
    UnknownMacro(user, [Text(s)], n);
  }

  lemma UnknownMacroTransform()
    ensures HeadsText([Text("out "), Group([Text("bogus x")]), Text("")])
    ensures Transform(map[], [Text("out "), Group([Text("bogus x")]), Text("")]) == Err(NotAMacro("bogus"))
  {
    BogusArgs();
    assert BuiltinNamed("bogus") == None;
    UnknownSingle(map[], "bogus x", "bogus");
    OneGroupTemplate(map[], [Text("bogus x")]);
  }

  /** `{bogus x}` names no macro. */
  method UnknownMacroExample(data: Value, fns: Fns) returns (r: Result<string, TemplateError>)
    ensures r == Err(NotAMacro("bogus"))
  {
    UnknownMacroTree();
    UnknownMacroTransform();
    r := Render("{bogus x}", data, map[], fns);
    var t := [Text("out "), Group([Text("bogus x")]), Text("")];
    assert r == Rendered(Transform(map[], t), data, fns);
  }

  // ----- `{each pages {. title} }` -----

  lemma InnerEachTree()
    ensures ParsesTo("each pages {. title} ", [Text("each pages "), Group([Text(". title")]), Text(" ")])
  {
    var h := [Text(". title")];
    assert Alternating(h) && Rejoin(h) == ". title";
    assert BraceFree("each pages ") && BraceFree(" ");
    OneGroupParses("each pages ", h, " ");
    assert "each pages " + "{" + ". title" + "}" + " " == "each pages {. title} ";
  }

  lemma EachTree()
    ensures ParsesTo("out " + "{each pages {. title} }",
      [Text("out "), Group([Text("each pages "), Group([Text(". title")]), Text(" ")]), Text("")])
  {
    InnerEachTree();
    var g := [Text("each pages "), Group([Text(". title")]), Text(" ")];
    assert BraceFree("out ") && BraceFree("");
    OneGroupParses("out ", g, "");
    assert "out " + "{" + "each pages {. title} " + "}" + "" == "out " + "{each pages {. title} }";
  }

  /** `{. p}`: the `.` macro emits the value at its argument. */
  lemma DotCall(user: UserMacros, s: string, p: string)
    requires "." !in user && LeadingToken(s) == "." && LeadingToken(TrimStart(s[1..])) == p
    ensures HeadsText([Text(s)]) && Transform(user, [Text(s)]) == Ok([EmitResolved(p)])
  {
    var g := [Text(s)];
    ParseArgDef(g);
    assert g[1..] == [];
    var rest := ParseArg(g).1;
    assert rest == [Text(TrimStart(s[1..]))];
    assert BuiltinNamed(".") == Some(Dot);
    BuiltinWhenNoUser(user, g, Dot);
    ParseArgDef(rest);
  }

  /** `{each pages ...}` reads the name, then the path, and keeps the rest as its body. */
  lemma EachPagesArgs(h: seq<Node>)
    ensures ParseArg([Text("each pages "), Group(h), Text(" ")]) == ("each", [Text("pages "), Group(h), Text(" ")])
    ensures ParseArg([Text("pages "), Group(h), Text(" ")]) == ("pages", [Text(""), Group(h), Text(" ")])
  {
    EachArgs();
    ParseArgOneGroup("each pages ", "each", "pages ", h, " ");
    ParseArgOneGroup("pages ", "pages", "", h, " ");
  }

  /** `{each p ...}` without a user macro `each` loops over `p` with the rest of the group as body. */
  lemma EachCall(user: UserMacros, g: seq<Node>, n: string, p: string, body: seq<Node>, q: seq<Instr>)
    requires BuiltinNamed(n) == Some(Each) && n !in user && HeadsText(g) && ParseArg(g).0 == n
    requires ParseArg(ParseArg(g).1) == (p, body)
    requires GroupsHeadText(body) && TransformTree(user, body) == Ok(q)
    ensures Transform(user, g) == Ok([ForEach(p, q)])
  {
    BuiltinWhenNoUser(user, g, Each);
    ExpandEach(user, ParseArg(g).1, p, body, q);
  }

  lemma EachPagesCall(user: UserMacros, h: seq<Node>, ph: seq<Instr>)
    requires "each" !in user && HeadsText(h) && Transform(user, h) == Ok(ph)
    ensures HeadsText([Text("each pages "), Group(h), Text(" ")])
    ensures Transform(user, [Text("each pages "), Group(h), Text(" ")]) == Ok([ForEach("pages", ph + [EmitLiteral(" ")])])
  {
    assert BuiltinNamed("each") == Some(Each);
    assert TextInstrs(" ") == [EmitLiteral(" ")];
    EachPagesArgs(h);
    EachOneGroupCall(user, "each pages ", "each", "pages ", "pages", h, " ", ph);
  }

  /** `{each p {...} b}`: the body is the inner group followed by the text b. */
  lemma EachOneGroupCall(user: UserMacros, a: string, n: string, a1: string, p: string, h: seq<Node>, b: string, ph: seq<Instr>)
    requires BuiltinNamed(n) == Some(Each) && n !in user && HeadsText(h) && Transform(user, h) == Ok(ph)
    requires ParseArg([Text(a), Group(h), Text(b)]) == (n, [Text(a1), Group(h), Text(b)])
    requires ParseArg([Text(a1), Group(h), Text(b)]) == (p, [Text(""), Group(h), Text(b)])
    ensures HeadsText([Text(a), Group(h), Text(b)])
    ensures Transform(user, [Text(a), Group(h), Text(b)]) == Ok([ForEach(p, ph + TextInstrs(b))])
  {
    assert TextInstrs("") == [];
    EmptyUnit(ph + TextInstrs(b));
    OneGroupHeadsText(a, h, b);
    TransformTreeOneGroup(user, "", h, b);
    EachCall(user, [Text(a), Group(h), Text(b)], n, p, [Text(""), Group(h), Text(b)], ph + TextInstrs(b));
  }

  lemma TitleCall(user: UserMacros)
    requires "." !in user
    ensures HeadsText([Text(". title")]) && Transform(user, [Text(". title")]) == Ok([EmitResolved("title")])
  {
    TitleArgs();
    DotCall(user, ". title", "title");
  }

  /** `{each pages ...}` as the whole template. */
  lemma EachTemplate(user: UserMacros, h: seq<Node>, ph: seq<Instr>)
    requires "out" !in user && "each" !in user && HeadsText(h) && Transform(user, h) == Ok(ph)
    ensures var t := [Text("out "), Group([Text("each pages "), Group(h), Text(" ")]), Text("")];
      HeadsText(t) && Transform(user, t) == Ok([ForEach("pages", ph + [EmitLiteral(" ")])])
  {
    EachPagesCall(user, h, ph);
    OneGroupTemplate(user, [Text("each pages "), Group(h), Text(" ")]);
  }

  /** The compiled form of `{each pages {. title} }`. */
  lemma EachTransform(user: UserMacros)
    requires "out" !in user && "each" !in user && "." !in user
    ensures var t := [Text("out "), Group([Text("each pages "), Group([Text(". title")]), Text(" ")]), Text("")];
      HeadsText(t) && Transform(user, t) == Ok([ForEach("pages", [EmitResolved("title"), EmitLiteral(" ")])])
  {
    assert [EmitResolved("title")] + [EmitLiteral(" ")] == [EmitResolved("title"), EmitLiteral(" ")];
    TitleCall(user);
    EachTemplate(user, [Text(". title")], [EmitResolved("title")]);
  }

  // ----- Running `{each pages {. title} }` -----

  /** One pass of the body `{. f} ` at a path whose value has the string `s` as its field `f`. */
  lemma FieldOutput(root: Value, q: string, f: string, x: Value, s: string, fns: Fns)
    requires q != "." && Segment(f) && ResolvePath(root, q) == Some(x) && Child(x, f) == Some(Str(s))
    ensures Output([EmitResolved(f), EmitLiteral(" ")], root, q, fns) == s + " "
  {
    OutputPair(EmitResolved(f), EmitLiteral(" "), root, q, fns);
    ResolveAddToPath(root, q, f);
  }

  /** The pass over element `i` of the array at path `p`. */
  lemma ElementOutput(root: Value, p: string, f: string, xs: seq<Value>, i: nat, s: string, fns: Fns)
    requires Segment(p) && Segment(f) && ResolvePath(root, p) == Some(Arr(xs)) && i < |xs|
    requires Truthy(xs[i]) && Child(xs[i], f) == Some(Str(s))
    ensures Output([EmitResolved(f), EmitLiteral(" ")], root, AddToPath(p, NatToString(i)), fns) == s + " "
  {
    assert p != ".";
    EachBindsElement(root, p, xs, i);
    var key := NatToString(i);
    assert EntryKeys(Some(Arr(xs)))[i] == key;
    assert AddToPath(p, key) == p + "." + key;
    FieldOutput(root, AddToPath(p, key), f, xs[i], s, fns);
  }

  /** `each` over two keys runs the body at each of the two extended paths, in order. */
  lemma EachOutputTwo(body: seq<Instr>, root: Value, q: string, k0: string, k1: string, fns: Fns)
    ensures EachOutput(body, root, q, [k0, k1], fns)
         == Output(body, root, AddToPath(q, k0), fns) + Output(body, root, AddToPath(q, k1), fns)
  {
    assert [k0, k1][..1] == [k0] && [k0][..0] == [];
    assert EachOutput(body, root, q, [], fns) == "";
    assert "" + Output(body, root, AddToPath(q, k0), fns) == Output(body, root, AddToPath(q, k0), fns);
  }

  lemma TwoKeys(x: Value, y: Value)
    ensures EntryKeys(Some(Arr([x, y]))) == [NatToString(0), NatToString(1)]
  {
    var keys := Indices(2);
    assert keys[0] == NatToString(0) && keys[1] == NatToString(1);
  }

  /** `each` over a two-element array at `p` runs its body at "p.0", then at "p.1". */
  lemma ForEachTwoOutput(root: Value, p: string, body: seq<Instr>, x: Value, y: Value, fns: Fns)
    requires Segment(p) && ResolvePath(root, p) == Some(Arr([x, y]))
    ensures Output([ForEach(p, body)], root, "", fns)
         == Output(body, root, AddToPath(p, NatToString(0)), fns) + Output(body, root, AddToPath(p, NatToString(1)), fns)
  {
    OutputSingle(ForEach(p, body), root, "", fns);
    assert p[0] != '.' && AddToPath("", p) == p;
    TwoKeys(x, y);
    EachOutputTwo(body, root, p, NatToString(0), NatToString(1), fns);
  }

  /** `{each p {. f} }` over two elements whose fields `f` are `a` and `b` renders as "a b ". */
  lemma TwoElementsOutput(root: Value, p: string, f: string, x: Value, y: Value, a: string, b: string, fns: Fns)
    requires Segment(p) && Segment(f) && ResolvePath(root, p) == Some(Arr([x, y]))
    requires Truthy(x) && Child(x, f) == Some(Str(a))
    requires Truthy(y) && Child(y, f) == Some(Str(b))
    ensures Output([ForEach(p, [EmitResolved(f), EmitLiteral(" ")])], root, "", fns) == a + " " + b + " "
  {
    ForEachTwoOutput(root, p, [EmitResolved(f), EmitLiteral(" ")], x, y, fns);
    ElementOutput(root, p, f, [x, y], 0, a, fns);
    ElementOutput(root, p, f, [x, y], 1, b, fns);
  }

  /** The data `{pages: [{title: "A"}, {title: "B"}]}`. */
  function PagesData(): Value
  {
    Obj([("pages", Arr([Obj([("title", Str("A"))]), Obj([("title", Str("B"))])]))])
  }

  /** A page `{title: t}` with a non-empty title: truthy, with the string `t` as its title. */
  lemma PageTitle(t: string)
    requires t != ""
    ensures Truthy(Obj([("title", Str(t))])) && Child(Obj([("title", Str(t))]), "title") == Some(Str(t))
  {
    var fields := [("title", Str(t))];
    assert fields[..0] == [];
    assert Lookup(fields, "title") == Some(Str(t));
  }

  /** The path "pages" resolves to the array of the two pages. */
  lemma PagesResolve()
    ensures ResolvePath(PagesData(), "pages") == Some(Arr([Obj([("title", Str("A"))]), Obj([("title", Str("B"))])]))
  {
    assert Segment("pages");
    ResolveAddToPath(PagesData(), "", "pages");
    assert AddToPath("", "pages") == "pages";
  }

  lemma PagesSegments()
    ensures Segment("pages") && Segment("title")
  {
  }

  lemma PagesDataOutput(fns: Fns)
    ensures Output([ForEach("pages", [EmitResolved("title"), EmitLiteral(" ")])], PagesData(), "", fns) == "A B "
  {
    assert "A" + " " + "B" + " " == "A B ";
    PagesResolve();
    PageTitle("A");
    PageTitle("B");
    PagesSegments();
    TwoElementsOutput(PagesData(), "pages", "title", Obj([("title", Str("A"))]), Obj([("title", Str("B"))]), "A", "B", fns);
  }

  lemma EachRendered(user: UserMacros, fns: Fns)
    requires "out" !in user && "each" !in user && "." !in user
    ensures var t := [Text("out "), Group([Text("each pages "), Group([Text(". title")]), Text(" ")]), Text("")];
      HeadsText(t) && Rendered(Transform(user, t), PagesData(), fns) == Ok("A B ")
  {
    EachTransform(user);
    PagesDataOutput(fns);
    assert Normalize(PagesData()) == PagesData();
  }

  /**
   * `{each pages {. title} }` over two pages renders their titles in
   * order, whatever user macros there are that do not replace `out`,
   * `each` or `.`.
   */
  method EachExample(user: UserMacros, fns: Fns) returns (r: Result<string, TemplateError>)
    requires "out" !in user && "each" !in user && "." !in user
    ensures r == Ok("A B ")
  {
    EachTree();
    EachRendered(user, fns);
    r := Render("{each pages {. title} }", PagesData(), user, fns);
    var t := [Text("out "), Group([Text("each pages "), Group([Text(". title")]), Text(" ")]), Text("")];
    assert r == Rendered(Transform(user, t), PagesData(), fns);
  }
}
