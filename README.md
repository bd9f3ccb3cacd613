# richardparker brace templates, modelled in Dafny

richardparker compiles a template into a JavaScript function. Text outside braces is copied to the output. A group `{name arg ...}` is a macro call:
- `{. p}` outputs the value found at path `p` of the data;
- `{-> p ...}` runs its body with `p` added to the current path;
- `{has p ...}` runs its body only when `p` resolves;
- `{each p ...}` runs its body once for each entry of the array or object at `p`;
- `{literal ...}` outputs the text of its group that follows the name and the white space after it, with the braces of nested groups;
- `{path p}` outputs the composed path;
- `{fn f}` splices in the result of a user function.

Paths are dotted. The runtime walks them through the data and stops at the first falsy value.

This project models the whole pipeline:
- the brace parser (`parse`);
- the macro compiler (`compile`, `transform`, `helper.parseArg`, `helper.transformTree` and the built-in macros);
- path composition (`addToPath`) and lookup (`resolve`);
- the runtime that the generated code implies (`each`, `keepPath`, the `__out` buffer);
- `render`.

The compiler does not emit JavaScript text. Each macro produces instructions of an explicit datatype (`Program.Instr`). A class `Executor.Runtime` runs them, with a current path and an output buffer as fields.

Modules, one per file:
- `Wrappers` (wrappers.dfy): Option and Result.
- `Tree` (tree.dfy): parse trees, `rejoin`, brace counting.
- `BraceParser` (parser.dfy): `parse` as a loop over the characters with an explicit stack.
- `Values` (values.dfy): the data, truthiness, `obj[key]`, array index keys, to-text.
- `Paths` (paths.dfy): `addToPath` and `split(/\./)`.
- `Resolver` (resolver.dfy): `resolve` as a loop, against a recursive specification.
- `Program` (program.dfy): the instruction datatype.
- `Macros` (macros.dfy): `parseArg`, the macro table, `transform`, `compile`.
- `Executor` (executor.dfy): the runtime, its output function and the `each` helper.
- `Escape` (escape.dfy): `escapeJS`, and how a JavaScript engine reads a string literal back.
- `Template` (template.dfy): `render`, and worked templates: an unknown macro name, the `literal` example of src/macro.js:78, and a shortened form of the `each` example of src/macro.js:56-58.

## Model

| member | source | states |
|---|---|---|
| BraceParser.Parse | index.js:59-85 | succeeds exactly when the braces balance. Fails with StrayClose exactly when some prefix closes more than it opens, and with UnmatchedBrace exactly when none does but a `{` is still open at the end. On success, the tree has the parser's shape (every group starts with a text item, and a text follows each group) and rejoins to the input |
| BraceParser.ParseRejoin | src/macro.js:85-95 | parsing the rejoined text of any tree of the parser's shape gives that tree back, so `rejoin` and `parse` are inverse on parser trees |
| BraceParser.ParseNestedExample | index.js:45-58 | `{a {b} c}` parses into a group holding "a ", the group for b, and " c", with the empty texts the parser adds around it |
| BraceParser.ParseUnclosedExample | index.js:81-83 | an unclosed `{` fails with UnmatchedBrace |
| BraceParser.ParseStrayCloseExample | index.js:71-73 | a `}` with no open group fails with StrayClose |
| Tree.Rejoin | src/macro.js:85-95 | the definition of `rejoin` over a list of items, concatenated in order; RejoinInjective, AlternatingBalanced and BraceParser.Parse carry its properties |
| Tree.RejoinNode | src/macro.js:89-91 | the definition of one item's text: a text as itself, a group between `{` and `}` |
| Tree.RejoinInjective | src/macro.js:85-95 | two trees of the parser's shape with the same rejoined text are equal |
| Tree.AlternatingBalanced | index.js:59-85 | the rejoined text of a parser-shaped tree has balanced braces |
| Paths.Split | index.js:286 | `split(/\./)` gives at least one piece; no piece contains a dot; joining the pieces with dots restores the string |
| Paths.SplitJoin | index.js:286 | splitting dot-joined dot-free parts gives back exactly those parts |
| Paths.SplitDot | index.js:286 | the pieces of `x.k` are the pieces of `x` followed by the pieces of `k` |
| Paths.AddToPath | index.js:324-334 | the definition of `addToPath`; SplitAddToPath, AddToPathAssociative and Resolver.ResolveAddToPath carry its properties |
| Paths.SplitAddToPath | index.js:324-334 | adding a non-empty, dot-free segment to a non-empty path adds exactly that segment to the path's pieces; for the path "." this yields the pieces "", "", k |
| Paths.AddToPathAssociative | index.js:324-334 | adding `a.b` equals adding `a` then `b`, when neither is empty or "." |
| Resolver.ResolvePath | index.js:284-300 | the recursive definition of `resolve`: the root for "" and ".", otherwise the walk over the pieces; Resolve is proved equal to it, and ResolveTruthy and ResolveAddToPath carry its properties |
| Resolver.Descend | index.js:292-299 | the definition of the walk: take each piece's member while it is truthy, nothing if a piece is left over |
| Resolver.Resolve | index.js:284-300 | the loop returns the data root for "" and ".". Otherwise it walks the pieces while the next member is truthy, and returns nothing if pieces are left over. This is the recursive walk ResolvePath |
| Resolver.ResolveTruthy | index.js:292-299 | a path other than the root never resolves to a falsy value |
| Resolver.ResolveAddToPath | index.js:292-299 | resolving the path extended by a segment resolves the path, then takes that segment's member, provided the member is truthy |
| Resolver.DotContext | index.js:327-333 | once the path is ".", adding a segment gives "..k". Its first piece is looked up as the key "", so unless the root has a truthy member "", nothing resolves |
| Resolver.ResolveNestedExample | index.js:284-300 | `{a: {b: 1}}` resolves "a.b" to 1 |
| Resolver.ResolveFalsyExample | index.js:292-298 | `{a: {b: 0}}` resolves "a.b" to nothing: the walk stops at the falsy 0 |
| Values.ArrayIndexRoundTrip | index.js:312-313 | a key names array index n exactly when it is n written in decimal |
| Values.KeysAreLookups | index.js:316-318 | an object's enumerated own keys are exactly the keys that find a field |
| Values.Keys | index.js:316-318 | no own key is enumerated twice |
| Values.Member | index.js:292-293 | the definition of `obj[key]` for the values a template reaches: an array's or a string's `length` and canonical indices, an object's own fields, nothing otherwise; ArrayIndexRoundTrip and KeysAreLookups carry its properties |
| Values.ToText | index.js:271 | the definition of `String(v)` inside `__out.join("")`, with `join`'s rule for null array elements; NumberText carries its property for numbers |
| Values.NumberText | index.js:271 | a non-negative number prints as its canonical decimal numeral, which reads back as that number; a negative one prints as a minus sign and the numeral of its magnitude |
| Values.ItemText | index.js:271 | the definition of one buffer item's text: undefined and null print as "", anything else as ToText |
| Macros.LeadingToken | index.js:194 | `/^\S+/` yields a prefix with no white space, and only white space (or the end) follows it |
| Macros.TrimStart | index.js:195 | `replace(/^\s+/, '')` yields a suffix of its input that does not itself start with white space |
| Macros.TrimmedSuffix | index.js:195 | everything trimmed off before that suffix is white space |
| Macros.LeadingTokenOf | index.js:194 | a non-space run followed by white space or the end is exactly what `/^\S+/` reads |
| Macros.TrimStartOf | index.js:195 | trimming removes exactly a leading run of white space |
| Macros.ParseArg | index.js:193-201 | only the first text of the group is rewritten, and it stays a text; the rest of the group is untouched, so the group keeps its length, its size and its text-first shape |
| Macros.ParseArgSplits | index.js:193-201 | the first text is the name, then a run of white space, then the text that replaces it, and the name is exactly the leading token |
| Macros.ReadsArg | index.js:193-201 | a run without white space, then white space (or the end), then a text not starting with white space: the run is the name read, and what follows the white space is the argument left behind |
| Macros.TextInstrs | index.js:222-225 | the definition of `helper.output`: nothing for an empty text, otherwise one text instruction |
| Macros.TransformTree | index.js:234-244 | the definition of `helper.transformTree`: texts through TextInstrs, groups through Transform, in order, stopping at the first failure; TransformFailsIff and Executor.OutputAppend carry its properties |
| Macros.Transform | index.js:30-40 | the definition of `transform`: a user macro first, then the built-in of that name, otherwise NotAMacro; TransformFailsIff, TransformUsesVisited and Compile carry its properties |
| Macros.Expand | src/macro.js:16-125 | the definition of the built-in macros, each giving the instruction the code it generates stands for; BuiltinNamedName, LiteralReproducesSource and TransformFailsIff carry its properties |
| Macros.BuiltinNamedName | src/macro.js:6-126 | each built-in macro is found under its own name and under no other |
| Macros.TransformErrorVisited | index.js:30-40 | transformation fails only with NotAMacro, for a name that is not known and that heads a group `transform` visits: the tree itself, or a group that `out`, `->`, `has` or `each` passes to `helper.transformTree` (src/macro.js:28-116) |
| Macros.VisitedUnknownFails | index.js:30-40 | a visited group whose name is not known makes the whole transformation fail |
| Macros.TransformFailsIff | index.js:30-40 | transformation fails if and only if some visited group's name is neither a user macro nor a built-in; the arguments of `.`, `path` and `fn`, the body of `literal` and whatever a user macro receives are not visited |
| Macros.TransformSucceeds | index.js:30-40 | a tree whose visited groups all start with known names transforms without error |
| Macros.TransformUsesVisited | index.js:32-36 | two tables of user macros that agree on the names of the visited groups give the same result. A user macro whose name heads no visited group has no effect; one that does is chosen over the built-in of that name |
| Macros.LiteralReproducesSource | src/macro.js:83-97 | `literal` compiles to one text instruction. The group's source text is `literal`, then all the white space after it, then that text (which therefore does not start with white space), with the braces of nested groups included |
| Macros.ArgThenSpaceUnique | index.js:195 | the text left after the name and all its white space is determined by the whole text, so LiteralReproducesSource fixes what `literal` emits |
| Macros.Compile | index.js:25-43 | compiling fails with UnmatchedBrace or StrayClose exactly as the braces of the input dictate. A balanced input has a tree that "out " + input parses to, and the result is its transformation. A NotAMacro failure names an unknown macro of a balanced input. The generated code's own failures in `new Function` are not part of this (see Findings) |
| Executor.Normalize | index.js:266 | `data \|\| {}` is always truthy and keeps truthy data unchanged |
| Executor.Indices | index.js:312-313 | the array branch of `each` visits the keys "0" to "n-1", in ascending order |
| Executor.EntryKeysAreEntries | index.js:309-321 | `each` visits: for an array or a string, exactly its members other than `length`; for an object, exactly its own keys; for a number or boolean, nothing |
| Executor.EntryKeysOrdered | index.js:309-321 | `each` visits no key twice, and visits the array keys in index order |
| Executor.EntryKeys | index.js:309-321 | the definition of the keys `each` visits: none for falsy or missing values, the indices of an array, otherwise the own enumerable keys; EntryKeysAreEntries and EntryKeysOrdered carry its properties |
| Executor.EachBindsElement | src/macro.js:65-73 | inside `each` over an array, the path of the i-th pass resolves to the i-th element when it is truthy |
| Executor.EachBindsField | src/macro.js:65-73 | inside `each` over an object, the path of the pass for a dot-free key resolves to that key's field when it is truthy |
| Executor.Output | src/macro.js:16-125 | the definition of what a program appends to `__out`: its instructions' outputs in order; OutputAppend, Runtime.Run and Runtime.Exec carry its properties |
| Executor.InstrOutput | src/macro.js:16-125 | the definition of what each generated statement appends from the current path: a text; the text of the value a path resolves to; the composed path; a body run at an extended path; a body run only when a path resolves; an `each` loop; a user function's text |
| Executor.EachOutput | src/macro.js:65-73 | the definition of an `each` loop's output: the body once per key, at the path extended by that key; EachBindsElement, EachBindsField and Runtime.Each carry its properties |
| Executor.OutputAppend | index.js:234-244 | the output of concatenated instructions is the concatenation of their outputs |
| Executor.LiteralOutput | index.js:222-225 | a text instruction outputs its text exactly, which is what the generated code reads back from the text escaped by the corrected escape |
| Executor.Runtime.constructor | index.js:265-266 | the runtime starts at the empty path with an empty buffer, over `data \|\| {}` |
| Executor.Runtime.Run | index.js:234-244 | running a program appends its output at the current path and leaves the path as it was |
| Executor.Runtime.Exec | src/macro.js:16-125 | each instruction appends its output and leaves the path unchanged. A body that moves the path runs on its own copy (`keepPath`, index.js:254-256) |
| Executor.Runtime.Each | index.js:309-321 | `each` runs the body once per visited key, in order, at the path extended by the key. A missing or falsy value runs nothing |
| Executor.Runtime.EachIndex | index.js:311-314 | the array loop runs the body at the indices 0 to n-1 in order |
| Executor.Runtime.EachKey | index.js:315-320 | the for-in loop runs the body at the given keys in order |
| Executor.Render | index.js:264-273 | the template function returns what the program outputs from the empty path over `data \|\| {}` |
| Template.Render | index.js:14-16 | `render` fails with UnmatchedBrace or StrayClose exactly as the braces dictate. A balanced template has a tree that "out " + template parses to, and the result is that tree's compile error, or the output of its compiled program |
| Template.UnknownMacroExample | index.js:39 | `{bogus x}` fails with NotAMacro("bogus") |
| Template.LiteralExample | src/macro.js:75-97 | `{literal {hello: bla}}` outputs `{hello: bla}`, as the comment at src/macro.js:78 says |
| Template.EachExample | src/macro.js:52-73 | `{each pages {. title} }` over two pages titled A and B renders "A B ", for any user macros that do not replace `out`, `each` or `.` |
| Escape.EscapeAsWritten | index.js:209-214 | the definition of `escapeJS`: `"`, `'` and line feed escaped, every other character unchanged; BackslashCorrupted, CarriageReturnRejected and EscapeAgreesAsWritten carry its properties |
| Escape.BackslashCorrupted | index.js:209-214 | the two-character text backslash, n passes `escapeJS` unchanged and reads back as a single line feed |
| Escape.CarriageReturnRejected | index.js:209-214 | a carriage return passes `escapeJS` unchanged and makes the generated string literal invalid |
| Escape.EscapeRoundTrip | index.js:209-214 | with the backslash and the carriage return escaped as well, every text reads back as itself |
| Escape.EscapeAgreesAsWritten | index.js:209-214 | the corrected escape and `escapeJS` agree on every text without a backslash or a carriage return |

## Left out

- Code generation. The model does not produce JavaScript text, evaluate it with `new Function`, or stringify the runtime helpers into it (index.js:264-273). Instructions are interpreted directly. Only `escapeJS` is kept, because its flaw changes what the generated code outputs (see Findings).
- Argument quoting. Macro arguments are spliced into the generated code between double quotes without escaping. An argument containing `"` or `\` would change the code; the model takes arguments as plain strings.
- User macros. They are modelled as functions from the group after the name to instructions. They get no `transform` callback, so they cannot compile nested groups themselves.
- User functions for `fn`. These are foreign code, so they are a parameter: a total function from name, current path and data root to text. The generated call `options.fn.name(path, data)` refers to an `options` that the generated function never binds. It also throws when the function is missing. The model assumes a bound table instead.
- The `fn` parameter order. The source passes `(path, data)`; the model passes the name as well, to select the function.
- Prototype lookups. Macro names such as `toString`, and member names such as `constructor`, would find inherited properties in JavaScript. The model looks only at own fields.
- Object key order. JavaScript enumerates integer-like keys first; the model enumerates keys in insertion order.
- Numbers. They are integers; floating-point values and their formatting are not modelled.
- Characters. Strings are sequences of Unicode scalar values, not UTF-16 code units.
- Duplicate `nativeMacros`. The table in index.js:91-178 lacks `literal` and `fn`. Only the superset in src/macro.js is modelled. So are its `resolve(data, ...)` calls, where index.js's `resolve` reads a free `data`.
- Template.Render: a text outside braces, and the body of `literal`, is output verbatim, as the corrected escape gives it. `escapeJS` as written outputs something else for a text containing `\`. For a carriage return, a trailing `\` or a malformed `\x` or `\u`, the source fails in `new Function` instead (see Findings).
- Macros.ParseArg: it returns the rewritten group instead of assigning `tree[0]` in place, because no caller observes the old group afterwards.
- Stray `}`. The source crashes when it pops an empty stack. The model reports this as a distinct error, StrayClose. The source's documentation speaks only of an unmatched brace.
- Null data. `data || {}` replaces falsy data before `resolve` runs, so `resolve` on null is not modelled.
- Leading white space. Because the template is compiled as "out " + input, white space at the very start of a template is dropped. The model keeps this behaviour.
- Escape.Unquote: the numeric escapes `\0`, legacy octal, `\x` and `\u` are not modelled; it gives None for them. The corrected escape never produces one; `escapeJS` passes them through from the text.

## Findings

| source | as written | input that shows it | evidently intended | confidence | as-written member | corrected member |
|---|---|---|---|---|---|---|
| index.js:209-214 | `escapeJS` escapes `"`, `'` and line feeds, but not backslashes or carriage returns. A backslash in template text therefore starts an escape in the generated string literal, and a carriage return makes the literal invalid | the template text `C:\new`, whose `\n` is output as a line feed; a text containing a carriage return fails to compile | text outside braces is output exactly as written | high, not executed | Escape.BackslashCorrupted | Escape.EscapeRoundTrip |
