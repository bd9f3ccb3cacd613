/**
 * The instructions a compiled template consists of. The source emits
 * JavaScript text for each macro (src/macro.js:16-125); each kind of
 * statement it emits is one instruction here.
 */
module Program {

  datatype Instr =
    | EmitLiteral(text: string)               // `__out.push("text")`
    | EmitResolved(path: string)              // `__out.push(resolve(data, addToPath(path, "p")))`
    | EmitPath(path: string)                  // `__out.push(addToPath(path, "p"))`
    | WithPath(path: string, body: seq<Instr>) // `keepPath` around `path = addToPath(path, "p")` and the body
    | IfDefined(path: string, body: seq<Instr>) // `if (typeof resolve(...) !== "undefined") { body }`
    | ForEach(path: string, body: seq<Instr>)  // `each(resolve(data, path), function (__itemPath) { ... })`
    | CallFn(name: string)                    // `__out.push(options.fn.name(path, data))`

  /** A measure under which running a body is smaller than running the instruction around it. */
  function ProgSize(prog: seq<Instr>): nat
  {
    if prog == [] then 0 else InstrSize(prog[0]) + ProgSize(prog[1..])
  }

  function InstrSize(i: Instr): nat
  {
    match i
    case WithPath(_, body) => 1 + ProgSize(body)
    case IfDefined(_, body) => 1 + ProgSize(body)
    case ForEach(_, body) => 1 + ProgSize(body)
    case _ => 1
  }

  lemma {:induction false} ProgSizeAppend(a: seq<Instr>, b: seq<Instr>)
    ensures ProgSize(a + b) == ProgSize(a) + ProgSize(b)
    decreases |a|
  {
    if a == [] {
      assert a + b == b;
    } else {
      assert (a + b)[1..] == a[1..] + b;
      ProgSizeAppend(a[1..], b);
    }
  }

  /** Each instruction is no larger than the program holding it. */
  lemma {:induction false} InstrSizeBounded(prog: seq<Instr>, k: nat)
    requires k < |prog|
    ensures InstrSize(prog[k]) <= ProgSize(prog)
    decreases k
  {
    if k > 0 {
      InstrSizeBounded(prog[1..], k - 1);
    }
  }
}
