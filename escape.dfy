/**
 * How a text item reaches the output: `helper.output` (index.js:222-225)
 * and the `literal` macro (src/macro.js:96) put the text between double
 * quotes in the generated JavaScript, after `helper.escapeJS`
 * (index.js:209-214). What the generated code then pushes is what a
 * JavaScript engine reads back from that string literal (section 12.9.4 of
 * ECMAScript, "String Literals"), modelled here by Unquote.
 */
module Escape {
  import opened Wrappers

  // ----- Reading a double-quoted string literal -----

  /** The character a single-character escape `\c` stands for, or None when `c` is not one. */
  function SingleEscape(c: char): Option<char>
  {
    if c == 'n' then Some('\n')
    else if c == 'r' then Some('\r')
    else if c == 't' then Some('\t')
    else if c == 'b' then Some('\U{8}')
    else if c == 'f' then Some('\U{C}')
    else if c == 'v' then Some('\U{B}')
    else if c == '"' || c == '\'' || c == '\\' then Some(c)
    else None
  }

  /** Characters that end a line inside a string literal. */
  predicate LineTerminator(c: char)
  {
    c == '\n' || c == '\r' || c == '\U{2028}' || c == '\U{2029}'
  }

  /**
   * The string value of the characters between the quotes of a
   * double-quoted literal, or None when they do not form one: a raw `"`
   * ends the literal early, a raw line feed or carriage return is a syntax
   * error, and so is a trailing backslash. A backslash before a line
   * terminator continues the line; before any other character that is not
   * a single escape it stands for that character. Numeric escapes (`\0`,
   * the octal digits, `\x` and `\u`) are not modelled and also give None.
   */
  function Unquote(lit: string): Option<string>
    decreases |lit|
  {
    if lit == [] then Some([])
    else if lit[0] == '"' || lit[0] == '\n' || lit[0] == '\r' then None
    else if lit[0] != '\\' then
      match Unquote(lit[1..])
      case None => None
      case Some(v) => Some([lit[0]] + v)
    else if |lit| == 1 then None
    else
      var c := lit[1];
      if '0' <= c <= '9' || c == 'x' || c == 'u' then None
      else if c == '\r' && |lit| >= 3 && lit[2] == '\n' then Unquote(lit[3..])
      else if LineTerminator(c) then Unquote(lit[2..])
      else
        var d := if SingleEscape(c).Some? then SingleEscape(c).value else c;
        match Unquote(lit[2..])
        case None => None
        case Some(v) => Some([d] + v)
  }

  // ----- `escapeJS` as written -----

  /** `escapeJS` on one character: `"`, `'` and a line feed get a backslash; nothing else changes. */
  function EscapeCharAsWritten(c: char): string
  {
    if c == '"' then ['\\', '"']
    else if c == '\'' then ['\\', '\'']
    else if c == '\n' then ['\\', 'n']
    else [c]
  }

  /** `escapeJS` (index.js:209-214): the three replacements, applied character by character. */
  function EscapeAsWritten(s: string): string
  {
    if s == [] then [] else EscapeCharAsWritten(s[0]) + EscapeAsWritten(s[1..])
  }

  /**
   * The text `\n` (a backslash, then the letter n) has no character that
   * `escapeJS` touches, so the generated literal reads back as a line feed:
   * the template outputs one character where its text had two.
   */
  lemma BackslashCorrupted()
    ensures EscapeAsWritten(['\\', 'n']) == ['\\', 'n']
    ensures Unquote(EscapeAsWritten(['\\', 'n'])) == Some(['\n'])
  {
    var s := ['\\', 'n'];
    assert s[1..] == ['n'] && s[1..][1..] == [];
    assert EscapeAsWritten(s) == ['\\'] + (['n'] + []);
    assert Unquote(['\\', 'n'][2..]) == Some([]);
    assert SingleEscape('n') == Some('\n');
    assert ['\n'] + [] == ['\n'];
  }

  /** A carriage return passes `escapeJS` unchanged, and a raw one inside the literal is a syntax error. */
  lemma CarriageReturnRejected()
    ensures EscapeAsWritten(['\r']) == ['\r']
    ensures Unquote(EscapeAsWritten(['\r'])) == None
  {
    assert ['\r'][1..] == [];
    assert EscapeAsWritten(['\r']) == ['\r'] + [];
  }

  // ----- `escapeJS` corrected -----

  /** The escape the literal needs: the backslash and the carriage return are escaped as well. */
  function EscapeChar(c: char): string
  {
    if c == '\\' then ['\\', '\\']
    else if c == '\r' then ['\\', 'r']
    else EscapeCharAsWritten(c)
  }

  function EscapeText(s: string): string
  {
    if s == [] then [] else EscapeChar(s[0]) + EscapeText(s[1..])
  }

  /** Reading back one escaped character followed by more literal text. */
  lemma UnquoteEscapeChar(c: char, rest: string)
    ensures Unquote(EscapeChar(c) + rest)
         == (match Unquote(rest) case None => None case Some(v) => Some([c] + v))
  {
    var e := EscapeChar(c);
    if |e| == 2 {
      assert (e + rest)[0] == '\\' && (e + rest)[1] == e[1];
      assert (e + rest)[2..] == rest;
    } else {
      assert (e + rest)[0] == c && (e + rest)[1..] == rest;
    }
  }

  /** The corrected escape always reads back as the text it was given. */
  lemma {:induction false} EscapeRoundTrip(s: string)
    ensures Unquote(EscapeText(s)) == Some(s)
  {
    if s != [] {
      EscapeRoundTrip(s[1..]);
      UnquoteEscapeChar(s[0], EscapeText(s[1..]));
      assert [s[0]] + s[1..] == s;
    }
  }

  /** The two escapes agree on every text without a backslash or a carriage return. */
  lemma {:induction false} EscapeAgreesAsWritten(s: string)
    requires forall i :: 0 <= i < |s| ==> s[i] != '\\' && s[i] != '\r'
    ensures EscapeAsWritten(s) == EscapeText(s)
  {
    if s != [] {
      EscapeAgreesAsWritten(s[1..]);
    }
  }
}
