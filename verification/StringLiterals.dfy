/** The JavaScript string literals that are put in front of a module's source (src/module.cpp). */
module StringLiterals {
  import opened Options

  const BACKSPACE: char := '\U{0008}'
  const FORM_FEED: char := '\U{000C}'
  const VERTICAL_TAB: char := '\U{000B}'

  function EscapeChar(c: char): string {
    if c == '"' then "\\\""
    else if c == '\\' then "\\\\"
    else if c == '/' then "\\/"
    else if c == BACKSPACE then "\\b"
    else if c == FORM_FEED then "\\f"
    else if c == '\n' then "\\n"
    else if c == '\r' then "\\r"
    else if c == '\t' then "\\t"
    else [c]
  }

  function EscapeBody(value: string): string {
    if value == "" then "" else EscapeChar(value[0]) + EscapeBody(value[1..])
  }

  function Escaped(value: string): string {
    "\"" + EscapeBody(value) + "\""
  }

  lemma AppendPiece(a: string, b: string, c: string)
    ensures a + (b + c) == (a + b) + c
  {
  }

  method EscapeString(value: string) returns (result: string)
    ensures result == Escaped(value)
  {
    result := "\"";
    var i := 0;
    while i < |value|
      invariant i <= |value|
      invariant result + EscapeBody(value[i..]) == "\"" + EscapeBody(value)
    {
      assert value[i..][0] == value[i] && value[i..][1..] == value[i + 1..];
      var c := value[i];
      var piece;
      if c == '"' { piece := "\\\""; }
      else if c == '\\' { piece := "\\\\"; }
      else if c == '/' { piece := "\\/"; }
      else if c == BACKSPACE { piece := "\\b"; }
      else if c == FORM_FEED { piece := "\\f"; }
      else if c == '\n' { piece := "\\n"; }
      else if c == '\r' { piece := "\\r"; }
      else if c == '\t' { piece := "\\t"; }
      else { piece := [c]; }
      assert piece == EscapeChar(c);
      AppendPiece(result, piece, EscapeBody(value[i + 1..]));
      result := result + piece;
      i := i + 1;
    }
    assert result == "\"" + EscapeBody(value);
    result := result + "\"";
  }

  /** The character that a backslash followed by c stands for in a string literal (section 12.9.4 of
      ECMA-262, 2022 edition). Escapes of more than one character, which start with a digit, x or u,
      and line continuations are not read. */
  function EscapeValue(c: char): Option<char> {
    if c == 'b' then Some(BACKSPACE)
    else if c == 'f' then Some(FORM_FEED)
    else if c == 'n' then Some('\n')
    else if c == 'r' then Some('\r')
    else if c == 't' then Some('\t')
    else if c == 'v' then Some(VERTICAL_TAB)
    else if '0' <= c <= '9' || c == 'x' || c == 'u' || IsLineTerminator(c) then None
    else Some(c)
  }

  predicate IsLineTerminator(c: char) {
    c == '\n' || c == '\r' || c == '\U{2028}' || c == '\U{2029}'
  }

  /** What is read and what is not. */
  lemma SingleEscapes(c: char)
    ensures c in "0123456789xu" || IsLineTerminator(c) <==> EscapeValue(c).None?
    ensures EscapeValue(c).Some? && c !in "bfnrtv" ==> EscapeValue(c) == Some(c)
  {
    assert '0' <= c <= '9' ==> c == "0123456789"[c as int - '0' as int];
    assert "0123456789xu" == "0123456789" + "xu";
    assert "bfnrtv"[0] == 'b' && "bfnrtv"[1] == 'f' && "bfnrtv"[2] == 'n' && "bfnrtv"[3] == 'r';
  }

  /** What a literal can end in: its value so far read, and the text after its closing quote. */
  datatype Reading = Reading(value: string, rest: string)

  /** The rest of a double-quoted literal. A line feed or carriage return may not stand in one. */
  function ReadBody(text: string): Option<Reading> {
    if text == "" then None
    else if text[0] == '"' then Some(Reading("", text[1..]))
    else if text[0] == '\n' || text[0] == '\r' then None
    else if text[0] == '\\' then
      if |text| < 2 then None
      else
        match (EscapeValue(text[1]), ReadBody(text[2..]))
        case (Some(c), Some(r)) => Some(Reading([c] + r.value, r.rest))
        case _ => None
    else
      match ReadBody(text[1..])
      case None => None
      case Some(r) => Some(Reading([text[0]] + r.value, r.rest))
  }

  function ReadLiteral(text: string): Option<Reading> {
    if text == "" || text[0] != '"' then None else ReadBody(text[1..])
  }

  /** No quotation mark stands without a backslash before it, and no backslash is left open. */
  predicate NoBareQuote(text: string) {
    if text == "" then true
    else if text[0] == '\\' then |text| >= 2 && NoBareQuote(text[2..])
    else text[0] != '"' && NoBareQuote(text[1..])
  }

  lemma OneHasNoBareQuote(c: char, tail: string)
    requires NoBareQuote(tail)
    ensures NoBareQuote(EscapeChar(c) + tail)
  {
    var text, one := EscapeChar(c) + tail, EscapeChar(c);
    assert text[0] == one[0] && text[|one|..] == tail;
  }

  lemma {:induction false} BodyHasNoBareQuote(value: string)
    ensures NoBareQuote(EscapeBody(value))
  {
    if value != "" {
      BodyHasNoBareQuote(value[1..]);
      OneHasNoBareQuote(value[0], EscapeBody(value[1..]));
    }
  }

  lemma ReadEscape(c: char, tail: string)
    requires ReadBody(tail).Some? && EscapeValue(c).Some?
    ensures var r := ReadBody(tail).value;
      ReadBody(['\\', c] + tail) == Some(Reading([EscapeValue(c).value] + r.value, r.rest))
  {
    var text := ['\\', c] + tail;
    assert text[0] == '\\' && text[1] == c && text[2..] == tail;
  }

  lemma ReadPlain(c: char, tail: string)
    requires ReadBody(tail).Some? && c != '"' && c != '\\' && c != '\n' && c != '\r'
    ensures var r := ReadBody(tail).value;
      ReadBody([c] + tail) == Some(Reading([c] + r.value, r.rest))
  {
    var text := [c] + tail;
    assert text[0] == c && text[1..] == tail;
  }

  /** Reading one escaped character. */
  lemma ReadOne(c: char, tail: string)
    requires ReadBody(tail).Some?
    ensures var r := ReadBody(tail).value;
      ReadBody(EscapeChar(c) + tail) == Some(Reading([c] + r.value, r.rest))
  {
    hide ReadBody;
    var one := EscapeChar(c);
    if |one| == 2 {
      assert one == ['\\', one[1]] && EscapeValue(one[1]) == Some(c);
      ReadEscape(one[1], tail);
    } else {
      ReadPlain(c, tail);
    }
  }

  lemma {:induction false} ReadBodyReads(value: string, rest: string)
    ensures ReadBody(EscapeBody(value) + ("\"" + rest)) == Some(Reading(value, rest))
  {
    var closing := "\"" + rest;
    if value == "" {
      assert EscapeBody(value) + closing == closing;
      assert closing[1..] == rest;
    } else {
      ReadBodyReads(value[1..], rest);
      ReadOne(value[0], EscapeBody(value[1..]) + closing);
      AppendPiece(EscapeChar(value[0]), EscapeBody(value[1..]), closing);
      assert value == [value[0]] + value[1..];
    }
  }

  /** Reading the escaped form of any string gives the string back and stops right after it. */
  lemma LiteralIsExact(value: string, rest: string)
    ensures ReadLiteral(Escaped(value) + rest) == Some(Reading(value, rest))
  {
    ReadBodyReads(value, rest);
    assert (Escaped(value) + rest)[1..] == EscapeBody(value) + ("\"" + rest);
  }

  /** The characters that are escaped: quotation mark, backslash, slash, and five controls. */
  predicate Special(c: char) {
    c == '"' || c == '\\' || c == '/' || c == BACKSPACE || c == FORM_FEED || c == '\n' || c == '\r' || c == '\t'
  }

  /** Exactly these characters get a backslash, behind which none of the controls is left; every other
      character stays as it is. */
  lemma EscapesSpecials(c: char)
    ensures if Special(c) then |EscapeChar(c)| == 2 && EscapeChar(c)[0] == '\\' else EscapeChar(c) == [c]
    ensures forall d :: d in EscapeChar(c) ==> d == '"' || d == '\\' || d == '/' || !Special(d)
  {
  }

  function Specials(value: string): nat {
    if value == "" then 0 else (if Special(value[0]) then 1 else 0) + Specials(value[1..])
  }

  lemma {:induction false} EscapeBodyGrows(value: string)
    ensures |EscapeBody(value)| == |value| + Specials(value)
    ensures forall d :: d in EscapeBody(value) ==> d == '"' || d == '\\' || d == '/' || !Special(d)
    ensures Specials(value) == 0 ==> EscapeBody(value) == value
  {
    if value != "" {
      EscapeBodyGrows(value[1..]);
      EscapesSpecials(value[0]);
      assert value == [value[0]] + value[1..];
    }
  }

  // ---------------------------------------------------------------- the prefix of a module

  function Prefixed(path: string, directory: string, content: string): string {
    "const __filename = " + Escaped(path) + ";const __dirname = " + Escaped(directory) + "; " + content
  }

  /** The text after a given beginning. */
  function After(text: string, beginning: string): Option<string> {
    if beginning <= text then Some(text[|beginning|..]) else None
  }

  /** The two constants and the source that a prefixed text stands for. */
  function ReadPrefixed(text: string): Option<(string, string, string)> {
    match After(text, "const __filename = ")
    case None => None
    case Some(text1) =>
      match ReadLiteral(text1)
      case None => None
      case Some(file) =>
        match After(file.rest, ";const __dirname = ")
        case None => None
        case Some(text2) =>
          match ReadLiteral(text2)
          case None => None
          case Some(dir) =>
            match After(dir.rest, "; ")
            case None => None
            case Some(content) => Some((file.value, dir.value, content))
  }

  lemma AfterSkips(beginning: string, text: string)
    ensures After(beginning + text, beginning) == Some(text)
  {
    assert (beginning + text)[|beginning|..] == text;
  }

  /** Whatever characters a path holds, the module sees it as it is, and its own source unchanged. */
  lemma PrefixIsExact(path: string, directory: string, content: string)
    ensures ReadPrefixed(Prefixed(path, directory, content)) == Some((path, directory, content))
  {
    var rest2 := "; " + content;
    var rest1 := ";const __dirname = " + (Escaped(directory) + rest2);
    hide Escaped, ReadLiteral, After;
    assert Prefixed(path, directory, content) == "const __filename = " + (Escaped(path) + rest1);
    AfterSkips("const __filename = ", Escaped(path) + rest1);
    LiteralIsExact(path, rest1);
    AfterSkips(";const __dirname = ", Escaped(directory) + rest2);
    LiteralIsExact(directory, rest2);
    AfterSkips("; ", content);
  }
}
