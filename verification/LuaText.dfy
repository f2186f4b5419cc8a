/** Lua string literals in decimal escapes (internal/reaper/edits.go, luaString), read back by the
    rules of section 3.1 of the Lua 5.4 Reference Manual. A character stands for one byte. */
module LuaText {
  import opened Text

  predicate Bytes(s: string) {
    forall i :: 0 <= i < |s| ==> s[i] as int < 256
  }

  function Escapes(value: string): string {
    if value == "" then "" else "\\" + NatText(value[0] as int) + Escapes(value[1..])
  }

  function Literal(value: string): string {
    "\"" + Escapes(value) + "\""
  }

  method LuaString(value: string) returns (quoted: string)
    ensures quoted == Literal(value)
  {
    quoted := "\"";
    for i := 0 to |value|
      invariant quoted == "\"" + Escapes(value[..i])
    {
      EscapesSnoc(value, i);
      quoted := quoted + "\\";
      quoted := quoted + NatText(value[i] as int);
    }
    assert value[..|value|] == value;
    quoted := quoted + "\"";
  }

  lemma {:induction false} EscapesAppend(a: string, b: string)
    ensures Escapes(a + b) == Escapes(a) + Escapes(b)
  {
    if a == "" {
      assert a + b == b;
    } else {
      EscapesAppend(a[1..], b);
      assert (a + b)[1..] == a[1..] + b;
      Regroup("\\" + NatText(a[0] as int), Escapes(a[1..]), Escapes(b));
    }
  }

  lemma EscapesSnoc(value: string, i: nat)
    requires i < |value|
    ensures "\"" + Escapes(value[..i + 1]) == "\"" + Escapes(value[..i]) + "\\" + NatText(value[i] as int)
  {
    var last := value[i..i + 1];
    assert value[..i + 1] == value[..i] + last;
    EscapesAppend(value[..i], last);
    assert last[1..] == "";
    assert Escapes(last) == "\\" + NatText(value[i] as int);
  }

  /* ---- The Lua lexer on a short literal ---- */

  /** How many decimal digits an escape takes: as many as follow, at most `most`. */
  function DigitRun(s: string, most: nat): (n: nat)
    ensures n <= |s| && n <= most
    ensures AllDigits(s[..n])
  {
    if most == 0 || s == "" || !IsDigit(s[0]) then 0 else 1 + DigitRun(s[1..], most - 1)
  }

  /** The single-character escapes; other escapes than these and the decimal one are not needed. */
  function SimpleEscape(c: char): Option<char> {
    match c
    case 'a' => Some(7 as char)
    case 'b' => Some(8 as char)
    case 'f' => Some(12 as char)
    case 'n' => Some(10 as char)
    case 'r' => Some(13 as char)
    case 't' => Some(9 as char)
    case 'v' => Some(11 as char)
    case '\\' => Some('\\')
    case '\"' => Some('\"')
    case '\'' => Some('\'')
    case _ => None
  }

  /** The characters of a literal up to its closing quote, and the text behind that quote. */
  function LexBody(s: string): Option<(string, string)>
    decreases |s|
  {
    if s == "" || s[0] == '\n' || s[0] == '\r' then None
    else if s[0] == '\"' then Some(("", s[1..]))
    else if s[0] != '\\' then Before(s[0], LexBody(s[1..]))
    else
      var n := DigitRun(s[1..], 3);
      if n > 0 then
        var value := NatValue(s[1..][..n]);
        if value > 255 then None else Before(value as char, LexBody(s[1 + n..]))
      else if |s| >= 2 && SimpleEscape(s[1]).Some? then Before(SimpleEscape(s[1]).value, LexBody(s[2..]))
      else None
  }

  function Before(c: char, rest: Option<(string, string)>): Option<(string, string)> {
    if rest.None? then None else Some(([c] + rest.value.0, rest.value.1))
  }

  function Lex(s: string): Option<(string, string)> {
    if s != "" && s[0] == '\"' then LexBody(s[1..]) else None
  }

  /** An escape takes exactly the digits it was written with when no digit follows them. */
  lemma {:induction false} DigitRunStops(digits: string, rest: string, most: nat)
    requires AllDigits(digits) && |digits| <= most
    requires rest == "" || !IsDigit(rest[0])
    ensures DigitRun(digits + rest, most) == |digits|
  {
    var s := digits + rest;
    if digits == "" {
      assert s == rest;
    } else {
      assert s[1..] == digits[1..] + rest;
      DigitRunStops(digits[1..], rest, most - 1);
    }
  }

  lemma LexEscape(c: char, rest: string)
    requires c as int < 256
    requires rest == "" || !IsDigit(rest[0])
    ensures LexBody("\\" + NatText(c as int) + rest) == Before(c, LexBody(rest))
  {
    var digits := NatText(c as int);
    var s := "\\" + digits + rest;
    assert s[1..] == digits + rest;
    DigitRunStops(digits, rest, 3);
    assert s[1..][..|digits|] == digits;
    NatRoundTrip(c as int);
    assert s[1 + |digits|..] == rest;
  }

  /** What follows an escape is the next escape or the closing quote, never a digit. */
  lemma {:induction false} LexEscapes(value: string, tail: string)
    requires Bytes(value) && tail != "" && tail[0] == '\"'
    ensures LexBody(Escapes(value) + tail) == Some((value, tail[1..]))
  {
    if value == "" {
      assert Escapes(value) + tail == tail;
    } else {
      var first, inner := "\\" + NatText(value[0] as int), Escapes(value[1..]);
      LexEscapes(value[1..], tail);
      Regroup(first, inner, tail);
      assert inner + tail != "" && !IsDigit((inner + tail)[0]);
      LexEscape(value[0], inner + tail);
      assert [value[0]] + value[1..] == value;
    }
  }

  /** Whatever text follows, the literal of any byte string ends at its own final quote and denotes
      exactly that byte string. */
  lemma LiteralRoundTrip(value: string, rest: string)
    requires Bytes(value)
    ensures Lex(Literal(value) + rest) == Some((value, rest))
  {
    var tail := "\"" + rest;
    LexEscapes(value, tail);
    Quoted(Escapes(value), rest);
  }

  lemma Quoted(body: string, rest: string)
    ensures var s := "\"" + body + "\"" + rest;
            s[0] == '\"' && s[1..] == body + ("\"" + rest) && ("\"" + rest)[1..] == rest
  {
  }

  /** The literal holds only its quotes, backslashes and digits, so no other Lua token can start
      inside it. */
  lemma {:induction false} EscapesAreInert(value: string)
    ensures forall i :: 0 <= i < |Escapes(value)| ==> Escapes(value)[i] == '\\' || IsDigit(Escapes(value)[i])
  {
    if value != "" {
      EscapesAreInert(value[1..]);
    }
  }
}
