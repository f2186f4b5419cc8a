/** The page cursor: "after:" and the last entry's id, percent-encoded
    (internal/reaper/studio_files.go). Strings are byte strings, one character a byte; `text`
    stands for utf8.ValidString together with studioPlainText. */
module StudioCursor {
  import opened Text

  const CURSOR_PREFIX := "after:"
  const MAX_CURSOR_BYTES := 512
  const MAX_NATIVE_ID_BYTES := 512

  predicate Kept(c: char) {
    || 'a' <= c <= 'z' || 'A' <= c <= 'Z' || '0' <= c <= '9'
    || c == '-' || c == '.' || c == '_' || c == '~' || c == '/'
  }

  predicate Bytes(s: string) {
    forall i :: 0 <= i < |s| ==> s[i] as int < 256
  }

  function HexDigit(n: nat): (c: char)
    requires n < 16
    ensures Unhex(c) == n
  {
    if n < 10 then ('0' as int + n) as char else ('A' as int + n - 10) as char
  }

  function Unhex(c: char): (n: int)
    ensures -1 <= n < 16
  {
    if '0' <= c <= '9' then c as int - '0' as int
    else if 'a' <= c <= 'f' then c as int - 'a' as int + 10
    else if 'A' <= c <= 'F' then c as int - 'A' as int + 10
    else -1
  }

  function EscapedByte(c: char): (s: string) {
    if Kept(c) then [c] else ['%', HexDigit(c as int / 16 % 16), HexDigit(c as int % 16)]
  }

  function Escaped(id: string): string {
    if id == "" then "" else EscapedByte(id[0]) + Escaped(id[1..])
  }

  function EncodedCursor(id: string): string {
    CURSOR_PREFIX + Escaped(id)
  }

  /** A decoded prefix followed by what the rest of the text decodes to. */
  function Joined(prefix: string, rest: Option<string>): Option<string> {
    match rest
    case None => None
    case Some(tail) => Some(prefix + tail)
  }

  lemma JoinedNone(rest: Option<string>)
    ensures Joined("", rest) == rest
  {
    if rest.Some? {
      assert "" + rest.value == rest.value;
    }
  }

  lemma JoinedTwice(a: string, b: string, rest: Option<string>)
    ensures Joined(a, Joined(b, rest)) == Joined(a + b, rest)
  {
    if rest.Some? {
      Regroup(a, b, rest.value);
    }
  }

  function Unescaped(encoded: string): Option<string> {
    if encoded == "" then Some("")
    else if encoded[0] == '%' then
      if |encoded| <= 2 || Unhex(encoded[1]) < 0 || Unhex(encoded[2]) < 0 then None
      else Joined([(16 * Unhex(encoded[1]) + Unhex(encoded[2])) as char], Unescaped(encoded[3..]))
    else if Kept(encoded[0]) then Joined([encoded[0]], Unescaped(encoded[1..]))
    else None
  }

  /** One byte as it may stand in a cursor: itself, or a percent sign and two hexadecimal digits of either case. */
  predicate Stands(piece: string, c: char) {
    || (|piece| == 1 && piece[0] == c && Kept(c))
    || (|piece| == 3 && piece[0] == '%' && DigitFor(piece[1], c as int / 16) && DigitFor(piece[2], c as int % 16))
  }

  predicate DigitFor(digit: char, n: int) {
    || (0 <= n < 10 && digit as int == '0' as int + n)
    || (10 <= n < 16 && (digit as int == 'a' as int + n - 10 || digit as int == 'A' as int + n - 10))
  }

  function Together(pieces: seq<string>): string {
    if pieces == [] then "" else pieces[0] + Together(pieces[1..])
  }

  /** The pieces stand for the bytes of the id and make up the text. */
  ghost predicate Spells(pieces: seq<string>, id: string, encoded: string) {
    && |pieces| == |id| && Together(pieces) == encoded
    && forall k :: 0 <= k < |id| ==> Stands(pieces[k], id[k])
  }

  lemma {:induction false} DecodedSpells(encoded: string) returns (pieces: seq<string>)
    requires Unescaped(encoded).Some?
    ensures Spells(pieces, Unescaped(encoded).value, encoded)
    decreases |encoded|
  {
    if encoded == "" {
      pieces := [];
    } else {
      var n := if encoded[0] == '%' then 3 else 1;
      var id := Unescaped(encoded).value;
      var rest := DecodedSpells(encoded[n..]);
      pieces := [encoded[..n]] + rest;
      assert pieces[1..] == rest && encoded == encoded[..n] + encoded[n..];
      assert id == [id[0]] + Unescaped(encoded[n..]).value;
    }
  }

  lemma StandsAtFront(piece: string, c: char, rest: string)
    requires Stands(piece, c)
    ensures Unescaped(piece + rest) == Joined([c], Unescaped(rest))
  {
    var encoded := piece + rest;
    if |piece| == 1 {
      assert encoded[1..] == rest;
    } else {
      assert encoded[0] == '%' && encoded[1] == piece[1] && encoded[2] == piece[2] && encoded[3..] == rest;
      DigitsStand(piece, c);
    }
  }

  lemma DigitsStand(piece: string, c: char)
    requires |piece| == 3 && DigitFor(piece[1], c as int / 16) && DigitFor(piece[2], c as int % 16)
    ensures Unhex(piece[1]) == c as int / 16 && Unhex(piece[2]) == c as int % 16
    ensures 0 <= Unhex(piece[1]) && (16 * Unhex(piece[1]) + Unhex(piece[2])) == c as int
  {
  }

  lemma {:induction false} SpelledDecodes(pieces: seq<string>, id: string, encoded: string)
    requires Spells(pieces, id, encoded)
    ensures Unescaped(encoded) == Some(id)
  {
    if id != "" {
      SpelledDecodes(pieces[1..], id[1..], Together(pieces[1..]));
      StandsAtFront(pieces[0], id[0], Together(pieces[1..]));
      assert [id[0]] + id[1..] == id;
    }
  }

  /** A text decodes to an id if and only if it is made up of what may stand for the id's bytes. */
  lemma UnescapedMeans(encoded: string, id: string)
    ensures Unescaped(encoded) == Some(id) <==> exists pieces :: Spells(pieces, id, encoded)
  {
    if Unescaped(encoded) == Some(id) {
      var pieces := DecodedSpells(encoded);
    }
    if pieces :| Spells(pieces, id, encoded) {
      SpelledDecodes(pieces, id, encoded);
    }
  }

  /** An id the walk or the plugin list can emit. */
  predicate EmitAble(id: string, text: string -> bool) {
    id != "" && Bytes(id) && |id| <= MAX_NATIVE_ID_BYTES && text(id)
  }

  /** Some("") asks for the first page; None is a cursor that cannot be honoured. */
  function DecodedCursor(cursor: string, text: string -> bool): Option<string> {
    if cursor == "" then Some("")
    else if |cursor| > MAX_CURSOR_BYTES || !HasPrefix(cursor, CURSOR_PREFIX) then None
    else
      match Unescaped(cursor[|CURSOR_PREFIX|..])
      case None => None
      case Some(id) =>
        if id == "" || |id| > MAX_NATIVE_ID_BYTES || !text(id) then None else Some(id)
  }

  method EncodeStudioCursor(nativeId: string) returns (cursor: string)
    ensures cursor == EncodedCursor(nativeId)
  {
    cursor := CURSOR_PREFIX;
    for i := 0 to |nativeId|
      invariant cursor == CURSOR_PREFIX + Escaped(nativeId[..i])
    {
      var c := nativeId[i];
      ghost var was := cursor;
      if Kept(c) {
        cursor := cursor + [c];
      } else {
        cursor := cursor + ['%', HexDigit(c as int / 16 % 16), HexDigit(c as int % 16)];
      }
      EscapedSnoc(nativeId, i);
    }
    assert nativeId[..|nativeId|] == nativeId;
  }

  lemma {:induction false} EscapedAppend(a: string, b: string)
    ensures Escaped(a + b) == Escaped(a) + Escaped(b)
  {
    if a == "" {
      assert a + b == b;
    } else {
      EscapedAppend(a[1..], b);
      assert (a + b)[1..] == a[1..] + b;
      Regroup(EscapedByte(a[0]), Escaped(a[1..]), Escaped(b));
    }
  }

  lemma EscapedSnoc(id: string, i: nat)
    requires i < |id|
    ensures CURSOR_PREFIX + Escaped(id[..i + 1])
            == CURSOR_PREFIX + Escaped(id[..i]) + EscapedByte(id[i])
  {
    var last := id[i..i + 1];
    assert id[..i + 1] == id[..i] + last;
    EscapedAppend(id[..i], last);
    assert Escaped(last) == EscapedByte(id[i]) + Escaped(last[1..]);
  }

  lemma JoinedEnd(decoded: string, tail: string)
    requires tail == ""
    ensures Joined(decoded, Unescaped(tail)) == Some(decoded)
  {
    assert decoded + "" == decoded;
  }

  /** One step of the decoding loop: what is left decodes after one more byte, or not at all. */
  lemma UnescapedStep(encoded: string, i: nat, decoded: string)
    requires i < |encoded|
    ensures var c, left := encoded[i], Joined(decoded, Unescaped(encoded[i..]));
            if c == '%' then
              if i + 2 >= |encoded| || Unhex(encoded[i + 1]) < 0 || Unhex(encoded[i + 2]) < 0 then left == None
              else left == Joined(decoded + [(16 * Unhex(encoded[i + 1]) + Unhex(encoded[i + 2])) as char],
                                  Unescaped(encoded[i + 3..]))
            else if Kept(c) then left == Joined(decoded + [c], Unescaped(encoded[i + 1..]))
            else left == None
  {
    var tail, c := encoded[i..], encoded[i];
    assert tail[0] == c && tail[1..] == encoded[i + 1..];
    if c == '%' && i + 2 < |encoded| && Unhex(encoded[i + 1]) >= 0 && Unhex(encoded[i + 2]) >= 0 {
      assert tail[1] == encoded[i + 1] && tail[2] == encoded[i + 2] && tail[3..] == encoded[i + 3..];
      var byte := (16 * Unhex(tail[1]) + Unhex(tail[2])) as char;
      JoinedTwice(decoded, [byte], Unescaped(tail[3..]));
    } else if Kept(c) {
      JoinedTwice(decoded, [c], Unescaped(tail[1..]));
    }
  }

  method DecodeStudioCursor(cursor: string, text: string -> bool) returns (id: Option<string>)
    ensures id == DecodedCursor(cursor, text)
  {
    if cursor == "" {
      return Some("");
    }
    if |cursor| > MAX_CURSOR_BYTES || !HasPrefix(cursor, CURSOR_PREFIX) {
      return None;
    }
    var encoded := cursor[|CURSOR_PREFIX|..];
    var decoded := "";
    var i := 0;
    assert encoded[0..] == encoded;
    JoinedNone(Unescaped(encoded));
    while i < |encoded|
      invariant 0 <= i <= |encoded|
      invariant Joined(decoded, Unescaped(encoded[i..])) == Unescaped(encoded)
    {
      var c := encoded[i];
      UnescapedStep(encoded, i, decoded);
      if c == '%' {
        if i + 2 >= |encoded| {
          return None;
        }
        var high, low := Unhex(encoded[i + 1]), Unhex(encoded[i + 2]);
        if high < 0 || low < 0 {
          return None;
        }
        decoded := decoded + [(16 * high + low) as char];
        i := i + 2;
      } else if Kept(c) {
        decoded := decoded + [c];
      } else {
        return None;
      }
      i := i + 1;
    }
    JoinedEnd(decoded, encoded[i..]);
    if decoded == "" || |decoded| > MAX_NATIVE_ID_BYTES || !text(decoded) {
      return None;
    }
    return Some(decoded);
  }

  /* ---- Round trips ---- */

  function EscapedCount(id: string): nat {
    if id == "" then 0 else (if Kept(id[0]) then 0 else 1) + EscapedCount(id[1..])
  }

  lemma {:induction false} EscapedLength(id: string)
    ensures |Escaped(id)| == |id| + 2 * EscapedCount(id)
    ensures EscapedCount(id) <= |id|
  {
    if id != "" {
      EscapedLength(id[1..]);
    }
  }

  lemma {:induction false} UnescapeEscaped(id: string)
    requires Bytes(id)
    ensures Unescaped(Escaped(id)) == Some(id)
  {
    if id != "" {
      UnescapeEscaped(id[1..]);
      UnescapeByte(id[0], Escaped(id[1..]));
      assert [id[0]] + id[1..] == id;
    }
  }

  lemma UnescapeByte(c: char, rest: string)
    requires c as int < 256
    ensures Unescaped(EscapedByte(c) + rest) == Joined([c], Unescaped(rest))
  {
    var s := EscapedByte(c) + rest;
    if Kept(c) {
      assert s[1..] == rest;
    } else {
      var high, low := HexDigit(c as int / 16 % 16), HexDigit(c as int % 16);
      assert s == ['%', high, low] + rest;
      assert s[1] == high && s[2] == low && s[3..] == rest;
    }
  }

  /** The cursor of an id has 6 + len + 2 * escaped bytes and decodes to that id exactly when it
      is at most 512 bytes long. */
  lemma CursorRoundTrip(id: string, text: string -> bool)
    requires EmitAble(id, text)
    ensures |EncodedCursor(id)| == 6 + |id| + 2 * EscapedCount(id)
    ensures DecodedCursor(EncodedCursor(id), text) == Some(id)
            <==> |EncodedCursor(id)| <= MAX_CURSOR_BYTES
    ensures |EncodedCursor(id)| > MAX_CURSOR_BYTES ==> DecodedCursor(EncodedCursor(id), text) == None
    ensures |id| <= 168 ==> DecodedCursor(EncodedCursor(id), text) == Some(id)
  {
    EscapedLength(id);
    UnescapeEscaped(id);
    assert EncodedCursor(id)[|CURSOR_PREFIX|..] == Escaped(id);
  }

  lemma {:induction false} AllEscaped(id: string)
    requires forall i :: 0 <= i < |id| ==> !Kept(id[i])
    ensures EscapedCount(id) == |id|
  {
    if id != "" {
      AllEscaped(id[1..]);
    }
  }

  /** The bound of 168 bytes is tight: 169 spaces make a cursor that is refused. */
  lemma LongIdIsReset(text: string -> bool)
    requires text(seq(169, _ => ' '))
    ensures var id := seq(169, _ => ' ');
            EmitAble(id, text) && DecodedCursor(EncodedCursor(id), text) == None
  {
    var id := seq(169, _ => ' ');
    AllEscaped(id);
    CursorRoundTrip(id, text);
  }

  lemma EncodeInjective(a: string, b: string)
    requires Bytes(a) && Bytes(b) && EncodedCursor(a) == EncodedCursor(b)
    ensures a == b
  {
    UnescapeEscaped(a);
    UnescapeEscaped(b);
    assert EncodedCursor(a)[|CURSOR_PREFIX|..] == Escaped(a);
    assert EncodedCursor(b)[|CURSOR_PREFIX|..] == Escaped(b);
  }

  lemma {:induction false} UnescapedBytes(encoded: string)
    requires Unescaped(encoded).Some?
    ensures Bytes(Unescaped(encoded).value)
  {
    if encoded != "" {
      UnescapedBytes(encoded[if encoded[0] == '%' then 3 else 1..]);
    }
  }

  /** Any cursor that is honoured names an id that can be emitted; encoding that id again gives a
      cursor for the same id wherever it fits. */
  lemma DecodeEncodeDecode(cursor: string, text: string -> bool)
    requires cursor != "" && DecodedCursor(cursor, text).Some?
    ensures var id := DecodedCursor(cursor, text).value;
            && EmitAble(id, text)
            && (|EncodedCursor(id)| <= MAX_CURSOR_BYTES ==>
                  DecodedCursor(EncodedCursor(id), text) == DecodedCursor(cursor, text))
  {
    UnescapedBytes(cursor[|CURSOR_PREFIX|..]);
    CursorRoundTrip(DecodedCursor(cursor, text).value, text);
  }
}
