/** Text helpers in the shape of Go's strings and strconv packages, with the facts the
    other modules need. A `string` stands for a Go byte string unless a module says otherwise. */
module Text {

  datatype Option<+T> = None | Some(value: T)

  /* ---- Order: Go's < on strings ---- */

  predicate Less(a: string, b: string)
  {
    if b == "" then false
    else if a == "" then true
    else if a[0] != b[0] then a[0] < b[0]
    else Less(a[1..], b[1..])
  }

  lemma LessTotal(a: string, b: string)
    ensures !(Less(a, b) && Less(b, a))
    ensures a == b <==> !Less(a, b) && !Less(b, a)
  {
    if a != "" && b != "" && a[0] == b[0] {
      LessTotal(a[1..], b[1..]);
      assert a == [a[0]] + a[1..] && b == [b[0]] + b[1..];
    }
  }

  lemma LessTransitive(a: string, b: string, c: string)
    requires Less(a, b) && Less(b, c)
    ensures Less(a, c)
  {
    if a != "" && a[0] == b[0] && b[0] == c[0] {
      LessTransitive(a[1..], b[1..], c[1..]);
    }
  }

  /** Where two texts part, the smaller character or the shorter text comes first. */
  ghost predicate PartsBelow(a: string, b: string, k: nat) {
    k <= |a| && k < |b| && a[..k] == b[..k] && (k == |a| || a[k] < b[k])
  }

  lemma {:induction false} LessMeans(a: string, b: string)
    ensures Less(a, b) <==> exists k: nat :: PartsBelow(a, b, k)
  {
    if a == "" || b == "" || a[0] != b[0] {
      if Less(a, b) {
        assert PartsBelow(a, b, 0);
      }
    } else {
      LessMeans(a[1..], b[1..]);
      if Less(a, b) {
        var k: nat :| PartsBelow(a[1..], b[1..], k);
        PartsDeeper(a, b, k);
      }
      if k: nat :| PartsBelow(a, b, k) {
        PartsDeeper(a, b, k - 1);
      }
    }
  }

  lemma PartsDeeper(a: string, b: string, k: nat)
    requires a != "" && b != "" && a[0] == b[0]
    ensures PartsBelow(a, b, k + 1) <==> PartsBelow(a[1..], b[1..], k)
  {
    if k < |a| && k + 1 < |b| {
      assert a[..k + 1] == [a[0]] + a[1..][..k] && b[..k + 1] == [b[0]] + b[1..][..k];
    }
  }

  /* ---- strings.HasPrefix, strings.Split, strings.Join ---- */

  predicate HasPrefix(s: string, prefix: string)
  {
    |prefix| <= |s| && s[..|prefix|] == prefix
  }

  predicate Contains(s: string, part: string) {
    exists k :: 0 <= k <= |s| && HasPrefix(s[k..], part)
  }

  function Split(s: string, sep: char): (parts: seq<string>)
    ensures |parts| >= 1
    ensures forall part :: part in parts ==> sep !in part
  {
    if s == "" then [""]
    else if s[0] == sep then [""] + Split(s[1..], sep)
    else Longer(s[0], Split(s[1..], sep))
  }

  /** The first part gets one more character in front. */
  function Longer(c: char, parts: seq<string>): seq<string>
    requires |parts| >= 1
  {
    [[c] + parts[0]] + parts[1..]
  }

  lemma LongerAppend(c: char, a: seq<string>, b: seq<string>)
    requires |a| >= 1
    ensures Longer(c, a + b) == Longer(c, a) + b
  {
  }

  lemma Regroup<T>(a: seq<T>, b: seq<T>, c: seq<T>)
    ensures a + (b + c) == (a + b) + c
  {
  }

  function Join(parts: seq<string>, sep: char): string
  {
    if |parts| == 0 then ""
    else if |parts| == 1 then parts[0]
    else parts[0] + [sep] + Join(parts[1..], sep)
  }

  lemma {:induction false} JoinSplit(s: string, sep: char)
    ensures Join(Split(s, sep), sep) == s
  {
    if s != "" {
      JoinSplit(s[1..], sep);
      var rest := Split(s[1..], sep);
      if s[0] == sep {
        assert Split(s, sep)[1..] == rest;
        assert [sep] + s[1..] == s;
      } else {
        assert Split(s, sep)[1..] == rest[1..];
        if |rest| == 1 {
          assert [s[0]] + s[1..] == s;
        } else {
          assert [s[0]] + (rest[0] + [sep] + Join(rest[1..], sep)) == [s[0]] + rest[0] + [sep] + Join(rest[1..], sep);
          assert [s[0]] + s[1..] == s;
        }
      }
    }
  }

  lemma SplitInjective(a: string, b: string, sep: char)
    requires Split(a, sep) == Split(b, sep)
    ensures a == b
  {
    JoinSplit(a, sep);
    JoinSplit(b, sep);
  }

  lemma {:induction false} SplitAt(a: string, sep: char, b: string)
    ensures Split(a + [sep] + b, sep) == Split(a, sep) + Split(b, sep)
  {
    var s := a + [sep] + b;
    if a == "" {
      assert s[1..] == b;
    } else {
      SplitAt(a[1..], sep, b);
      assert s[0] == a[0] && s[1..] == a[1..] + [sep] + b;
      if a[0] == sep {
        Regroup([""], Split(a[1..], sep), Split(b, sep));
      } else {
        LongerAppend(a[0], Split(a[1..], sep), Split(b, sep));
      }
    }
  }

  lemma {:induction false} SplitPlain(s: string, sep: char)
    requires sep !in s
    ensures Split(s, sep) == [s]
  {
    if s != "" {
      SplitPlain(s[1..], sep);
      assert [s[0]] + s[1..] == s;
    }
  }

  lemma {:induction false} SplitJoin(parts: seq<string>, sep: char)
    requires |parts| >= 1
    requires forall part :: part in parts ==> sep !in part
    ensures Split(Join(parts, sep), sep) == parts
  {
    SplitPlain(parts[0], sep);
    if |parts| > 1 {
      SplitJoin(parts[1..], sep);
      SplitAt(parts[0], sep, Join(parts[1..], sep));
      assert [parts[0]] + parts[1..] == parts;
    }
  }

  /* ---- strings.TrimSpace, restricted to the ASCII white space characters ---- */

  predicate IsSpace(c: char)
  {
    c == ' ' || '\t' <= c <= '\r'
  }

  function TrimLeft(s: string): (r: string)
    ensures |r| <= |s|
    ensures r != "" ==> !IsSpace(r[0])
  {
    if s != "" && IsSpace(s[0]) then TrimLeft(s[1..]) else s
  }

  function TrimRight(s: string): (r: string)
    ensures r <= s
    ensures r != "" ==> !IsSpace(r[|r| - 1])
  {
    if s != "" && IsSpace(s[|s| - 1]) then TrimRight(s[..|s| - 1]) else s
  }

  function TrimSpace(s: string): (r: string)
    ensures r != "" ==> !IsSpace(r[0]) && !IsSpace(r[|r| - 1])
  {
    TrimRight(TrimLeft(s))
  }

  predicate Trimmed(s: string)
  {
    s == "" || (!IsSpace(s[0]) && !IsSpace(s[|s| - 1]))
  }

  lemma TrimTrimmed(s: string)
    requires Trimmed(s)
    ensures TrimSpace(s) == s
  {
  }

  /* ---- Blank text: strings.TrimSpace(s) == "" with all of Unicode's white space ---- */

  /** unicode.IsSpace of a code point. */
  predicate WhiteSpace(code: int) {
    || 0x09 <= code <= 0x0D || code == 0x20 || code == 0x85 || code == 0xA0 || code == 0x1680
    || 0x2000 <= code <= 0x200A || code == 0x2028 || code == 0x2029 || code == 0x202F || code == 0x205F || code == 0x3000
  }

  /** Text held as code points is blank. */
  predicate Blank(s: string) {
    forall c :: c in s ==> WhiteSpace(c as int)
  }

  /** The code point of the two- or three-byte UTF-8 sequence at the front, by its shape alone. */
  function LeadingCode(bytes: string): (int, nat) {
    if bytes == "" then (-1, 0)
    else
      var b := bytes[0] as int;
      if b < 0x80 then (b, 1)
      else if 0xC2 <= b < 0xE0 && |bytes| >= 2 && Continuation(bytes[1]) then
        ((b - 0xC0) * 64 + bytes[1] as int - 0x80, 2)
      else if 0xE0 <= b < 0xF0 && |bytes| >= 3 && Continuation(bytes[1]) && Continuation(bytes[2]) then
        var code := (b - 0xE0) * 4096 + (bytes[1] as int - 0x80) * 64 + bytes[2] as int - 0x80;
        (if code >= 0x800 then code else -1, 3)
      else (-1, 0)
  }

  predicate Continuation(c: char) {
    0x80 <= c as int < 0xC0
  }

  /** Text held as bytes is blank: it is a sequence of UTF-8 encodings of white space. */
  predicate BlankBytes(bytes: string)
    decreases |bytes|
  {
    var (code, n) := LeadingCode(bytes);
    bytes == "" || (WhiteSpace(code) && 0 < n <= |bytes| && BlankBytes(bytes[n..]))
  }

  /* ---- strconv.Itoa and strconv.Atoi (base 10) ---- */

  predicate IsDigit(c: char)
  {
    '0' <= c <= '9'
  }

  predicate AllDigits(s: string)
  {
    forall i :: 0 <= i < |s| ==> IsDigit(s[i])
  }

  function Digit(d: nat): (c: char)
    requires d < 10
    ensures IsDigit(c) && DigitValue(c) == d
  {
    ('0' as int + d) as char
  }

  function DigitValue(c: char): (d: nat)
    requires IsDigit(c)
    ensures d < 10
  {
    c as int - '0' as int
  }

  function NatText(n: nat): (s: string)
    ensures |s| >= 1 && AllDigits(s)
    ensures n > 0 ==> s[0] != '0'
    ensures n < 10 <==> |s| == 1
    ensures n < 100 <==> |s| <= 2
    ensures n < 1000 <==> |s| <= 3
  {
    if n < 10 then [Digit(n)] else NatText(n / 10) + [Digit(n % 10)]
  }

  function NatValue(s: string): nat
    requires AllDigits(s)
  {
    if s == "" then 0 else 10 * NatValue(s[..|s| - 1]) + DigitValue(s[|s| - 1])
  }

  lemma {:induction false} NatRoundTrip(n: nat)
    ensures NatValue(NatText(n)) == n
  {
    if n < 10 {
      assert NatText(n)[..0] == "";
      assert NatValue("") == 0;
    } else {
      NatRoundTrip(n / 10);
      assert NatText(n)[..|NatText(n)| - 1] == NatText(n / 10);
    }
  }

  function Itoa(n: int): (s: string)
    ensures s != ""
    ensures forall i :: 0 <= i < |s| ==> IsDigit(s[i]) || s[i] == '-'
  {
    if n < 0 then "-" + NatText(-n) else NatText(n)
  }

  /** strconv.Atoi without its bound on the value: an optional sign and at least one digit. */
  function ParseInt(s: string): Option<int>
  {
    if s != "" && (s[0] == '-' || s[0] == '+') then
      if |s| > 1 && AllDigits(s[1..]) then
        var n: int := NatValue(s[1..]);
        Some(if s[0] == '-' then -n else n)
      else None
    else if s != "" && AllDigits(s) then Some(NatValue(s))
    else None
  }

  lemma ItoaRoundTrip(n: int)
    ensures ParseInt(Itoa(n)) == Some(n)
    ensures TrimSpace(Itoa(n)) == Itoa(n)
  {
    ItoaParses(n);
  }

  lemma ItoaParses(n: int)
    ensures ParseInt(Itoa(n)) == Some(n)
  {
    var digits := NatText(if n < 0 then -n else n);
    NatRoundTrip(if n < 0 then -n else n);
    assert !IsDigit('-') && !IsDigit('+');
    if n < 0 {
      assert Itoa(n)[1..] == digits;
    }
  }

  lemma ItoaInjective(a: int, b: int)
    requires Itoa(a) == Itoa(b)
    ensures a == b
  {
    ItoaRoundTrip(a);
    ItoaRoundTrip(b);
  }
}
