/** Canonical section names of Project Tidy (internal/reaper/tidy_survey.go:399-476). What depends on
    Unicode tables is a parameter; the section names of the conventions are ASCII. */
module TidyNames {
  import opened Text

  /** unicode.IsSpace, unicode.IsLetter or unicode.IsDigit, unicode.ToLower and unicode.ToUpper. */
  datatype CharTable = CharTable(space: char -> bool, wordChar: char -> bool, lower: char -> char, upper: char -> char)

  datatype MarkerCase = TitleCase | SentenceCase | UpperCase | LowerCase

  datatype Naming = Naming(markerCase: MarkerCase, spaceBeforeNumber: bool, sections: seq<string>)

  predicate IsAscii(c: char) {
    c as int < 128
  }

  predicate IsUpper(c: char) {
    'A' <= c <= 'Z'
  }

  predicate IsLower(c: char) {
    'a' <= c <= 'z'
  }

  function AsciiLower(c: char): char {
    if IsUpper(c) then (c as int + 32) as char else c
  }

  function AsciiUpper(c: char): char {
    if IsLower(c) then (c as int - 32) as char else c
  }

  /** The table is the usual one on ASCII; lower case makes no white space into a letter or digit, and
      nothing but a space or hyphen into one. */
  ghost predicate Lawful(t: CharTable) {
    && (forall c: char :: IsAscii(c) ==>
          && t.space(c) == IsSpace(c) && t.wordChar(c) == (IsUpper(c) || IsLower(c) || IsDigit(c))
          && t.lower(c) == AsciiLower(c) && t.upper(c) == AsciiUpper(c))
    && (forall c: char :: t.space(c) ==> !t.wordChar(t.lower(c)))
    && (forall c: char :: IsJoiner(t.lower(c)) ==> IsJoiner(c))
  }

  predicate IsJoiner(c: char) {
    c == ' ' || c == '-'
  }

  /* ---- strings.TrimFunc, strings.Map, strings.FieldsFunc ---- */

  function DropStart(s: string, drop: char -> bool): (r: string)
    ensures |r| <= |s|
  {
    if s != "" && drop(s[0]) then DropStart(s[1..], drop) else s
  }

  function DropEnd(s: string, drop: char -> bool): (r: string)
    ensures r <= s
    ensures r != "" ==> !drop(r[|r| - 1])
  {
    if s != "" && drop(s[|s| - 1]) then DropEnd(s[..|s| - 1], drop) else s
  }

  function Trim(t: CharTable, s: string): string {
    DropEnd(DropStart(s, t.space), t.space)
  }

  function Map(s: string, f: char -> char): (r: string)
    ensures |r| == |s|
  {
    if s == "" then "" else [f(s[0])] + Map(s[1..], f)
  }

  function Filter(s: string, keep: char -> bool): string {
    if s == "" then "" else (if keep(s[0]) then [s[0]] else "") + Filter(s[1..], keep)
  }

  /** The length of the part of s before its first separator. */
  function RunLength(s: string, separator: char -> bool): (n: nat)
    ensures n <= |s|
    ensures forall i :: 0 <= i < n ==> !separator(s[i])
  {
    if s == "" || separator(s[0]) then 0 else 1 + RunLength(s[1..], separator)
  }

  function Fields(s: string, separator: char -> bool): (fields: seq<string>)
    ensures forall f :: f in fields ==> f != "" && forall i :: 0 <= i < |f| ==> !separator(f[i]) && f[i] in s
    decreases |s|
  {
    if s == "" then []
    else if separator(s[0]) then Fields(s[1..], separator)
    else
      var n := RunLength(s, separator);
      [s[..n]] + Fields(s[n..], separator)
  }

  /* ---- Letters and digits ---- */

  function NotWordChar(t: CharTable): char -> bool {
    c => !t.wordChar(c)
  }

  function NormalizeWords(t: CharTable, value: string): string {
    Join(Fields(Map(value, t.lower), NotWordChar(t)), ' ')
  }

  predicate NotBlank(c: char) {
    c != ' '
  }

  /** Two names match when these agree. */
  function MatchKey(t: CharTable, value: string): string {
    Filter(NormalizeWords(t, value), NotBlank)
  }

  /** The letters and digits of a name, in lower case. */
  function Letters(t: CharTable, s: string): string {
    Filter(Map(s, t.lower), t.wordChar)
  }

  lemma {:induction false} FilterAppend(a: string, b: string, keep: char -> bool)
    ensures Filter(a + b, keep) == Filter(a, keep) + Filter(b, keep)
  {
    if a == "" {
      assert a + b == b;
    } else {
      FilterAppend(a[1..], b, keep);
      assert (a + b)[0] == a[0] && (a + b)[1..] == a[1..] + b;
      Regroup(if keep(a[0]) then [a[0]] else "", Filter(a[1..], keep), Filter(b, keep));
    }
  }

  lemma {:induction false} MapAppend(a: string, b: string, f: char -> char)
    ensures Map(a + b, f) == Map(a, f) + Map(b, f)
  {
    if a == "" {
      assert a + b == b;
    } else {
      MapAppend(a[1..], b, f);
      assert (a + b)[0] == a[0] && (a + b)[1..] == a[1..] + b;
      Regroup([f(a[0])], Map(a[1..], f), Map(b, f));
    }
  }

  lemma LettersAppend(t: CharTable, a: string, b: string)
    ensures Letters(t, a + b) == Letters(t, a) + Letters(t, b)
  {
    MapAppend(a, b, t.lower);
    FilterAppend(Map(a, t.lower), Map(b, t.lower), t.wordChar);
  }

  lemma LettersOfChar(t: CharTable, c: char)
    ensures Letters(t, [c]) == if t.wordChar(t.lower(c)) then [t.lower(c)] else ""
  {
    var one := [c];
    assert one[1..] == "" && Map(one[1..], t.lower) == "";
    var m := Map(one, t.lower);
    assert m == [t.lower(c)] && m[1..] == "" && Filter(m[1..], t.wordChar) == "";
  }

  lemma {:induction false} FilterAll(s: string, keep: char -> bool)
    requires forall i :: 0 <= i < |s| ==> keep(s[i])
    ensures Filter(s, keep) == s
  {
    if s != "" {
      FilterAll(s[1..], keep);
    }
  }

  lemma {:induction false} FilterNone(s: string, keep: char -> bool)
    requires forall i :: 0 <= i < |s| ==> !keep(s[i])
    ensures Filter(s, keep) == ""
  {
    if s != "" {
      FilterNone(s[1..], keep);
    }
  }

  lemma {:induction false} FieldsKeepLetters(t: CharTable, s: string, separator: char -> bool, glue: string)
    requires forall c: char :: separator(c) ==> !t.wordChar(c)
    requires |glue| == 1 && !t.wordChar(glue[0])
    ensures Filter(Join(Fields(s, separator), glue[0]), t.wordChar) == Filter(s, t.wordChar)
    decreases |s|
  {
    if s != "" {
      if separator(s[0]) {
        FieldsKeepLetters(t, s[1..], separator, glue);
      } else {
        var n := RunLength(s, separator);
        var rest := Fields(s[n..], separator);
        FieldsKeepLetters(t, s[n..], separator, glue);
        assert s == s[..n] + s[n..];
        FilterAppend(s[..n], s[n..], t.wordChar);
        assert Fields(s, separator)[1..] == rest;
        if rest != [] {
          FilterAppend(s[..n] + [glue[0]], Join(rest, glue[0]), t.wordChar);
          FilterAppend(s[..n], [glue[0]], t.wordChar);
          FilterNone([glue[0]], t.wordChar);
        }
      }
    }
  }

  lemma {:induction false} FilterSame(s: string, f: char -> bool, g: char -> bool)
    requires forall i :: 0 <= i < |s| ==> f(s[i]) == g(s[i])
    ensures Filter(s, f) == Filter(s, g)
  {
    if s != "" {
      FilterSame(s[1..], f, g);
    }
  }

  lemma {:induction false} JoinedChars(t: CharTable, parts: seq<string>)
    requires forall p :: p in parts ==> forall i :: 0 <= i < |p| ==> t.wordChar(p[i])
    ensures forall i :: 0 <= i < |Join(parts, ' ')| ==> t.wordChar(Join(parts, ' ')[i]) || Join(parts, ' ')[i] == ' '
  {
    if |parts| > 1 {
      JoinedChars(t, parts[1..]);
    }
  }

  /** Names match when they have the same letters and digits. */
  lemma MatchKeyIsLetters(t: CharTable, value: string)
    requires Lawful(t)
    ensures MatchKey(t, value) == Letters(t, value)
  {
    var lowered := Map(value, t.lower);
    var words := Fields(lowered, NotWordChar(t));
    FieldsKeepLetters(t, lowered, NotWordChar(t), " ");
    JoinedChars(t, words);
    assert !t.wordChar(' ');
    FilterSame(Join(words, ' '), NotBlank, t.wordChar);
  }

  lemma {:induction false} DropStartKeepsLetters(t: CharTable, s: string, drop: char -> bool)
    requires forall c: char :: drop(c) ==> !t.wordChar(t.lower(c))
    ensures Letters(t, DropStart(s, drop)) == Letters(t, s)
  {
    if s != "" && drop(s[0]) {
      DropStartKeepsLetters(t, s[1..], drop);
      assert s == [s[0]] + s[1..];
      LettersAppend(t, [s[0]], s[1..]);
      LettersOfChar(t, s[0]);
    }
  }

  lemma {:induction false} DropEndKeepsLetters(t: CharTable, s: string, drop: char -> bool)
    requires forall c: char :: drop(c) ==> !t.wordChar(t.lower(c))
    ensures Letters(t, DropEnd(s, drop)) == Letters(t, s)
  {
    if s != "" && drop(s[|s| - 1]) {
      var n := |s| - 1;
      DropEndKeepsLetters(t, s[..n], drop);
      assert s == s[..n] + [s[n]];
      LettersAppend(t, s[..n], [s[n]]);
      LettersOfChar(t, s[n]);
    }
  }

  lemma TrimKeepsLetters(t: CharTable, s: string)
    requires Lawful(t)
    ensures Letters(t, Trim(t, s)) == Letters(t, s)
  {
    DropStartKeepsLetters(t, s, t.space);
    DropEndKeepsLetters(t, DropStart(s, t.space), t.space);
  }

  /* ---- applyTidyCase ---- */

  function Capital(t: CharTable, word: string): string {
    if word == "" then "" else [t.upper(word[0])] + word[1..]
  }

  function Capitals(t: CharTable, words: seq<string>): (r: seq<string>)
    ensures |r| == |words|
  {
    if words == [] then [] else [Capital(t, words[0])] + Capitals(t, words[1..])
  }

  function JoinerAt(joiners: string, i: nat): char {
    if i < |joiners| then joiners[i] else ' '
  }

  /** The words from the i-th on, each after a joiner; a space where joiners run out. */
  function WeaveFrom(words: seq<string>, joiners: string, i: nat): string
    requires i > 0
    decreases |words| - i
  {
    if i >= |words| then "" else [JoinerAt(joiners, i - 1)] + words[i] + WeaveFrom(words, joiners, i + 1)
  }

  function Weave(words: seq<string>, joiners: string): string {
    if words == [] then "" else words[0] + WeaveFrom(words, joiners, 1)
  }

  function ApplyCase(t: CharTable, value: string, markerCase: MarkerCase): string {
    match markerCase
    case UpperCase => Map(value, t.upper)
    case LowerCase => Map(value, t.lower)
    case SentenceCase => Capital(t, Map(value, t.lower))
    case TitleCase => Weave(Capitals(t, Fields(Map(value, t.lower), IsJoiner)), Filter(value, IsJoiner))
  }

  ghost predicate AllAscii(s: string) {
    forall i :: 0 <= i < |s| ==> IsAscii(s[i])
  }

  lemma {:induction false} LettersSame(t: CharTable, a: string, b: string)
    requires |a| == |b| && forall i :: 0 <= i < |a| ==> t.lower(a[i]) == t.lower(b[i])
    ensures Letters(t, a) == Letters(t, b)
  {
    if a != "" {
      LettersSame(t, a[1..], b[1..]);
    }
  }

  lemma {:induction false} MapAt(s: string, f: char -> char)
    ensures forall i :: 0 <= i < |s| ==> Map(s, f)[i] == f(s[i])
  {
    if s != "" {
      MapAt(s[1..], f);
    }
  }

  ghost predicate Lowered(t: CharTable, s: string) {
    forall i :: 0 <= i < |s| ==> IsAscii(s[i]) && t.lower(s[i]) == s[i]
  }

  lemma AsciiLowered(t: CharTable, s: string)
    requires Lawful(t) && AllAscii(s)
    ensures Lowered(t, Map(s, t.lower)) && Letters(t, Map(s, t.lower)) == Letters(t, s)
  {
    MapAt(s, t.lower);
    LettersSame(t, Map(s, t.lower), s);
  }

  lemma AsciiRaised(t: CharTable, s: string)
    requires Lawful(t) && AllAscii(s)
    ensures Letters(t, Map(s, t.upper)) == Letters(t, s)
  {
    MapAt(s, t.upper);
    LettersSame(t, Map(s, t.upper), s);
  }

  lemma CapitalKeepsLetters(t: CharTable, word: string)
    requires Lawful(t) && AllAscii(word)
    ensures Letters(t, Capital(t, word)) == Letters(t, word)
  {
    if word != "" {
      assert IsAscii(word[0]);
      LettersSame(t, Capital(t, word), word);
    }
  }

  lemma {:induction false} CapitalsAt(t: CharTable, words: seq<string>)
    ensures forall i :: 0 <= i < |words| ==> Capitals(t, words)[i] == Capital(t, words[i])
  {
    if words != [] {
      CapitalsAt(t, words[1..]);
    }
  }

  lemma {:induction false} WeaveFromLetters(t: CharTable, words: seq<string>, joiners: string, i: nat)
    requires Lawful(t) && forall w :: w in words ==> AllAscii(w)
    requires forall i :: 0 <= i < |joiners| ==> IsJoiner(joiners[i])
    requires 0 < i < |words|
    ensures Letters(t, WeaveFrom(Capitals(t, words), joiners, i)) == Letters(t, Join(words[i..], ' '))
    decreases |words| - i
  {
    var capitals := Capitals(t, words);
    var joiner, rest := JoinerAt(joiners, i - 1), WeaveFrom(capitals, joiners, i + 1);
    CapitalsAt(t, words);
    CapitalKeepsLetters(t, words[i]);
    LettersAppend(t, [joiner] + capitals[i], rest);
    if i + 1 < |words| {
      WeaveFromLetters(t, words, joiners, i + 1);
      assert words[i..][1..] == words[i + 1..];
      LettersOfWoven(t, words[i], ' ', Join(words[i + 1..], ' '));
    } else {
      assert rest == "" && Letters(t, rest) == "";
    }
  }

  lemma WeaveKeepsLetters(t: CharTable, words: seq<string>, joiners: string)
    requires Lawful(t) && forall w :: w in words ==> AllAscii(w)
    requires forall i :: 0 <= i < |joiners| ==> IsJoiner(joiners[i])
    ensures Letters(t, Weave(Capitals(t, words), joiners)) == Letters(t, Join(words, ' '))
  {
    if words != [] {
      var capitals := Capitals(t, words);
      CapitalsAt(t, words);
      CapitalKeepsLetters(t, words[0]);
      if |words| > 1 {
        WeaveFromLetters(t, words, joiners, 1);
        LettersAppend(t, capitals[0], WeaveFrom(capitals, joiners, 1));
        LettersOfWoven(t, words[0], ' ', Join(words[1..], ' '));
      } else {
        assert Weave(capitals, joiners) == capitals[0];
      }
    }
  }

  lemma LettersOfWoven(t: CharTable, a: string, joiner: char, b: string)
    requires Lawful(t) && IsJoiner(joiner)
    ensures Letters(t, a + [joiner] + b) == Letters(t, a) + Letters(t, b)
  {
    LettersAppend(t, a + [joiner], b);
    LettersAppend(t, a, [joiner]);
    LettersOfChar(t, joiner);
    assert IsAscii(joiner) && t.lower(joiner) == joiner && !t.wordChar(joiner);
  }

  lemma {:induction false} FilterKept(s: string, keep: char -> bool)
    ensures forall i :: 0 <= i < |Filter(s, keep)| ==> keep(Filter(s, keep)[i])
  {
    if s != "" {
      FilterKept(s[1..], keep);
    }
  }

  lemma {:induction false} JoinedLowered(t: CharTable, words: seq<string>)
    requires Lawful(t) && forall w :: w in words ==> Lowered(t, w)
    ensures Lowered(t, Join(words, ' '))
  {
    assert IsAscii(' ') && t.lower(' ') == ' ';
    if words != [] {
      assert Lowered(t, words[0]);
      if |words| > 1 {
        JoinedLowered(t, words[1..]);
      }
    }
  }

  lemma {:induction false} MapSame(s: string, f: char -> char)
    requires forall i :: 0 <= i < |s| ==> f(s[i]) == s[i]
    ensures Map(s, f) == s
  {
    if s != "" {
      MapSame(s[1..], f);
    }
  }

  lemma TitleKeepsLetters(t: CharTable, value: string)
    requires Lawful(t) && AllAscii(value)
    ensures Letters(t, ApplyCase(t, value, TitleCase)) == Letters(t, value)
  {
    var lowered := Map(value, t.lower);
    var words := Fields(lowered, IsJoiner);
    AsciiLowered(t, value);
    forall w | w in words ensures Lowered(t, w) && AllAscii(w) {
      forall i | 0 <= i < |w| ensures IsAscii(w[i]) && t.lower(w[i]) == w[i] {
        assert w[i] in lowered;
      }
    }
    FilterKept(value, IsJoiner);
    WeaveKeepsLetters(t, words, Filter(value, IsJoiner));
    JoinedLowered(t, words);
    MapSame(Join(words, ' '), t.lower);
    forall c: char | IsJoiner(c) ensures !t.wordChar(c) {
      assert IsAscii(c);
    }
    FieldsKeepLetters(t, lowered, IsJoiner, " ");
  }

  /** A change of case keeps the letters and digits. */
  lemma CaseKeepsLetters(t: CharTable, value: string, markerCase: MarkerCase)
    requires Lawful(t) && AllAscii(value)
    ensures Letters(t, ApplyCase(t, value, markerCase)) == Letters(t, value)
  {
    match markerCase
    case UpperCase => AsciiRaised(t, value);
    case LowerCase => AsciiLowered(t, value);
    case SentenceCase =>
      AsciiLowered(t, value);
      assert AllAscii(Map(value, t.lower));
      CapitalKeepsLetters(t, Map(value, t.lower));
    case TitleCase => TitleKeepsLetters(t, value);
  }

  /* ---- What a change of case looks like ---- */

  /** Single joiners between words; the first character of a word is no lower case letter, the others are no
      upper case letters. At the start of s a word is to begin, unless inWord is set. */
  predicate TitleShaped(s: string, inWord: bool) {
    s == "" ||
    if IsJoiner(s[0]) then inWord && |s| > 1 && TitleShaped(s[1..], false)
    else (if inWord then !IsUpper(s[0]) else !IsLower(s[0])) && TitleShaped(s[1..], true)
  }

  predicate NoUpper(s: string) {
    forall i :: 0 <= i < |s| ==> !IsUpper(s[i])
  }

  predicate NoLower(s: string) {
    forall i :: 0 <= i < |s| ==> !IsLower(s[i])
  }

  lemma {:induction false} InsideWord(word: string, rest: string)
    requires NoUpper(word) && (forall i :: 0 <= i < |word| ==> !IsJoiner(word[i])) && TitleShaped(rest, true)
    ensures TitleShaped(word + rest, true)
  {
    if word == "" {
      assert word + rest == rest;
    } else {
      InsideWord(word[1..], rest);
      assert (word + rest)[1..] == word[1..] + rest;
    }
  }

  /** A word of a title: lower case, not empty, without joiners. */
  ghost predicate TitleWord(t: CharTable, word: string) {
    word != "" && Lowered(t, word) && forall i :: 0 <= i < |word| ==> !IsJoiner(word[i])
  }

  lemma CapitalShaped(t: CharTable, word: string, rest: string)
    requires Lawful(t) && TitleWord(t, word) && TitleShaped(rest, true)
    ensures TitleShaped(Capital(t, word) + rest, false)
  {
    var title := Capital(t, word) + rest;
    assert IsAscii(word[0]) && title[0] == AsciiUpper(word[0]) && title[1..] == word[1..] + rest;
    forall i | 1 <= i < |word| ensures !IsUpper(word[i]) {
      assert IsAscii(word[i]);
    }
    InsideWord(word[1..], rest);
  }

  lemma {:induction false} WeaveFromShaped(t: CharTable, words: seq<string>, joiners: string, i: nat)
    requires Lawful(t) && forall w :: w in words ==> TitleWord(t, w)
    requires forall k :: 0 <= k < |joiners| ==> IsJoiner(joiners[k])
    requires i > 0
    ensures TitleShaped(WeaveFrom(Capitals(t, words), joiners, i), true)
    decreases |words| - i
  {
    if i < |words| {
      var capitals := Capitals(t, words);
      var rest := WeaveFrom(capitals, joiners, i + 1);
      CapitalsAt(t, words);
      WeaveFromShaped(t, words, joiners, i + 1);
      CapitalShaped(t, words[i], rest);
      var woven := WeaveFrom(capitals, joiners, i);
      assert woven[0] == JoinerAt(joiners, i - 1) && woven[1..] == capitals[i] + rest;
    }
  }

  lemma TitleIsShaped(t: CharTable, value: string)
    requires Lawful(t) && AllAscii(value)
    ensures TitleShaped(ApplyCase(t, value, TitleCase), false)
  {
    var lowered := Map(value, t.lower);
    var words := Fields(lowered, IsJoiner);
    AsciiLowered(t, value);
    forall w | w in words ensures TitleWord(t, w) {
      forall i | 0 <= i < |w| ensures IsAscii(w[i]) && t.lower(w[i]) == w[i] {
        assert w[i] in lowered;
      }
    }
    FilterKept(value, IsJoiner);
    if words != [] {
      CapitalsAt(t, words);
      WeaveFromShaped(t, words, Filter(value, IsJoiner), 1);
      CapitalShaped(t, words[0], WeaveFrom(Capitals(t, words), Filter(value, IsJoiner), 1));
    }
  }

  /** The four cases do what their names say. */
  lemma CaseShapes(t: CharTable, value: string)
    requires Lawful(t) && AllAscii(value)
    ensures NoLower(ApplyCase(t, value, UpperCase)) && NoUpper(ApplyCase(t, value, LowerCase))
    ensures var sentence := ApplyCase(t, value, SentenceCase);
            |sentence| == |value| && (value != "" ==> !IsLower(sentence[0]) && NoUpper(sentence[1..]))
    ensures TitleShaped(ApplyCase(t, value, TitleCase), false)
  {
    MapAt(value, t.upper);
    MapAt(value, t.lower);
    TitleIsShaped(t, value);
  }

  /* ---- canonicalTidySectionName ---- */

  predicate IsDash(c: char) {
    c == '-' || c == '_'
  }

  /** Where the digits at the end of s start. */
  function NumberAt(s: string): (n: nat)
    ensures n <= |s| && AllDigits(s[n..])
    ensures n > 0 ==> !IsDigit(s[n - 1])
  {
    if s != "" && IsDigit(s[|s| - 1]) then
      var n := NumberAt(s[..|s| - 1]);
      assert s[n..] == s[..|s| - 1][n..] + [s[|s| - 1]];
      n
    else |s|
  }

  function BaseOf(t: CharTable, trimmed: string): string {
    var n := NumberAt(trimmed);
    if n < |trimmed| then Trim(t, DropEnd(trimmed[..n], IsDash)) else trimmed
  }

  function NumberOf(trimmed: string): string {
    trimmed[NumberAt(trimmed)..]
  }

  /** The first section with this key, or "". */
  function SectionFor(t: CharTable, sections: seq<string>, key: string): string {
    if sections == [] then ""
    else if MatchKey(t, sections[0]) == key then sections[0]
    else SectionFor(t, sections[1..], key)
  }

  function WithNumber(base: string, number: string, naming: Naming): string {
    if number == "" then base else if naming.spaceBeforeNumber then base + " " + number else base + number
  }

  function CanonicalName(t: CharTable, name: string, naming: Naming): Option<string> {
    var trimmed := Trim(t, name);
    var section := SectionFor(t, naming.sections, MatchKey(t, BaseOf(t, trimmed)));
    if trimmed == "" || section == "" then None
    else Some(WithNumber(ApplyCase(t, section, naming.markerCase), NumberOf(trimmed), naming))
  }

  /** The name a marker has once its survey is applied. */
  function TidyName(t: CharTable, name: string, naming: Naming): string {
    match CanonicalName(t, name, naming)
    case None => name
    case Some(c) => c
  }

  /** An ASCII section name whose last letter or digit is a letter. */
  ghost predicate GoodSection(t: CharTable, section: string) {
    && AllAscii(section) && Letters(t, section) != ""
    && !IsDigit(Letters(t, section)[|Letters(t, section)| - 1])
  }

  ghost predicate GoodNaming(t: CharTable, naming: Naming) {
    forall section :: section in naming.sections ==> GoodSection(t, section)
  }

  ghost predicate EndsInLetter(t: CharTable, s: string) {
    Letters(t, s) != "" && !IsDigit(Letters(t, s)[|Letters(t, s)| - 1])
  }

  lemma LastNotDigit(t: CharTable, s: string)
    requires Lawful(t) && EndsInLetter(t, s)
    ensures s != "" && !IsDigit(s[|s| - 1])
  {
    assert s != "" by {
      assert Letters(t, "") == "";
    }
    var n := |s| - 1;
    assert s == s[..n] + [s[n]];
    LettersAppend(t, s[..n], [s[n]]);
    LettersOfChar(t, s[n]);
  }

  lemma {:induction false} NumberAtAppend(p: string, number: string)
    requires AllDigits(number) && (p == "" || !IsDigit(p[|p| - 1]))
    ensures NumberAt(p + number) == |p|
  {
    if number == "" {
      assert p + number == p;
    } else {
      var s, n := p + number, |number| - 1;
      assert s[|s| - 1] == number[n] && s[..|s| - 1] == p + number[..n];
      NumberAtAppend(p, number[..n]);
    }
  }

  lemma {:induction false} DropStartAppend(a: string, b: string, drop: char -> bool)
    requires DropStart(a, drop) != ""
    ensures DropStart(a + b, drop) == DropStart(a, drop) + b
  {
    assert (a + b)[0] == a[0];
    if drop(a[0]) {
      DropStartAppend(a[1..], b, drop);
      assert (a + b)[1..] == a[1..] + b;
    }
  }

  lemma {:induction false} SectionForKey(t: CharTable, sections: seq<string>, key: string)
    ensures var section := SectionFor(t, sections, key);
            section != "" ==> section in sections && MatchKey(t, section) == key
  {
    if sections != [] && MatchKey(t, sections[0]) != key {
      SectionForKey(t, sections[1..], key);
    }
  }

  lemma DigitsAreLetters(t: CharTable, number: string)
    requires Lawful(t) && AllDigits(number)
    ensures Letters(t, number) == number
  {
    assert forall i :: 0 <= i < |number| ==> IsAscii(number[i]);
    MapSame(number, t.lower);
    FilterAll(number, t.wordChar);
  }

  lemma BaseKeepsLetters(t: CharTable, trimmed: string)
    requires Lawful(t)
    ensures Letters(t, BaseOf(t, trimmed)) == Letters(t, trimmed[..NumberAt(trimmed)])
    ensures Letters(t, trimmed) == Letters(t, BaseOf(t, trimmed)) + NumberOf(trimmed)
  {
    var n := NumberAt(trimmed);
    assert trimmed == trimmed[..n] + trimmed[n..];
    LettersAppend(t, trimmed[..n], trimmed[n..]);
    DigitsAreLetters(t, trimmed[n..]);
    if n < |trimmed| {
      CutBaseKeepsLetters(t, trimmed[..n]);
    } else {
      assert trimmed[..n] == trimmed;
    }
  }

  lemma CutBaseKeepsLetters(t: CharTable, base: string)
    requires Lawful(t)
    ensures Letters(t, Trim(t, DropEnd(base, IsDash))) == Letters(t, base)
  {
    forall c: char | IsDash(c) ensures !t.wordChar(t.lower(c)) {
      assert IsAscii(c);
    }
    DropEndKeepsLetters(t, base, IsDash);
    TrimKeepsLetters(t, DropEnd(base, IsDash));
  }

  lemma WithNumberLetters(t: CharTable, base: string, number: string, naming: Naming)
    requires Lawful(t) && AllDigits(number)
    ensures Letters(t, WithNumber(base, number, naming)) == Letters(t, base) + number
  {
    DigitsAreLetters(t, number);
    if number != "" {
      if naming.spaceBeforeNumber {
        LettersOfWoven(t, base, ' ', number);
      } else {
        LettersAppend(t, base, number);
      }
    }
  }

  /** Renaming keeps the letters and digits of the name: it changes case, spaces and punctuation only. */
  lemma RenameKeepsLetters(t: CharTable, name: string, naming: Naming)
    requires Lawful(t) && forall section :: section in naming.sections ==> AllAscii(section)
    ensures Letters(t, TidyName(t, name, naming)) == Letters(t, name)
  {
    if CanonicalName(t, name, naming).Some? {
      var trimmed := Trim(t, name);
      var base := BaseOf(t, trimmed);
      var section := SectionFor(t, naming.sections, MatchKey(t, base));
      SectionForKey(t, naming.sections, MatchKey(t, base));
      MatchKeyIsLetters(t, base);
      MatchKeyIsLetters(t, section);
      CaseKeepsLetters(t, section, naming.markerCase);
      WithNumberLetters(t, ApplyCase(t, section, naming.markerCase), NumberOf(trimmed), naming);
      BaseKeepsLetters(t, trimmed);
      TrimKeepsLetters(t, name);
    }
  }

  /** A good base followed by a number splits back into that number and a base with the same letters. */
  lemma NumberSplitsOff(t: CharTable, base: string, number: string, naming: Naming)
    requires Lawful(t) && EndsInLetter(t, base) && AllDigits(number)
    ensures var trimmed := Trim(t, WithNumber(base, number, naming));
            && trimmed != "" && NumberOf(trimmed) == number
            && Letters(t, BaseOf(t, trimmed)) == Letters(t, base)
  {
    var named := WithNumber(base, number, naming);
    var trimmed := Trim(t, named);
    var front := if number == "" then trimmed else DropStart(named[..|named| - |number|], t.space);
    FrontOf(t, base, number, naming, front);
    NumberAtAppend(front, number);
    assert trimmed[..|front|] == front && trimmed[|front|..] == number;
    BaseKeepsLetters(t, trimmed);
  }

  lemma FrontOf(t: CharTable, base: string, number: string, naming: Naming, front: string)
    requires Lawful(t) && EndsInLetter(t, base) && AllDigits(number)
    requires var named := WithNumber(base, number, naming);
             front == if number == "" then Trim(t, named) else DropStart(named[..|named| - |number|], t.space)
    ensures Trim(t, WithNumber(base, number, naming)) == front + number
    ensures front != "" && !IsDigit(front[|front| - 1]) && Letters(t, front) == Letters(t, base)
  {
    if number == "" {
      TrimKeepsLetters(t, base);
      assert front + number == front;
    } else {
      var named := WithNumber(base, number, naming);
      var q := named[..|named| - |number|];
      assert named == q + number;
      FrontLetters(t, base, number, naming, q);
      TrimBeforeNumber(t, q, number);
    }
    LastNotDigit(t, front);
  }

  lemma TrimBeforeNumber(t: CharTable, q: string, number: string)
    requires Lawful(t) && EndsInLetter(t, q) && AllDigits(number) && number != ""
    ensures var front := DropStart(q, t.space);
            Trim(t, q + number) == front + number && Letters(t, front) == Letters(t, q)
  {
    var front := DropStart(q, t.space);
    DropStartKeepsLetters(t, q, t.space);
    LastNotDigit(t, front);
    DropStartAppend(q, number, t.space);
    EndsInNumber(t, front, number);
  }

  lemma EndsInNumber(t: CharTable, front: string, number: string)
    requires Lawful(t) && AllDigits(number) && number != ""
    ensures DropEnd(front + number, t.space) == front + number
  {
    assert IsAscii(number[|number| - 1]);
  }

  lemma FrontLetters(t: CharTable, base: string, number: string, naming: Naming, q: string)
    requires Lawful(t) && AllDigits(number)
    requires WithNumber(base, number, naming) == q + number
    ensures Letters(t, q) == Letters(t, base)
  {
    WithNumberLetters(t, base, number, naming);
    LettersAppend(t, q, number);
    DigitsAreLetters(t, number);
    SameFront(Letters(t, q), Letters(t, base), number);
  }

  lemma SameFront(a: string, b: string, tail: string)
    requires a + tail == b + tail
    ensures a == b
  {
    assert |a| == |b| && (a + tail)[..|a|] == a && (b + tail)[..|b|] == b;
  }

  /** A section's name with a number reads back as the same key and number. */
  lemma ReadsAsSection(t: CharTable, section: string, number: string, naming: Naming)
    requires Lawful(t) && GoodSection(t, section) && AllDigits(number)
    ensures var trimmed := Trim(t, WithNumber(ApplyCase(t, section, naming.markerCase), number, naming));
            && trimmed != "" && NumberOf(trimmed) == number
            && MatchKey(t, BaseOf(t, trimmed)) == MatchKey(t, section)
  {
    var cased := ApplyCase(t, section, naming.markerCase);
    CaseKeepsLetters(t, section, naming.markerCase);
    NumberSplitsOff(t, cased, number, naming);
    MatchKeyIsLetters(t, BaseOf(t, Trim(t, WithNumber(cased, number, naming))));
    MatchKeyIsLetters(t, section);
  }

  /** The canonical name of a canonical name is itself. */
  lemma CanonicalIsStable(t: CharTable, name: string, naming: Naming)
    requires Lawful(t) && GoodNaming(t, naming)
    requires CanonicalName(t, name, naming).Some?
    ensures CanonicalName(t, CanonicalName(t, name, naming).value, naming) == CanonicalName(t, name, naming)
  {
    var trimmed := Trim(t, name);
    var key := MatchKey(t, BaseOf(t, trimmed));
    var section := SectionFor(t, naming.sections, key);
    SectionForKey(t, naming.sections, key);
    ReadsAsSection(t, section, NumberOf(trimmed), naming);
  }

  lemma CanonicalIsNamed(t: CharTable, name: string, naming: Naming)
    requires Lawful(t) && GoodNaming(t, naming)
    requires CanonicalName(t, name, naming).Some?
    ensures CanonicalName(t, name, naming).value != ""
  {
    CanonicalIsStable(t, name, naming);
  }

  lemma {:induction false} SectionForFound(t: CharTable, sections: seq<string>, section: string, key: string)
    requires section in sections && MatchKey(t, section) == key && "" !in sections
    ensures SectionFor(t, sections, key) != ""
  {
    assert sections[0] in sections;
    if MatchKey(t, sections[0]) != key {
      SectionForFound(t, sections[1..], section, key);
    }
  }

  lemma NamePart(t: CharTable, name: string)
    requires Lawful(t)
    ensures Letters(t, name) == MatchKey(t, BaseOf(t, Trim(t, name))) + NumberOf(Trim(t, name))
  {
    TrimKeepsLetters(t, name);
    BaseKeepsLetters(t, Trim(t, name));
    MatchKeyIsLetters(t, BaseOf(t, Trim(t, name)));
  }

  /** A name is recognised when its letters and digits, apart from the number at its end, are those of a section. */
  lemma RecognisedNames(t: CharTable, name: string, naming: Naming)
    requires Lawful(t) && GoodNaming(t, naming)
    ensures CanonicalName(t, name, naming).Some?
            <==> exists section :: section in naming.sections && Letters(t, section) + NumberOf(Trim(t, name)) == Letters(t, name)
  {
    var trimmed := Trim(t, name);
    var key := MatchKey(t, BaseOf(t, trimmed));
    NamePart(t, name);
    if CanonicalName(t, name, naming).Some? {
      SectionForKey(t, naming.sections, key);
      MatchKeyIsLetters(t, SectionFor(t, naming.sections, key));
    }
    if section :| section in naming.sections && Letters(t, section) + NumberOf(trimmed) == Letters(t, name) {
      SameFront(Letters(t, section), key, NumberOf(trimmed));
      MatchKeyIsLetters(t, section);
      SectionForFound(t, naming.sections, section, key);
      TrimKeepsLetters(t, name);
      assert GoodSection(t, section);
      assert trimmed != "" by {
        assert Letters(t, "") == "";
      }
    }
  }

  /* ---- Sections that end in digits ---- */

  lemma LettersStep(t: CharTable, s: string)
    requires s != ""
    ensures Letters(t, s)
            == if t.wordChar(t.lower(s[0])) then [t.lower(s[0])] + Letters(t, s[1..]) else Letters(t, s[1..])
  {
    assert Map(s, t.lower)[1..] == Map(s[1..], t.lower);
  }

  lemma LettersOfA(t: CharTable, s: string)
    requires Lawful(t) && s == "a"
    ensures MatchKey(t, s) == "a"
  {
    assert IsAscii('a');
    LettersStep(t, s);
    MatchKeyIsLetters(t, s);
  }

  lemma LettersOfOne(t: CharTable, s: string)
    requires Lawful(t) && |s| == 2 && IsJoiner(s[0]) && s[1] == '1'
    ensures Letters(t, s) == "1"
  {
    assert IsAscii(s[0]) && IsAscii(s[1]);
    LettersStep(t, s);
    LettersStep(t, s[1..]);
  }

  lemma LettersOfThree(t: CharTable, s: string)
    requires Lawful(t) && |s| == 3 && s[0] == 'a' && IsJoiner(s[1]) && s[2] == '1'
    ensures Letters(t, s) == "a1" && MatchKey(t, s) == "a1"
  {
    assert IsAscii(s[0]);
    LettersStep(t, s);
    LettersOfOne(t, s[1..]);
    MatchKeyIsLetters(t, s);
  }

  lemma LettersOfFive(t: CharTable, s: string)
    requires Lawful(t) && |s| == 5 && s[0] == 'a' && IsJoiner(s[1]) && s[2] == '1' && IsJoiner(s[3]) && s[4] == '1'
    ensures MatchKey(t, s) == "a11"
  {
    var front, back := s[..3], s[3..];
    assert s == front + back;
    LettersOfThree(t, front);
    LettersOfOne(t, back);
    LettersAppend(t, front, back);
    MatchKeyIsLetters(t, s);
  }

  function DigitSections(): seq<string> {
    ["a 1 1", "a 1", "a"]
  }

  lemma SectionOfThree(t: CharTable, a: string, b: string, c: string, key: string)
    ensures SectionFor(t, [a, b, c], key)
            == if MatchKey(t, a) == key then a
               else if MatchKey(t, b) == key then b
               else if MatchKey(t, c) == key then c else ""
  {
    var all, two, one := [a, b, c], [b, c], [c];
    var none := one[1..];
    assert SectionFor(t, none, key) == "";
    assert SectionFor(t, one, key) == if MatchKey(t, c) == key then c else "";
    assert two[0] == b && two[1..] == one;
    assert all[0] == a && all[1..] == two;
  }

  lemma FoundDigitSections(t: CharTable)
    requires Lawful(t)
    ensures SectionFor(t, DigitSections(), "a11") == "a 1 1"
    ensures SectionFor(t, DigitSections(), "a1") == "a 1" && SectionFor(t, DigitSections(), "a") == "a"
  {
    LettersOfFive(t, "a 1 1");
    LettersOfThree(t, "a 1");
    LettersOfA(t, "a");
    SectionOfThree(t, "a 1 1", "a 1", "a", "a11");
    SectionOfThree(t, "a 1 1", "a 1", "a", "a1");
    SectionOfThree(t, "a 1 1", "a 1", "a", "a");
  }

  lemma TrimPlain(t: CharTable, s: string)
    requires s != "" && !t.space(s[0]) && !t.space(s[|s| - 1])
    ensures Trim(t, s) == s
  {
  }

  /** What is read from a name of a base, one separator and a number. */
  lemma BaseAndNumber(t: CharTable, base: string, separator: char, number: string)
    requires Lawful(t) && (separator == ' ' || separator == '-') && number != "" && AllDigits(number)
    requires base != "" && !t.space(base[0]) && !t.space(base[|base| - 1]) && !IsDash(base[|base| - 1])
    ensures var name := base + [separator] + number;
            Trim(t, name) == name && BaseOf(t, name) == base && NumberOf(name) == number
  {
    var front := base + [separator];
    var name := front + number;
    assert IsAscii(number[|number| - 1]) && IsAscii(separator);
    TrimPlain(t, name);
    NumberAtAppend(front, number);
    assert name[..|front|] == front && name[|front|..] == number && front[..|base|] == base;
    BaseBack(t, base, separator);
  }

  lemma BaseBack(t: CharTable, base: string, separator: char)
    requires Lawful(t) && (separator == ' ' || separator == '-')
    requires base != "" && !t.space(base[0]) && !t.space(base[|base| - 1]) && !IsDash(base[|base| - 1])
    ensures Trim(t, DropEnd(base + [separator], IsDash)) == base
  {
    var front := base + [separator];
    assert IsAscii(separator) && front[..|base|] == base;
    assert DropEnd(base, IsDash) == base && DropEnd(base, t.space) == base;
    assert DropStart(front, t.space) == front && DropStart(base, t.space) == base;
    if separator == '-' {
      assert DropEnd(front, IsDash) == base;
    } else {
      assert DropEnd(front, IsDash) == front && DropEnd(front, t.space) == base;
    }
  }

  lemma {:induction false} LowerStays(t: CharTable, s: string)
    requires Lawful(t) && forall c :: c in s ==> IsAscii(c) && !IsUpper(c)
    ensures Map(s, t.lower) == s
  {
    if s != "" {
      LowerStays(t, s[1..]);
      assert s[0] in s && s == [s[0]] + s[1..];
    }
  }

  lemma ShiftedName(t: CharTable, naming: Naming, name: string, base: string, number: string, section: string)
    requires Trim(t, name) == name && BaseOf(t, name) == base && NumberOf(name) == number && name != "" && number != ""
    requires section != "" && SectionFor(t, naming.sections, MatchKey(t, base)) == section
    requires naming.markerCase.LowerCase? && !naming.spaceBeforeNumber && Map(section, t.lower) == section
    ensures CanonicalName(t, name, naming) == Some(section + number)
  {
  }

  /** One rename by a section, whose number then stands behind the section's own digits. */
  lemma ShiftTo(t: CharTable, naming: Naming, name: string, base: string, separator: char, number: string,
                section: string)
    requires Lawful(t) && naming.markerCase.LowerCase? && !naming.spaceBeforeNumber
    requires (separator == ' ' || separator == '-') && number != "" && AllDigits(number)
    requires name == base + [separator] + number && base != ""
    requires !t.space(base[0]) && !t.space(base[|base| - 1]) && !IsDash(base[|base| - 1])
    requires section != "" && SectionFor(t, naming.sections, MatchKey(t, base)) == section
    requires Map(section, t.lower) == section
    ensures TidyName(t, name, naming) == section + number
  {
    BaseAndNumber(t, base, separator, number);
    ShiftedName(t, naming, name, base, number, section);
  }

  lemma LowerSections(t: CharTable)
    requires Lawful(t)
    ensures forall section :: section in DigitSections() ==> Map(section, t.lower) == section
  {
    forall section | section in DigitSections() ensures Map(section, t.lower) == section {
      LowerStays(t, section);
    }
  }

  lemma PlainEnds(t: CharTable, base: string)
    requires Lawful(t) && base != "" && base[0] == 'a' && (base[|base| - 1] == 'a' || base[|base| - 1] == '1')
    ensures !t.space(base[0]) && !t.space(base[|base| - 1]) && !IsDash(base[|base| - 1])
  {
    assert IsAscii('a') && IsAscii('1');
  }

  lemma ShiftByThree(t: CharTable, naming: Naming, name: string, base: string, number: string, section: string)
    requires Lawful(t) && naming == Naming(LowerCase, false, DigitSections()) && number != "" && AllDigits(number)
    requires base == "a-1-1" && section == "a 1 1" && name == base + ['-'] + number
    ensures TidyName(t, name, naming) == section + number
  {
    LettersOfFive(t, base);
    FoundDigitSections(t);
    LowerSections(t);
    PlainEnds(t, base);
    ShiftTo(t, naming, name, base, '-', number, section);
  }

  lemma ShiftByTwo(t: CharTable, naming: Naming, name: string, base: string, number: string)
    requires Lawful(t) && naming == Naming(LowerCase, false, DigitSections()) && number != "" && AllDigits(number)
    requires base == "a 1" && name == base + [' '] + number
    ensures TidyName(t, name, naming) == base + number
  {
    LettersOfThree(t, base);
    FoundDigitSections(t);
    LowerSections(t);
    PlainEnds(t, base);
    ShiftTo(t, naming, name, base, ' ', number, base);
  }

  lemma ShiftByOne(t: CharTable, naming: Naming, name: string, base: string, number: string)
    requires Lawful(t) && naming == Naming(LowerCase, false, DigitSections()) && number != "" && AllDigits(number)
    requires base == "a" && name == base + [' '] + number
    ensures TidyName(t, name, naming) == base + number
  {
    LettersOfA(t, base);
    FoundDigitSections(t);
    LowerSections(t);
    PlainEnds(t, base);
    ShiftTo(t, naming, name, base, ' ', number, base);
  }

  /** The parts of the names "a-1-1-2", "a 1 12" and "a 112". */
  ghost predicate ShiftParts(three: string, two: string, one: string, first: string, second: string, third: string) {
    && three == "a-1-1" && two == "a 1" && one == "a"
    && first == "2" && second == "12" && third == "112"
  }

  lemma ShiftedSpelling(three: string, two: string, one: string, first: string, second: string, third: string)
    requires ShiftParts(three, two, one, first, second, third)
    ensures AllDigits(first) && AllDigits(second) && AllDigits(third)
    ensures "a 1 1" + first == two + [' '] + second && two + second == one + [' '] + third
  {
  }

  /** With sections that end in digits canonical names need not be fixed points: the number of one name is read
      together with the last digit of its section. "a-1-1-2" becomes "a 1 12", then "a 112", then "a112". */
  lemma DigitSectionsShift(t: CharTable, naming: Naming, three: string, two: string, one: string, first: string,
                           second: string, third: string)
    requires Lawful(t) && naming == Naming(LowerCase, false, DigitSections())
    requires ShiftParts(three, two, one, first, second, third)
    ensures TidyName(t, three + ['-'] + first, naming) == two + [' '] + second
    ensures TidyName(t, two + [' '] + second, naming) == one + [' '] + third
    ensures TidyName(t, one + [' '] + third, naming) == one + third
  {
    ShiftedSpelling(three, two, one, first, second, third);
    ShiftByThree(t, naming, three + ['-'] + first, three, first, "a 1 1");
    ShiftByTwo(t, naming, two + [' '] + second, two, second);
    ShiftByOne(t, naming, one + [' '] + third, one, third);
  }

  method FindNumber(base: string) returns (position: nat)
    ensures position == NumberAt(base)
  {
    position := |base|;
    while position > 0 && IsDigit(base[position - 1])
      invariant position <= |base| && NumberAt(base[..position]) == NumberAt(base)
    {
      assert base[..position][..position - 1] == base[..position - 1];
      position := position - 1;
    }
  }

  method FindSection(t: CharTable, sections: seq<string>, key: string) returns (section: string)
    ensures section == SectionFor(t, sections, key)
  {
    for i := 0 to |sections|
      invariant SectionFor(t, sections[i..], key) == SectionFor(t, sections, key)
    {
      if MatchKey(t, sections[i]) == key {
        return sections[i];
      }
    }
    return "";
  }

  /* ---- The form of a canonical name ---- */

  /** The first section with the key. */
  ghost predicate FirstSection(t: CharTable, sections: seq<string>, key: string, i: nat) {
    && i < |sections| && MatchKey(t, sections[i]) == key
    && forall k :: 0 <= k < i ==> MatchKey(t, sections[k]) != key
  }

  lemma {:induction false} SectionForFirst(t: CharTable, sections: seq<string>, key: string, i: nat)
    requires FirstSection(t, sections, key, i)
    ensures SectionFor(t, sections, key) == sections[i]
    decreases i
  {
    if i > 0 {
      assert MatchKey(t, sections[0]) != key;
      SectionForFirst(t, sections[1..], key, i - 1);
    }
  }

  /** A canonical name is the cased section, alone when the name has no number, and else followed by the number, behind
      exactly one space when the conventions want one. */
  ghost predicate HasForm(c: string, cased: string, number: string, naming: Naming) {
    if number == "" then c == cased
    else if naming.spaceBeforeNumber then
      && |c| == |cased| + 1 + |number| && c[..|cased|] == cased && c[|cased|] == ' ' && c[|cased| + 1..] == number
    else |c| == |cased| + |number| && c[..|cased|] == cased && c[|cased|..] == number
  }

  /** The section is the first with the letters of the name's base; the number is the digits at the end of the name. */
  lemma CanonicalForm(t: CharTable, name: string, naming: Naming, i: nat)
    requires Trim(t, name) != "" && FirstSection(t, naming.sections, MatchKey(t, BaseOf(t, Trim(t, name))), i)
    requires naming.sections[i] != ""
    ensures CanonicalName(t, name, naming).Some?
    ensures HasForm(CanonicalName(t, name, naming).value, ApplyCase(t, naming.sections[i], naming.markerCase),
                    NumberOf(Trim(t, name)), naming)
  {
    SectionForFirst(t, naming.sections, MatchKey(t, BaseOf(t, Trim(t, name))), i);
    FormOf(ApplyCase(t, naming.sections[i], naming.markerCase), NumberOf(Trim(t, name)), naming);
  }

  lemma FormOf(cased: string, number: string, naming: Naming)
    ensures HasForm(WithNumber(cased, number, naming), cased, number, naming)
  {
  }

  /* ---- Names that make the survey abort ---- */

  /** Title Case makes room for one joiner less than there are words, which fails when there are none. */
  predicate CaseAborts(t: CharTable, value: string, markerCase: MarkerCase) {
    markerCase.TitleCase? && |Fields(Map(value, t.lower), IsJoiner)| == 0
  }

  predicate NameAborts(t: CharTable, name: string, naming: Naming) {
    var trimmed := Trim(t, name);
    var section := SectionFor(t, naming.sections, MatchKey(t, BaseOf(t, trimmed)));
    trimmed != "" && section != "" && CaseAborts(t, section, naming.markerCase)
  }

  lemma {:induction false} NoFields(s: string, separator: char -> bool)
    ensures |Fields(s, separator)| == 0 <==> forall i :: 0 <= i < |s| ==> separator(s[i])
    decreases |s|
  {
    if s != "" && separator(s[0]) {
      NoFields(s[1..], separator);
      assert forall i :: 1 <= i < |s| ==> s[i] == s[1..][i - 1];
    }
  }

  /** Title Case aborts on sections of spaces and hyphens only. */
  lemma TitleAborts(t: CharTable, value: string)
    requires Lawful(t)
    ensures CaseAborts(t, value, TitleCase) <==> forall i :: 0 <= i < |value| ==> IsJoiner(value[i])
  {
    var lower := Map(value, t.lower);
    NoFields(lower, IsJoiner);
    MapAt(value, t.lower);
    assert forall i :: 0 <= i < |value| ==> lower[i] == t.lower(value[i]);
    forall i | 0 <= i < |value| ensures IsJoiner(lower[i]) <==> IsJoiner(value[i]) {
      assert IsAscii(value[i]) ==> t.lower(value[i]) == AsciiLower(value[i]);
    }
  }

  /** A section with a letter or digit makes no name abort. */
  lemma GoodNamesNeverAbort(t: CharTable, name: string, naming: Naming)
    requires Lawful(t) && forall section :: section in naming.sections ==> Letters(t, section) != ""
    ensures !NameAborts(t, name, naming)
  {
    var key := MatchKey(t, BaseOf(t, Trim(t, name)));
    var section := SectionFor(t, naming.sections, key);
    if section != "" {
      SectionForKey(t, naming.sections, key);
      TitleAborts(t, section);
      if forall i :: 0 <= i < |section| ==> IsJoiner(section[i]) {
        JoinersHaveNoLetters(t, section);
      }
    }
  }

  lemma {:induction false} JoinersHaveNoLetters(t: CharTable, s: string)
    requires Lawful(t) && forall i :: 0 <= i < |s| ==> IsJoiner(s[i])
    ensures Letters(t, s) == ""
  {
    if s != "" {
      assert IsJoiner(s[0]) && IsAscii(s[0]);
      JoinersHaveNoLetters(t, s[1..]);
    }
  }

  /** With the section "-" a marker that is named by a number alone makes the survey abort. */
  lemma HyphenSectionAborts(t: CharTable, spaceBeforeNumber: bool)
    requires Lawful(t)
    ensures NameAborts(t, "5", Naming(TitleCase, spaceBeforeNumber, ["-"]))
  {
    var name, section := "5", "-";
    assert IsAscii('5') && IsAscii('-');
    assert DropStart(name, t.space) == name && Trim(t, name) == name;
    assert NumberAt(name[..0]) == 0 && NumberAt(name) == 0;
    assert BaseOf(t, name) == "";
    MatchKeyIsLetters(t, "");
    MatchKeyIsLetters(t, section);
    JoinersHaveNoLetters(t, section);
    JoinersHaveNoLetters(t, "");
    TitleAborts(t, section);
  }

  /** The words of a value are at most one more than its joiners. */
  lemma {:induction false} JoinersSuffice(t: CharTable, value: string)
    requires Lawful(t)
    ensures |Fields(Map(value, t.lower), IsJoiner)| <= |Filter(value, IsJoiner)| + 1
  {
    FieldsByJoiners(Map(value, t.lower), IsJoiner);
    FewerJoiners(t, value);
  }

  lemma {:induction false} FewerJoiners(t: CharTable, value: string)
    requires Lawful(t)
    ensures |Filter(Map(value, t.lower), IsJoiner)| <= |Filter(value, IsJoiner)|
  {
    if value != "" {
      FewerJoiners(t, value[1..]);
      assert Map(value, t.lower)[1..] == Map(value[1..], t.lower);
    }
  }

  lemma {:induction false} FieldsByJoiners(s: string, separator: char -> bool)
    ensures |Fields(s, separator)| <= |Filter(s, separator)| + 1
    ensures s != "" && separator(s[0]) ==> |Fields(s, separator)| <= |Filter(s, separator)|
    decreases |s|
  {
    if s != "" {
      if separator(s[0]) {
        FieldsByJoiners(s[1..], separator);
      } else {
        var n := RunLength(s, separator);
        FieldsByJoiners(s[n..], separator);
        RunEnds(s, separator);
        assert s == s[..n] + s[n..];
        FilterAppend(s[..n], s[n..], separator);
      }
    }
  }

  lemma RunEnds(s: string, separator: char -> bool)
    ensures var n := RunLength(s, separator); n < |s| ==> separator(s[n])
  {
  }

  datatype NameCheck = Named(newName: string, changed: bool) | NameAborted

  method CanonicalTidySectionName(t: CharTable, name: string, naming: Naming) returns (check: NameCheck)
    requires Lawful(t)
    ensures check == NameAborted <==> NameAborts(t, name, naming)
    ensures !NameAborts(t, name, naming) ==>
              match CanonicalName(t, name, naming)
              case None => check == Named("", false)
              case Some(c) => check == Named(c, c != name)
  {
    var trimmed := Trim(t, name);
    if trimmed == "" {
      return Named("", false);
    }
    var base := trimmed;
    var number := "";
    var position := FindNumber(base);
    if position < |base| {
      number := base[position..];
      base := Trim(t, DropEnd(base[..position], IsDash));
    }
    var section := FindSection(t, naming.sections, MatchKey(t, base));
    if section == "" {
      return Named("", false);
    }
    var cased := ApplyTidyCase(t, section, naming.markerCase);
    if cased.None? {
      return NameAborted;
    }
    section := cased.value;
    if number != "" {
      if naming.spaceBeforeNumber {
        section := section + " " + number;
      } else {
        section := section + number;
      }
    }
    return Named(section, section != name);
  }

  /** None stands for the abort. */
  method ApplyTidyCase(t: CharTable, value: string, markerCase: MarkerCase) returns (cased: Option<string>)
    requires Lawful(t)
    ensures cased == if CaseAborts(t, value, markerCase) then None else Some(ApplyCase(t, value, markerCase))
  {
    match markerCase
    case UpperCase => return Some(Map(value, t.upper));
    case LowerCase => return Some(Map(value, t.lower));
    case SentenceCase => return Some(Capital(t, Map(value, t.lower)));
    case TitleCase => cased := ApplyTitleCase(t, value);
  }

  method SeparatorsOf(value: string) returns (separators: string)
    ensures separators == Filter(value, IsJoiner)
  {
    separators := "";
    for i := 0 to |value|
      invariant separators + Filter(value[i..], IsJoiner) == Filter(value, IsJoiner)
    {
      if IsJoiner(value[i]) {
        separators := separators + [value[i]];
      }
    }
  }

  method Capitalize(t: CharTable, fields: seq<string>) returns (words: seq<string>)
    ensures words == Capitals(t, fields)
  {
    words := fields;
    for i := 0 to |fields|
      invariant |words| == |fields|
      invariant forall k :: 0 <= k < |fields| ==> words[k] == if k < i then Capital(t, fields[k]) else fields[k]
    {
      words := words[i := Capital(t, words[i])];
    }
    CapitalsAt(t, fields);
  }

  method ApplyTitleCase(t: CharTable, value: string) returns (title: Option<string>)
    requires Lawful(t)
    ensures title == if CaseAborts(t, value, TitleCase) then None else Some(ApplyCase(t, value, TitleCase))
  {
    var fields := Fields(Map(value, t.lower), IsJoiner);
    if |fields| == 0 {
      return None;
    }
    var separators := SeparatorsOf(value);
    JoinersSuffice(t, value);
    var words := Capitalize(t, fields);
    var woven := WeaveWords(words, separators);
    return Some(woven);
  }

  lemma WeaveStep(title: string, words: seq<string>, joiners: string, i: nat)
    requires 0 < i < |words| && i - 1 < |joiners|
    ensures title + WeaveFrom(words, joiners, i)
            == title + [joiners[i - 1]] + words[i] + WeaveFrom(words, joiners, i + 1)
  {
    var rest := WeaveFrom(words, joiners, i + 1);
    assert WeaveFrom(words, joiners, i) == [joiners[i - 1]] + words[i] + rest;
    Regroup(title, [joiners[i - 1]] + words[i], rest);
    Regroup(title, [joiners[i - 1]], words[i]);
  }

  method WeaveWords(words: seq<string>, separators: string) returns (title: string)
    requires |words| <= |separators| + 1
    ensures title == Weave(words, separators)
  {
    title := "";
    for i := 0 to |words|
      invariant i == 0 ==> title == ""
      invariant i > 0 ==> title + WeaveFrom(words, separators, i) == Weave(words, separators)
    {
      if i > 0 {
        WeaveStep(title, words, separators, i);
        title := title + [separators[i - 1]];
      }
      title := title + words[i];
    }
  }
}
