/** Script files with a metadata header (internal/reaper/library.go): rendering and parsing. White
    space and letter case are those of ASCII. */
module ScriptLibrary {
  import opened Text

  const MAX_SCRIPT_BYTES := 1048576
  const MAX_FRONTMATTER := 8192
  const MAX_METADATA_LINE := 500

  datatype ScriptInput = ScriptInput(name: string, description: string, needsConfirmation: bool, code: string)

  datatype Frontmatter = Frontmatter(name: string, description: string, needsConfirmation: bool,
                                     valid: bool, body: string)

  predicate ValidMetadataLine(value: string) {
    |value| <= MAX_METADATA_LINE && '\r' !in value && '\n' !in value
  }

  /** ValidateScriptInput for an input whose file name is accepted. */
  predicate ValidInput(input: ScriptInput) {
    && ValidMetadataLine(input.name) && ValidMetadataLine(input.description)
    && TrimSpace(input.name) != ""
    && 0 < |input.code| <= MAX_SCRIPT_BYTES - MAX_FRONTMATTER
  }

  function Opening(): string { "--[[ori\n" }

  function OpeningCR(): string { "--[[ori\r\n" }

  function Closing(): string { "]]--" }

  /** One metadata line. */
  function Line(key: string, value: string): string {
    key + (": " + value)
  }

  function Confirm(needed: bool): string {
    if needed then "true" else "false"
  }

  function RenderScript(input: ScriptInput): string {
    Opening()
    + (Line("name", TrimSpace(input.name)) + ("\n"
    + (Line("description", TrimSpace(input.description)) + ("\n"
    + (Line("confirm", Confirm(input.needsConfirmation)) + ("\n"
    + (Closing() + ("\n" + input.code))))))))
  }

  /* ---- Parsing ---- */

  /** strings.Index of the closing mark. */
  function FindClosing(text: string): (at: Option<nat>)
    ensures at.Some? ==> at.value + 4 <= |text|
  {
    if HasPrefix(text, Closing()) then Some(0)
    else if text == "" then None
    else Later(1, FindClosing(text[1..]))
  }

  function Later(n: nat, at: Option<nat>): Option<nat> {
    if at.None? then None else Some(n + at.value)
  }

  function TrimPrefix(text: string, prefix: string): string {
    if HasPrefix(text, prefix) then text[|prefix|..] else text
  }

  /** strings.Cut at the first `sep`; None when there is none. */
  function Cut(s: string, sep: char): Option<(string, string)> {
    if s == "" then None
    else if s[0] == sep then Some(("", s[1..]))
    else
      var rest := Cut(s[1..], sep);
      if rest.None? then None else Some(([s[0]] + rest.value.0, rest.value.1))
  }

  function DropReturn(line: string): string {
    if line != "" && line[|line| - 1] == '\r' then line[..|line| - 1] else line
  }

  /** bufio.ScanLines: the lines without their ends; a last line without an end counts too. */
  function Lines(s: string): seq<string>
    decreases |s|
  {
    if s == "" then []
    else
      var cut := Cut(s, '\n');
      if cut.None? then [DropReturn(s)]
      else
        CutShortens(s, '\n');
        [DropReturn(cut.value.0)] + Lines(cut.value.1)
  }

  lemma {:induction false} CutShortens(s: string, sep: char)
    ensures Cut(s, sep).Some? ==> |Cut(s, sep).value.0| + 1 + |Cut(s, sep).value.1| == |s|
  {
    if s != "" {
      CutShortens(s[1..], sep);
    }
  }

  function Lower(s: string): string {
    seq(|s|, i requires 0 <= i < |s| =>
      if 'A' <= s[i] <= 'Z' then (s[i] as int - 'A' as int + 'a' as int) as char else s[i])
  }

  datatype Metadata = Metadata(name: string, description: string, needsConfirmation: bool, seenName: bool)

  /** What one line does to the metadata; None makes the whole header malformed. */
  function ReadLine(raw: string, m: Metadata): Option<Metadata> {
    var line := TrimSpace(raw);
    if line == "" then Some(m)
    else
      var cut := Cut(line, ':');
      if cut.None? then None
      else
        var key, value := Lower(TrimSpace(cut.value.0)), TrimSpace(cut.value.1);
        if key == "name" then
          if value == "" then None else Some(m.(name := value, seenName := true))
        else if key == "description" then Some(m.(description := value))
        else if key == "confirm" then
          if Lower(value) == "true" then Some(m.(needsConfirmation := true))
          else if Lower(value) == "false" then Some(m.(needsConfirmation := false))
          else None
        else Some(m)
  }

  function ReadLines(lines: seq<string>, m: Metadata): Option<Metadata>
    decreases |lines|
  {
    if lines == [] then Some(m)
    else
      var next := ReadLine(lines[0], m);
      if next.None? then None else ReadLines(lines[1..], next.value)
  }

  function Start(): Metadata {
    Metadata("", "", true, false)
  }

  function Malformed(text: string): Frontmatter {
    Frontmatter("", "", true, false, text)
  }

  function Parsed(text: string): Frontmatter {
    if !HasPrefix(text, Opening()) && !HasPrefix(text, OpeningCR()) then Malformed(text)
    else
      var end := FindClosing(text);
      if end.None? || end.value > MAX_FRONTMATTER then Malformed(text)
      else
        var header := TrimPrefix(TrimPrefix(text[..end.value], OpeningCR()), Opening());
        var body := TrimPrefix(TrimPrefix(text[end.value + 4..], "\r\n"), "\n");
        var m := ReadLines(Lines(header), Start());
        if m.None? || !m.value.seenName then Malformed(text)
        else Frontmatter(m.value.name, m.value.description, m.value.needsConfirmation, true, body)
  }

  method ParseFrontmatter(data: string) returns (f: Frontmatter)
    ensures f == Parsed(data)
  {
    if !HasPrefix(data, Opening()) && !HasPrefix(data, OpeningCR()) {
      return Malformed(data);
    }
    var end := FindClosing(data);
    if end.None? || end.value > MAX_FRONTMATTER {
      return Malformed(data);
    }
    var header := TrimPrefix(TrimPrefix(data[..end.value], OpeningCR()), Opening());
    var body := TrimPrefix(TrimPrefix(data[end.value + 4..], "\r\n"), "\n");
    var m := ReadHeader(Lines(header));
    if m.None? || !m.value.seenName {
      return Malformed(data);
    }
    return Frontmatter(m.value.name, m.value.description, m.value.needsConfirmation, true, body);
  }

  lemma ReadNext(lines: seq<string>, i: nat, m: Metadata)
    requires i < |lines|
    ensures ReadLines(lines[i..], m)
            == if ReadLine(lines[i], m).None? then None else ReadLines(lines[i + 1..], ReadLine(lines[i], m).value)
  {
    assert lines[i..][1..] == lines[i + 1..];
  }

  /** The loop over the header's lines. */
  method ReadHeader(lines: seq<string>) returns (read: Option<Metadata>)
    ensures read == ReadLines(lines, Start())
  {
    var m := Start();
    assert lines[0..] == lines;
    for i := 0 to |lines|
      invariant ReadLines(lines[i..], m) == ReadLines(lines, Start())
    {
      ReadNext(lines, i, m);
      var next := ReadLine(lines[i], m);
      if next.None? {
        return None;
      }
      m := next.value;
    }
    return Some(m);
  }

  /* ---- When a script runs without confirmation ---- */

  /** The line sets the key "confirm". */
  predicate SetsConfirm(raw: string) {
    var line := TrimSpace(raw);
    line != "" && Cut(line, ':').Some? && Lower(TrimSpace(Cut(line, ':').value.0)) == "confirm"
  }

  /** It sets it to "false". */
  predicate WaivesConfirm(raw: string) {
    SetsConfirm(raw) && Lower(TrimSpace(Cut(TrimSpace(raw), ':').value.1)) == "false"
  }

  ghost predicate LastWaives(lines: seq<string>, i: nat) {
    i < |lines| && WaivesConfirm(lines[i]) && forall k :: i < k < |lines| ==> !SetsConfirm(lines[k])
  }

  lemma ConfirmStep(line: string, m: Metadata)
    requires ReadLine(line, m).Some?
    ensures ReadLine(line, m).value.needsConfirmation
            == if SetsConfirm(line) then !WaivesConfirm(line) else m.needsConfirmation
  {
  }

  /** The last line that sets "confirm" decides; without one what held before stays. */
  lemma {:induction false} LastConfirmDecides(lines: seq<string>, m: Metadata)
    requires ReadLines(lines, m).Some?
    ensures (forall k :: 0 <= k < |lines| ==> !SetsConfirm(lines[k])) ==>
              ReadLines(lines, m).value.needsConfirmation == m.needsConfirmation
    ensures (exists k :: 0 <= k < |lines| && SetsConfirm(lines[k])) ==>
              (!ReadLines(lines, m).value.needsConfirmation <==> exists i: nat :: LastWaives(lines, i))
    decreases |lines|
  {
    if lines != [] {
      var rest, next := lines[1..], ReadLine(lines[0], m).value;
      ConfirmStep(lines[0], m);
      LastConfirmDecides(rest, next);
      assert forall k :: 1 <= k < |lines| ==> lines[k] == rest[k - 1];
      if forall k :: 0 <= k < |rest| ==> !SetsConfirm(rest[k]) {
        FirstAlone(lines, rest);
      } else {
        NotFirst(lines, rest);
      }
    }
  }

  lemma FirstAlone(lines: seq<string>, rest: seq<string>)
    requires lines != [] && rest == lines[1..] && forall k :: 0 <= k < |rest| ==> !SetsConfirm(rest[k])
    ensures (exists i: nat :: LastWaives(lines, i)) <==> WaivesConfirm(lines[0])
    ensures (exists k :: 0 <= k < |lines| && SetsConfirm(lines[k])) <==> SetsConfirm(lines[0])
  {
    assert forall k :: 1 <= k < |lines| ==> lines[k] == rest[k - 1];
    if WaivesConfirm(lines[0]) {
      assert LastWaives(lines, 0);
    }
  }

  lemma NotFirst(lines: seq<string>, rest: seq<string>)
    requires lines != [] && rest == lines[1..] && exists k :: 0 <= k < |rest| && SetsConfirm(rest[k])
    ensures (exists i: nat :: LastWaives(lines, i)) <==> (exists i: nat :: LastWaives(rest, i))
  {
    assert forall k :: 1 <= k < |lines| ==> lines[k] == rest[k - 1];
    if i: nat :| LastWaives(lines, i) {
      var k :| 0 <= k < |rest| && SetsConfirm(rest[k]);
      assert lines[k + 1] == rest[k];
      assert LastWaives(rest, i - 1);
    }
    if i: nat :| LastWaives(rest, i) {
      assert LastWaives(lines, i + 1);
    }
  }

  /* ---- Which headers are valid, and what they say ---- */

  /** The line sets this key, to this value. */
  ghost predicate Sets(raw: string, key: string, value: string) {
    var line := TrimSpace(raw);
    && line != "" && Cut(line, ':').Some?
    && Lower(TrimSpace(Cut(line, ':').value.0)) == key && TrimSpace(Cut(line, ':').value.1) == value
  }

  /** A blank line, or one that sets a key: a name that is not empty, a confirmation that is true or false, anything
      else freely. */
  ghost predicate LineFits(raw: string) {
    || TrimSpace(raw) == ""
    || exists key, value ::
         && Sets(raw, key, value)
         && (key == "name" ==> value != "")
         && (key == "confirm" ==> Lower(value) == "true" || Lower(value) == "false")
  }

  ghost predicate SetsKey(raw: string, key: string) {
    exists value :: Sets(raw, key, value)
  }

  ghost predicate LastSets(lines: seq<string>, key: string, value: string, i: nat) {
    i < |lines| && Sets(lines[i], key, value) && forall k :: i < k < |lines| ==> !SetsKey(lines[k], key)
  }

  lemma LineReads(line: string, m: Metadata)
    ensures ReadLine(line, m).Some? <==> LineFits(line)
    ensures ReadLine(line, m).Some? ==>
              var n := ReadLine(line, m).value;
              && (forall value :: Sets(line, "name", value) ==> n.name == value)
              && (forall value :: Sets(line, "description", value) ==> n.description == value)
              && (n.seenName <==> m.seenName || SetsKey(line, "name"))
              && (!SetsKey(line, "name") ==> n.name == m.name)
              && (!SetsKey(line, "description") ==> n.description == m.description)
  {
    var trimmed := TrimSpace(line);
    if trimmed != "" && Cut(trimmed, ':').Some? {
      var cut := Cut(trimmed, ':').value;
      assert Sets(line, Lower(TrimSpace(cut.0)), TrimSpace(cut.1));
    }
  }

  /** The value of a key at the end is the one set last, or what it was. */
  ghost predicate EndsWith(lines: seq<string>, key: string, was: string, now: string) {
    && (forall i: nat, value :: LastSets(lines, key, value, i) ==> now == value)
    && (!SetsAny(lines, key) ==> now == was)
  }

  ghost predicate SetsAny(lines: seq<string>, key: string) {
    exists k :: 0 <= k < |lines| && SetsKey(lines[k], key)
  }

  lemma EndsBefore(lines: seq<string>, rest: seq<string>, key: string, was: string, next: string, now: string)
    requires lines != [] && rest == lines[1..] && EndsWith(rest, key, next, now)
    requires (forall value :: Sets(lines[0], key, value) ==> next == value) && (!SetsKey(lines[0], key) ==> next == was)
    ensures EndsWith(lines, key, was, now)
  {
    assert forall k :: 1 <= k < |lines| ==> lines[k] == rest[k - 1];
    forall i: nat, value | LastSets(lines, key, value, i) ensures now == value {
      if i > 0 {
        assert LastSets(rest, key, value, i - 1);
      }
    }
    if !SetsAny(lines, key) {
      assert !SetsKey(lines[0], key);
      assert !SetsAny(rest, key);
    }
  }

  lemma AnyBefore(lines: seq<string>, rest: seq<string>, key: string)
    requires lines != [] && rest == lines[1..]
    ensures SetsAny(lines, key) <==> SetsKey(lines[0], key) || SetsAny(rest, key)
  {
    assert forall k :: 1 <= k < |lines| ==> lines[k] == rest[k - 1];
    if SetsAny(rest, key) {
      var k :| 0 <= k < |rest| && SetsKey(rest[k], key);
      assert SetsKey(lines[k + 1], key);
    }
  }

  lemma {:induction false} LinesFit(lines: seq<string>, m: Metadata)
    ensures ReadLines(lines, m).Some? <==> forall k :: 0 <= k < |lines| ==> LineFits(lines[k])
    decreases |lines|
  {
    if lines != [] {
      var rest := lines[1..];
      assert forall k :: 1 <= k < |lines| ==> lines[k] == rest[k - 1];
      LineReads(lines[0], m);
      if ReadLine(lines[0], m).Some? {
        LinesFit(rest, ReadLine(lines[0], m).value);
      }
    }
  }

  lemma {:induction false} LinesRead(lines: seq<string>, m: Metadata)
    requires ReadLines(lines, m).Some?
    ensures var n := ReadLines(lines, m).value;
            && EndsWith(lines, "name", m.name, n.name) && EndsWith(lines, "description", m.description, n.description)
            && (n.seenName <==> m.seenName || SetsAny(lines, "name"))
    decreases |lines|
  {
    if lines != [] {
      var rest, next, n := lines[1..], ReadLine(lines[0], m).value, ReadLines(lines, m).value;
      LineReads(lines[0], m);
      LinesRead(rest, next);
      EndsBefore(lines, rest, "name", m.name, next.name, n.name);
      EndsBefore(lines, rest, "description", m.description, next.description, n.description);
      AnyBefore(lines, rest, "name");
    }
  }

  function LinesOfHeader(text: string): seq<string> {
    match FindClosing(text)
    case None => []
    case Some(end) => Lines(TrimPrefix(TrimPrefix(text[..end], OpeningCR()), Opening()))
  }

  /** A parsed script needs no confirmation if and only if its header is valid and the last line that sets "confirm" says
      "false"; a header without such a line needs it. */
  lemma NeedsConfirmation(text: string)
    ensures !Parsed(text).needsConfirmation
            <==> Parsed(text).valid && exists i: nat :: LastWaives(LinesOfHeader(text), i)
  {
    var lines := LinesOfHeader(text);
    if Parsed(text).valid {
      LastConfirmDecides(lines, Start());
      if forall k :: 0 <= k < |lines| ==> !SetsConfirm(lines[k]) {
        assert forall i: nat :: !LastWaives(lines, i);
      }
    }
  }

  /** A header starts with the opening mark and closes within the bound. */
  ghost predicate HasHeader(text: string) {
    && (HasPrefix(text, Opening()) || HasPrefix(text, OpeningCR()))
    && FindClosing(text).Some? && FindClosing(text).value <= MAX_FRONTMATTER
  }

  lemma {:induction false} LastOne(lines: seq<string>, test: string -> bool) returns (i: nat)
    requires exists k :: 0 <= k < |lines| && test(lines[k])
    ensures i < |lines| && test(lines[i]) && forall k :: i < k < |lines| ==> !test(lines[k])
  {
    i := |lines| - 1;
    if !test(lines[i]) {
      var init := lines[..i];
      assert forall k :: 0 <= k < |init| ==> init[k] == lines[k];
      i := LastOne(init, test);
    }
  }

  ghost function Setting(key: string): string -> bool {
    line => SetsKey(line, key)
  }

  lemma SomeLastSets(lines: seq<string>, key: string)
    requires SetsAny(lines, key)
    ensures exists i: nat, value :: LastSets(lines, key, value, i)
  {
    var k :| 0 <= k < |lines| && SetsKey(lines[k], key);
    assert Setting(key)(lines[k]);
    var i := LastOne(lines, Setting(key));
    LastIsSet(lines, key, i);
  }

  lemma LastIsSet(lines: seq<string>, key: string, i: nat)
    requires i < |lines| && Setting(key)(lines[i]) && forall k :: i < k < |lines| ==> !Setting(key)(lines[k])
    ensures exists value :: LastSets(lines, key, value, i)
  {
    var value :| Sets(lines[i], key, value);
    assert LastSets(lines, key, value, i);
  }

  /** A script has valid frontmatter if and only if it has a header, each of whose lines is blank or sets a key properly,
      and some line sets a name. Its name and description are those set last, or empty. */
  lemma ValidFrontmatter(text: string, lines: seq<string>)
    requires lines == LinesOfHeader(text)
    ensures Parsed(text).valid
            <==> HasHeader(text) && (forall k :: 0 <= k < |lines| ==> LineFits(lines[k])) && SetsAny(lines, "name")
    ensures Parsed(text).valid ==>
              && (forall i: nat, value :: LastSets(lines, "name", value, i) ==> Parsed(text).name == value)
              && (forall i: nat, value :: LastSets(lines, "description", value, i) ==> Parsed(text).description == value)
              && (!SetsAny(lines, "description") ==> Parsed(text).description == "")
  {
    LinesFit(lines, Start());
    if ReadLines(lines, Start()).Some? {
      LinesRead(lines, Start());
    }
    if SetsAny(lines, "name") {
      SomeLastSets(lines, "name");
    }
  }

  /* ---- Finding the closing mark ---- */

  lemma {:induction false} FindInLine(line: string, rest: string)
    requires '\n' !in line
    ensures FindClosing(line + ("\n" + rest))
            == if FindClosing(line).Some? then FindClosing(line) else Later(|line| + 1, FindClosing(rest))
  {
    var text := line + ("\n" + rest);
    if line == "" {
      assert text[0] == '\n' && text[1..] == rest;
    } else {
      MarkInLine(line, rest);
      FindInLine(line[1..], rest);
      assert text[1..] == line[1..] + ("\n" + rest);
    }
  }

  lemma PrefixAt(text: string, prefix: string, i: nat)
    requires HasPrefix(text, prefix) && i < |prefix|
    ensures text[i] == prefix[i]
  {
    assert text[..|prefix|][i] == text[i];
  }

  lemma MarkInLine(line: string, rest: string)
    requires '\n' !in line
    ensures HasPrefix(line + ("\n" + rest), Closing()) <==> HasPrefix(line, Closing())
  {
    var text := line + ("\n" + rest);
    if |line| < 4 {
      assert text[|line|] == '\n';
      if HasPrefix(text, Closing()) {
        PrefixAt(text, Closing(), |line|);
      }
    } else {
      assert text[..4] == line[..4];
    }
  }

  lemma {:induction false} FindBehind(start: string, rest: string)
    requires ']' !in start
    ensures FindClosing(start + rest) == Later(|start|, FindClosing(rest))
  {
    if start == "" {
      assert start + rest == rest;
    } else {
      var text := start + rest;
      assert text[1..] == start[1..] + rest;
      if HasPrefix(text, Closing()) {
        PrefixAt(text, Closing(), 0);
      }
      FindBehind(start[1..], rest);
    }
  }

  lemma FindInKeyLine(key: string, value: string, rest: string)
    requires ']' !in key && '\n' !in key && '\n' !in value
    ensures FindClosing(Line(key, value) + ("\n" + rest))
            == if FindClosing(value).Some? then Later(|key| + 2, FindClosing(value))
               else Later(|Line(key, value)| + 1, FindClosing(rest))
  {
    FindInLine(Line(key, value), rest);
    var start := key + ": ";
    assert Line(key, value) == start + value;
    FindBehind(start, value);
  }

  /* ---- Reading one line back ---- */

  lemma {:induction false} TrimRightAppend(a: string, b: string)
    ensures TrimRight(a + b) == if TrimRight(b) == "" then TrimRight(a) else a + TrimRight(b)
    decreases |b|
  {
    if b == "" {
      assert a + b == a;
    } else if IsSpace(b[|b| - 1]) {
      TrimRightAppend(a, b[..|b| - 1]);
      assert (a + b)[..|a + b| - 1] == a + b[..|b| - 1];
    }
  }

  lemma {:induction false} TrimRightFirst(w: string)
    ensures TrimRight(TrimLeft(TrimRight(w))) == TrimRight(TrimLeft(w))
  {
    if w != "" && IsSpace(w[0]) {
      TrimRightFirst(w[1..]);
      TrimRightAppend([w[0]], w[1..]);
      assert w == [w[0]] + w[1..];
      assert TrimRight([w[0]]) == "" by {
        assert [w[0]][..0] == "";
      }
      if TrimRight(w[1..]) != "" {
        assert TrimRight(w)[1..] == TrimRight(w[1..]);
      }
    } else {
      TrimRightTwice(w);
    }
  }

  lemma {:induction false} TrimRightTwice(w: string)
    ensures TrimRight(TrimRight(w)) == TrimRight(w)
    ensures w != "" && !IsSpace(w[0]) ==> TrimLeft(TrimRight(w)) == TrimRight(w)
  {
  }

  lemma {:induction false} CutAt(start: string, sep: char, rest: string)
    requires sep !in start
    ensures Cut(start + ([sep] + rest), sep) == Some((start, rest))
  {
    var s := start + ([sep] + rest);
    if start == "" {
      assert s[1..] == rest;
    } else {
      CutAt(start[1..], sep, rest);
      assert s[1..] == start[1..] + ([sep] + rest);
      assert [start[0]] + start[1..] == start;
    }
  }

  predicate PlainKey(key: string) {
    key != "" && Trimmed(key) && ':' !in key
  }

  /** A metadata line splits into its key and its value, whatever white space surrounds the value. */
  lemma LineCut(key: string, value: string)
    requires PlainKey(key)
    ensures var line := TrimSpace(Line(key, value));
            && line != "" && Cut(line, ':').Some?
            && Cut(line, ':').value.0 == key
            && TrimSpace(Cut(line, ':').value.1) == TrimSpace(value)
  {
    TrimmedLine(key, value);
    var right := TrimRight(value);
    var rest := if right == "" then right else " " + right;
    assert TrimSpace(Line(key, value)) == key + ([':'] + rest);
    CutAt(key, ':', rest);
    ValueBack(value, right, rest);
  }

  lemma ValueBack(value: string, right: string, rest: string)
    requires right == TrimRight(value) && rest == if right == "" then right else " " + right
    ensures TrimSpace(rest) == TrimSpace(value)
  {
    TrimRightFirst(value);
    if right != "" {
      assert rest[1..] == right;
    }
  }

  lemma TrimmedLine(key: string, value: string)
    requires PlainKey(key)
    ensures TrimSpace(Line(key, value))
            == if TrimRight(value) == "" then key + ":" else key + (": " + TrimRight(value))
  {
    var right := TrimRight(value);
    KeyStart(key, value);
    KeyStart(key, right);
    assert TrimLeft(Line(key, value)) == Line(key, value);
    TrimRightAppend(key + ": ", value);
    TrimKey(key);
  }

  lemma TrimKey(key: string)
    requires PlainKey(key)
    ensures TrimRight(key + ": ") == key + ":"
  {
    var start := key + ": ";
    assert start[..|start| - 1] == key + ":";
    assert TrimRight(key + ":") == key + ":";
  }

  lemma KeyStart(key: string, right: string)
    ensures (key + ": ") + right == key + (": " + right)
  {
  }

  lemma LinesFirst(line: string, rest: string)
    requires '\n' !in line && '\r' !in line
    ensures Lines(line + ("\n" + rest)) == [line] + Lines(rest)
  {
    CutAt(line, '\n', rest);
    assert "\n" + rest == ['\n'] + rest;
  }

  lemma {:induction false} CutNone(s: string, sep: char)
    requires sep !in s
    ensures Cut(s, sep).None?
  {
    if s != "" {
      CutNone(s[1..], sep);
    }
  }

  lemma LinesLast(line: string)
    requires line != "" && '\n' !in line && '\r' !in line
    ensures Lines(line) == [line]
  {
    CutNone(line, '\n');
  }

  /* ---- The round trip ---- */

  lemma {:induction false} TrimLeftPart(s: string)
    ensures |TrimLeft(s)| <= |s| && forall c :: c in TrimLeft(s) ==> c in s
  {
    if s != "" && IsSpace(s[0]) {
      TrimLeftPart(s[1..]);
    }
  }

  lemma TrimPart(s: string)
    ensures |TrimSpace(s)| <= |s| && forall c :: c in TrimSpace(s) ==> c in s
  {
    TrimLeftPart(s);
  }

  lemma {:induction false} NoMark(s: string)
    requires ']' !in s
    ensures FindClosing(s).None?
  {
    FindBehind(s, s[|s|..]);
    assert s + s[|s|..] == s;
  }

  /** The value lines of a rendered header. */
  predicate PlainValue(value: string) {
    Trimmed(value) && |value| <= MAX_METADATA_LINE && '\n' !in value && '\r' !in value
  }

  lemma ValuesArePlain(input: ScriptInput)
    requires ValidInput(input)
    ensures PlainValue(TrimSpace(input.name)) && PlainValue(TrimSpace(input.description))
    ensures TrimSpace(input.name) != ""
  {
    TrimPart(input.name);
    TrimPart(input.description);
  }

  function Closed(code: string): string {
    Closing() + ("\n" + code)
  }

  function HeaderText(name: string, description: string, confirm: string, rest: string): string {
    Line("name", name) + ("\n" + (Line("description", description) + ("\n" + (Line("confirm", confirm) + ("\n" + rest)))))
  }

  lemma {:induction false} KeysArePlain()
    ensures PlainKey("name") && PlainKey("description") && PlainKey("confirm")
    ensures ']' !in "name" && ']' !in "description" && ']' !in "confirm"
    ensures '\n' !in "name" && '\n' !in "description" && '\n' !in "confirm"
    ensures '\r' !in "name" && '\r' !in "description" && '\r' !in "confirm"
  {
  }

  lemma FindInHeader(name: string, description: string, confirm: string, rest: string)
    requires PlainValue(name) && PlainValue(description) && PlainValue(confirm) && ']' !in confirm
    ensures FindClosing(HeaderText(name, description, confirm, rest)) ==
              if FindClosing(name).Some? then Later(6, FindClosing(name))
              else Later(|name| + 7,
                if FindClosing(description).Some? then Later(13, FindClosing(description))
                else Later(|description| + 14, Later(|confirm| + 10, FindClosing(rest))))
  {
    KeysArePlain();
    NoMark(confirm);
    var third := Line("confirm", confirm) + ("\n" + rest);
    var second := Line("description", description) + ("\n" + third);
    FindInKeyLine("confirm", confirm, rest);
    FindInKeyLine("description", description, third);
    FindInKeyLine("name", name, second);
  }

  lemma ReadName(value: string, m: Metadata)
    ensures ReadLine(Line("name", value), m)
            == if TrimSpace(value) == "" then None else Some(m.(name := TrimSpace(value), seenName := true))
  {
    var key: string := "name";
    KeysArePlain();
    LineCut(key, value);
    TrimTrimmed(key);
  }

  lemma ReadDescription(value: string, m: Metadata)
    ensures ReadLine(Line("description", value), m) == Some(m.(description := TrimSpace(value)))
  {
    var key: string := "description";
    KeysArePlain();
    LineCut(key, value);
    TrimTrimmed(key);
  }

  lemma ReadConfirm(needed: bool, m: Metadata)
    ensures ReadLine(Line("confirm", Confirm(needed)), m) == Some(m.(needsConfirmation := needed))
  {
    var key: string := "confirm";
    var value := Confirm(needed);
    KeysArePlain();
    LineCut(key, value);
    TrimTrimmed(key);
    TrimTrimmed(value);
  }

  /** The text around the mark at `end`, once the header is known. */
  lemma {:induction false} ParsedAt(header: string, tail: string)
    requires FindClosing(Opening() + (header + tail)) == Some(8 + |header|)
    requires HasPrefix(tail, Closing())
    ensures var text := Opening() + (header + tail);
            var m := ReadLines(Lines(header), Start());
            Parsed(text) ==
              if 8 + |header| > MAX_FRONTMATTER || m.None? || !m.value.seenName then Malformed(text)
              else Frontmatter(m.value.name, m.value.description, m.value.needsConfirmation, true,
                               TrimPrefix(TrimPrefix(tail[4..], "\r\n"), "\n"))
  {
    var opening := Opening();
    Slices(opening, header, tail);
    HeaderOf(opening, header);
  }

  lemma Slices(opening: string, header: string, tail: string)
    requires |tail| >= 4
    ensures var text, end := opening + (header + tail), |opening| + |header|;
            text[..end] == opening + header && text[end + 4..] == tail[4..]
  {
  }

  lemma HeaderOf(opening: string, header: string)
    requires opening == Opening()
    ensures TrimPrefix(TrimPrefix(opening + header, OpeningCR()), opening) == header
  {
    assert (opening + header)[7] == '\n';
    if HasPrefix(opening + header, OpeningCR()) {
      PrefixAt(opening + header, OpeningCR(), 7);
    }
  }

  lemma {:induction false} MarkAt(text: string, k: nat)
    requires FindClosing(text) == Some(k)
    ensures k + 4 <= |text| && HasPrefix(text[k..], Closing())
  {
    if !HasPrefix(text, Closing()) {
      MarkAt(text[1..], k - 1);
      assert text[1..][k - 1..] == text[k..];
    }
  }

  /** The values of a rendered script. */
  datatype Values = Values(name: string, description: string, confirm: bool, code: string)

  ghost predicate PlainValues(v: Values) {
    PlainValue(v.name) && PlainValue(v.description) && v.name != ""
  }

  function ScriptText(v: Values): string {
    Opening() + HeaderText(v.name, v.description, Confirm(v.confirm), Closed(v.code))
  }

  function Expected(v: Values): Frontmatter {
    Frontmatter(v.name, v.description, v.confirm, true, v.code)
  }

  lemma FindInText(v: Values)
    requires PlainValues(v)
    ensures FindClosing(ScriptText(v)) ==
              if FindClosing(v.name).Some? then Later(14, FindClosing(v.name))
              else if FindClosing(v.description).Some? then Later(|v.name| + 28, FindClosing(v.description))
              else Some(|v.name| + |v.description| + |Confirm(v.confirm)| + 39)
  {
    var header := HeaderText(v.name, v.description, Confirm(v.confirm), Closed(v.code));
    FindAfterOpening(header);
    FindBehindOpening(v, header);
    FoundAt(FindClosing(v.name), FindClosing(v.description), |v.name|, |v.description|, |Confirm(v.confirm)|);
  }

  lemma FindBehindOpening(v: Values, header: string)
    requires PlainValues(v) && header == HeaderText(v.name, v.description, Confirm(v.confirm), Closed(v.code))
    ensures FindClosing(header) ==
              if FindClosing(v.name).Some? then Later(6, FindClosing(v.name))
              else Later(|v.name| + 7,
                if FindClosing(v.description).Some? then Later(13, FindClosing(v.description))
                else Later(|v.description| + 14, Later(|Confirm(v.confirm)| + 10, Some(0))))
  {
    ConfirmIsPlain(v.confirm);
    FindClosed(v.code);
    FindInHeader(v.name, v.description, Confirm(v.confirm), Closed(v.code));
  }

  lemma FindAfterOpening(header: string)
    ensures FindClosing(Opening() + header) == Later(8, FindClosing(header))
  {
    OpeningHasNoMark();
    FindBehind(Opening(), header);
  }

  lemma FoundAt(inName: Option<nat>, inDescription: Option<nat>, n: nat, d: nat, c: nat)
    ensures Later(8, if inName.Some? then Later(6, inName)
                     else Later(n + 7, if inDescription.Some? then Later(13, inDescription)
                                       else Later(d + 14, Later(c + 10, Some(0)))))
            == if inName.Some? then Later(14, inName)
               else if inDescription.Some? then Later(n + 28, inDescription)
               else Some(n + d + c + 39)
  {
  }

  lemma FindClosed(code: string)
    ensures FindClosing(Closed(code)) == Some(0)
  {
    assert Closed(code)[..4] == Closing();
  }

  lemma ConfirmIsPlain(confirm: bool)
    ensures PlainValue(Confirm(confirm)) && ']' !in Confirm(confirm)
  {
  }

  lemma OpeningHasNoMark()
    ensures |Opening()| == 8 && ']' !in Opening()
  {
  }

  /** Without a mark in a value the header is the three lines and the body is the code. */
  lemma ReadsBack(v: Values)
    requires PlainValues(v) && FindClosing(v.name).None? && FindClosing(v.description).None?
    ensures Parsed(ScriptText(v)) == Expected(v)
  {
    var confirm, tail := Confirm(v.confirm), Closed(v.code);
    var none := tail[|tail|..];
    var header := HeaderText(v.name, v.description, confirm, none);
    FindInText(v);
    HeaderThenTail(v.name, v.description, confirm, none, tail);
    ParsedAt(header, tail);
    HeaderLines(v.name, v.description, v.confirm, none);
    BodyOf(v.code);
  }

  lemma HeaderThenTail(name: string, description: string, confirm: string, none: string, tail: string)
    requires none == ""
    ensures HeaderText(name, description, confirm, none) + tail == HeaderText(name, description, confirm, tail)
    ensures |HeaderText(name, description, confirm, none)| == |name| + |description| + |confirm| + 31
  {
  }

  lemma BodyOf(code: string)
    ensures TrimPrefix(TrimPrefix(Closed(code)[4..], "\r\n"), "\n") == code
  {
    var rest := "\n" + code;
    assert Closed(code)[4..] == rest;
    assert rest[0] == '\n' && rest[1..] == code;
    if HasPrefix(rest, "\r\n") {
      PrefixAt(rest, "\r\n", 0);
    }
  }

  lemma HeaderLines(name: string, description: string, confirm: bool, none: string)
    requires PlainValue(name) && PlainValue(description) && name != "" && none == ""
    ensures ReadLines(Lines(HeaderText(name, description, Confirm(confirm), none)), Start())
            == Some(Metadata(name, description, confirm, true))
  {
    KeysArePlain();
    var first, second, third := Line("name", name), Line("description", description), Line("confirm", Confirm(confirm));
    var last := third + ("\n" + none);
    LinesFirst(third, none);
    LinesFirst(second, last);
    LinesFirst(first, second + ("\n" + last));
    TrimTrimmed(name);
    TrimTrimmed(description);
    ReadName(name, Start());
    ReadDescription(description, Start().(name := name, seenName := true));
    ReadConfirm(confirm, Metadata(name, description, true, true));
    var lines := [second] + ([third] + Lines(none));
    ReadFirst(first, lines, Start());
    ReadFirst(second, [third] + Lines(none), Start().(name := name, seenName := true));
    ReadFirst(third, Lines(none), Metadata(name, description, true, true));
  }

  lemma ReadFirst(line: string, rest: seq<string>, m: Metadata)
    ensures ReadLines([line] + rest, m)
            == if ReadLine(line, m).None? then None else ReadLines(rest, ReadLine(line, m).value)
  {
    assert ([line] + rest)[1..] == rest;
  }

  lemma ReadOnly(line: string, m: Metadata)
    ensures ReadLines([line], m) == ReadLine(line, m)
  {
    var none := [line][1..];
    assert [line] == [line] + none;
    ReadFirst(line, none, m);
  }

  /** A header cut off inside a value by a mark never reads back as that value. */
  lemma CutOff(value: string, k: nat)
    requires FindClosing(value) == Some(k)
    ensures k < |value| && |TrimSpace(value[..k])| < |value|
  {
    TrimPart(value[..k]);
  }

  lemma SplitValue(key: string, value: string, k: nat, rest: string)
    requires k <= |value|
    ensures Line(key, value) + rest == Line(key, value[..k]) + (value[k..] + rest)
    ensures |Line(key, value[..k])| == |key| + 2 + k
  {
  }

  lemma PrefixGrows(a: string, b: string, prefix: string)
    requires HasPrefix(a, prefix)
    ensures HasPrefix(a + b, prefix)
  {
  }

  lemma MarkStarts(value: string, k: nat, rest: string)
    requires FindClosing(value) == Some(k)
    ensures k <= |value| && HasPrefix(value[k..] + rest, Closing())
  {
    MarkAt(value, k);
    PrefixGrows(value[k..], rest, Closing());
  }

  lemma RegroupLines(first: string, second: string, tail: string)
    ensures first + ("\n" + (second + tail)) == (first + ("\n" + second)) + tail
    ensures |first + ("\n" + second)| == |first| + 1 + |second|
  {
  }

  /** The script, cut where a mark in the description ends its header. */
  lemma CutInDescription(v: Values, k: nat) returns (tail: string)
    requires FindClosing(v.description) == Some(k)
    ensures k <= |v.description|
    ensures var header := Line("name", v.name) + ("\n" + Line("description", v.description[..k]));
            && ScriptText(v) == Opening() + (header + tail)
            && |header| == |v.name| + k + 20 && HasPrefix(tail, Closing())
  {
    var rest := "\n" + (Line("confirm", Confirm(v.confirm)) + ("\n" + Closed(v.code)));
    tail := v.description[k..] + rest;
    MarkStarts(v.description, k, rest);
    SplitValue("description", v.description, k, rest);
    RegroupLines(Line("name", v.name), Line("description", v.description[..k]), tail);
  }

  lemma CutHeaderReads(name: string, part: string)
    requires PlainValue(name) && name != "" && '\n' !in part && '\r' !in part
    ensures var m := ReadLines(Lines(Line("name", name) + ("\n" + Line("description", part))), Start());
            m.Some? ==> m.value.description == TrimSpace(part)
  {
    KeysArePlain();
    var first, second := Line("name", name), Line("description", part);
    LinesFirst(first, second);
    LinesLast(second);
    ReadFirst(first, [second], Start());
    ReadName(name, Start());
    TrimTrimmed(name);
    var named := Start().(name := name, seenName := true);
    ReadOnly(second, named);
    ReadDescription(part, named);
  }

  /** The script, cut where a mark in the name ends its header. */
  lemma CutInName(v: Values, k: nat) returns (tail: string)
    requires FindClosing(v.name) == Some(k)
    ensures k <= |v.name|
    ensures var header := Line("name", v.name[..k]);
            ScriptText(v) == Opening() + (header + tail) && |header| == k + 6 && HasPrefix(tail, Closing())
  {
    var rest := "\n" + (Line("description", v.description)
                        + ("\n" + (Line("confirm", Confirm(v.confirm)) + ("\n" + Closed(v.code)))));
    tail := v.name[k..] + rest;
    MarkStarts(v.name, k, rest);
    SplitValue("name", v.name, k, rest);
  }

  lemma CutNameReads(part: string)
    requires '\n' !in part && '\r' !in part
    ensures var m := ReadLines(Lines(Line("name", part)), Start()); m.Some? ==> m.value.name == TrimSpace(part)
  {
    KeysArePlain();
    var header := Line("name", part);
    LinesLast(header);
    ReadOnly(header, Start());
    ReadName(part, Start());
  }

  /** A mark inside the name ends the header there. */
  lemma MarkInName(v: Values, k: nat)
    requires PlainValues(v) && FindClosing(v.name) == Some(k)
    ensures Parsed(ScriptText(v)) != Expected(v)
  {
    var tail := CutInName(v, k);
    FindInText(v);
    ParsedAt(Line("name", v.name[..k]), tail);
    CutNameReads(v.name[..k]);
    CutOff(v.name, k);
  }

  /** A mark inside the description ends the header there. */
  lemma MarkInDescription(v: Values, k: nat)
    requires PlainValues(v) && FindClosing(v.name).None? && FindClosing(v.description) == Some(k)
    ensures Parsed(ScriptText(v)) != Expected(v)
  {
    var tail := CutInDescription(v, k);
    FindInText(v);
    ParsedAt(Line("name", v.name) + ("\n" + Line("description", v.description[..k])), tail);
    CutHeaderReads(v.name, v.description[..k]);
    CutOff(v.description, k);
  }

  /** Parsing the rendered script of a valid input gives back the trimmed name and description, the
      confirm flag and the code byte for byte exactly when neither the name nor the description
      holds the closing mark; the code may hold it. */
  lemma FrontmatterRoundTrip(input: ScriptInput)
    requires ValidInput(input)
    ensures var name, description := TrimSpace(input.name), TrimSpace(input.description);
            Parsed(RenderScript(input)) == Frontmatter(name, description, input.needsConfirmation, true, input.code)
            <==> FindClosing(name).None? && FindClosing(description).None?
  {
    ValuesArePlain(input);
    var v := Values(TrimSpace(input.name), TrimSpace(input.description), input.needsConfirmation, input.code);
    assert RenderScript(input) == ScriptText(v);
    if FindClosing(v.name).Some? {
      MarkInName(v, FindClosing(v.name).value);
    } else if FindClosing(v.description).Some? {
      MarkInDescription(v, FindClosing(v.description).value);
    } else {
      ReadsBack(v);
    }
  }
}
