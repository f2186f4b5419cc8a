/** The role of a track, found by matching words in its name (internal/reaper/tidy_survey.go:369-402). */
module TidyRoles {
  import opened Text
  import opened TidyPlans
  import opened TidyNames

  datatype Role = Role(name: string, color: Rgb, keywords: seq<string>)

  /** The words of a text: its runs of letters and digits, in lower case. */
  function WordsOf(t: CharTable, value: string): seq<string> {
    Fields(Map(value, t.lower), NotWordChar(t))
  }

  predicate KeywordFound(t: CharTable, normalized: string, keyword: string) {
    NormalizeWords(t, keyword) != "" && Contains(normalized, " " + NormalizeWords(t, keyword) + " ")
  }

  /** The words in a row, from position k on. */
  predicate OccursAt(words: seq<string>, phrase: seq<string>, k: nat) {
    k + |phrase| <= |words| && words[k..k + |phrase|] == phrase
  }

  ghost predicate Occurs(words: seq<string>, phrase: seq<string>) {
    exists k :: OccursAt(words, phrase, k)
  }

  /** The track name has some keyword of the role, word for word. */
  ghost predicate Matches(t: CharTable, name: string, role: Role) {
    exists keyword :: keyword in role.keywords && HasKeyword(t, name, keyword)
  }

  ghost predicate HasKeyword(t: CharTable, name: string, keyword: string) {
    WordsOf(t, keyword) != [] && Occurs(WordsOf(t, name), WordsOf(t, keyword))
  }

  ghost predicate PlainWords(words: seq<string>) {
    forall w :: w in words ==> w != "" && ' ' !in w
  }

  lemma SplitPadded(words: seq<string>)
    requires PlainWords(words) && words != []
    ensures Split(" " + Join(words, ' ') + " ", ' ') == [""] + words + [""]
  {
    var padded := [""] + words + [""];
    SplitJoin(words, ' ');
    SplitAt("", ' ', Join(words, ' ') + " ");
    SplitAt(Join(words, ' '), ' ', "");
    assert "" + [' '] + (Join(words, ' ') + " ") == " " + Join(words, ' ') + " ";
    assert Join(words, ' ') + [' '] + "" == Join(words, ' ') + " ";
    Regroup([""], words, [""]);
  }

  lemma {:induction false} JoinAppend(a: seq<string>, b: seq<string>)
    requires a != [] && b != []
    ensures Join(a + b, ' ') == Join(a, ' ') + " " + Join(b, ' ')
  {
    assert (a + b)[1..] == a[1..] + b;
    if |a| > 1 {
      JoinAppend(a[1..], b);
    } else {
      assert a[1..] + b == b;
    }
  }

  /** In space-padded text, finding the padded phrase is finding its words in a row. */
  lemma PaddedMatch(words: seq<string>, phrase: seq<string>)
    requires PlainWords(words) && PlainWords(phrase) && words != [] && phrase != []
    ensures Contains(" " + Join(words, ' ') + " ", " " + Join(phrase, ' ') + " ") <==> Occurs(words, phrase)
  {
    var text, part := " " + Join(words, ' ') + " ", " " + Join(phrase, ' ') + " ";
    if Contains(text, part) {
      var k :| 0 <= k <= |text| && HasPrefix(text[k..], part);
      FoundOccurs(words, phrase, text[..k], text[k + |part|..]);
    }
    if Occurs(words, phrase) {
      var k: nat :| OccursAt(words, phrase, k);
      var at := if k == 0 then 0 else |Join(words[..k], ' ')| + 1;
      OccursFound(words, phrase, k, at);
    }
  }

  lemma FoundOccurs(words: seq<string>, phrase: seq<string>, before: string, after: string)
    requires PlainWords(words) && PlainWords(phrase) && words != [] && phrase != []
    requires " " + Join(words, ' ') + " " == before + (" " + Join(phrase, ' ') + " ") + after
    ensures Occurs(words, phrase)
  {
    var middle := Join(phrase, ' ');
    SplitPadded(words);
    SplitJoin(phrase, ' ');
    SplitAt(middle, ' ', after);
    SplitAt(before, ' ', middle + [' '] + after);
    assert before + [' '] + (middle + [' '] + after) == before + (" " + middle + " ") + after;
    PhraseInside(words, phrase, Split(before, ' '), Split(after, ' '));
  }

  lemma PhraseInside(words: seq<string>, phrase: seq<string>, left: seq<string>, right: seq<string>)
    requires [""] + words + [""] == left + (phrase + right) && |left| >= 1 && |right| >= 1
    ensures Occurs(words, phrase)
  {
    var padded := [""] + words + [""];
    var k := |left|;
    assert padded[k..k + |phrase|] == phrase;
    assert words[k - 1..k - 1 + |phrase|] == padded[k..k + |phrase|];
    assert OccursAt(words, phrase, k - 1);
  }

  lemma PhraseLeads(phrase: seq<string>, tail: seq<string>)
    requires phrase != []
    ensures HasPrefix(" " + Join(phrase + tail, ' ') + " ", " " + Join(phrase, ' ') + " ")
  {
    if tail != [] {
      JoinAppend(phrase, tail);
    } else {
      assert phrase + tail == phrase;
    }
  }

  lemma TextFrom(head: seq<string>, rest: seq<string>, at: nat)
    requires rest != [] && at == if head == [] then 0 else |Join(head, ' ')| + 1
    ensures at <= |" " + Join(head + rest, ' ') + " "|
    ensures (" " + Join(head + rest, ' ') + " ")[at..] == " " + Join(rest, ' ') + " "
  {
    if head != [] {
      JoinAppend(head, rest);
      assert " " + Join(head + rest, ' ') + " " == " " + Join(head, ' ') + (" " + Join(rest, ' ') + " ");
    } else {
      assert head + rest == rest;
    }
  }

  lemma OccursFound(words: seq<string>, phrase: seq<string>, k: nat, at: nat)
    requires phrase != [] && OccursAt(words, phrase, k)
    requires at == if k == 0 then 0 else |Join(words[..k], ' ')| + 1
    ensures Contains(" " + Join(words, ' ') + " ", " " + Join(phrase, ' ') + " ")
  {
    var text, part := " " + Join(words, ' ') + " ", " " + Join(phrase, ' ') + " ";
    var head, tail := words[..k], words[k + |phrase|..];
    assert words == head + (phrase + tail);
    PhraseLeads(phrase, tail);
    TextFrom(head, phrase + tail, at);
    assert HasPrefix(text[at..], part);
  }

  lemma {:induction false} JoinEmpty(words: seq<string>)
    requires PlainWords(words)
    ensures Join(words, ' ') == "" <==> words == []
  {
    assert words != [] ==> words[0] in words;
  }

  lemma KeywordFoundIsMatch(t: CharTable, name: string, keyword: string)
    requires Lawful(t)
    ensures KeywordFound(t, " " + NormalizeWords(t, name) + " ", keyword)
            <==> HasKeyword(t, name, keyword)
  {
    var words, phrase := WordsOf(t, name), WordsOf(t, keyword);
    JoinEmpty(phrase);
    if phrase != [] {
      if words == [] {
        NoRoom(phrase);
      } else {
        PaddedMatch(words, phrase);
      }
    }
  }

  lemma NoRoom(phrase: seq<string>)
    requires PlainWords(phrase) && phrase != []
    ensures !Contains(" " + "" + " ", " " + Join(phrase, ' ') + " ")
  {
    JoinEmpty(phrase);
  }

  /** The role, when exactly one matches, or when two match and one of them is the effects bus. */
  ghost function RoleOf(t: CharTable, name: string, roles: seq<Role>): Option<Role> {
    Chosen(Those(roles, Matching(t, name)))
  }

  function Chosen(found: seq<Role>): Option<Role> {
    if |found| == 1 then Some(found[0])
    else if |found| == 2 && found[0].name == "bus_fx" then Some(found[1])
    else if |found| == 2 && found[1].name == "bus_fx" then Some(found[0])
    else None
  }

  ghost function Matching(t: CharTable, name: string): Role -> bool {
    role => Matches(t, name, role)
  }

  function Those(roles: seq<Role>, test: Role -> bool): (r: seq<Role>)
    ensures forall role :: role in r ==> role in roles && test(role)
  {
    if roles == [] then []
    else
      var shorter := Those(roles[..|roles| - 1], test);
      if test(roles[|roles| - 1]) then shorter + [roles[|roles| - 1]] else shorter
  }

  /* ---- The role by the positions that match ---- */

  /** One position passes and no other does. */
  predicate OnlyOne(roles: seq<Role>, test: Role -> bool, i: nat) {
    i < |roles| && test(roles[i]) && forall k :: 0 <= k < |roles| && test(roles[k]) ==> k == i
  }

  /** Two positions pass and no third does. */
  predicate OnlyTwo(roles: seq<Role>, test: Role -> bool, i: nat, j: nat) {
    && i < j < |roles| && test(roles[i]) && test(roles[j])
    && forall k :: 0 <= k < |roles| && test(roles[k]) ==> k == i || k == j
  }

  predicate NonePasses(roles: seq<Role>, test: Role -> bool) {
    forall k :: 0 <= k < |roles| ==> !test(roles[k])
  }

  lemma {:induction false} ThoseNone(roles: seq<Role>, test: Role -> bool)
    requires NonePasses(roles, test)
    ensures Those(roles, test) == []
  {
    if roles != [] {
      ThoseNone(roles[..|roles| - 1], test);
    }
  }

  lemma {:induction false} ThoseOne(roles: seq<Role>, test: Role -> bool, i: nat)
    requires OnlyOne(roles, test, i)
    ensures Those(roles, test) == [roles[i]]
  {
    var n := |roles| - 1;
    if i == n {
      ThoseNone(roles[..n], test);
    } else {
      assert !test(roles[n]);
      ThoseOne(roles[..n], test, i);
    }
  }

  lemma {:induction false} ThoseTwo(roles: seq<Role>, test: Role -> bool, i: nat, j: nat)
    requires OnlyTwo(roles, test, i, j)
    ensures Those(roles, test) == [roles[i], roles[j]]
  {
    var n := |roles| - 1;
    if j == n {
      ThoseOne(roles[..n], test, i);
    } else {
      assert !test(roles[n]);
      ThoseTwo(roles[..n], test, i, j);
    }
  }

  /** With any other number of positions there is no choice. */
  lemma {:induction false} ThoseCases(roles: seq<Role>, test: Role -> bool)
    ensures |Those(roles, test)| == 0 ==> NonePasses(roles, test)
    ensures |Those(roles, test)| == 1 ==> exists i: nat :: OnlyOne(roles, test, i)
    ensures |Those(roles, test)| == 2 ==> exists i: nat, j: nat :: OnlyTwo(roles, test, i, j)
  {
    if roles != [] {
      var n := |roles| - 1;
      var init := roles[..n];
      ThoseCases(init, test);
      assert forall k :: 0 <= k < n ==> roles[k] == init[k];
      ThoseCasesStep(roles, init, test, n);
    }
  }

  lemma ThoseCasesStep(roles: seq<Role>, init: seq<Role>, test: Role -> bool, n: nat)
    requires n + 1 == |roles| && init == roles[..n]
    requires |Those(init, test)| == 0 ==> NonePasses(init, test)
    requires |Those(init, test)| == 1 ==> exists i: nat :: OnlyOne(init, test, i)
    requires |Those(init, test)| == 2 ==> exists i: nat, j: nat :: OnlyTwo(init, test, i, j)
    ensures |Those(roles, test)| == 0 ==> NonePasses(roles, test)
    ensures |Those(roles, test)| == 1 ==> exists i: nat :: OnlyOne(roles, test, i)
    ensures |Those(roles, test)| == 2 ==> exists i: nat, j: nat :: OnlyTwo(roles, test, i, j)
  {
    var count := |Those(init, test)|;
    if test(roles[n]) {
      if count == 0 {
        assert OnlyOne(roles, test, n);
      } else if count == 1 {
        var i: nat :| OnlyOne(init, test, i);
        assert OnlyTwo(roles, test, i, n);
      }
    } else if count == 1 {
      var i: nat :| OnlyOne(init, test, i);
      assert OnlyOne(roles, test, i);
    } else if count == 2 {
      var i: nat, j: nat :| OnlyTwo(init, test, i, j);
      assert OnlyTwo(roles, test, i, j);
    }
  }

  lemma ChosenByPosition(roles: seq<Role>, test: Role -> bool)
    ensures forall i: nat :: OnlyOne(roles, test, i) ==> Chosen(Those(roles, test)) == Some(roles[i])
    ensures forall i: nat, j: nat :: OnlyTwo(roles, test, i, j) ==>
              Chosen(Those(roles, test)) == if roles[i].name == "bus_fx" then Some(roles[j])
                                            else if roles[j].name == "bus_fx" then Some(roles[i])
                                            else None
    ensures (forall i: nat :: !OnlyOne(roles, test, i)) && (forall i: nat, j: nat :: !OnlyTwo(roles, test, i, j)) ==>
              Chosen(Those(roles, test)) == None
  {
    forall i: nat | OnlyOne(roles, test, i) ensures Those(roles, test) == [roles[i]] {
      ThoseOne(roles, test, i);
    }
    forall i: nat, j: nat | OnlyTwo(roles, test, i, j) ensures Those(roles, test) == [roles[i], roles[j]] {
      ThoseTwo(roles, test, i, j);
    }
    ThoseCases(roles, test);
  }

  /** When one role matches the track, it is the answer. When two match and the first is the effects bus, the second is
      the answer; when only the second is the bus, the first is. In all other cases there is none. */
  lemma RoleByPosition(t: CharTable, name: string, roles: seq<Role>, test: Role -> bool)
    requires forall role :: test(role) <==> Matches(t, name, role)
    ensures forall i: nat :: OnlyOne(roles, test, i) ==> RoleOf(t, name, roles) == Some(roles[i])
    ensures forall i: nat, j: nat :: OnlyTwo(roles, test, i, j) ==>
              RoleOf(t, name, roles) == if roles[i].name == "bus_fx" then Some(roles[j])
                                        else if roles[j].name == "bus_fx" then Some(roles[i])
                                        else None
    ensures (forall i: nat :: !OnlyOne(roles, test, i)) && (forall i: nat, j: nat :: !OnlyTwo(roles, test, i, j)) ==>
              RoleOf(t, name, roles) == None
  {
    ChosenByPosition(roles, test);
    SameTest(roles, test, Matching(t, name));
  }

  lemma {:induction false} SameTest(roles: seq<Role>, a: Role -> bool, b: Role -> bool)
    requires forall role :: a(role) <==> b(role)
    ensures Those(roles, a) == Those(roles, b)
  {
    if roles != [] {
      SameTest(roles[..|roles| - 1], a, b);
    }
  }

  method RoleMatches(t: CharTable, name: string, normalized: string, role: Role) returns (matched: bool)
    requires Lawful(t) && normalized == " " + NormalizeWords(t, name) + " "
    ensures matched <==> Matches(t, name, role)
  {
    for k := 0 to |role.keywords|
      invariant forall j :: 0 <= j < k ==> !HasKeyword(t, name, role.keywords[j])
    {
      KeywordFoundIsMatch(t, name, role.keywords[k]);
      if KeywordFound(t, normalized, role.keywords[k]) {
        return true;
      }
    }
    return false;
  }

  method InferTidyTrackRole(t: CharTable, name: string, roles: seq<Role>) returns (role: Option<Role>)
    requires Lawful(t)
    ensures role == RoleOf(t, name, roles)
  {
    var normalized := " " + NormalizeWords(t, name) + " ";
    var found: seq<Role> := [];
    for i := 0 to |roles|
      invariant found == Those(roles[..i], Matching(t, name))
    {
      assert roles[..i + 1][..i] == roles[..i];
      var matched := RoleMatches(t, name, normalized, roles[i]);
      if matched {
        found := found + [roles[i]];
      }
    }
    assert roles[..|roles|] == roles;
    return Chosen(found);
  }
}
