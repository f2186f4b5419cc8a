/** The check that no JSON object repeats a key (internal/reaper/tidy.go, walkUniqueJSONValue), over
    the token stream of encoding/json. */
module StrictJson {
  import opened Text

  /** Numbers, booleans and null are one kind of token here: the check treats them alike. */
  datatype Token = ObjectOpen | ObjectClose | ArrayOpen | ArrayClose | Str(s: string) | Atom(text: string)

  datatype Json =
    | JString(s: string)
    | JAtom(text: string)
    | JArray(items: seq<Json>)
    | JObject(members: seq<Member>)

  datatype Member = Member(key: string, value: Json)

  function Tokens(v: Json): seq<Token> {
    match v
    case JString(s) => [Str(s)]
    case JAtom(text) => [Atom(text)]
    case JArray(items) => [ArrayOpen] + ItemTokens(items) + [ArrayClose]
    case JObject(members) => [ObjectOpen] + MemberTokens(members) + [ObjectClose]
  }

  function ItemTokens(items: seq<Json>): seq<Token> {
    if items == [] then [] else Tokens(items[0]) + ItemTokens(items[1..])
  }

  function MemberTokens(members: seq<Member>): seq<Token> {
    if members == [] then []
    else [Str(members[0].key)] + (Tokens(members[0].value) + MemberTokens(members[1..]))
  }

  /** No object at any depth repeats a key. */
  ghost predicate UniqueKeys(v: Json) {
    match v
    case JString(_) => true
    case JAtom(_) => true
    case JArray(items) => forall i :: 0 <= i < |items| ==> UniqueKeys(items[i])
    case JObject(members) =>
      && (forall i, j :: 0 <= i < j < |members| ==> members[i].key != members[j].key)
      && forall i :: 0 <= i < |members| ==> UniqueKeys(members[i].value)
  }

  /** decoder.More. */
  predicate More(ts: seq<Token>) {
    ts != [] && !ts[0].ObjectClose? && !ts[0].ArrayClose?
  }

  /** What is left behind one accepted value; None is an error. */
  function WalkValue(ts: seq<Token>): (rest: Option<seq<Token>>)
    ensures rest.Some? ==> |rest.value| < |ts|
    decreases |ts|, 1
  {
    if ts == [] then None
    else match ts[0]
      case ObjectOpen => WalkMembers(ts[1..], {})
      case ArrayOpen => WalkItems(ts[1..])
      case ObjectClose => None
      case ArrayClose => None
      case _ => Some(ts[1..])
  }

  function WalkMembers(ts: seq<Token>, seen: set<string>): (rest: Option<seq<Token>>)
    ensures rest.Some? ==> |rest.value| < |ts|
    decreases |ts|, 0
  {
    if More(ts) then
      if !ts[0].Str? || ts[0].s in seen then None
      else
        var inner := WalkValue(ts[1..]);
        if inner.None? then None else WalkMembers(inner.value, seen + {ts[0].s})
    else if ts != [] && ts[0].ObjectClose? then Some(ts[1..])
    else None
  }

  function WalkItems(ts: seq<Token>): (rest: Option<seq<Token>>)
    ensures rest.Some? ==> |rest.value| < |ts|
    decreases |ts|, 2
  {
    if More(ts) then
      var inner := WalkValue(ts);
      if inner.None? then None else WalkItems(inner.value)
    else if ts != [] && ts[0].ArrayClose? then Some(ts[1..])
    else None
  }

  /** The token reader, which only moves forward. */
  class Decoder {
    const tokens: seq<Token>
    var pos: nat

    ghost predicate Valid()
      reads this
    {
      pos <= |tokens|
    }

    ghost function Left(): seq<Token>
      reads this
      requires Valid()
    {
      tokens[pos..]
    }

    constructor (tokens: seq<Token>)
      ensures Valid() && Left() == tokens
    {
      this.tokens := tokens;
      pos := 0;
    }

    method HasMore() returns (more: bool)
      requires Valid()
      ensures more == More(Left())
    {
      more := pos < |tokens| && !tokens[pos].ObjectClose? && !tokens[pos].ArrayClose?;
    }

    method Next() returns (token: Option<Token>)
      requires Valid()
      modifies this
      ensures Valid() && old(pos) <= pos
      ensures old(Left()) == [] ==> token.None? && Left() == old(Left())
      ensures old(Left()) != [] ==>
                token == Some(old(Left())[0]) && Left() == old(Left())[1..] && pos == old(pos) + 1
    {
      if pos == |tokens| {
        return None;
      }
      token := Some(tokens[pos]);
      pos := pos + 1;
    }

    /** It always stops, since every step takes a token of a finite stream. */
    method WalkUniqueValue() returns (ok: bool)
      requires Valid()
      modifies this
      ensures Valid() && old(pos) <= pos
      ensures ok == WalkValue(old(Left())).Some?
      ensures ok ==> Left() == WalkValue(old(Left())).value && old(pos) < pos
      decreases |tokens| - pos, 0
    {
      var token := Next();
      if token.None? {
        return false;
      }
      match token.value
      case ObjectOpen =>
        ok := WalkObject();
      case ArrayOpen =>
        ok := WalkArray();
      case ObjectClose => ok := false;
      case ArrayClose => ok := false;
      case _ => ok := true;
    }

    method WalkObject() returns (ok: bool)
      requires Valid() && 0 < pos
      modifies this
      ensures Valid() && old(pos) <= pos
      ensures ok == WalkMembers(old(Left()), {}).Some?
      ensures ok ==> Left() == WalkMembers(old(Left()), {}).value
      decreases |tokens| - pos, 1
    {
      var seen: set<string> := {};
      ghost var goal := WalkMembers(Left(), {});
      var more := HasMore();
      while more
        invariant Valid() && old(pos) <= pos
        invariant more == More(Left())
        invariant WalkMembers(Left(), seen) == goal
        decreases |tokens| - pos
      {
        var key := Next();
        if !key.value.Str? || key.value.s in seen {
          return false;
        }
        seen := seen + {key.value.s};
        ok := WalkUniqueValue();
        if !ok {
          return false;
        }
        more := HasMore();
      }
      var end := Next();
      ok := end.Some? && end.value.ObjectClose?;
    }

    method WalkArray() returns (ok: bool)
      requires Valid() && 0 < pos
      modifies this
      ensures Valid() && old(pos) <= pos
      ensures ok == WalkItems(old(Left())).Some?
      ensures ok ==> Left() == WalkItems(old(Left())).value
      decreases |tokens| - pos, 1
    {
      ghost var goal := WalkItems(Left());
      var more := HasMore();
      while more
        invariant Valid() && old(pos) <= pos
        invariant more == More(Left())
        invariant WalkItems(Left()) == goal
        decreases |tokens| - pos
      {
        ok := WalkUniqueValue();
        if !ok {
          return false;
        }
        more := HasMore();
      }
      var end := Next();
      ok := end.Some? && end.value.ArrayClose?;
    }
  }

  /* ---- What the check accepts ---- */

  /** On the tokens of a value followed by anything the check succeeds, and then consumes exactly the
      value, precisely when no object at any depth repeats a key. */
  lemma {:induction false} WalkDecides(v: Json, rest: seq<Token>)
    ensures UniqueKeys(v) ==> WalkValue(Tokens(v) + rest) == Some(rest)
    ensures !UniqueKeys(v) ==> WalkValue(Tokens(v) + rest) == None
    decreases v
  {
    var ts := Tokens(v) + rest;
    match v
    case JString(_) => assert ts[1..] == rest;
    case JAtom(_) => assert ts[1..] == rest;
    case JArray(items) =>
      assert ts[1..] == ItemTokens(items) + ([ArrayClose] + rest);
      ItemsDecide(items, [ArrayClose] + rest);
    case JObject(members) =>
      assert ts[1..] == MemberTokens(members) + ([ObjectClose] + rest);
      MembersDecide(members, [ObjectClose] + rest, {});
      MembersUnique(members, {});
  }

  lemma {:induction false} ItemsDecide(items: seq<Json>, end: seq<Token>)
    requires end != [] && end[0].ArrayClose?
    ensures (forall i :: 0 <= i < |items| ==> UniqueKeys(items[i])) ==>
              WalkItems(ItemTokens(items) + end) == Some(end[1..])
    ensures (exists i :: 0 <= i < |items| && !UniqueKeys(items[i])) ==>
              WalkItems(ItemTokens(items) + end) == None
    decreases items
  {
    if items == [] {
      assert ItemTokens(items) + end == end;
    } else {
      var tail := ItemTokens(items[1..]) + end;
      Regroup(Tokens(items[0]), ItemTokens(items[1..]), end);
      WalkDecides(items[0], tail);
      ItemsDecide(items[1..], end);
      assert forall i :: 1 <= i < |items| ==> items[i] == items[1..][i - 1];
    }
  }

  /** The keys are distinct, new, and lead to values with unique keys. */
  ghost predicate FreshMembers(members: seq<Member>, seen: set<string>) {
    members == []
    || (members[0].key !in seen && UniqueKeys(members[0].value)
        && FreshMembers(members[1..], seen + {members[0].key}))
  }

  lemma {:induction false} MembersUnique(members: seq<Member>, seen: set<string>)
    ensures FreshMembers(members, seen) <==>
              && (forall i :: 0 <= i < |members| ==> members[i].key !in seen && UniqueKeys(members[i].value))
              && (forall i, j :: 0 <= i < j < |members| ==> members[i].key != members[j].key)
  {
    if members != [] {
      var rest := members[1..];
      MembersUnique(rest, seen + {members[0].key});
      assert forall i :: 1 <= i < |members| ==> members[i] == rest[i - 1];
      if FreshMembers(members, seen) {
        forall i, j | 0 <= i < j < |members| ensures members[i].key != members[j].key {
          assert members[j] == rest[j - 1];
        }
      }
      if (forall i :: 0 <= i < |members| ==> members[i].key !in seen && UniqueKeys(members[i].value))
         && (forall i, j :: 0 <= i < j < |members| ==> members[i].key != members[j].key) {
        forall i | 0 <= i < |rest| ensures rest[i].key !in seen + {members[0].key} && UniqueKeys(rest[i].value) {
          assert rest[i] == members[i + 1];
        }
      }
    }
  }

  lemma {:induction false} MembersDecide(members: seq<Member>, end: seq<Token>, seen: set<string>)
    requires end != [] && end[0].ObjectClose?
    ensures FreshMembers(members, seen) ==> WalkMembers(MemberTokens(members) + end, seen) == Some(end[1..])
    ensures !FreshMembers(members, seen) ==> WalkMembers(MemberTokens(members) + end, seen) == None
    decreases members
  {
    if members == [] {
      assert MemberTokens(members) + end == end;
    } else {
      var key, value, more := members[0].key, Tokens(members[0].value), MemberTokens(members[1..]);
      var ts := MemberTokens(members) + end;
      Regroup(value, more, end);
      assert ts[0] == Str(key) && ts[1..] == value + (more + end);
      WalkDecides(members[0].value, more + end);
      MembersDecide(members[1..], end, seen + {key});
      WalkMember(ts, seen, more + end, UniqueKeys(members[0].value));
    }
  }

  /** One member of an object: a new key and an accepted value lead to the rest. */
  lemma WalkMember(ts: seq<Token>, seen: set<string>, rest: seq<Token>, accepted: bool)
    requires ts != [] && ts[0].Str?
    requires WalkValue(ts[1..]) == if accepted then Some(rest) else None
    ensures WalkMembers(ts, seen)
            == if ts[0].s in seen || !accepted then None else WalkMembers(rest, seen + {ts[0].s})
  {
  }

  /** Conversely whatever the check accepts is the token stream of one such value. */
  lemma {:induction false} WalkFindsValue(ts: seq<Token>) returns (v: Json)
    requires WalkValue(ts).Some?
    ensures UniqueKeys(v) && ts == Tokens(v) + WalkValue(ts).value
    decreases |ts|, 1
  {
    match ts[0]
    case Str(s) =>
      v := JString(s);
    case Atom(text) =>
      v := JAtom(text);
    case ArrayOpen =>
      var items := WalkFindsItems(ts[1..]);
      v := JArray(items);
      assert ts == [ArrayOpen] + ts[1..];
    case ObjectOpen =>
      var members := WalkFindsMembers(ts[1..], {});
      MembersUnique(members, {});
      v := JObject(members);
      assert ts == [ObjectOpen] + ts[1..];
  }

  lemma {:induction false} WalkFindsItems(ts: seq<Token>) returns (items: seq<Json>)
    requires WalkItems(ts).Some?
    ensures forall i :: 0 <= i < |items| ==> UniqueKeys(items[i])
    ensures ts == ItemTokens(items) + [ArrayClose] + WalkItems(ts).value
    decreases |ts|, 2
  {
    if More(ts) {
      var first := WalkFindsValue(ts);
      var rest := WalkFindsItems(WalkValue(ts).value);
      items := [first] + rest;
      assert items[1..] == rest;
      Regroup(Tokens(first), ItemTokens(rest) + [ArrayClose], WalkItems(ts).value);
      Regroup(Tokens(first), ItemTokens(rest), [ArrayClose]);
    } else {
      items := [];
      assert ts == [ArrayClose] + ts[1..];
    }
  }

  lemma {:induction false} WalkFindsMembers(ts: seq<Token>, seen: set<string>) returns (members: seq<Member>)
    requires WalkMembers(ts, seen).Some?
    ensures FreshMembers(members, seen)
    ensures ts == MemberTokens(members) + [ObjectClose] + WalkMembers(ts, seen).value
    decreases |ts|, 0
  {
    if More(ts) {
      var key, inner := ts[0].s, WalkValue(ts[1..]).value;
      var value := WalkFindsValue(ts[1..]);
      var rest := WalkFindsMembers(inner, seen + {key});
      members := [Member(key, value)] + rest;
      assert members[1..] == rest;
      assert ts == [ts[0]] + ts[1..];
    } else {
      members := [];
      assert ts == [ObjectClose] + ts[1..];
    }
  }
}
