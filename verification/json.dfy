/** JSON values, their text, and the strict parser (RFC 8259), as functions. */
module Json {
  import opened Bytes
  import opened Utf8

  /** Numbers keep their text; members keep their order. */
  datatype Json =
    | Null
    | Bool(b: bool)
    | Number(number: Text)
    | String(text: Text)
    | Array(items: seq<Json>)
    | Object(members: seq<Member>)

  datatype Member = Member(name: Text, value: Json)

  const QUOTE: Byte := 34
  const COMMA: Byte := 44
  const MINUS: Byte := 45
  const PERIOD: Byte := 46
  const COLON: Byte := 58
  const OPEN_BRACKET: Byte := 91
  const BACKSLASH: Byte := 92
  const CLOSE_BRACKET: Byte := 93
  const LOWER_U: Byte := 117
  const OPEN_BRACE: Byte := 123
  const CLOSE_BRACE: Byte := 125

  const NULL: Text := [110, 117, 108, 108]
  const TRUE: Text := [116, 114, 117, 101]
  const FALSE: Text := [102, 97, 108, 115, 101]

  // ---- Members

  /** set(): the first member of the name gets the value, or a new one is added at the end. */
  function Set(members: seq<Member>, name: Text, v: Json): (r: seq<Member>) {
    if members == [] then [Member(name, v)]
    else if members[0].name == name then [Member(name, v)] + members[1..]
    else [members[0]] + Set(members[1..], name, v)
  }

  /** find(): the last member of the name. */
  function Find(members: seq<Member>, name: Text): Option<Json> {
    if members == [] then None
    else if members[|members| - 1].name == name then Some(members[|members| - 1].value)
    else Find(members[..|members| - 1], name)
  }

  predicate HasName(members: seq<Member>, name: Text) {
    exists i :: 0 <= i < |members| && members[i].name == name
  }

  predicate DistinctNames(members: seq<Member>) {
    forall i, j :: 0 <= i < j < |members| ==> members[i].name != members[j].name
  }

  lemma {:induction false} SetKeepsDistinct(members: seq<Member>, name: Text, v: Json)
    requires DistinctNames(members)
    ensures DistinctNames(Set(members, name, v))
    ensures forall n :: HasName(Set(members, name, v), n) <==> n == name || HasName(members, n)
  {
    if members != [] {
      assert members == [members[0]] + members[1..];
      if members[0].name == name {
        var r := [Member(name, v)] + members[1..];
        assert forall i :: 0 < i < |r| ==> r[i] == members[i];
        assert r[0].name == name;
      } else {
        SetKeepsDistinct(members[1..], name, v);
        var rest := Set(members[1..], name, v);
        assert !HasName(members[1..], members[0].name);
        forall n
          ensures HasName([members[0]] + rest, n) <==> n == name || HasName(members, n)
        {
          HasNameCons(members[0], rest, n);
          HasNameCons(members[0], members[1..], n);
        }
        assert forall i :: 0 <= i < |rest| ==> HasName(rest, rest[i].name);
      }
    } else {
      assert Set(members, name, v)[0].name == name;
    }
  }

  lemma HasNameCons(m: Member, rest: seq<Member>, n: Text)
    ensures HasName([m] + rest, n) <==> m.name == n || HasName(rest, n)
  {
    var all := [m] + rest;
    assert all[0] == m;
    if HasName(rest, n) {
      var i :| 0 <= i < |rest| && rest[i].name == n;
      assert all[i + 1].name == n;
    }
    if HasName(all, n) && m.name != n {
      var i :| 0 <= i < |all| && all[i].name == n;
      assert rest[i - 1].name == n;
    }
  }

  lemma {:induction false} SetNewAppends(members: seq<Member>, name: Text, v: Json)
    requires !HasName(members, name)
    ensures Set(members, name, v) == members + [Member(name, v)]
  {
    if members != [] {
      assert members[0].name != name;
      assert forall i :: 0 <= i < |members| - 1 ==> members[1..][i] == members[i + 1];
      SetNewAppends(members[1..], name, v);
    }
  }

  lemma {:induction false} FindIs(members: seq<Member>, i: nat)
    requires DistinctNames(members) && i < |members|
    ensures Find(members, members[i].name) == Some(members[i].value)
  {
    var last := |members| - 1;
    if i < last { FindIs(members[..last], i); }
  }

  lemma {:induction false} FindIsNone(members: seq<Member>, name: Text)
    ensures Find(members, name).None? <==> !HasName(members, name)
  {
    if members != [] {
      var last := |members| - 1;
      FindIsNone(members[..last], name);
      if HasName(members, name) && members[last].name != name {
        var i :| 0 <= i < |members| && members[i].name == name;
        assert members[..last][i].name == name;
      }
    }
  }

  /** The member at i has the name and the value, and none after it has the name. */
  ghost predicate IsLastAt(members: seq<Member>, name: Text, v: Json, i: nat) {
    i < |members| && members[i] == Member(name, v) && forall j :: i < j < |members| ==> members[j].name != name
  }

  /** v is the value of the last member of the name. */
  ghost predicate LastNamed(members: seq<Member>, name: Text, v: Json) { exists i :: IsLastAt(members, name, v, i) }

  ghost predicate NoneNamed(members: seq<Member>, name: Text) {
    forall i :: 0 <= i < |members| ==> members[i].name != name
  }

  lemma {:induction false} FindIsLast(members: seq<Member>, name: Text)
    ensures Find(members, name).None? <==> NoneNamed(members, name)
    ensures forall v :: Find(members, name) == Some(v) <==> LastNamed(members, name, v)
  {
    if members != [] {
      var last := |members| - 1;
      FindIsLast(members[..last], name);
      if members[last].name == name {
        assert IsLastAt(members, name, members[last].value, last);
      } else {
        forall v
          ensures LastNamed(members, name, v) <==> LastNamed(members[..last], name, v)
        {
          LastNamedBefore(members, name, v);
        }
      }
    }
  }

  lemma LastNamedBefore(members: seq<Member>, name: Text, v: Json)
    requires members != [] && members[|members| - 1].name != name
    ensures LastNamed(members, name, v) <==> LastNamed(members[..|members| - 1], name, v)
  {
    var most := members[..|members| - 1];
    if i :| IsLastAt(members, name, v, i) { assert IsLastAt(most, name, v, i); }
    if i :| IsLastAt(most, name, v, i) { assert IsLastAt(members, name, v, i); }
  }

  lemma {:induction false} SetIsThere(members: seq<Member>, name: Text, v: Json) returns (i: nat)
    ensures i < |Set(members, name, v)| && Set(members, name, v)[i] == Member(name, v)
  {
    i := 0;
    if members != [] && members[0].name != name {
      var j := SetIsThere(members[1..], name, v);
      i := j + 1;
    }
  }

  lemma {:induction false} OthersStay(members: seq<Member>, name: Text, v: Json, k: nat) returns (i: nat)
    requires k < |members| && members[k].name != name
    ensures i < |Set(members, name, v)| && Set(members, name, v)[i] == members[k]
  {
    i := k;
    if k > 0 && members[0].name != name {
      var j := OthersStay(members[1..], name, v, k - 1);
      i := j + 1;
    }
  }

  /** What find gives after set: the value set, and for any other name what it gave before. */
  lemma FindAfterSet(members: seq<Member>, name: Text, v: Json, other: Text)
    requires DistinctNames(members)
    ensures Find(Set(members, name, v), other) == if other == name then Some(v) else Find(members, other)
  {
    var r := Set(members, name, v);
    SetKeepsDistinct(members, name, v);
    if other == name {
      var i := SetIsThere(members, name, v);
      FindIs(r, i);
    } else if HasName(members, other) {
      var k :| 0 <= k < |members| && members[k].name == other;
      var i := OthersStay(members, name, v, k);
      FindIs(members, k);
      FindIs(r, i);
    } else {
      FindIsNone(members, other);
      FindIsNone(r, other);
    }
  }

  // ---- The text of a value

  function HexDigit(n: nat): Byte
    requires n < 16
  {
    if n < 10 then 48 + n else 87 + n
  }

  /** How append_json_string writes one byte. */
  function EscapeByte(b: Byte): Text {
    if b == QUOTE then [BACKSLASH, QUOTE]
    else if b == BACKSLASH then [BACKSLASH, BACKSLASH]
    else if b == 8 then [BACKSLASH, 98]
    else if b == 12 then [BACKSLASH, 102]
    else if b == 10 then [BACKSLASH, 110]
    else if b == 13 then [BACKSLASH, 114]
    else if b == 9 then [BACKSLASH, 116]
    else if b < 0x20 || b == 0x7F then [BACKSLASH, LOWER_U, 48, 48, HexDigit(b / 16), HexDigit(b % 16)]
    else [b]
  }

  function EscapeFrom(t: Text, i: nat): Text
    requires i <= |t|
    decreases |t| - i
  {
    if i == |t| then [] else EscapeByte(t[i]) + EscapeFrom(t, i + 1)
  }

  function Quote(t: Text): Text { [QUOTE] + EscapeFrom(t, 0) + [QUOTE] }

  /** No control character, so no end of a line. */
  predicate OneLine(t: Text) { forall i :: 0 <= i < |t| ==> t[i] >= 0x20 }

  lemma {:induction false} EscapedIsOneLine(t: Text, i: nat)
    requires i <= |t|
    ensures OneLine(EscapeFrom(t, i))
    decreases |t| - i
  {
    if i < |t| {
      EscapedIsOneLine(t, i + 1);
      assert OneLine(EscapeByte(t[i]));
    }
  }

  lemma QuoteIsOneLine(t: Text)
    ensures OneLine(Quote(t))
  {
    EscapedIsOneLine(t, 0);
  }

  function Dump(j: Json): Text
    decreases j, 1
  {
    match j
    case Null => NULL
    case Bool(b) => if b then TRUE else FALSE
    case Number(t) => t
    case String(t) => Quote(t)
    case Array(items) => [OPEN_BRACKET] + DumpItems(items) + [CLOSE_BRACKET]
    case Object(members) => [OPEN_BRACE] + DumpMembers(members) + [CLOSE_BRACE]
  }

  function DumpItems(items: seq<Json>): Text
    decreases items, 0
  {
    if items == [] then []
    else if |items| == 1 then Dump(items[0])
    else Dump(items[0]) + [COMMA] + DumpItems(items[1..])
  }

  function DumpMember(m: Member): Text
    decreases m, 2
  {
    Quote(m.name) + [COLON] + Dump(m.value)
  }

  function DumpMembers(members: seq<Member>): Text
    decreases members, 0
  {
    if members == [] then []
    else if |members| == 1 then DumpMember(members[0])
    else DumpMember(members[0]) + [COMMA] + DumpMembers(members[1..])
  }

  // ---- Numbers (section 6 of RFC 8259)

  predicate IsDigit(b: Byte) { 48 <= b <= 57 }

  predicate AllDigits(t: Text) { forall i :: 0 <= i < |t| ==> IsDigit(t[i]) }

  predicate IsSign(t: Text) { t == [] || t == [MINUS] }

  predicate IsIntPart(t: Text) { t != [] && AllDigits(t) && (t[0] == 48 ==> |t| == 1) }

  predicate IsFraction(t: Text) { t == [] || (|t| >= 2 && t[0] == PERIOD && AllDigits(t[1..])) }

  predicate IsExponent(t: Text) {
    t == [] || (
      && (t[0] == 101 || t[0] == 69)
      && (|| (|t| >= 2 && AllDigits(t[1..]))
          || (|t| >= 3 && (t[1] == 43 || t[1] == MINUS) && AllDigits(t[2..]))))
  }

  ghost predicate IsNumber(t: Text) {
    exists sign: Text, whole: Text, frac: Text, exp: Text ::
      IsSign(sign) && IsIntPart(whole) && IsFraction(frac) && IsExponent(exp) && t == sign + whole + frac + exp
  }

  // ---- Values that come from a text

  /** Well-formed strings, grammatical numbers, distinct names, and nesting within what is left of the limit. */
  ghost predicate Proper(j: Json, depth: nat, max: nat)
    decreases j, 1
  {
    match j
    case Null => true
    case Bool(_) => true
    case Number(t) => IsNumber(t)
    case String(t) => WellFormed(t)
    case Array(items) => depth < max && ProperItems(items, depth + 1, max)
    case Object(members) => depth < max && DistinctNames(members) && ProperMembers(members, depth + 1, max)
  }

  ghost predicate ProperItems(items: seq<Json>, depth: nat, max: nat)
    decreases items, 0
  {
    forall i :: 0 <= i < |items| ==> Proper(items[i], depth, max)
  }

  ghost predicate ProperMembers(members: seq<Member>, depth: nat, max: nat)
    decreases members, 0
  {
    forall i :: 0 <= i < |members| ==> WellFormed(members[i].name) && Proper(members[i].value, depth, max)
  }
}
