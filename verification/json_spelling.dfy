/** Both readers against the grammar: what they accept, what they make of it, and where no other byte may stand. */
module JsonSpelling {
  import opened Bytes
  import opened Utf8
  import opened Json
  import opened JsonGrammar
  import opened JsonGrammarTheorems
  import JsonReaders
  import Strict = JsonParse
  import Tolerant = JsonPrefix

  // ---- The strict parser

  lemma AcceptedIsSpelled(s: Text, max: nat) returns (t: Tree)
    requires Strict.ParseJson(s, max).Ok?
    ensures Spells(s, t, max) && Meaning(t) == Strict.ParseJson(s, max).value
  {
    SkipSound(s, 0);
    t := ValueSound(s, Strict.SkipSpace(s, 0), 0, max);
    SkipSound(s, t.end);
  }

  lemma SpelledIsAccepted(t: Tree, s: Text, max: nat)
    requires Spells(s, t, max)
    ensures Strict.ParseJson(s, max) == Strict.Ok(Meaning(t), |s|)
  {
    TreeStarts(t, s, 0, max);
    SkipComplete(s, 0, t.start);
    SkipComplete(s, t.end, |s|);
    ValueComplete(t, s, 0, max);
  }

  /** The strict parser gives a value for a text exactly if the text spells it. */
  lemma StrictIsGrammar(s: Text, j: Json, max: nat)
    ensures Strict.ParseJson(s, max) == Strict.Ok(j, |s|) <==> exists t :: Spells(s, t, max) && Meaning(t) == j
    ensures Strict.ParseJson(s, max).Ok? ==> Strict.ParseJson(s, max).pos == |s|
  {
    if Strict.ParseJson(s, max) == Strict.Ok(j, |s|) { var t := AcceptedIsSpelled(s, max); }
    if t :| Spells(s, t, max) && Meaning(t) == j { SpelledIsAccepted(t, s, max); }
  }

  // ---- Escapes

  /** An escape of four digits, in either case, is the character of its value. */
  lemma EscapeIsItsCharacter(cp: nat, a: nat, b: nat, c: nat, d: nat, s: Text, t: Text)
    requires !(0xD800 <= cp <= 0xDFFF) && cp == a * 4096 + b * 256 + c * 16 + d && IsUtf8Of(t, cp)
    requires |s| == 8 && s[0] == 34 && s[1] == 92 && s[2] == 117 && s[7] == 34
    requires IsHexOf(s[3], a) && IsHexOf(s[4], b) && IsHexOf(s[5], c) && IsHexOf(s[6], d)
    ensures Strict.ParseJson(s, 64) == Strict.Ok(String(t), 8)
  {
    assert UnitParts(s, 1, cp, a, b, c, d);
    assert EscapeAt(s, 1, 7, t);
    OneCharacter(s, t);
  }

  lemma OneCharacter(s: Text, t: Text)
    requires |s| >= 2 && s[0] == 34 && s[|s| - 1] == 34 && CharAt(s, 1, |s| - 1, t)
    ensures Strict.ParseJson(s, 64) == Strict.Ok(String(t), |s|)
  {
    var q := |s| - 1;
    PieceComplete(s, 1, q, t);
    assert t[..|t|] == t && t[|t|..] == [];
    assert CharThen(s, 1, q, t, q, |t|);
    assert StringAt(s, 0, |s|, t);
    SpelledIsAccepted(Quoted(0, |s|, t), s, 64);
  }

  /** A pair of escapes is the character they are the surrogates of. */
  lemma PairIsItsCharacter(cp: nat, s: Text, t: Text)
    requires 0x10000 <= cp <= 0x10FFFF && IsUtf8Of(t, cp) && |s| == 14 && s[0] == 34 && s[13] == 34
    requires UnitAt(s, 1, 0xD800 + (cp - 0x10000) / 1024) && UnitAt(s, 7, 0xDC00 + (cp - 0x10000) % 1024)
    ensures Strict.ParseJson(s, 64) == Strict.Ok(String(t), 14)
  {
    assert PairParts(s, 1, t, 0xD800 + (cp - 0x10000) / 1024, 0xDC00 + (cp - 0x10000) % 1024);
    assert PairAt(s, 1, 13, t);
    OneCharacter(s, t);
  }

  /** The short escapes. */
  lemma ShortEscapes(e: Byte, c: Byte)
    ensures Strict.ParseJson([34, 92, e, 34], 64) == Strict.Ok(String([c]), 4) <==> IsShort(e, c)
  {
    var s := [34, 92, e, 34];
    if IsShort(e, c) {
      assert ShortAt(s, 1, 3, [c]);
      OneCharacter(s, [c]);
    }
    if Strict.ParseJson(s, 64) == Strict.Ok(String([c]), 4) {
      assert Strict.SkipSpace(s, 0) == 0;
      assert Strict.ParseString(s, 0) == Strict.Ok([c], 4);
      var piece := Strict.Escape(s, 2);
      assert piece.Ok? && piece.pos == 3;
      assert [] + piece.value == piece.value;
      assert Strict.StringFrom(s, 3, piece.value) == Strict.Ok(piece.value, 4);
    }
  }

  /** How a byte of a string is printed: five of the control bytes and the two specials short, others by two digits. */
  lemma PrintedAs(b: Byte)
    ensures var e := EscapeByte(b);
      if exists c :: IsShort(c, b) && c != 47 then |e| == 2 && e[0] == 92 && e[1] != 47 && IsShort(e[1], b)
      else if b < 0x20 || b == 0x7F then
        && |e| == 6 && e[..4] == [92, 117, 48, 48] && IsHexOf(e[4], b / 16) && IsHexOf(e[5], b % 16)
        && !(65 <= e[4] <= 90) && !(65 <= e[5] <= 90)
      else e == [b]
  {
    if |EscapeByte(b)| == 2 { assert IsShort(EscapeByte(b)[1], b); }
  }

  /** A string is printed byte by byte between quotes. */
  lemma {:induction false} PrintedBytes(t: Text, i: nat)
    requires i < |t|
    ensures Quote(t) == [34] + EscapeFrom(t, 0) + [34] && EscapeFrom(t, i) == EscapeByte(t[i]) + EscapeFrom(t, i + 1)
    ensures EscapeFrom(t, |t|) == []
  {
  }

  // ---- The preview reader

  /** Values one after the other from p to the end, with space between them. */
  ghost predicate FileStands(ts: seq<Tree>, s: Text, p: nat) {
    if ts == [] then BlankAt(s, p, |s|)
    else
      && BlankAt(s, p, ts[0].start) && Stands(ts[0], s, 0, 64)
      && (ts[0].end == |s| || IsBlank(s[ts[0].end])) && FileStands(ts[1..], s, ts[0].end)
  }

  lemma {:induction false} ValuesAreRead(ts: seq<Tree>, s: Text, p: nat, n: nat)
    requires FileStands(ts, s, p)
    ensures p <= |s| && Tolerant.Values(s, false, p, n) == Tolerant.Outcome(n + |ts|, false, None)
    decreases |ts|
  {
    if ts == [] {
      SkipComplete(s, p, |s|);
    } else {
      var t := ts[0];
      TreeStarts(t, s, 0, 64);
      SkipComplete(s, p, t.start);
      ValueComplete(t, s, 0, 64);
      JsonReaders.ValuesAgree(s, t.start, 0, 64);
      ValuesAreRead(ts[1..], s, t.end, n + 1);
    }
  }

  /** A file of values with space between them, before and after, is read as that many, without a problem. */
  lemma FilesAreRead(ts: seq<Tree>, s: Text)
    requires ts != [] && FileStands(ts, s, if |s| >= 3 && s[..3] == [0xEF, 0xBB, 0xBF] then 3 else 0)
    ensures Tolerant.Run(s, false) == Tolerant.Outcome(|ts|, false, None)
  {
    JsonReaders.MarkIs(s);
    ValuesAreRead(ts, s, Tolerant.AfterBom(s), 0);
  }

  /** And one of space alone as no value. */
  lemma BlankFiles(s: Text)
    requires BlankAt(s, if |s| >= 3 && s[..3] == [0xEF, 0xBB, 0xBF] then 3 else 0, |s|)
    ensures Tolerant.Run(s, false) == Tolerant.Outcome(0, false, Some(Tolerant.NoValue))
  {
    JsonReaders.MarkIs(s);
    ValuesAreRead([], s, Tolerant.AfterBom(s), 0);
  }

  lemma {:induction false} DeepFault(s: Text, truncated: bool, p: nat, d: nat)
    requires d <= 65 && p + (65 - d) < |s| && forall i :: p <= i <= p + (65 - d) ==> s[i] == 91
    ensures Tolerant.Value(s, truncated, p, d) == Tolerant.Fault(Tolerant.TooDeep, p + (65 - d))
    decreases 65 - d
  {
    assert Strict.SkipSpace(s, p) == p;
    if d < 65 {
      DeepFault(s, truncated, p + 1, d + 1);
      assert Strict.SkipSpace(s, p + 1) == p + 1 && s[p] == 91 && s[p + 1] == 91;
      assert Tolerant.Items(s, truncated, p + 1, d) == Tolerant.Value(s, truncated, p + 1, d + 1);
      assert Tolerant.ReadArray(s, truncated, p, d) == Tolerant.Items(s, truncated, p + 1, d);
    }
  }

  /** The 66th bracket open at once is one too many for the preview reader. */
  lemma DeepIsRefused(s: Text, truncated: bool)
    requires |s| >= 66 && forall i :: 0 <= i < 66 ==> s[i] == 91
    ensures Tolerant.Run(s, truncated) == Tolerant.Outcome(0, false, Some(Tolerant.Wrong(Tolerant.TooDeep, 65)))
  {
    JsonReaders.MarkIs(s);
    assert |s| >= 3 ==> s[..3][0] == 91;
    assert Strict.SkipSpace(s, 0) == 0;
    DeepFault(s, truncated, 0, 0);
  }

  // ---- Where no other byte may stand

  /** The bytes of tokens, and the four of space. */
  predicate IsTokenByte(b: Byte) {
    || b == 0x20 || b == 0x09 || b == 0x0A || b == 0x0D
    || b == 34 || b == 44 || b == 58 || b == 91 || b == 93 || b == 123 || b == 125
    || 48 <= b <= 57 || b == 43 || b == 45 || b == 46 || b == 69 || b == 101
    || b == 97 || b == 102 || b == 108 || b == 110 || b == 114 || b == 115 || b == 116 || b == 117
  }

  /** From p on, there are only such bytes outside strings. */
  predicate OnlyTokens(s: Text, p: nat, inside: bool)
    decreases if p < |s| then |s| - p else 0
  {
    p >= |s| ||
    if !inside then IsTokenByte(s[p]) && OnlyTokens(s, p + 1, s[p] == 34)
    else if s[p] == 34 then OnlyTokens(s, p + 1, false)
    else OnlyTokens(s, if s[p] == 92 then p + 2 else p + 1, true)
  }

  lemma {:induction false} PassTokens(s: Text, p: nat, q: nat)
    requires p <= q <= |s| && forall i :: p <= i < q ==> IsTokenByte(s[i]) && s[i] != 34
    requires OnlyTokens(s, q, false)
    ensures OnlyTokens(s, p, false)
    decreases q - p
  {
    if p < q { PassTokens(s, p + 1, q); }
  }

  lemma PassOne(s: Text, p: nat)
    requires p < |s| && IsTokenByte(s[p]) && s[p] != 34 && OnlyTokens(s, p + 1, false)
    ensures OnlyTokens(s, p, false)
  {
  }

  lemma {:induction false} PassInside(s: Text, p: nat, q: nat)
    requires p <= q <= |s| && forall i :: p <= i < q ==> s[i] != 34 && s[i] != 92
    requires OnlyTokens(s, q, true)
    ensures OnlyTokens(s, p, true)
    decreases q - p
  {
    if p < q { PassInside(s, p + 1, q); }
  }

  lemma PassUnit(s: Text, p: nat, v: nat)
    requires UnitAt(s, p, v) && OnlyTokens(s, p + 6, true)
    ensures OnlyTokens(s, p, true)
  {
    PassInside(s, p + 2, p + 6);
  }

  lemma PassCharacter(s: Text, p: nat, r: nat, t: Text)
    requires CharAt(s, p, r, t) && OnlyTokens(s, r, true)
    ensures OnlyTokens(s, p, true)
  {
    if RawAt(s, p, r, t) {
      assert forall i :: p <= i < r ==> s[i] == s[p..r][i - p];
      PassInside(s, p, r);
    } else if EscapeAt(s, p, r, t) {
      var v :| UnitAt(s, p, v) && !(0xD800 <= v <= 0xDFFF) && IsUtf8Of(t, v);
      PassUnit(s, p, v);
    } else if PairAt(s, p, r, t) {
      var hi: nat, lo: nat :| PairParts(s, p, t, hi, lo);
      PassUnit(s, p + 6, lo);
      PassUnit(s, p, hi);
    }
  }

  lemma {:induction false} PassCharacters(s: Text, p: nat, q: nat, t: Text)
    requires CharsAt(s, p, q, t) && OnlyTokens(s, q, true)
    ensures OnlyTokens(s, p, true)
    decreases q - p
  {
    if p < q {
      var r: nat, k: nat :| CharThen(s, p, q, t, r, k);
      PassCharacters(s, r, q, t[k..]);
      PassCharacter(s, p, r, t[..k]);
    }
  }

  lemma PassString(s: Text, p: nat, q: nat, t: Text)
    requires StringAt(s, p, q, t) && OnlyTokens(s, q, false)
    ensures OnlyTokens(s, p, false)
  {
    PassCharacters(s, p + 1, q - 1, t);
  }

  lemma PassNumber(s: Text, p: nat, q: nat)
    requires NumberAt(s, p, q) && OnlyTokens(s, q, false)
    ensures OnlyTokens(s, p, false)
  {
    var a: nat, b: nat, c: nat :| NumberParts(s, p, a, b, c, q);
    PassTokens(s, c, q);
    PassTokens(s, b, c);
    PassTokens(s, p, b);
  }

  lemma PassWord(s: Text, p: nat, q: nat, word: Json)
    requires p < q <= |s| && IsWord(s[p..q], word) && OnlyTokens(s, q, false)
    ensures OnlyTokens(s, p, false)
  {
    assert forall i :: p <= i < q ==> s[i] == s[p..q][i - p];
    PassTokens(s, p, q);
  }

  lemma {:induction false} PassTree(t: Tree, s: Text, depth: nat, max: nat)
    requires Stands(t, s, depth, max) && OnlyTokens(s, t.end, false)
    ensures OnlyTokens(s, t.start, false)
    decreases t, 1
  {
    match t
    case Word(p, q, word) => PassWord(s, p, q, word);
    case Numeral(p, q, _) => PassNumber(s, p, q);
    case Quoted(p, q, text) => PassString(s, p, q, text);
    case Bracketed(p, q, items) =>
      PassOne(s, q - 1);
      PassContents(items, s, p + 1, q - 1, depth + 1, max);
      PassOne(s, p);
    case Braced(p, q, entries, _) =>
      PassOne(s, q - 1);
      PassMembers(entries, s, p + 1, q - 1, depth + 1, max);
      PassOne(s, p);
  }

  lemma {:induction false} PassContents(items: seq<Item>, s: Text, p: nat, q: nat, depth: nat, max: nat)
    requires if items == [] then BlankAt(s, p, q) else ItemsStand(items, s, p, q, depth, max)
    requires OnlyTokens(s, q, false)
    ensures OnlyTokens(s, p, false)
    decreases items, 4
  {
    if items == [] {
      PassTokens(s, p, q);
    } else {
      PassItems(items, s, p, q, depth, max);
    }
  }

  lemma {:induction false} PassMembers(entries: seq<Entry>, s: Text, p: nat, q: nat, depth: nat, max: nat)
    requires if entries == [] then BlankAt(s, p, q) else EntriesStand(entries, s, p, q, depth, max)
    requires OnlyTokens(s, q, false)
    ensures OnlyTokens(s, p, false)
    decreases entries, 4
  {
    if entries == [] {
      PassTokens(s, p, q);
    } else {
      PassEntries(entries, s, p, q, depth, max);
    }
  }

  lemma {:induction false} PassItems(items: seq<Item>, s: Text, p: nat, q: nat, depth: nat, max: nat)
    requires items != [] && ItemsStand(items, s, p, q, depth, max) && OnlyTokens(s, q, false)
    ensures OnlyTokens(s, p, false)
    decreases items, 3
  {
    var next := items[0].next;
    ItemsSplit(items, s, p, q, depth, max);
    if |items| > 1 {
      PassItems(items[1..], s, next + 1, q, depth, max);
      PassOne(s, next);
    }
    PassItem(items[0], s, p, depth, max);
  }

  lemma {:induction false} PassItem(i: Item, s: Text, p: nat, depth: nat, max: nat)
    requires ItemStands(i, s, p, depth, max) && OnlyTokens(s, i.next, false)
    ensures OnlyTokens(s, p, false)
    decreases i, 2
  {
    PassTokens(s, i.value.end, i.next);
    PassTree(i.value, s, depth, max);
    PassTokens(s, p, i.value.start);
  }

  lemma {:induction false} PassEntries(entries: seq<Entry>, s: Text, p: nat, q: nat, depth: nat, max: nat)
    requires entries != [] && EntriesStand(entries, s, p, q, depth, max) && OnlyTokens(s, q, false)
    ensures OnlyTokens(s, p, false)
    decreases entries, 3
  {
    var next := entries[0].next;
    EntriesSplit(entries, s, p, q, [], depth, max);
    if |entries| > 1 {
      PassEntries(entries[1..], s, next + 1, q, depth, max);
      PassOne(s, next);
    }
    PassEntry(entries[0], s, p, depth, max);
  }

  lemma {:induction false} PassEntry(e: Entry, s: Text, p: nat, depth: nat, max: nat)
    requires EntryStands(e, s, p, depth, max) && OnlyTokens(s, e.next, false)
    ensures OnlyTokens(s, p, false)
    decreases e, 2
  {
    PassTokens(s, e.value.end, e.next);
    PassTree(e.value, s, depth, max);
    PassTokens(s, e.end, e.value.start);
    PassString(s, e.start, e.end, e.name);
    PassTokens(s, p, e.start);
  }

  /** A text with any other byte outside its strings is not accepted. */
  lemma OtherBytesAreRefused(s: Text, max: nat)
    requires !OnlyTokens(s, 0, false)
    ensures Strict.ParseJson(s, max).Err?
  {
    if Strict.ParseJson(s, max).Ok? {
      var t := AcceptedIsSpelled(s, max);
      PassTokens(s, t.end, |s|);
      PassTree(t, s, 0, max);
      PassTokens(s, 0, t.start);
    }
  }
}
