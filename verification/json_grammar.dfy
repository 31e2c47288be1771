/**
  * The grammar of JSON (RFC 8259), with its bytes written out: which part of a text, from one position up to
  * another, spells which value. It knows nothing of the readers.
  */
module JsonGrammar {
  import opened Bytes
  import opened Json

  // ---- Space, numbers (sections 2 and 6)

  predicate IsBlank(b: Byte) { b == 0x20 || b == 0x09 || b == 0x0A || b == 0x0D }

  predicate BlankAt(s: Text, p: nat, q: nat) { p <= q <= |s| && forall i :: p <= i < q ==> IsBlank(s[i]) }

  predicate DigitsAt(s: Text, p: nat, q: nat) { p < q <= |s| && forall i :: p <= i < q ==> 48 <= s[i] <= 57 }

  predicate ExponentAt(s: Text, c: nat, q: nat) {
    && c < q <= |s| && (s[c] == 101 || s[c] == 69)
    && (DigitsAt(s, c + 1, q) || (c + 1 < q && (s[c + 1] == 43 || s[c + 1] == 45) && DigitsAt(s, c + 2, q)))
  }

  /** A sign from p to a, the whole part to b, a fraction to c and an exponent to q. */
  predicate NumberParts(s: Text, p: nat, a: nat, b: nat, c: nat, q: nat) {
    && p <= a < b <= c <= q <= |s| && (a == p || (a == p + 1 && s[p] == 45))
    && DigitsAt(s, a, b) && (s[a] == 48 ==> b == a + 1)
    && (b == c || (s[b] == 46 && DigitsAt(s, b + 1, c)))
    && (c == q || ExponentAt(s, c, q))
  }

  ghost predicate NumberAt(s: Text, p: nat, q: nat) { exists a, b, c :: NumberParts(s, p, a, b, c, q) }

  // ---- Strings (section 7)

  /** A continuation byte, and the six bits it carries. */
  predicate IsNext(b: Byte) { 0x80 <= b < 0xC0 }
  function Bits(b: Byte, lead: nat): int { b - lead }

  /** The bytes are the UTF-8 form of the code point (section 3 of RFC 3629). */
  predicate IsUtf8Of(t: Text, cp: nat) {
    || (|t| == 1 && cp < 0x80 && cp == t[0])
    || (|t| == 2 && 0x80 <= cp && 0xC0 <= t[0] < 0xE0 && IsNext(t[1])
        && cp == Bits(t[0], 0xC0) * 64 + Bits(t[1], 0x80))
    || (|t| == 3 && 0x800 <= cp && !(0xD800 <= cp <= 0xDFFF) && 0xE0 <= t[0] < 0xF0 && IsNext(t[1]) && IsNext(t[2])
        && cp == Bits(t[0], 0xE0) * 4096 + Bits(t[1], 0x80) * 64 + Bits(t[2], 0x80))
    || (|t| == 4 && 0x10000 <= cp <= 0x10FFFF && 0xF0 <= t[0] < 0xF8 && IsNext(t[1]) && IsNext(t[2]) && IsNext(t[3])
        && cp == Bits(t[0], 0xF0) * 262144 + Bits(t[1], 0x80) * 4096 + Bits(t[2], 0x80) * 64 + Bits(t[3], 0x80))
  }

  /** The byte is the hex digit of d, in either case. */
  predicate IsHexOf(b: Byte, d: nat) {
    if d < 10 then b == 48 + d else d < 16 && (b == 55 + d || b == 87 + d)
  }

  predicate UnitParts(s: Text, p: nat, v: nat, a: nat, b: nat, c: nat, d: nat) {
    && p + 6 <= |s| && s[p] == 92 && s[p + 1] == 117
    && IsHexOf(s[p + 2], a) && IsHexOf(s[p + 3], b) && IsHexOf(s[p + 4], c) && IsHexOf(s[p + 5], d)
    && v == a * 4096 + b * 256 + c * 16 + d
  }

  /** \uXXXX at p, with the value v. */
  ghost predicate UnitAt(s: Text, p: nat, v: nat) { exists a, b, c, d :: UnitParts(s, p, v, a, b, c, d) }

  /** The second byte of a short escape, and the character it stands for. */
  predicate IsShort(e: Byte, c: Byte) {
    || (e == 34 && c == 34) || (e == 92 && c == 92) || (e == 47 && c == 47) || (e == 98 && c == 8)
    || (e == 102 && c == 12) || (e == 110 && c == 10) || (e == 114 && c == 13) || (e == 116 && c == 9)
  }

  ghost predicate RawAt(s: Text, p: nat, r: nat, t: Text) {
    && p < r <= |s| && s[p..r] == t
    && exists cp :: cp >= 0x20 && cp != 34 && cp != 92 && IsUtf8Of(t, cp)
  }

  ghost predicate ShortAt(s: Text, p: nat, r: nat, t: Text) {
    r == p + 2 <= |s| && s[p] == 92 && |t| == 1 && IsShort(s[p + 1], t[0])
  }

  ghost predicate EscapeAt(s: Text, p: nat, r: nat, t: Text) {
    r == p + 6 && exists v :: UnitAt(s, p, v) && !(0xD800 <= v <= 0xDFFF) && IsUtf8Of(t, v)
  }

  predicate IsPair(hi: nat, lo: nat) { 0xD800 <= hi <= 0xDBFF && 0xDC00 <= lo <= 0xDFFF }

  ghost predicate PairParts(s: Text, p: nat, t: Text, hi: nat, lo: nat) {
    && UnitAt(s, p, hi) && UnitAt(s, p + 6, lo) && IsPair(hi, lo)
    && IsUtf8Of(t, 0x10000 + (hi - 0xD800) * 1024 + (lo - 0xDC00))
  }

  ghost predicate PairAt(s: Text, p: nat, r: nat, t: Text) {
    r == p + 12 && exists hi, lo :: PairParts(s, p, t, hi, lo)
  }

  /** One character, as it is or escaped. */
  ghost predicate CharAt(s: Text, p: nat, r: nat, t: Text) {
    RawAt(s, p, r, t) || ShortAt(s, p, r, t) || EscapeAt(s, p, r, t) || PairAt(s, p, r, t)
  }

  ghost predicate CharsAt(s: Text, p: nat, q: nat, t: Text)
    decreases q - p, 1
  {
    if p >= q then p == q <= |s| && t == [] else exists r, k :: CharThen(s, p, q, t, r, k)
  }

  /** A character up to r, which is the first k bytes of t, and the others behind it. */
  ghost predicate CharThen(s: Text, p: nat, q: nat, t: Text, r: nat, k: nat)
    requires p < q
    decreases q - p, 0
  {
    p < r <= q && k <= |t| && CharAt(s, p, r, t[..k]) && CharsAt(s, r, q, t[k..])
  }

  ghost predicate StringAt(s: Text, p: nat, q: nat, t: Text) {
    p + 2 <= q <= |s| && s[p] == 34 && s[q - 1] == 34 && CharsAt(s, p + 1, q - 1, t)
  }

  // ---- Values (sections 3 to 5), nested at most `max` deep

  /** How a part of a text is made up, from its first byte up to `end`. */
  datatype Tree =
    | Word(start: nat, end: nat, word: Json)
    | Numeral(start: nat, end: nat, digits: Text)
    | Quoted(start: nat, end: nat, text: Text)
    | Bracketed(start: nat, end: nat, items: seq<Item>)
    | Braced(start: nat, end: nat, entries: seq<Entry>, members: seq<Member>)

  /** A value, and where the comma or the closing bracket after it is. */
  datatype Item = Item(value: Tree, next: nat)

  /** A name from `start` to `end`, its colon, its value, and where the comma or the closing brace after that is. */
  datatype Entry = Entry(name: Text, start: nat, end: nat, colon: nat, value: Tree, next: nat)

  /** The value that is spelled. */
  function Meaning(t: Tree): Json
    decreases t, 1
  {
    match t
    case Word(_, _, word) => word
    case Numeral(_, _, digits) => Number(digits)
    case Quoted(_, _, text) => String(text)
    case Bracketed(_, _, items) => Array(Meanings(items))
    case Braced(_, _, _, members) => Object(members)
  }

  function MeaningOf(i: Item): Json
    decreases i, 2
  {
    Meaning(i.value)
  }

  function Meanings(items: seq<Item>): seq<Json>
    decreases items, 0
  {
    if items == [] then [] else [MeaningOf(items[0])] + Meanings(items[1..])
  }

  function MemberOf(e: Entry): Member { Member(e.name, Meaning(e.value)) }

  function MembersOf(entries: seq<Entry>): seq<Member> {
    if entries == [] then [] else [MemberOf(entries[0])] + MembersOf(entries[1..])
  }

  predicate IsWord(t: Text, j: Json) {
    || (j == Null && t == [110, 117, 108, 108])
    || (j == Bool(true) && t == [116, 114, 117, 101])
    || (j == Bool(false) && t == [102, 97, 108, 115, 101])
  }

  ghost predicate Stands(t: Tree, s: Text, depth: nat, max: nat)
    decreases t, 1
  {
    && t.start < t.end <= |s|
    && match t
       case Word(p, q, word) => IsWord(s[p..q], word)
       case Numeral(p, q, digits) => NumberAt(s, p, q) && s[p..q] == digits
       case Quoted(p, q, text) => StringAt(s, p, q, text)
       case Bracketed(p, q, items) =>
         && s[p] == 91 && s[q - 1] == 93 && p + 1 < q && depth < max
         && if items == [] then BlankAt(s, p + 1, q - 1) else ItemsStand(items, s, p + 1, q - 1, depth + 1, max)
       case Braced(p, q, entries, members) =>
         && s[p] == 123 && s[q - 1] == 125 && p + 1 < q && depth < max && Means(MembersOf(entries), members)
         && if entries == [] then BlankAt(s, p + 1, q - 1) else EntriesStand(entries, s, p + 1, q - 1, depth + 1, max)
  }

  /** There is the value, and nothing but space between p, it, and what comes next. */
  ghost predicate ItemStands(i: Item, s: Text, p: nat, depth: nat, max: nat)
    decreases i, 2
  {
    BlankAt(s, p, i.value.start) && Stands(i.value, s, depth, max) && BlankAt(s, i.value.end, i.next)
  }

  /** The items stand from p up to q, with commas between them and space around. */
  ghost predicate ItemsStand(items: seq<Item>, s: Text, p: nat, q: nat, depth: nat, max: nat)
    requires items != []
    decreases items, 0
  {
    var next := items[0].next;
    && ItemStands(items[0], s, p, depth, max)
    && if |items| == 1 then next == q
       else next < |s| && s[next] == 44 && ItemsStand(items[1..], s, next + 1, q, depth, max)
  }

  /** The same for a name and its value, with the colon between them. */
  ghost predicate EntryStands(e: Entry, s: Text, p: nat, depth: nat, max: nat)
    decreases e, 2
  {
    && BlankAt(s, p, e.start) && StringAt(s, e.start, e.end, e.name) && BlankAt(s, e.end, e.colon)
    && e.colon < |s| && s[e.colon] == 58 && BlankAt(s, e.colon + 1, e.value.start)
    && Stands(e.value, s, depth, max) && BlankAt(s, e.value.end, e.next)
  }

  ghost predicate EntriesStand(entries: seq<Entry>, s: Text, p: nat, q: nat, depth: nat, max: nat)
    requires entries != []
    decreases entries, 0
  {
    var next := entries[0].next;
    && EntryStands(entries[0], s, p, depth, max)
    && if |entries| == 1 then next == q
       else next < |s| && s[next] == 44 && EntriesStand(entries[1..], s, next + 1, q, depth, max)
  }

  /** The names in the order in which they first come. */
  function FirstNames(ms: seq<Member>): seq<Text> {
    if ms == [] then [] else
      var names, last := FirstNames(ms[..|ms| - 1]), ms[|ms| - 1].name;
      if last in names then names else names + [last]
  }

  /** What members in this order mean: each name once, where it first comes, with the value it last has. */
  ghost predicate Means(ms: seq<Member>, r: seq<Member>) {
    && |r| == |FirstNames(ms)|
    && forall i :: 0 <= i < |r| ==> r[i].name == FirstNames(ms)[i] && LastNamed(ms, r[i].name, r[i].value)
  }

  /** A whole text: one value, and space around it. */
  ghost predicate Spells(s: Text, t: Tree, max: nat) {
    BlankAt(s, 0, t.start) && Stands(t, s, 0, max) && BlankAt(s, t.end, |s|)
  }
}
