/** Output within a limit (mcp_server.cpp): cuts that fall between the characters of UTF-8 text. */
module OutputLimits {
  import opened Bytes
  import opened Utf8
  import opened Decimal

  // ---- Where characters begin

  /** Reading characters from p on, one comes to k. */
  predicate Reaches(s: Text, p: nat, k: nat)
    requires p <= k <= |s|
    decreases k - p
  {
    p == k || (
      var n := SequenceLength(s, p, |s|);
      n > 0 && p + n <= k && Reaches(s, p + n, k))
  }

  /** A place between two characters, or an end. */
  predicate Between(s: Text, k: nat)
    requires k <= |s|
  {
    k == |s| || !IsContinuation(s[k])
  }

  lemma {:induction false} ReachesIsBetween(s: Text, p: nat, k: nat)
    requires p <= k <= |s| && WellFormedFrom(s, p)
    ensures Reaches(s, p, k) <==> Between(s, k)
    decreases k - p
  {
    if p < |s| {
      var n := SequenceLength(s, p, |s|);
      if p + n <= k { ReachesIsBetween(s, p + n, k); }
    }
  }

  lemma {:induction false} ReachesIsPrefix(s: Text, p: nat, k: nat)
    requires p <= k <= |s| && WellFormedFrom(s, p)
    ensures Reaches(s, p, k) <==> WellFormedFrom(s[..k], p)
    ensures Reaches(s, p, k) ==> WellFormedFrom(s, k)
    decreases k - p
  {
    if p < k {
      var n := SequenceLength(s, p, |s|);
      if p + n <= k {
        assert s[..k][p..p + n] == s[p..p + n];
        SequenceIsLocal(s, p, |s|, s[..k], p, k);
        ReachesIsPrefix(s, p + n, k);
      } else {
        assert SequenceLength(s[..k], p, k) == 0;
      }
    }
  }

  /** In a well-formed text, a place between characters is one where both parts are well-formed, and no other. */
  lemma CutIsBetween(s: Text, k: nat)
    requires WellFormed(s) && k <= |s|
    ensures WellFormed(s[..k]) <==> Between(s, k)
    ensures Between(s, k) ==> WellFormed(s[k..])
  {
    ReachesIsBetween(s, 0, k);
    ReachesIsPrefix(s, 0, k);
    if Between(s, k) {
      assert s[..k] + s[k..] == s;
      WellFormedShift(s[..k], s[k..], 0);
    }
  }

  lemma PartIsWellFormed(s: Text, i: nat, k: nat)
    requires WellFormed(s) && i <= k <= |s| && Between(s, i) && Between(s, k)
    ensures WellFormed(s[i..k])
  {
    CutIsBetween(s, i);
    assert i < k < |s| ==> s[i..][k - i] == s[k];
    CutIsBetween(s[i..], k - i);
    assert s[i..][..k - i] == s[i..k];
  }

  lemma Joined(a: Text, b: Text, c: Text)
    requires WellFormed(a) && WellFormed(b) && WellFormed(c)
    ensures WellFormed(a + b + c)
  {
    WellFormedConcat(a, b);
    WellFormedConcat(a + b, c);
  }

  // ---- The end of a cut text

  /** What a lead byte announces; 1 for a byte that announces nothing. */
  function AnnouncedLength(b: Byte): (n: nat)
    ensures 1 <= n <= 4
  {
    if b / 32 == 6 then 2 else if b / 16 == 14 then 3 else if b / 8 == 30 then 4 else 1
  }

  /** The bytes before n are continuation bytes, from the last but `back`. */
  predicate OnlyContinuations(s: Text, n: nat, back: nat)
    requires n <= |s|
  {
    forall i :: n - back <= i < n && 0 <= i ==> IsContinuation(s[i])
  }

  /** trim_utf8_tail: what is left of the text. */
  method TrimTail(s: Text) returns (r: Text)
    ensures r == s[..TrimmedLength(s)]
  {
    var n := |s|;
    var back := 1;
    while back <= 4 && back <= n
      invariant 1 <= back <= 5 && back <= n + 1
      invariant TrimmedLength(s) == TrimmedFrom(s, back)
    {
      var b := s[n - back];
      if !IsContinuation(b) {
        return if AnnouncedLength(b) > back then s[..n - back] else s;
      }
      back := back + 1;
    }
    r := s;
  }

  function TrimmedFrom(s: Text, back: nat): (k: nat)
    requires back >= 1
    ensures k <= |s|
    decreases 5 - back
  {
    if back > 4 || back > |s| then |s|
    else
      var b := s[|s| - back];
      if IsContinuation(b) then TrimmedFrom(s, back + 1)
      else if AnnouncedLength(b) > back then |s| - back
      else |s|
  }

  function TrimmedLength(s: Text): (k: nat)
    ensures k <= |s|
  {
    TrimmedFrom(s, 1)
  }

  /** The longest prefix of whole characters within the cap. */
  ghost predicate LongestWhole(s: Text, cap: nat, k: nat) {
    && k <= |s| && k <= cap && WellFormed(s[..k])
    && forall j :: 0 <= j <= |s| && j <= cap && WellFormed(s[..j]) ==> j <= k
  }

  lemma LeadAnnounces(s: Text, p: nat, end: nat)
    requires p < end <= |s| && SequenceLength(s, p, end) > 0
    ensures AnnouncedLength(s[p]) == SequenceLength(s, p, end) && !IsContinuation(s[p])
    ensures forall i :: p < i < p + SequenceLength(s, p, end) ==> IsContinuation(s[i])
  {
  }

  /** Going back over continuation bytes from the cut, the trim finds the last place between characters. */
  lemma {:induction false} TrimFinds(s: Text, cap: nat, back: nat)
    requires WellFormed(s) && cap < |s| && back >= 1 && OnlyContinuations(s, cap, back - 1)
    ensures var k := TrimmedFrom(s[..cap], back);
      Between(s, k) && forall j :: k < j <= cap ==> !Between(s, j)
    decreases 5 - back
  {
    var t := s[..cap];
    if back > 4 || back > cap {
      CharacterBefore(s, cap, 0);
    } else if IsContinuation(t[cap - back]) {
      TrimFinds(s, cap, back + 1);
    } else {
      CharacterAt(s, cap - back);
      LeadAnnounces(s, cap - back, |s|);
      var n := SequenceLength(s, cap - back, |s|);
      CharacterEnds(s, cap - back);
      assert n >= back;
    }
  }

  /** At a place between characters there is one, and its end is another such place. */
  lemma CharacterAt(s: Text, k: nat)
    requires WellFormed(s) && k < |s| && Between(s, k)
    ensures SequenceLength(s, k, |s|) > 0 && WellFormedFrom(s, k)
  {
    ReachesIsBetween(s, 0, k);
    ReachesIsPrefix(s, 0, k);
  }

  lemma CharacterEnds(s: Text, k: nat)
    requires WellFormed(s) && k < |s| && Between(s, k)
    ensures Between(s, k + SequenceLength(s, k, |s|))
  {
    CharacterAt(s, k);
    var q := k + SequenceLength(s, k, |s|);
    if q < |s| { LeadAnnounces(s, q, |s|); }
  }

  /** No more than three continuation bytes come in a row. */
  lemma {:induction false} CharacterBefore(s: Text, k: nat, p: nat)
    requires WellFormed(s) && p <= k < |s| && WellFormedFrom(s, p)
    ensures exists i :: k - 3 <= i <= k && 0 <= i && !IsContinuation(s[i])
    decreases k - p
  {
    var n := SequenceLength(s, p, |s|);
    LeadAnnounces(s, p, |s|);
    if p + n <= k { CharacterBefore(s, k, p + n); }
  }

  lemma TrimIsLongest(s: Text, cap: nat)
    requires WellFormed(s) && cap < |s|
    ensures LongestWhole(s, cap, TrimmedLength(s[..cap]))
  {
    TrimFinds(s, cap, 1);
    forall j | 0 <= j <= |s|
      ensures WellFormed(s[..j]) <==> Between(s, j)
    {
      CutIsBetween(s, j);
    }
  }

  // ---- Collecting output

  /** What of the output is kept: all of it, or what fits, down to a place between characters. */
  function Kept(all: Text, cap: nat): Text {
    if |all| <= cap then all else all[..TrimmedLength(all[..cap])]
  }

  /** However it was written, what is kept of well-formed output is its longest prefix of whole characters. */
  lemma KeptIsLongest(all: Text, cap: nat)
    requires WellFormed(all)
    ensures Kept(all, cap) == all[..|Kept(all, cap)|] && LongestWhole(all, cap, |Kept(all, cap)|)
  {
    if |all| <= cap {
      assert all[..|all|] == all;
    } else {
      TrimIsLongest(all, cap);
    }
  }

  /** CappedBuf: the first bytes written, and how many there were. */
  class CappedBuf {
    const cap: nat
    var total: nat
    var data: Text

    /** The buffer holds what fits of everything written. */
    ghost predicate Holds(all: Text)
      reads this
    {
      total == |all| && data == if |all| <= cap then all else all[..cap]
    }

    constructor (limit: nat)
      ensures cap == limit && Holds([])
    {
      cap, total, data := limit, 0, [];
    }

    /** xsputn. */
    method Write(s: Text, ghost all: Text)
      requires Holds(all)
      modifies this
      ensures Holds(all + s)
    {
      if |s| == 0 {
        assert all + s == all;
        return;
      }
      if |data| < cap {
        data := data + s[..if |s| < cap - |data| then |s| else cap - |data|];
      }
      total := total + |s|;
      assert s[..|s|] == s;
    }

    predicate IsTruncated()
      reads this
    {
      total > |data|
    }
  }

  /** The words after truncated output. */
  function Note(kept: nat, total: nat): Text {
    Ascii("\n[zorba-mcp: output truncated after ") + Digits(kept) + Ascii(" of ") + Digits(total) +
    Ascii(" bytes; narrow the query (fewer fields, a filter, or subsequence()) to see the rest]")
  }

  /** The text of an answer to a query that writes these chunks. */
  method Answer(chunks: seq<Text>, max_output: nat) returns (text: Text)
    ensures var all := Concat(chunks);
      text == Kept(all, max_output) + if |all| <= max_output then [] else Note(|Kept(all, max_output)|, |all|)
  {
    var buf := new CappedBuf(max_output);
    for i := 0 to |chunks|
      invariant buf.cap == max_output && buf.Holds(Concat(chunks[..i]))
      invariant fresh(buf)
    {
      assert chunks[..i + 1][..i] == chunks[..i];
      buf.Write(chunks[i], Concat(chunks[..i]));
    }
    ghost var all := Concat(chunks);
    assert chunks[..|chunks|] == chunks;
    text := buf.data;
    assert buf.IsTruncated() <==> |all| > max_output;
    if buf.IsTruncated() {
      text := TrimTail(text);
      assert text == Kept(all, max_output);
      text := text + Note(|text|, buf.total);
    }
  }

  // ---- Cutting out the middle

  function Marker(what: Text, size: nat): Text {
    Ascii("[zorba-mcp: ") + what + Ascii(" cut, ") + Digits(size) + Ascii(" bytes in all]")
  }

  lemma MarkerIsWellFormed(what: Text, size: nat)
    requires IsAscii(what)
    ensures WellFormed(Marker(what, size))
  {
    AsciiIsWellFormed(Marker(what, size), 0);
  }

  /** The last place between characters up to k. */
  method BackToCharacter(s: Text, start: nat) returns (k: nat)
    requires start < |s|
    ensures k <= start && (k == 0 || Between(s, k)) && forall i :: k < i <= start ==> IsContinuation(s[i])
  {
    k := start;
    while k > 0 && IsContinuation(s[k])
      invariant k <= start && forall i :: k < i <= start ==> IsContinuation(s[i])
    {
      k := k - 1;
    }
  }

  /** The first place between characters from k on. */
  method OnToCharacter(s: Text, start: nat, end: nat) returns (k: nat)
    requires start <= end <= |s|
    ensures start <= k <= end && (k == end || Between(s, k)) && forall i :: start <= i < k ==> IsContinuation(s[i])
  {
    k := start;
    while k < end && IsContinuation(s[k])
      invariant start <= k <= end && forall i :: start <= i < k ==> IsContinuation(s[i])
    {
      k := k + 1;
    }
  }

  /** What is left of a text around the marker: as much at either end as whole characters allow of half the room. */
  ghost predicate Ends(text: Text, cap: nat, marker: Text, head: nat, tail: nat) {
    var room := if cap > |marker| then cap - |marker| else 0;
    && head <= tail <= |text| && head <= room / 2 && |text| - tail <= room - room / 2
    && (forall i :: head < i <= room / 2 && i < |text| ==> IsContinuation(text[i]))
    && (forall i :: |text| - (room - room / 2) <= i < tail && 0 <= i ==> IsContinuation(text[i]))
    && (WellFormed(text) ==> WellFormed(text[..head]) && WellFormed(text[tail..]))
  }

  method CutMiddle(text: Text, cap: nat, what: Text) returns (r: Text)
    ensures |text| <= cap ==> r == text
    ensures |text| > cap ==> exists head: nat, tail: nat ::
      Ends(text, cap, Marker(what, |text|), head, tail) && r == text[..head] + Marker(what, |text|) + text[tail..]
    ensures |text| > cap && |Marker(what, |text|)| <= cap ==> |r| <= cap
    ensures WellFormed(text) && IsAscii(what) ==> WellFormed(r)
  {
    if |text| <= cap { return text; }
    var marker := Marker(what, |text|);
    var room := if cap > |marker| then cap - |marker| else 0;
    var head := BackToCharacter(text, room / 2);
    var tail := OnToCharacter(text, |text| - (room - room / 2), |text|);
    if WellFormed(text) { EndsAreWellFormed(text, head, tail); }
    assert Ends(text, cap, marker, head, tail);
    r := text[..head] + marker + text[tail..];
    if WellFormed(text) && IsAscii(what) {
      MarkerIsWellFormed(what, |text|);
      Joined(text[..head], marker, text[tail..]);
    }
  }

  lemma EndsAreWellFormed(text: Text, head: nat, tail: nat)
    requires WellFormed(text) && head <= |text| && tail <= |text|
    requires head == 0 || Between(text, head)
    requires Between(text, tail)
    ensures WellFormed(text[..head]) && WellFormed(text[tail..])
  {
    if head == 0 { assert text[..0] == []; } else { CutIsBetween(text, head); }
    CutIsBetween(text, tail);
  }

  // ---- The line of an error

  const AROUND: nat := 256

  /** Where the numbers stand in the words after truncated output. */
  lemma NoteSays(kept: nat, total: nat)
    ensures var t, n := Note(kept, total), |Digits(kept)|;
      At(t, 36, Digits(kept)) && At(t, 36 + n, [32, 111, 102, 32]) && At(t, 40 + n, Digits(total))
  {
    var a, b := Ascii("\n[zorba-mcp: output truncated after "), Ascii(" of ");
    var c := Ascii(" bytes; narrow the query (fewer fields, a filter, or subsequence()) to see the rest]");
    assert |a| == 36 && b == [32, 111, 102, 32];
    NumbersStand(a, Digits(kept), b, Digits(total), c);
  }

  /** And where the size stands in the two markers. */
  lemma MarkersSay(what: Text, size: nat)
    ensures At(Marker(what, size), 12, what) && At(Marker(what, size), 18 + |what|, Digits(size))
    ensures At(LineMarker(size), 21, Digits(size))
  {
    var a, b, c := Ascii("[zorba-mcp: "), Ascii(" cut, "), Ascii(" bytes in all]");
    assert |a| == 12 && |b| == 6;
    NumbersStand(a, what, b, Digits(size), c);
    var d := Ascii(" [zorba-mcp: line of ");
    assert |d| == 21;
    NumbersStand(d, Digits(size), Ascii(" bytes]"), [], []);
    assert d + Digits(size) + Ascii(" bytes]") + [] + [] == LineMarker(size);
  }

  lemma NumbersStand(a: Text, m: Text, b: Text, n: Text, c: Text)
    ensures var t := a + m + b + n + c;
      && At(t, |a|, m) && At(t, |a| + |m|, b) && At(t, |a| + |m| + |b|, n) && At(t, |a| + |m| + |b| + |n|, c)
  {
  }

  function LineMarker(size: nat): Text { Ascii(" [zorba-mcp: line of ") + Digits(size) + Ascii(" bytes]") }

  /** The part of a line around a place in it, as it is shown. */
  function Excerpt(line: Text, begin: nat, end: nat): Text
    requires begin <= end <= |line|
  {
    (if begin > 0 then ELLIPSIS else []) + line[begin..end] +
    (if end < |line| then ELLIPSIS else []) + LineMarker(|line|)
  }

  function ErrorPlace(line: Text, column: nat): (at: nat)
    ensures at <= |line|
  {
    if column == 0 then 0 else if column - 1 < |line| then column - 1 else |line|
  }

  /** The two ends of a very long line. */
  function TwoEnds(line: Text, head: nat, tail: nat): Text
    requires head <= tail <= |line|
  {
    line[..head] + ELLIPSIS + line[tail..] + LineMarker(|line|)
  }

  /** Of the 256 bytes on either side of the place, all but the rests of characters at the two ends. */
  ghost predicate Around(line: Text, at: nat, begin: nat, end: nat) {
    && begin <= end <= |line| && at - 256 <= begin && end <= at + 256
    && (forall i :: 0 <= i && at - 256 <= i < begin ==> IsContinuation(line[i]))
    && (forall i :: end < i < |line| && i <= at + 256 ==> IsContinuation(line[i]))
    && (WellFormed(line) ==> begin <= at <= end && WellFormed(line[begin..end]))
  }

  /** The two ends of a line, whole characters of 256 bytes each. */
  ghost predicate AtEnds(line: Text, head: nat, tail: nat) {
    && head <= 256 && head <= tail <= |line| && |line| - 256 <= tail
    && (forall i :: head < i <= 256 && i < |line| ==> IsContinuation(line[i]))
    && (forall i :: 0 <= i && |line| - 256 <= i < tail ==> IsContinuation(line[i]))
    && (WellFormed(line) ==> WellFormed(line[..head]) && WellFormed(line[tail..]))
  }

  /** line_excerpt: a line over 512 bytes is shown around the place, or by its ends where the column cannot tell it. */
  method LineExcerpt(line: Text, column: nat) returns (r: Text)
    ensures |line| <= 512 ==> r == line
    ensures 512 < |line| <= 65535 ==> exists begin: nat, end: nat ::
      && Around(line, if column == 0 then 0 else if column - 1 < |line| then column - 1 else |line|, begin, end)
      && r == Excerpt(line, begin, end)
    ensures |line| > 65535 ==> exists head: nat, tail: nat :: AtEnds(line, head, tail) && r == TwoEnds(line, head, tail)
    ensures WellFormed(line) ==> WellFormed(r)
  {
    if |line| <= 2 * AROUND { return line; }
    if |line| > 65535 {
      var head := BackToCharacter(line, AROUND);
      var tail := OnToCharacter(line, |line| - AROUND, |line|);
      if WellFormed(line) { EndsAreWellFormed(line, head, tail); }
      assert AtEnds(line, head, tail);
      if WellFormed(line) { TwoEndsAreWellFormed(line, head, tail); }
      return TwoEnds(line, head, tail);
    }
    var at := ErrorPlace(line, column);
    var begin, end := PlacesAround(line, at);
    if WellFormed(line) { ExcerptIsWellFormed(line, begin, end); }
    r := Excerpt(line, begin, end);
  }

  method PlacesAround(line: Text, at: nat) returns (begin: nat, end: nat)
    requires at <= |line| && |line| > 2 * AROUND
    ensures Around(line, at, begin, end)
  {
    var first := if at > AROUND then at - AROUND else 0;
    var last := if at + AROUND < |line| then at + AROUND else |line|;
    begin := OnToCharacter(line, first, last);
    end := last;
    while end > begin && end < |line| && IsContinuation(line[end])
      invariant begin <= end <= last && (last == |line| ==> end == last)
      invariant forall i :: end < i < |line| && i <= last ==> IsContinuation(line[i])
    {
      end := end - 1;
    }
    if WellFormed(line) { AroundIsWellFormed(line, at, first, begin, end, last); }
  }

  lemma AroundIsWellFormed(line: Text, at: nat, first: nat, begin: nat, end: nat, last: nat)
    requires WellFormed(line) && first <= begin <= end <= last <= |line|
    requires first == (if at > AROUND then at - AROUND else 0)
    requires last == (if at + AROUND < |line| then at + AROUND else |line|)
    requires at <= |line| && |line| > 2 * AROUND
    requires forall i :: first <= i < begin ==> IsContinuation(line[i])
    requires forall i :: end < i < |line| && i <= last ==> IsContinuation(line[i])
    requires begin == last || Between(line, begin)
    requires (end == begin || Between(line, end)) && (last == |line| ==> end == last)
    ensures begin <= at <= end && WellFormed(line[begin..end])
  {
    CharacterBefore(line, if last < |line| then last else |line| - 1, 0);
    CharacterBefore(line, if first + 3 < |line| then first + 3 else |line| - 1, 0);
    PartIsWellFormed(line, begin, end);
  }

  lemma ExcerptIsWellFormed(line: Text, begin: nat, end: nat)
    requires begin <= end <= |line| && WellFormed(line[begin..end])
    ensures WellFormed(Excerpt(line, begin, end))
  {
    AsciiIsWellFormed(LineMarker(|line|), 0);
    assert SequenceLength(ELLIPSIS, 0, 3) == 3;
    var before: Text, after: Text := if begin > 0 then ELLIPSIS else [], if end < |line| then ELLIPSIS else [];
    Joined(before, line[begin..end], after);
    WellFormedConcat(before + line[begin..end] + after, LineMarker(|line|));
  }

  lemma TwoEndsAreWellFormed(line: Text, head: nat, tail: nat)
    requires WellFormed(line) && AtEnds(line, head, tail)
    ensures WellFormed(TwoEnds(line, head, tail))
  {
    AsciiIsWellFormed(LineMarker(|line|), 0);
    assert SequenceLength(ELLIPSIS, 0, 3) == 3;
    Joined(line[..head], ELLIPSIS, line[tail..]);
    WellFormedConcat(line[..head] + ELLIPSIS + line[tail..], LineMarker(|line|));
  }
}
