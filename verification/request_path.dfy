/** The path of a request (scanner.cpp): relative to the root, without .. or hidden segments, in one spelling. */
module RequestPath {
  import opened Bytes
  import opened PathOrder

  /** The segments from p on, one more than there are slashes; none behind the last. */
  function Segments(path: Text, p: nat): seq<Text>
    requires p <= |path| + 1
    decreases |path| + 1 - p
  {
    if p == |path| + 1 then [] else [path[p..SlashFrom(path, p)]] + Segments(path, SlashFrom(path, p) + 1)
  }

  predicate IsDropped(seg: Text) { seg == [] || seg == [DOT] }

  predicate IsHidden(seg: Text) { seg != [] && seg[0] == DOT && seg != [DOT] }

  function Kept(segs: seq<Text>): seq<Text> {
    if segs == [] then []
    else if IsDropped(segs[0]) then Kept(segs[1..])
    else [segs[0]] + Kept(segs[1..])
  }

  function Joined(segs: seq<Text>): Text {
    if segs == [] then [] else if |segs| == 1 then segs[0] else segs[0] + [SLASH] + Joined(segs[1..])
  }

  predicate NoneHidden(segs: seq<Text>) { segs == [] || (!IsHidden(segs[0]) && NoneHidden(segs[1..])) }

  lemma Cons(seg: Text, rest: seq<Text>)
    ensures Kept([seg] + rest) == (if IsDropped(seg) then [] else [seg]) + Kept(rest)
    ensures NoneHidden([seg] + rest) <==> !IsHidden(seg) && NoneHidden(rest)
  {
    assert ([seg] + rest)[1..] == rest;
  }

  predicate IsAccepted(path: Text) {
    (path != [] ==> path[0] != SLASH) && 0 !in path && NoneHidden(Segments(path, 0))
  }

  /** normalize_request_path: the path in its one spelling, or none if it is refused. */
  function Normalized(path: Text): Option<Text> {
    if IsAccepted(path) then Some(Joined(Kept(Segments(path, 0)))) else None
  }

  /** Segments that can be in a path's one spelling. */
  predicate IsPlain(segs: seq<Text>) {
    forall i :: 0 <= i < |segs| ==> SLASH !in segs[i] && 0 !in segs[i] && segs[i] != [] && segs[i][0] != DOT
  }

  lemma {:induction false} SlashIs(path: Text, p: nat, q: nat)
    requires p <= q <= |path| && (q < |path| ==> path[q] == SLASH) && forall i :: p <= i < q ==> path[i] != SLASH
    ensures SlashFrom(path, p) == q
    decreases q - p
  {
    if p < q { SlashIs(path, p + 1, q); }
  }

  lemma {:induction false} KeptIsPlain(path: Text, p: nat)
    requires p <= |path| + 1 && 0 !in path && NoneHidden(Segments(path, p))
    ensures IsPlain(Kept(Segments(path, p)))
    decreases |path| + 1 - p
  {
    if p <= |path| {
      var q := SlashFrom(path, p);
      NoSlashBefore(path, p);
      Cons(path[p..q], Segments(path, q + 1));
      KeptIsPlain(path, q + 1);
    }
  }

  lemma SegmentAt(path: Text, p: nat, q: nat)
    requires p <= q <= |path| && SLASH !in path[p..q] && (q < |path| ==> path[q] == SLASH)
    ensures Segments(path, p) == [path[p..q]] + Segments(path, q + 1)
  {
    forall i | p <= i < q
      ensures path[i] != SLASH
    {
      assert path[i] == path[p..q][i - p];
    }
    SlashIs(path, p, q);
  }

  lemma SlashAfter(path: Text, p: nat)
    requires p == |path| || At(path, p, [SLASH])
    ensures p < |path| ==> path[p] == SLASH
  {
    if p < |path| { assert path[p + 0] == [SLASH][0]; }
  }

  lemma FirstSegment(path: Text, p: nat, first: Text)
    requires At(path, p, first) && SLASH !in first
    requires p + |first| == |path| || At(path, p + |first|, [SLASH])
    ensures Segments(path, p) == [first] + Segments(path, p + |first| + 1)
  {
    AtSlice(path, p, first);
    SlashAfter(path, p + |first|);
    var q := p + |first|;
    SegmentAt(path, p, q);
    assert [path[p..q]] == [first];
  }

  /** Splitting what was joined gives the segments back. */
  lemma {:induction false} SegmentsOfJoined(path: Text, p: nat, segs: seq<Text>)
    requires segs != [] && IsPlain(segs) && At(path, p, Joined(segs)) && p + |Joined(segs)| == |path|
    ensures Segments(path, p) == segs
    decreases |segs|
  {
    var first, rest := segs[0], segs[1..];
    if |segs| > 1 {
      AtConcat(path, p, first + [SLASH], Joined(rest));
      AtConcat(path, p, first, [SLASH]);
      SegmentsOfJoined(path, p + |first| + 1, rest);
    }
    FirstSegment(path, p, first);
    assert segs == [first] + rest;
  }

  lemma {:induction false} PlainIsKept(segs: seq<Text>)
    requires IsPlain(segs)
    ensures Kept(segs) == segs && NoneHidden(segs)
  {
    if segs != [] { PlainIsKept(segs[1..]); }
  }

  lemma {:induction false} JoinedHasNoNul(segs: seq<Text>)
    requires IsPlain(segs)
    ensures 0 !in Joined(segs) && (segs != [] ==> Joined(segs) != [] && Joined(segs)[0] == segs[0][0])
  {
    if |segs| > 1 { JoinedHasNoNul(segs[1..]); }
  }

  /** The one spelling is accepted and is its own; its segments are those kept of the path. */
  lemma NormalizedOnce(path: Text)
    requires Normalized(path).Some?
    ensures var n := Normalized(path).value;
      && Normalized(n) == Some(n)
      && (n != [] ==> Segments(n, 0) == Kept(Segments(path, 0)) && IsPlain(Segments(n, 0)))
  {
    var segs := Kept(Segments(path, 0));
    KeptIsPlain(path, 0);
    JoinedHasNoNul(segs);
    if segs != [] {
      SegmentsOfJoined(Joined(segs), 0, segs);
      PlainIsKept(segs);
    } else {
      assert SlashFrom([], 0) == 0 && Segments([], 1) == [] && Segments([], 0) == [[]];
      assert Kept([[]]) == [] && NoneHidden([[]]);
    }
  }

  /** Two paths have one spelling exactly if the same segments are kept of them. */
  lemma SameSpelling(a: Text, b: Text)
    requires Normalized(a).Some? && Normalized(b).Some?
    ensures Normalized(a) == Normalized(b) <==> Kept(Segments(a, 0)) == Kept(Segments(b, 0))
  {
    NormalizedOnce(a);
    NormalizedOnce(b);
    KeptIsPlain(a, 0);
    KeptIsPlain(b, 0);
    JoinedHasNoNul(Kept(Segments(a, 0)));
    JoinedHasNoNul(Kept(Segments(b, 0)));
  }

  // ---- The loop

  /** Adds a segment to the path so far. */
  function Extended(rel: Text, seg: Text): Text { if rel == [] then seg else rel + [SLASH] + seg }

  lemma {:induction false} ExtendedIsJoined(segs: seq<Text>, seg: Text)
    requires forall i :: 0 <= i < |segs| ==> segs[i] != []
    ensures Extended(Joined(segs), seg) == Joined(segs + [seg])
  {
    if segs == [] {
      assert segs + [seg] == [seg];
    } else {
      assert (segs + [seg])[1..] == segs[1..] + [seg];
      ExtendedIsJoined(segs[1..], seg);
      if |segs| > 1 { assert Joined(segs[1..]) != [] by { assert segs[1..][0] != []; } }
    }
  }

  /** The segments before `start` are those done; those from there on are still to be read. */
  ghost predicate HasRead(path: Text, start: nat, done: seq<Text>) {
    && start <= |path| + 1 && (forall i :: 0 <= i < |done| ==> done[i] != [])
    && (NoneHidden(Segments(path, start)) <==> NoneHidden(Segments(path, 0)))
    && Kept(Segments(path, 0)) == done + Kept(Segments(path, start))
  }

  lemma ReadsOn(path: Text, start: nat, done: seq<Text>)
    requires HasRead(path, start, done) && start <= |path|
    ensures var slash := SlashFrom(path, start);
      var seg := path[start..slash];
      && (IsHidden(seg) ==> !NoneHidden(Segments(path, 0)))
      && (!IsHidden(seg) && IsDropped(seg) ==> HasRead(path, slash + 1, done))
      && (!IsHidden(seg) && !IsDropped(seg) ==> HasRead(path, slash + 1, done + [seg]))
  {
    var slash := SlashFrom(path, start);
    var seg, rest := path[start..slash], Segments(path, slash + 1);
    assert Segments(path, start) == [seg] + rest;
    Cons(seg, rest);
    Regroup(done, [seg], Kept(rest));
  }

  lemma ReadsAll(path: Text, done: seq<Text>)
    requires HasRead(path, |path| + 1, done)
    ensures NoneHidden(Segments(path, 0)) && Kept(Segments(path, 0)) == done
  {
    assert Segments(path, |path| + 1) == [];
    assert done + [] == done;
  }

  method Normalize(path: Text) returns (r: Option<Text>)
    ensures r == Normalized(path)
  {
    if (path != [] && path[0] == SLASH) || 0 in path { return None; }
    var rel: Text := [];
    var start := 0;
    ghost var done: seq<Text> := [];
    while start <= |path|
      invariant HasRead(path, start, done) && rel == Joined(done)
      decreases |path| + 1 - start
    {
      var slash := SlashFrom(path, start);
      var seg := path[start..slash];
      ReadsOn(path, start, done);
      start := slash + 1;
      if IsDropped(seg) { continue; }
      if seg[0] == DOT { return None; }
      ExtendedIsJoined(done, seg);
      rel := Extended(rel, seg);
      done := done + [seg];
    }
    ReadsAll(path, done);
    r := Some(rel);
  }

  // ---- What is refused

  /** A segment from i to j: between slashes or the ends. */
  predicate IsSegment(path: Text, i: nat, j: nat) {
    && i <= j <= |path| && (i == 0 || path[i - 1] == 47) && (j == |path| || path[j] == 47)
    && forall k :: i <= k < j ==> path[k] != 47
  }

  /** It starts with a dot, and is not just that. */
  predicate IsDotted(path: Text, i: nat, j: nat) { IsSegment(path, i, j) && i + 1 < j && path[i] == 46 }

  ghost predicate HasDotted(path: Text, p: nat) { exists i: nat, j: nat :: p <= i && IsDotted(path, i, j) }

  /** The first segment from p, and those behind it. */
  lemma DottedFrom(path: Text, p: nat, q: nat)
    requires IsSegment(path, p, q)
    ensures HasDotted(path, p) <==> IsDotted(path, p, q) || HasDotted(path, q + 1)
  {
    forall i: nat, j: nat | p <= i && IsSegment(path, i, j)
      ensures (i == p && j == q) || i > q
    {
    }
  }

  lemma HiddenIsDotted(path: Text, p: nat, q: nat)
    requires IsSegment(path, p, q)
    ensures IsHidden(path[p..q]) <==> IsDotted(path, p, q)
  {
    if q > p { assert path[p..q][0] == path[p]; }
    if q == p + 1 { assert path[p..q] == [path[p]]; }
  }

  lemma FirstHidden(path: Text, p: nat, q: nat)
    requires p <= |path| && q == SlashFrom(path, p) && IsSegment(path, p, q)
    ensures NoneHidden(Segments(path, p)) <==> !IsDotted(path, p, q) && NoneHidden(Segments(path, q + 1))
  {
    Cons(path[p..q], Segments(path, q + 1));
    HiddenIsDotted(path, p, q);
  }

  lemma {:induction false} HiddenAre(path: Text, p: nat)
    requires p <= |path| + 1 && (p == 0 || p == |path| + 1 || path[p - 1] == 47)
    ensures NoneHidden(Segments(path, p)) <==> !HasDotted(path, p)
    decreases |path| + 1 - p
  {
    if p <= |path| {
      var q := SlashFrom(path, p);
      NoSlashBefore(path, p);
      FirstHidden(path, p, q);
      HiddenAre(path, q + 1);
      DottedFrom(path, p, q);
    }
  }

  /** A path is refused exactly if it starts with a slash, has a NUL, or a dotted segment. */
  lemma RefusedIff(path: Text)
    ensures Normalized(path).None? <==> (path != [] && path[0] == 47) || 0 in path || HasDotted(path, 0)
  {
    HiddenAre(path, 0);
  }
}
