/** The order of std::map<std::string, ...>, and what its lower_bound loops rely on. */
module PathOrder {
  import opened Bytes

  const SLASH: Byte := 47  // '/'
  const DOT: Byte := 46  // '.'
  const ZERO: Byte := 48   // '0', the byte after '/'

  /** Byte-lexicographic order, as std::string::operator< has it. */
  predicate Less(a: Text, b: Text) {
    b != [] && (a == [] || a[0] < b[0] || (a[0] == b[0] && Less(a[1..], b[1..])))
  }

  lemma {:induction false} LessIrreflexive(a: Text)
    ensures !Less(a, a)
  {
    if a != [] { LessIrreflexive(a[1..]); }
  }

  lemma {:induction false} LessTransitive(a: Text, b: Text, c: Text)
    requires Less(a, b) && Less(b, c)
    ensures Less(a, c)
  {
    if a != [] && a[0] == b[0] == c[0] { LessTransitive(a[1..], b[1..], c[1..]); }
  }

  lemma {:induction false} LessTotal(a: Text, b: Text)
    ensures a == b || Less(a, b) || Less(b, a)
    ensures Less(a, b) ==> !Less(b, a)
  {
    if a != [] && b != [] {
      LessTotal(a[1..], b[1..]);
      assert a == [a[0]] + a[1..] && b == [b[0]] + b[1..];
    }
  }

  /** The strings with a given prefix are one run of the order, and it starts at the prefix. */
  lemma {:induction false} PrefixRun(prefix: Text, k: Text, later: Text)
    requires prefix <= later
    ensures !Less(later, prefix)
    ensures !Less(k, prefix) && Less(k, later) ==> prefix <= k
  {
    if prefix != [] {
      assert prefix[1..] <= later[1..];
      if k != [] {
        PrefixRun(prefix[1..], k[1..], later[1..]);
        if !Less(k, prefix) && Less(k, later) {
          assert k[0] == prefix[0];
          assert prefix == [prefix[0]] + prefix[1..] && k == [k[0]] + k[1..];
        }
      } else {
        PrefixRun(prefix[1..], [], later[1..]);
      }
    }
  }

  /** '0' follows '/': the strings from dir + "/" up to dir + "0" are those under dir. */
  lemma {:induction false} RunEndsAtZero(dir: Text, k: Text)
    ensures dir + [SLASH] <= k <==> !Less(k, dir + [SLASH]) && Less(k, dir + [ZERO])
  {
    if dir == [] {
      if k != [] && k[0] == SLASH { assert k == [SLASH] + k[1..]; }
    } else {
      assert (dir + [SLASH])[1..] == dir[1..] + [SLASH];
      assert (dir + [ZERO])[1..] == dir[1..] + [ZERO];
      if k != [] {
        RunEndsAtZero(dir[1..], k[1..]);
        assert k == [k[0]] + k[1..];
        assert dir + [SLASH] == [dir[0]] + (dir[1..] + [SLASH]);
      }
    }
  }

  /** k is the first key at or after `from` (or, with `strict`, after it). */
  ghost predicate IsFirst(keys: set<Text>, from: Text, strict: bool, r: Option<Text>) {
    match r
    case None => forall k :: k in keys ==> !Reaches(k, from, strict)
    case Some(f) => f in keys && Reaches(f, from, strict) &&
                    forall k :: k in keys && Reaches(k, from, strict) ==> !Less(k, f)
  }

  predicate Reaches(k: Text, from: Text, strict: bool) {
    if strict then Less(from, k) else !Less(k, from)
  }

  /** std::map::lower_bound (strict = false) and upper_bound (strict = true). */
  method Bound(keys: set<Text>, from: Text, strict: bool) returns (r: Option<Text>)
    ensures IsFirst(keys, from, strict, r)
  {
    r := None;
    var left := keys;
    while left != {}
      invariant left <= keys
      invariant IsFirst(keys - left, from, strict, r)
      decreases |left|
    {
      var k :| k in left;
      if Reaches(k, from, strict) && (r.None? || Less(k, r.value)) {
        forall j | j in keys - left && Reaches(j, from, strict)
          ensures !Less(j, k)
        {
          if Less(j, k) { LessTransitive(j, k, r.value); }
        }
        r := Some(k);
        LessIrreflexive(k);
      }
      left := left - {k};
    }
    assert keys - left == keys;
  }

  /** The next slash, or the end. */
  function SlashFrom(path: Text, p: nat): (q: nat)
    requires p <= |path|
    ensures p <= q <= |path| && (q < |path| ==> path[q] == SLASH)
    decreases |path| - p
  {
    if p == |path| || path[p] == SLASH then p else SlashFrom(path, p + 1)
  }

  lemma {:induction false} NoSlashBefore(path: Text, p: nat)
    requires p <= |path|
    ensures SLASH !in path[p..SlashFrom(path, p)]
    decreases |path| - p
  {
    if p < |path| && path[p] != SLASH {
      NoSlashBefore(path, p + 1);
      assert path[p..SlashFrom(path, p)] == [path[p]] + path[p + 1..SlashFrom(path, p)];
    }
  }

  /** std::string::find of a slash. */
  function FindSlash(k: Text, from: nat): (r: Option<nat>)
    requires from <= |k|
    ensures r.None? <==> SLASH !in k[from..]
    ensures r.Some? ==> from <= r.value < |k| && k[r.value] == SLASH
  {
    var q := SlashFrom(k, from);
    NoSlashBefore(k, from);
    if q == |k| then None else assert k[from..][q - from] == SLASH; Some(q)
  }
}
