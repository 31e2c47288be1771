/** Byte strings, and the few collection facts the other modules share. */
module Bytes {
  type Byte = b: int | 0 <= b < 256
  type Text = seq<Byte>

  datatype Option<+T> = None | Some(value: T)

  predicate NoDup<T(==)>(q: seq<T>) {
    forall i, j :: 0 <= i < j < |q| ==> q[i] != q[j]
  }

  /** The list with (the first occurrence of) x taken out, as std::list::erase leaves it. */
  function Without<T(==)>(q: seq<T>, x: T): (r: seq<T>)
    ensures x !in q ==> r == q
    ensures x in q ==> |r| == |q| - 1
  {
    if q == [] then []
    else if q[0] == x then q[1..]
    else [q[0]] + Without(q[1..], x)
  }

  lemma {:induction false} WithoutIsExact<T>(q: seq<T>, x: T)
    requires NoDup(q)
    ensures NoDup(Without(q, x))
    ensures forall y :: y in Without(q, x) <==> y in q && y != x
  {
    if q != [] {
      assert q == [q[0]] + q[1..];
      assert q[0] !in q[1..];
      WithoutIsExact(q[1..], x);
      var rest := Without(q[1..], x);
      assert q[0] !in rest;
      assert NoDup([q[0]] + rest);
    }
  }

  /** The list without the given members, in order. */
  function Keep<T(==)>(q: seq<T>, gone: set<T>): seq<T> {
    if q == [] then []
    else if q[0] in gone then Keep(q[1..], gone)
    else [q[0]] + Keep(q[1..], gone)
  }

  lemma {:induction false} KeepIsExact<T>(q: seq<T>, gone: set<T>)
    requires NoDup(q)
    ensures NoDup(Keep(q, gone))
    ensures forall k :: k in Keep(q, gone) <==> k in q && k !in gone
  {
    if q != [] {
      assert q == [q[0]] + q[1..] && q[0] !in q[1..];
      KeepIsExact(q[1..], gone);
      var rest := Keep(q[1..], gone);
      assert NoDup([q[0]] + rest);
    }
  }

  lemma {:induction false} KeepNone<T>(q: seq<T>)
    ensures Keep(q, {}) == q
  {
    if q != [] { KeepNone(q[1..]); }
  }

  lemma {:induction false} KeepOneLess<T>(q: seq<T>, gone: set<T>, k: T)
    requires NoDup(q)
    ensures Keep(q, gone + {k}) == Without(Keep(q, gone), k)
  {
    if q != [] {
      assert q == [q[0]] + q[1..] && q[0] !in q[1..];
      KeepOneLess(q[1..], gone, k);
      KeepIsExact(q[1..], gone);
      var rest := Keep(q[1..], gone);
      if q[0] !in gone {
        assert ([q[0]] + rest)[1..] == rest;
      }
    }
  }

  // ---- Texts in a text

  /** The text stands at position p. */
  predicate At(s: Text, p: nat, t: Text) {
    p + |t| <= |s| && forall i :: 0 <= i < |t| ==> s[p + i] == t[i]
  }

  lemma AtConcat(s: Text, p: nat, a: Text, b: Text)
    requires At(s, p, a + b)
    ensures At(s, p, a) && At(s, p + |a|, b)
  {
    assert forall i :: 0 <= i < |a| ==> (a + b)[i] == a[i];
    assert forall i :: 0 <= i < |b| ==> (a + b)[|a| + i] == b[i];
    forall i | 0 <= i < |b|
      ensures s[p + |a| + i] == b[i]
    {
      assert s[p + (|a| + i)] == (a + b)[|a| + i];
    }
  }

  lemma AtSlice(s: Text, p: nat, t: Text)
    requires At(s, p, t)
    ensures s[p..p + |t|] == t
  {
  }

  lemma Regroup<T>(a: seq<T>, b: seq<T>, c: seq<T>)
    ensures a + b + c == a + (b + c)
  {
  }

  /** The parts one after the other. */
  function Concat(parts: seq<Text>): Text {
    if parts == [] then [] else Concat(parts[..|parts| - 1]) + parts[|parts| - 1]
  }
}
