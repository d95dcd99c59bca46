/** Filtering and mapping sequences. */
module Seqs {
  function Filter<T>(s: seq<T>, p: T -> bool): seq<T> {
    if s == [] then [] else if p(s[0]) then [s[0]] + Filter(s[1..], p) else Filter(s[1..], p)
  }

  function Map<T, U>(s: seq<T>, f: T -> U): (r: seq<U>)
    ensures |r| == |s|
    ensures forall i | 0 <= i < |s| :: r[i] == f(s[i])
  {
    if s == [] then [] else [f(s[0])] + Map(s[1..], f)
  }

  lemma {:induction false} FilterConcat<T>(s: seq<T>, t: seq<T>, p: T -> bool)
    ensures Filter(s + t, p) == Filter(s, p) + Filter(t, p)
  {
    if s == [] {
      assert s + t == t;
    } else {
      assert (s + t)[1..] == s[1..] + t;
      FilterConcat(s[1..], t, p);
    }
  }

  lemma {:induction false} FilterSnoc<T>(s: seq<T>, x: T, p: T -> bool)
    ensures Filter(s + [x], p) == Filter(s, p) + if p(x) then [x] else []
  {
    FilterConcat(s, [x], p);
    assert Filter([x], p) == if p(x) then [x] else [];
  }

  lemma {:induction false} MapConcat<T, U>(s: seq<T>, t: seq<T>, f: T -> U)
    ensures Map(s + t, f) == Map(s, f) + Map(t, f)
  {
  }

  lemma {:induction false} FilterMembers<T>(s: seq<T>, p: T -> bool)
    ensures forall x :: x in Filter(s, p) <==> x in s && p(x)
  {
    if s != [] {
      FilterMembers(s[1..], p);
      assert forall x :: x in s <==> x == s[0] || x in s[1..];
    }
  }

  lemma {:induction false} FilterNone<T>(s: seq<T>, p: T -> bool)
    requires forall i | 0 <= i < |s| :: !p(s[i])
    ensures Filter(s, p) == []
  {
    if s != [] {
      FilterNone(s[1..], p);
    }
  }

  lemma {:induction false} MapCons<T, U>(x: T, s: seq<T>, f: T -> U)
    ensures Map([x] + s, f) == [f(x)] + Map(s, f)
  {
    assert ([x] + s)[1..] == s;
  }

  lemma {:induction false} ImageCons<T, U>(x: T, s: seq<T>, f: T -> U)
    ensures multiset(Map([x] + s, f)) == multiset{f(x)} + multiset(Map(s, f))
  {
    MapCons(x, s, f);
    hide Map;
  }

  lemma {:induction false} FilterCons<T>(s: seq<T>, p: T -> bool)
    requires s != []
    ensures Filter(s, p) == if p(s[0]) then [s[0]] + Filter(s[1..], p) else Filter(s[1..], p)
  {
  }

  lemma {:induction false} AddToEither<T>(x: T, a: multiset<T>, b: multiset<T>)
    ensures multiset{x} + a + b == multiset{x} + (a + b)
    ensures a + (multiset{x} + b) == multiset{x} + (a + b)
  {
  }

  /** One more element on either side. */
  lemma {:induction false} PartitionCons<T, U>(x: T, a: seq<T>, b: seq<T>, s: seq<T>, f: T -> U)
    requires multiset(Map(a, f)) + multiset(Map(b, f)) == multiset(Map(s, f))
    ensures multiset(Map([x] + a, f)) + multiset(Map(b, f)) == multiset(Map([x] + s, f))
    ensures multiset(Map(a, f)) + multiset(Map([x] + b, f)) == multiset(Map([x] + s, f))
  {
    hide Map;
    ImageCons(x, a, f);
    ImageCons(x, b, f);
    ImageCons(x, s, f);
    AddToEither(f(x), multiset(Map(a, f)), multiset(Map(b, f)));
  }

  /** A predicate and its complement split a sequence, together with any image of it. */
  lemma {:induction false} FilterPartition<T, U>(s: seq<T>, p: T -> bool, q: T -> bool, f: T -> U)
    requires forall x :: p(x) <==> !q(x)
    ensures multiset(Map(Filter(s, p), f)) + multiset(Map(Filter(s, q), f)) == multiset(Map(s, f))
  {
    hide *;
    if s == [] {
      FilterEmpty(s, p);
      FilterEmpty(s, q);
      PartitionNone(s, f);
    } else {
      FilterPartition(s[1..], p, q, f);
      FilterCons(s, p);
      FilterCons(s, q);
      PartitionCons(s[0], Filter(s[1..], p), Filter(s[1..], q), s[1..], f);
      HeadAndTail(s);
    }
  }

  lemma {:induction false} FilterEmpty<T>(s: seq<T>, p: T -> bool)
    requires s == []
    ensures Filter(s, p) == s
  {
  }

  lemma {:induction false} PartitionNone<T, U>(s: seq<T>, f: T -> U)
    requires s == []
    ensures multiset(Map(s, f)) + multiset(Map(s, f)) == multiset(Map(s, f))
  {
    assert Map(s, f) == [];
  }

  lemma {:induction false} HeadAndTail<T>(s: seq<T>)
    requires s != []
    ensures [s[0]] + s[1..] == s
  {
  }

  lemma {:induction false} FilterDisjoint<T>(s: seq<T>, p: T -> bool, q: T -> bool)
    requires forall x :: !(p(x) && q(x))
    ensures Filter(Filter(s, p), q) == []
  {
    if s != [] {
      FilterDisjoint(s[1..], p, q);
      assert ([s[0]] + Filter(s[1..], p))[1..] == Filter(s[1..], p);
    }
  }

  lemma {:induction false} Assoc<T>(a: seq<T>, b: seq<T>, c: seq<T>)
    ensures a + b + c == a + (b + c)
  {
  }

  lemma {:induction false} PrefixSnoc<T>(s: seq<T>, i: nat)
    requires i < |s|
    ensures s[..i + 1] == s[..i] + [s[i]] && |s[..i]| == i
  {
  }

  lemma {:induction false} SameSize<T>(a: seq<T>, b: seq<T>)
    requires multiset(a) == multiset(b)
    ensures |a| == |b|
  {
    assert |multiset(a)| == |a| && |multiset(b)| == |b|;
  }

  /** Assigning to a position and inserting behind it. */
  lemma {:induction false} UpdateInsert<T>(s: seq<T>, i: nat, x: T, y: T)
    requires i < |s|
    ensures s[i := x][..i + 1] + [y] + s[i := x][i + 1..] == s[..i] + [x, y] + s[i + 1..]
    ensures s[i := x] == s[..i] + [x] + s[i + 1..]
  {
  }

  /** Deleting a slice and inserting in its place. */
  lemma {:induction false} DeleteInsert<T>(s: seq<T>, a: nat, b: nat, x: T, y: T)
    requires a <= b <= |s|
    ensures var d := s[..a] + s[b..];
            var e := d[..a] + [x] + d[a..];
            && e == s[..a] + [x] + s[b..]
            && e[..a + 1] + [y] + e[a + 1..] == s[..a] + [x, y] + s[b..]
  {
  }

  // --- repetition ---

  ghost predicate Distinct<T>(items: seq<T>) {
    forall i, j | 0 <= i < j < |items| :: items[i] != items[j]
  }

  lemma {:induction false} TailMultiset<T>(s: seq<T>)
    requires s != []
    ensures multiset(s[1..]) == multiset(s) - multiset{s[0]}
    ensures s[0] in multiset(s)
  {
    assert s == [s[0]] + s[1..];
  }

  lemma {:induction false} DistinctMultiset<T>(s: seq<T>)
    requires Distinct(s)
    ensures forall x :: x in s ==> multiset(s)[x] == 1
  {
    if s != [] {
      assert s == [s[0]] + s[1..];
      assert forall i | 0 <= i < |s[1..]| :: s[1..][i] == s[i + 1];
      DistinctMultiset(s[1..]);
      assert s[0] !in s[1..];
    }
  }

  /** Lists without repetition are equal up to order exactly when they have the same elements. */
  lemma {:induction false} DistinctSame<T(!new)>(a: seq<T>, b: seq<T>)
    requires Distinct(a) && Distinct(b)
    ensures multiset(a) == multiset(b) <==> forall x :: x in a <==> x in b
  {
    DistinctMultiset(a);
    DistinctMultiset(b);
    if multiset(a) == multiset(b) {
      assert forall x :: x in a <==> x in multiset(a);
    }
  }

  lemma {:induction false} MultisetIsDistinct<T>(s: seq<T>)
    requires forall x :: multiset(s)[x] <= 1
    ensures Distinct(s)
  {
    if s != [] {
      TailMultiset(s);
      MultisetIsDistinct(s[1..]);
      assert multiset(s[1..])[s[0]] == 0;
      assert forall j | 1 <= j < |s| :: s[j] == s[1..][j - 1] && s[j] in multiset(s[1..]);
    }
  }

  lemma {:induction false} DistinctMoves<T(!new)>(a: seq<T>, b: seq<T>)
    requires multiset(a) == multiset(b) && Distinct(a)
    ensures Distinct(b)
  {
    hide Distinct;
    DistinctMultiset(a);
    assert forall x :: x in a <==> x in multiset(a);
    MultisetIsDistinct(b);
  }

  lemma {:induction false} DistinctCons<T>(x: T, s: seq<T>)
    ensures Distinct([x] + s) <==> x !in s && Distinct(s)
  {
    var all := [x] + s;
    assert forall i | 0 <= i < |s| :: all[i + 1] == s[i];
    if x !in s && Distinct(s) {
      assert forall i | 1 <= i < |all| :: all[i] == s[i - 1] && all[i] in s;
    }
    if x in s {
      var i :| 0 <= i < |s| && s[i] == x;
      assert all[0] == all[i + 1];
      assert !Distinct(all);
    }
  }
}
