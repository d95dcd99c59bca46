/** Sorting by an order, as Python's `sorted` does it: stable, and for a total order canonical. */
module Sorting {
  import opened Seqs

  type Order<!T> = (T, T) -> bool

  ghost predicate Total<T(!new)>(le: Order<T>) {
    forall x, y :: le(x, y) || le(y, x)
  }

  ghost predicate Transitive<T(!new)>(le: Order<T>) {
    forall x, y, z :: le(x, y) && le(y, z) ==> le(x, z)
  }

  ghost predicate Antisymmetric<T(!new)>(le: Order<T>) {
    forall x, y :: le(x, y) && le(y, x) ==> x == y
  }

  ghost predicate Linear<T(!new)>(le: Order<T>) {
    Total(le) && Transitive(le) && Antisymmetric(le)
  }

  predicate Sorted<T>(s: seq<T>, le: Order<T>) {
    |s| <= 1 || (le(s[0], s[1]) && Sorted(s[1..], le))
  }

  function Insert<T>(x: T, s: seq<T>, le: Order<T>): seq<T> {
    if s == [] || le(x, s[0]) then [x] + s else [s[0]] + Insert(x, s[1..], le)
  }

  function Sort<T>(s: seq<T>, le: Order<T>): seq<T> {
    if s == [] then [] else Insert(s[0], Sort(s[1..], le), le)
  }

  lemma {:induction false} InsertAdds<T>(x: T, s: seq<T>, le: Order<T>)
    ensures multiset(Insert(x, s, le)) == multiset(s) + multiset{x}
  {
    if s != [] && !le(x, s[0]) {
      InsertAdds(x, s[1..], le);
      assert s == [s[0]] + s[1..];
    }
  }

  lemma {:induction false} InsertSorts<T(!new)>(x: T, s: seq<T>, le: Order<T>)
    requires Total(le) && Sorted(s, le)
    ensures Sorted(Insert(x, s, le), le)
    ensures Insert(x, s, le) != []
    ensures s != [] && !le(x, s[0]) ==> Insert(x, s, le)[0] == s[0]
  {
    if s == [] || le(x, s[0]) {
      assert ([x] + s)[1..] == s;
    } else {
      InsertSorts(x, s[1..], le);
      var rest := Insert(x, s[1..], le);
      assert ([s[0]] + rest)[1..] == rest;
      assert rest[0] == x || rest[0] == s[1];
    }
  }

  /** Sorting rearranges into sorted order. */
  lemma {:induction false} SortSorts<T(!new)>(s: seq<T>, le: Order<T>)
    requires Total(le)
    ensures Sorted(Sort(s, le), le)
    ensures multiset(Sort(s, le)) == multiset(s)
  {
    if s != [] {
      SortSorts(s[1..], le);
      InsertSorts(s[0], Sort(s[1..], le), le);
      InsertAdds(s[0], Sort(s[1..], le), le);
      assert s == [s[0]] + s[1..];
    }
  }

  lemma {:induction false} SortedHead<T(!new)>(s: seq<T>, le: Order<T>, x: T)
    requires Transitive(le) && Sorted(s, le) && x in s
    ensures x == s[0] || le(s[0], x)
  {
    if x != s[0] {
      assert x in s[1..];
      SortedHead(s[1..], le, x);
    }
  }

  /** The order tells the elements of `s` apart. */
  ghost predicate Separates<T(!new)>(le: Order<T>, s: seq<T>) {
    forall x, y | x in s && y in s :: le(x, y) && le(y, x) ==> x == y
  }

  /** Two sorted arrangements of the same elements begin alike. */
  lemma {:induction false} SortedHeads<T(!new)>(a: seq<T>, b: seq<T>, le: Order<T>)
    requires Transitive(le) && Sorted(a, le) && Sorted(b, le) && multiset(a) == multiset(b)
    requires Separates(le, a) && a != [] && b != []
    ensures a[0] == b[0]
  {
    TailMultiset(a);
    TailMultiset(b);
    assert a[0] in b && b[0] in a;
    SortedHead(a, le, b[0]);
    SortedHead(b, le, a[0]);
  }

  /** There is one sorted arrangement of elements the order tells apart. */
  lemma {:induction false} SortedUnique<T(!new)>(a: seq<T>, b: seq<T>, le: Order<T>)
    requires Transitive(le) && Sorted(a, le) && Sorted(b, le) && multiset(a) == multiset(b)
    requires Separates(le, a)
    ensures a == b
    decreases |a|
  {
    SameSize(a, b);
    if a != [] {
      SortedHeads(a, b, le);
      TailMultiset(a);
      TailMultiset(b);
      assert Separates(le, a[1..]);
      SortedUnique(a[1..], b[1..], le);
      assert a == [a[0]] + a[1..] && b == [b[0]] + b[1..];
    }
  }

  /** Sorting by a linear order forgets the arrangement. */
  lemma {:induction false} SortCanonical<T(!new)>(a: seq<T>, b: seq<T>, le: Order<T>)
    requires Linear(le) && multiset(a) == multiset(b)
    ensures Sort(a, le) == Sort(b, le)
  {
    SortSorts(a, le);
    SortSorts(b, le);
    SortedUnique(Sort(a, le), Sort(b, le), le);
  }

  // --- orders ---

  /** The lexicographic order of sequences, as Python compares strings and lists. */
  predicate Lex<T(==)>(a: seq<T>, b: seq<T>, le: Order<T>) {
    a == [] || (b != [] && (if a[0] == b[0] then Lex(a[1..], b[1..], le) else le(a[0], b[0])))
  }

  lemma {:induction false} LexTotal<T(!new)>(a: seq<T>, b: seq<T>, le: Order<T>)
    requires Linear(le)
    ensures Lex(a, b, le) || Lex(b, a, le)
    ensures Lex(a, b, le) && Lex(b, a, le) ==> a == b
  {
    if a != [] && b != [] && a[0] == b[0] {
      LexTotal(a[1..], b[1..], le);
      assert a == [a[0]] + a[1..] && b == [b[0]] + b[1..];
    }
  }

  lemma {:induction false} LexTransitive<T(!new)>(a: seq<T>, b: seq<T>, c: seq<T>, le: Order<T>)
    requires Linear(le) && Lex(a, b, le) && Lex(b, c, le)
    ensures Lex(a, c, le)
  {
    if a != [] && a[0] == b[0] && b[0] == c[0] {
      LexTransitive(a[1..], b[1..], c[1..], le);
    }
  }

  predicate CharLe(a: char, b: char) {
    a <= b
  }

  predicate StringLe(a: string, b: string) {
    Lex(a, b, CharLe)
  }

  predicate StringsLe(a: seq<string>, b: seq<string>) {
    Lex(a, b, StringLe)
  }

  lemma {:induction false} StringOrder()
    ensures Linear(StringLe)
  {
    forall a, b: string
      ensures StringLe(a, b) || StringLe(b, a)
      ensures StringLe(a, b) && StringLe(b, a) ==> a == b
    {
      LexTotal(a, b, CharLe);
    }
    forall a, b, c: string | StringLe(a, b) && StringLe(b, c)
      ensures StringLe(a, c)
    {
      LexTransitive(a, b, c, CharLe);
    }
  }

  lemma {:induction false} StringsOrder()
    ensures Linear(StringsLe)
  {
    StringOrder();
    forall a, b: seq<string>
      ensures StringsLe(a, b) || StringsLe(b, a)
      ensures StringsLe(a, b) && StringsLe(b, a) ==> a == b
    {
      LexTotal(a, b, StringLe);
    }
    forall a, b, c: seq<string> | StringsLe(a, b) && StringsLe(b, c)
      ensures StringsLe(a, c)
    {
      LexTransitive(a, b, c, StringLe);
    }
  }

  // --- sets in order ---

  predicate IsLeast<T(!new)>(x: T, s: set<T>, le: Order<T>) {
    x in s && forall y <- s :: le(x, y)
  }

  lemma {:induction false} LeastOfRest<T(!new)>(x: T, y: T, s: set<T>, le: Order<T>)
    requires Total(le) && Transitive(le)
    requires x in s && IsLeast(y, s - {x}, le)
    ensures IsLeast(if le(x, y) then x else y, s, le)
  {
    var least := if le(x, y) then x else y;
    forall z | z in s
      ensures le(least, z)
    {
      if z != x {
        assert z in s - {x};
      }
    }
  }

  lemma {:induction false} LeastExists<T(!new)>(s: set<T>, le: Order<T>)
    requires s != {} && Total(le) && Transitive(le)
    ensures exists least :: IsLeast(least, s, le)
    decreases |s|
  {
    var x :| x in s;
    if s == {x} {
      assert le(x, x);
      assert IsLeast(x, s, le);
    } else {
      LeastExists(s - {x}, le);
      var y :| IsLeast(y, s - {x}, le);
      LeastOfRest(x, y, s, le);
    }
  }

  /** `sorted` of a set. */
  function Listing<T(!new)>(s: set<T>, le: Order<T>): (r: seq<T>)
    requires Linear(le)
    ensures forall x :: x in r <==> x in s
    ensures |r| == |s|
    ensures Distinct(r)
    decreases |s|
  {
    if s == {} then []
    else
      LeastExists(s, le);
      var least :| IsLeast(least, s, le);
      [least] + Listing(s - {least}, le)
  }

  function SortedSet(s: set<string>): (r: seq<string>)
    ensures forall c :: c in r <==> c in s
    ensures |r| == |s|
  {
    StringOrder();
    Listing(s, StringLe)
  }

  lemma {:induction false} SortedSetHead(s: set<string>)
    requires s != {}
    ensures SortedSet(s) != []
    ensures SortedSet(s)[0] !in SortedSet(s)[1..]
  {
  }

  lemma {:induction false} SortedOne(c: string)
    ensures SortedSet({c}) == [c]
  {
    StringOrder();
    assert {c} - {c} == {};
  }

  // --- in terms of the elements ---

  /** At `k` the strings differ for the first time, and `a` has the smaller character. */
  predicate SmallerAt(a: string, b: string, k: nat) {
    k < |a| && k < |b| && a[..k] == b[..k] && a[k] < b[k]
  }

  lemma {:induction false} SmallerTail(a: string, b: string, k: nat)
    requires a != [] && b != [] && a[0] == b[0]
    ensures !SmallerAt(a, b, 0) && (SmallerAt(a, b, k + 1) <==> SmallerAt(a[1..], b[1..], k))
  {
    if k + 1 < |a| && k + 1 < |b| {
      assert a[..k + 1] == [a[0]] + a[1..][..k] && b[..k + 1] == [b[0]] + b[1..][..k];
    }
  }

  lemma {:induction false} PrefixTail(a: string, b: string)
    requires a != [] && b != [] && a[0] == b[0]
    ensures a <= b <==> a[1..] <= b[1..]
  {
    assert a == [a[0]] + a[1..] && b == [b[0]] + b[1..];
  }

  /** The order of strings: a beginning comes first, else the first character that differs decides. */
  lemma {:induction false} StringOrderIs(a: string, b: string)
    ensures StringLe(a, b) <==> a <= b || exists k: nat :: SmallerAt(a, b, k)
  {
    if a != [] && b != [] {
      if a[0] == b[0] {
        StringOrderIs(a[1..], b[1..]);
        PrefixTail(a, b);
        forall k: nat
          ensures !SmallerAt(a, b, 0) && (SmallerAt(a, b, k + 1) <==> SmallerAt(a[1..], b[1..], k))
        {
          SmallerTail(a, b, k);
        }
        hide SmallerAt;
        if k: nat :| SmallerAt(a, b, k) {
          assert SmallerAt(a[1..], b[1..], k - 1);
        }
        if k: nat :| SmallerAt(a[1..], b[1..], k) {
          assert SmallerAt(a, b, k + 1);
        }
      } else {
        assert SmallerAt(a, b, 0) <==> a[0] < b[0];
      }
    }
  }

  lemma {:induction false} ListingSorted<T(!new)>(s: set<T>, le: Order<T>)
    requires Linear(le)
    ensures Sorted(Listing(s, le), le)
    decreases |s|
  {
    if s != {} {
      var r := Listing(s, le);
      var rest := Listing(s - {r[0]}, le);
      ListingSorted(s - {r[0]}, le);
      assert r == [r[0]] + rest;
      assert rest != [] ==> rest[0] in s;
    }
  }

  /** Sorting a set gives its one listing in order without repetition. */
  lemma {:induction false} SortedSetIs(s: set<string>, items: seq<string>)
    ensures SortedSet(s) == items <==>
            Sorted(items, StringLe) && Distinct(items) && forall x :: x in items <==> x in s
  {
    StringOrder();
    var r := SortedSet(s);
    ListingSorted(s, StringLe);
    assert Distinct(r);
    if Sorted(items, StringLe) && Distinct(items) && forall x :: x in items <==> x in s {
      DistinctSame(r, items);
      SortedUnique(r, items, StringLe);
    }
  }
}
