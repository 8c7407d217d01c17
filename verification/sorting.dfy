/** Total orders and sorting, as far as the sorts of the repository need them: Rust and Python order
    strings by code points.  The sort is an insertion sort over a given order; what its users rely on
    is that the result is sorted, holds the same elements as often as before and, for an order that
    tells different elements apart, depends on the elements alone and not on how they were arranged.
    The orders on strings, options and pairs are built from the orders of their parts, as derived orders are.
  */
module Sorting {
  import opened Json

  /** Any two elements compare, and comparing is transitive. */
  ghost predicate TotalPreorder<T(!new)>(le: (T, T) -> bool) {
    && (forall a, b :: le(a, b) || le(b, a))
    && (forall a, b, c :: le(a, b) && le(b, c) ==> le(a, c))
  }

  ghost predicate TotalOrder<T(!new)>(le: (T, T) -> bool) {
    && TotalPreorder(le)
    && (forall a, b :: le(a, b) && le(b, a) ==> a == b)
  }

  predicate Sorted<T>(xs: seq<T>, le: (T, T) -> bool) {
    forall i, j | 0 <= i < j < |xs| :: le(xs[i], xs[j])
  }

  function Insert<T>(x: T, xs: seq<T>, le: (T, T) -> bool): seq<T> {
    if xs == [] || le(x, xs[0]) then [x] + xs else [xs[0]] + Insert(x, xs[1..], le)
  }

  /** A stable sort: an element stays before later ones that compare equal. */
  function Sort<T>(xs: seq<T>, le: (T, T) -> bool): seq<T> {
    if xs == [] then [] else Insert(xs[0], Sort(xs[1..], le), le)
  }

  lemma {:induction false} InsertKeepsElements<T>(x: T, xs: seq<T>, le: (T, T) -> bool)
    ensures multiset(Insert(x, xs, le)) == multiset(xs) + multiset{x}
  {
    if xs != [] && !le(x, xs[0]) {
      InsertKeepsElements(x, xs[1..], le);
      assert xs == [xs[0]] + xs[1..];
    }
  }

  lemma {:induction false} InsertIsSorted<T(!new)>(x: T, xs: seq<T>, le: (T, T) -> bool)
    requires TotalPreorder(le) && Sorted(xs, le)
    ensures Sorted(Insert(x, xs, le), le)
    ensures multiset(Insert(x, xs, le)) == multiset(xs) + multiset{x}
  {
    InsertKeepsElements(x, xs, le);
    if xs == [] || le(x, xs[0]) {
      forall i | 0 <= i < |xs| ensures le(x, xs[i]) {
        assert le(xs[0], xs[i]);
      }
    } else {
      var tail := Insert(x, xs[1..], le);
      InsertIsSorted(x, xs[1..], le);
      forall y | y in tail ensures le(xs[0], y) {
        assert y in multiset(tail);
        assert y == x || y in xs[1..];
      }
    }
  }

  lemma {:induction false} SortIsSorted<T(!new)>(xs: seq<T>, le: (T, T) -> bool)
    requires TotalPreorder(le)
    ensures Sorted(Sort(xs, le), le) && multiset(Sort(xs, le)) == multiset(xs)
  {
    if xs != [] {
      SortIsSorted(xs[1..], le);
      InsertIsSorted(xs[0], Sort(xs[1..], le), le);
      assert xs == [xs[0]] + xs[1..];
    }
  }

  /** The first element of a sorted list is at most any element of another form of the list. */
  lemma FirstIsLeast<T(!new)>(xs: seq<T>, ys: seq<T>, le: (T, T) -> bool)
    requires TotalOrder(le) && Sorted(xs, le) && multiset(xs) == multiset(ys) && xs != [] && ys != []
    ensures le(xs[0], ys[0])
  {
    assert ys[0] in multiset(xs);
    var j :| 0 <= j < |xs| && xs[j] == ys[0];
  }

  lemma TailsMatch<T>(xs: seq<T>, ys: seq<T>)
    requires multiset(xs) == multiset(ys) && xs != [] && ys != [] && xs[0] == ys[0]
    ensures multiset(xs[1..]) == multiset(ys[1..])
  {
    assert xs == [xs[0]] + xs[1..] && ys == [ys[0]] + ys[1..];
    assert multiset(xs[1..]) == multiset(xs) - multiset{xs[0]};
    assert multiset(ys[1..]) == multiset(ys) - multiset{ys[0]};
  }

  /** A multiset has one sorted form only. */
  lemma {:induction false} SortedFormIsUnique<T(!new)>(xs: seq<T>, ys: seq<T>, le: (T, T) -> bool)
    requires TotalOrder(le) && Sorted(xs, le) && Sorted(ys, le) && multiset(xs) == multiset(ys)
    ensures xs == ys
  {
    assert |multiset(xs)| == |xs| && |multiset(ys)| == |ys|;
    if xs != [] {
      FirstIsLeast(xs, ys, le);
      FirstIsLeast(ys, xs, le);
      TailsMatch(xs, ys);
      SortedFormIsUnique(xs[1..], ys[1..], le);
      assert xs == [xs[0]] + xs[1..] && ys == [ys[0]] + ys[1..];
    }
  }

  /** Sorting forgets the order of its input. */
  lemma SortOfPermutation<T(!new)>(xs: seq<T>, ys: seq<T>, le: (T, T) -> bool)
    requires TotalOrder(le) && multiset(xs) == multiset(ys)
    ensures Sort(xs, le) == Sort(ys, le)
  {
    SortIsSorted(xs, le);
    SortIsSorted(ys, le);
    SortedFormIsUnique(Sort(xs, le), Sort(ys, le), le);
  }

  predicate NoRepeat<T(==)>(xs: seq<T>) {
    forall i, j | 0 <= i < j < |xs| :: xs[i] != xs[j]
  }

  /** `dedup` on neighbours. */
  function Dedup<T(==)>(xs: seq<T>): seq<T> {
    if |xs| < 2 then xs
    else if xs[0] == xs[1] then Dedup(xs[1..])
    else [xs[0]] + Dedup(xs[1..])
  }

  lemma {:induction false} DedupMeaning<T(!new)>(xs: seq<T>, le: (T, T) -> bool)
    requires TotalOrder(le) && Sorted(xs, le)
    ensures Sorted(Dedup(xs), le) && NoRepeat(Dedup(xs))
    ensures forall x :: x in Dedup(xs) <==> x in xs
  {
    if |xs| >= 2 {
      var rest := xs[1..];
      assert xs == [xs[0]] + rest;
      DedupMeaning(rest, le);
      if xs[0] == xs[1] {
        assert xs[0] == rest[0];
      } else {
        var tail := Dedup(rest);
        assert Dedup(xs) == [xs[0]] + tail;
        forall y | y in tail ensures le(xs[0], y) && y != xs[0] {
          var k :| 0 <= k < |rest| && rest[k] == y;
          assert xs[k + 1] == y;
          assert le(xs[0], xs[1]) && (k == 0 || le(xs[1], xs[k + 1]));
        }
      }
    }
  }

  // ---------------------------------------------------------------------------- strings

  /** Lexicographic order by code points. */
  predicate StringLe(a: string, b: string) {
    a == "" || (b != "" && (a[0] < b[0] || (a[0] == b[0] && StringLe(a[1..], b[1..]))))
  }

  lemma {:induction false} StringLeTotal(a: string, b: string)
    ensures StringLe(a, b) || StringLe(b, a)
    ensures StringLe(a, b) && StringLe(b, a) ==> a == b
    decreases |a|
  {
    if a != "" && b != "" {
      StringLeTotal(a[1..], b[1..]);
      assert a == [a[0]] + a[1..] && b == [b[0]] + b[1..];
    }
  }

  lemma {:induction false} StringLeTransitive(a: string, b: string, c: string)
    requires StringLe(a, b) && StringLe(b, c)
    ensures StringLe(a, c)
    decreases |a|
  {
    if a != "" && a[0] == b[0] && b[0] == c[0] {
      StringLeTransitive(a[1..], b[1..], c[1..]);
    }
  }

  lemma StringOrder()
    ensures TotalOrder(StringLe)
  {
    forall a: string, b: string ensures (StringLe(a, b) || StringLe(b, a)) && (StringLe(a, b) && StringLe(b, a) ==> a == b) {
      StringLeTotal(a, b);
    }
    forall a: string, b: string, c: string | StringLe(a, b) && StringLe(b, c) ensures StringLe(a, c) {
      StringLeTransitive(a, b, c);
    }
  }

  /** A missing value comes first. */
  predicate OptionLe(a: Option<string>, b: Option<string>) {
    a.None? || (b.Some? && StringLe(a.value, b.value))
  }

  lemma OptionOrder()
    ensures TotalOrder(OptionLe)
  {
    StringOrder();
    hide StringLe;
  }

  /** Pairs are ordered by their first part, then by their second. */
  predicate PairLe(p: (string, string), q: (string, string)) {
    if p.0 == q.0 then StringLe(p.1, q.1) else StringLe(p.0, q.0)
  }

  lemma PairOrder()
    ensures TotalOrder(PairLe)
  {
    StringOrder();
  }

  /** The elements of a set, in order, each once. */
  method SortedElements<T(!new)>(s: set<T>, le: (T, T) -> bool) returns (xs: seq<T>)
    requires TotalOrder(le)
    ensures Sorted(xs, le) && multiset(xs) == multiset(s)
  {
    xs := [];
    var rest := s;
    while rest != {}
      invariant rest <= s && Sorted(xs, le) && multiset(xs) == multiset(s - rest)
      decreases rest
    {
      var x :| x in rest;
      InsertIsSorted(x, xs, le);
      assert s - (rest - {x}) == (s - rest) + {x};
      xs := Insert(x, xs, le);
      rest := rest - {x};
    }
    assert s - {} == s;
  }

  lemma SetElements<T>(xs: seq<T>, s: set<T>)
    requires multiset(xs) == multiset(s)
    ensures forall x :: x in xs <==> x in s
    ensures forall i, j | 0 <= i < j < |xs| :: xs[i] != xs[j]
  {
    forall x ensures x in xs <==> x in s {
      assert x in xs <==> x in multiset(xs);
    }
    forall i, j | 0 <= i < j < |xs| ensures xs[i] != xs[j] {
      CountedTwice(xs, i, j);
    }
  }

  lemma CountedTwice<T>(xs: seq<T>, i: nat, j: nat)
    requires i < j < |xs|
    ensures xs[i] == xs[j] ==> multiset(xs)[xs[i]] >= 2
  {
    assert xs == xs[..i] + [xs[i]] + xs[i + 1..j] + [xs[j]] + xs[j + 1..];
  }
}
