/**
 * `OrderedCsv`: a decorator over another CSV source that returns the
 * source's output re-sorted by a comparator. `Stream.sorted` on an ordered
 * stream is a stable sort; it is modelled by insertion sort, and the lemmas
 * below show that for a comparator keeping Java's `Comparator` contract the
 * result is sorted, a permutation, keeps ties in their original order, and
 * is the only sequence with those properties, so that any stable sort
 * (Java's merge sort included) produces exactly this sequence.
 */
module Ordering {
  import opened CsvErrors

  /** The signs of `cmp(a, b)` and `cmp(b, a)` are opposite. */
  predicate SignFlips<T>(cmp: (T, T) -> int, a: T, b: T) {
    cmp(a, b) < 0 <==> cmp(b, a) > 0
  }

  /** "Compares at most 0" carries over from `a`, `b` and `b`, `c` to `a`, `c`. */
  predicate Chains<T>(cmp: (T, T) -> int, a: T, b: T, c: T) {
    cmp(a, b) <= 0 && cmp(b, c) <= 0 ==> cmp(a, c) <= 0
  }

  /**
   * Java's `Comparator` contract, which `sorted` demands of its argument:
   * the signs flip when the arguments are swapped, and "compares at most 0"
   * is transitive. (The proofs below instantiate it one pair or triple at a
   * time.)
   */
  ghost predicate IsComparator<T(!new)>(cmp: (T, T) -> int) {
    && (forall a, b :: SignFlips(cmp, a, b))
    && (forall a, b, c :: Chains(cmp, a, b, c))
  }

  /** Every neighbouring pair compares at most 0. */
  predicate Sorted<T>(s: seq<T>, cmp: (T, T) -> int) {
    forall i :: 0 < i < |s| ==> cmp(s[i - 1], s[i]) <= 0
  }

  /** The elements of `s` that compare equal to `e`, in their order in `s`. */
  function Ties<T>(s: seq<T>, cmp: (T, T) -> int, e: T): seq<T>
  {
    if |s| == 0 then []
    else (if cmp(s[0], e) == 0 then [s[0]] else []) + Ties(s[1..], cmp, e)
  }

  /**
   * Inserts `x` in front of the first element it compares at most 0 to, so
   * that `x` goes before the elements it ties with.
   */
  function Insert<T>(x: T, s: seq<T>, cmp: (T, T) -> int): (r: seq<T>)
    ensures |r| == |s| + 1
  {
    if |s| == 0 then [x]
    else if cmp(x, s[0]) <= 0 then [x] + s
    else [s[0]] + Insert(x, s[1..], cmp)
  }

  /** Stable insertion sort: the reference for `Stream.sorted(comparator)`. */
  function Sort<T>(s: seq<T>, cmp: (T, T) -> int): (r: seq<T>)
    ensures |r| == |s|
  {
    if |s| == 0 then []
    else Insert(s[0], Sort(s[1..], cmp), cmp)
  }

  lemma {:induction false} InsertPermutes<T>(x: T, s: seq<T>, cmp: (T, T) -> int)
    ensures multiset(Insert(x, s, cmp)) == multiset(s) + multiset{x}
  {
    if |s| > 0 && cmp(x, s[0]) > 0 {
      InsertPermutes(x, s[1..], cmp);
      assert s == [s[0]] + s[1..];
    }
  }

  /** `Sort` only reorders: the result holds the same elements as often. */
  lemma {:induction false} SortPermutes<T>(s: seq<T>, cmp: (T, T) -> int)
    ensures multiset(Sort(s, cmp)) == multiset(s)
  {
    if |s| > 0 {
      SortPermutes(s[1..], cmp);
      InsertPermutes(s[0], Sort(s[1..], cmp), cmp);
      assert s == [s[0]] + s[1..];
    }
  }

  lemma CompareSelf<T(!new)>(cmp: (T, T) -> int, a: T)
    requires IsComparator(cmp)
    ensures cmp(a, a) == 0
  {
    assert SignFlips(cmp, a, a);
  }

  /** A tie is symmetric. */
  lemma TieSymmetric<T(!new)>(cmp: (T, T) -> int, a: T, b: T)
    requires IsComparator(cmp)
    requires cmp(a, b) == 0
    ensures cmp(b, a) == 0
  {
    assert SignFlips(cmp, a, b);
    assert SignFlips(cmp, b, a);
  }

  /** Two elements that both tie with `e` tie with each other. */
  lemma TiesTie<T(!new)>(cmp: (T, T) -> int, a: T, b: T, e: T)
    requires IsComparator(cmp)
    requires cmp(a, e) == 0 && cmp(b, e) == 0
    ensures cmp(a, b) == 0
  {
    TieSymmetric(cmp, b, e);
    TieSymmetric(cmp, a, e);
    assert Chains(cmp, a, e, b);
    assert Chains(cmp, b, e, a);
    assert SignFlips(cmp, a, b);
  }

  /** What `x` ranks above does not tie with what `x` ties with. */
  lemma OutrankedDoesNotTie<T(!new)>(cmp: (T, T) -> int, x: T, y: T, e: T)
    requires IsComparator(cmp)
    requires cmp(x, e) == 0 && cmp(x, y) > 0
    ensures cmp(y, e) != 0
  {
    assert Chains(cmp, x, e, y);
    assert cmp(e, y) > 0;
    assert SignFlips(cmp, y, e);
  }

  /** The first element of an insertion is the inserted one or the old first one. */
  lemma InsertHead<T(!new)>(x: T, s: seq<T>, cmp: (T, T) -> int)
    ensures Insert(x, s, cmp)[0] == x || (|s| > 0 && Insert(x, s, cmp)[0] == s[0])
  {
  }

  lemma {:induction false} InsertSorted<T(!new)>(x: T, s: seq<T>, cmp: (T, T) -> int)
    requires IsComparator(cmp)
    requires Sorted(s, cmp)
    ensures Sorted(Insert(x, s, cmp), cmp)
  {
    if |s| > 0 && cmp(x, s[0]) > 0 {
      assert SignFlips(cmp, s[0], x);
      InsertSorted(x, s[1..], cmp);
      InsertHead(x, s[1..], cmp);
      var r := Insert(x, s, cmp);
      assert r == [s[0]] + Insert(x, s[1..], cmp);
      forall i | 0 < i < |r|
        ensures cmp(r[i - 1], r[i]) <= 0
      {
        if i == 1 {
          assert r[1] == x || r[1] == s[1];
        }
      }
    }
  }

  /** The result of `Sort` is sorted. */
  lemma {:induction false} SortSorted<T(!new)>(s: seq<T>, cmp: (T, T) -> int)
    requires IsComparator(cmp)
    ensures Sorted(Sort(s, cmp), cmp)
  {
    if |s| > 0 {
      SortSorted(s[1..], cmp);
      InsertSorted(s[0], Sort(s[1..], cmp), cmp);
    }
  }

  lemma InsertBehind<T>(x: T, s: seq<T>, cmp: (T, T) -> int)
    requires |s| > 0 && cmp(x, s[0]) > 0
    ensures Insert(x, s, cmp) == [s[0]] + Insert(x, s[1..], cmp)
  {
  }

  lemma TiesCons<T(!new)>(y: T, rest: seq<T>, cmp: (T, T) -> int, e: T)
    ensures Ties([y] + rest, cmp, e) == (if cmp(y, e) == 0 then [y] else []) + Ties(rest, cmp, e)
  {
    assert ([y] + rest)[1..] == rest;
  }

  /** Inserting adds the new element in front of the elements it ties with. */
  lemma {:induction false} InsertTies<T(!new)>(x: T, s: seq<T>, cmp: (T, T) -> int, e: T)
    requires IsComparator(cmp)
    ensures Ties(Insert(x, s, cmp), cmp, e)
         == (if cmp(x, e) == 0 then [x] else []) + Ties(s, cmp, e)
  {
    if |s| == 0 {
      TiesCons(x, [], cmp, e);
    } else if cmp(x, s[0]) <= 0 {
      TiesCons(x, s, cmp, e);
    } else {
      var rest := Insert(x, s[1..], cmp);
      InsertTies(x, s[1..], cmp, e);
      if cmp(x, e) == 0 {
        OutrankedDoesNotTie(cmp, x, s[0], e);
      }
      InsertBehind(x, s, cmp);
      TiesCons(s[0], rest, cmp, e);
      TiesCons(s[0], s[1..], cmp, e);
      assert [s[0]] + s[1..] == s;
    }
  }

  /** `Sort` is stable: the elements tying with any `e` keep their order. */
  lemma {:induction false} SortStable<T(!new)>(s: seq<T>, cmp: (T, T) -> int, e: T)
    requires IsComparator(cmp)
    ensures Ties(Sort(s, cmp), cmp, e) == Ties(s, cmp, e)
  {
    if |s| > 0 {
      SortStable(s[1..], cmp, e);
      InsertTies(s[0], Sort(s[1..], cmp), cmp, e);
    }
  }

  lemma {:induction false} TiesMember<T(!new)>(s: seq<T>, cmp: (T, T) -> int, e: T, x: T)
    requires x in Ties(s, cmp, e)
    ensures x in s
  {
    if |s| > 0 {
      if x != s[0] {
        TiesMember(s[1..], cmp, e, x);
      }
    }
  }

  /** In a sorted sequence the first element compares at most 0 to every element. */
  lemma {:induction false} SortedHead<T(!new)>(s: seq<T>, cmp: (T, T) -> int, x: T)
    requires IsComparator(cmp)
    requires Sorted(s, cmp) && x in s
    ensures cmp(s[0], x) <= 0
  {
    if x == s[0] {
      CompareSelf(cmp, x);
    } else {
      SortedHead(s[1..], cmp, x);
      assert cmp(s[0], s[1]) <= 0;
      assert Chains(cmp, s[0], s[1], x);
    }
  }

  /** A non-empty sequence's first element is first among its own ties. */
  lemma TiesSelf<T(!new)>(s: seq<T>, cmp: (T, T) -> int)
    requires IsComparator(cmp)
    requires |s| > 0
    ensures Ties(s, cmp, s[0]) != [] && Ties(s, cmp, s[0])[0] == s[0]
  {
    CompareSelf(cmp, s[0]);
  }

  /** Two sorted sequences that agree on every class of ties are equal. */
  lemma {:induction false} SortedTiesUnique<T(!new)>(a: seq<T>, b: seq<T>, cmp: (T, T) -> int)
    requires IsComparator(cmp)
    requires Sorted(a, cmp) && Sorted(b, cmp)
    requires forall e :: Ties(a, cmp, e) == Ties(b, cmp, e)
    ensures a == b
    decreases |a|
  {
    if |a| == 0 || |b| == 0 {
      if |a| > 0 {
        TiesSelf(a, cmp);
        assert false;
      }
      if |b| > 0 {
        TiesSelf(b, cmp);
        assert false;
      }
    } else {
      var x, y := a[0], b[0];
      TiesSelf(a, cmp);
      TiesSelf(b, cmp);
      assert x in Ties(b, cmp, x) by { assert Ties(a, cmp, x)[0] == x; }
      TiesMember(b, cmp, x, x);
      assert y in Ties(a, cmp, y) by { assert Ties(b, cmp, y)[0] == y; }
      TiesMember(a, cmp, y, y);
      SortedHead(b, cmp, x);
      SortedHead(a, cmp, y);
      assert cmp(y, x) == 0 by {
        assert SignFlips(cmp, x, y);
      }
      assert x == y by {
        assert Ties(a, cmp, x)[0] == x;
        assert Ties(b, cmp, x)[0] == y;
      }
      forall e
        ensures Ties(a[1..], cmp, e) == Ties(b[1..], cmp, e)
      {
        var head := if cmp(x, e) == 0 then [x] else [];
        assert Ties(a, cmp, e) == head + Ties(a[1..], cmp, e);
        assert Ties(b, cmp, e) == head + Ties(b[1..], cmp, e);
        assert Ties(a[1..], cmp, e) == Ties(a, cmp, e)[|head|..];
        assert Ties(b[1..], cmp, e) == Ties(b, cmp, e)[|head|..];
      }
      SortedTiesUnique(a[1..], b[1..], cmp);
      assert a == [x] + a[1..] && b == [y] + b[1..];
    }
  }

  /**
   * Any sorted sequence that keeps every class of ties of `s` in its order
   * in `s` is `Sort(s)`: a stable sort has exactly one possible result.
   */
  lemma StableSortUnique<T(!new)>(s: seq<T>, o: seq<T>, cmp: (T, T) -> int)
    requires IsComparator(cmp)
    requires Sorted(o, cmp)
    requires forall e :: Ties(o, cmp, e) == Ties(s, cmp, e)
    ensures o == Sort(s, cmp)
  {
    SortSorted(s, cmp);
    forall e
      ensures Ties(o, cmp, e) == Ties(Sort(s, cmp), cmp, e)
    {
      SortStable(s, cmp, e);
    }
    SortedTiesUnique(o, Sort(s, cmp), cmp);
  }

  /**
   * The decorator: a source of output values (the wrapped `Csv`'s `map`,
   * which may fail) and the comparator to order them by.
   */
  datatype OrderedCsv<!T, E> = OrderedCsv(decoree: () -> Result<seq<T>, E>, comparator: (T, T) -> int)
  {
    /**
     * `map()`: one call of the wrapped source; its failure is passed on
     * unchanged and nothing is sorted, otherwise a new sequence holding the
     * same elements, sorted.
     */
    function Map(): (r: Result<seq<T>, E>)
      ensures decoree().Failure? ==> r == decoree()
      ensures decoree().Success? ==> r.Success?
      ensures r.Success? ==> |r.value| == |decoree().value|
      ensures r.Success? ==> multiset(r.value) == multiset(decoree().value)
    {
      match decoree()
      case Failure(e) => Failure(e)
      case Success(outputs) =>
        SortPermutes(outputs, comparator);
        Success(Sort(outputs, comparator))
    }
  }

  /**
   * For a comparator keeping the contract, a successful `map` is sorted and
   * keeps every class of ties in the wrapped source's order.
   */
  lemma OrderedMapSorted<T(!new), E>(csv: OrderedCsv<T, E>)
    requires IsComparator(csv.comparator)
    requires csv.decoree().Success?
    ensures Sorted(csv.Map().value, csv.comparator)
    ensures forall e :: Ties(csv.Map().value, csv.comparator, e) == Ties(csv.decoree().value, csv.comparator, e)
  {
    var s := csv.decoree().value;
    SortSorted(s, csv.comparator);
    forall e
      ensures Ties(csv.Map().value, csv.comparator, e) == Ties(s, csv.comparator, e)
    {
      SortStable(s, csv.comparator, e);
    }
  }

  /**
   * Any ordering of the wrapped output that is sorted and keeps every class
   * of ties in order is the one `map` returns: it does not matter which
   * stable sort computes it.
   */
  lemma OrderedMapUnique<T(!new), E>(csv: OrderedCsv<T, E>, o: seq<T>)
    requires IsComparator(csv.comparator)
    requires csv.decoree().Success?
    requires Sorted(o, csv.comparator)
    requires forall e :: Ties(o, csv.comparator, e) == Ties(csv.decoree().value, csv.comparator, e)
    ensures csv.Map() == Success(o)
  {
    StableSortUnique(csv.decoree().value, o, csv.comparator);
  }
}
