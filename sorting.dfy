/** Array.prototype.sort with a comparator. The language guarantees a
    stable sort, and for a consistent comparator that fixes the result
    uniquely (lemma SortIsUnique), so a stable insertion sort describes it
    exactly. */
module Sorting {
  import opened Lists

  /** A comparator (negative: a first; positive: b first; zero: tie) that
      is consistent: swapping the arguments flips the sign, and "does not
      come after" is transitive. Transitivity is stated over Between so
      that it is used only where a proof asks for it (lemma Transitive). */
  ghost predicate Consistent<T(!new)>(cmp: (T, T) -> int)
  {
    (forall a, b :: cmp(a, b) < 0 <==> cmp(b, a) > 0) &&
    (forall a, b, c {:trigger Between(cmp, a, b, c)} :: Between(cmp, a, b, c) ==> cmp(a, c) <= 0)
  }

  /** b lies between a and c: a does not come after b, nor b after c. */
  ghost predicate Between<T>(cmp: (T, T) -> int, a: T, b: T, c: T)
  {
    cmp(a, b) <= 0 && cmp(b, c) <= 0
  }

  lemma Transitive<T(!new)>(cmp: (T, T) -> int, a: T, b: T, c: T)
    requires Consistent(cmp) && cmp(a, b) <= 0 && cmp(b, c) <= 0
    ensures cmp(a, c) <= 0
  {
    assert Between(cmp, a, b, c);
  }

  /** No element is placed before an earlier one that it should precede. */
  ghost predicate Sorted<T>(s: seq<T>, cmp: (T, T) -> int)
  {
    forall i, j :: 0 <= i < j < |s| ==> cmp(s[i], s[j]) <= 0
  }

  /** Inserts x after every element that does not come after it. */
  function Insert<T>(s: seq<T>, x: T, cmp: (T, T) -> int): (r: seq<T>)
    ensures |r| == |s| + 1
  {
    if s == [] then [x]
    else if cmp(s[0], x) <= 0 then [s[0]] + Insert(s[1..], x, cmp)
    else [x] + s
  }

  /** Stable insertion sort: the input is taken left to right and each
      element is inserted after all elements it ties with. */
  function InsertionSort<T>(s: seq<T>, cmp: (T, T) -> int): (r: seq<T>)
    ensures |r| == |s|
  {
    if s == [] then []
    else Insert(InsertionSort(s[..|s| - 1], cmp), s[|s| - 1], cmp)
  }

  lemma {:induction false} InsertPermutes<T>(s: seq<T>, x: T, cmp: (T, T) -> int)
    ensures multiset(Insert(s, x, cmp)) == multiset(s) + multiset{x}
  {
    if s != [] && cmp(s[0], x) <= 0 {
      InsertPermutes(s[1..], x, cmp);
      assert s == [s[0]] + s[1..];
    }
  }

  /** The output is a permutation of the input. */
  lemma {:induction false} SortPermutes<T>(s: seq<T>, cmp: (T, T) -> int)
    ensures multiset(InsertionSort(s, cmp)) == multiset(s)
  {
    if s != [] {
      SortPermutes(s[..|s| - 1], cmp);
      InsertPermutes(InsertionSort(s[..|s| - 1], cmp), s[|s| - 1], cmp);
      assert s == s[..|s| - 1] + [s[|s| - 1]];
    }
  }

  /** Sorting what a filter keeps lists each element that passes, as often
      as it occurs in the input, and nothing else. */
  lemma SortedFilter<T(!new)>(p: T -> bool, s: seq<T>, cmp: (T, T) -> int)
    ensures forall x :: x in InsertionSort(Filter(p, s), cmp) <==> x in s && p(x)
    ensures forall x :: multiset(InsertionSort(Filter(p, s), cmp))[x] == if p(x) then multiset(s)[x] else 0
  {
    var f := Filter(p, s);
    FilterMembers(p, s);
    FilterCount(p, s);
    SortPermutes(f, cmp);
    assert forall x :: x in InsertionSort(f, cmp) <==> x in multiset(f);
  }

  /** Every element of an insertion is x or an element of s. */
  lemma {:induction false} InsertElements<T>(s: seq<T>, x: T, cmp: (T, T) -> int)
    ensures forall j :: 0 <= j < |s| + 1 ==> Insert(s, x, cmp)[j] == x || Insert(s, x, cmp)[j] in s
  {
    if s != [] && cmp(s[0], x) <= 0 {
      InsertElements(s[1..], x, cmp);
      forall j | 1 <= j < |s| + 1 ensures Insert(s, x, cmp)[j] == x || Insert(s, x, cmp)[j] in s {
        assert Insert(s, x, cmp)[j] == Insert(s[1..], x, cmp)[j - 1];
      }
    }
  }

  /** A head that precedes a sorted tail makes a sorted sequence. */
  lemma SortedCons<T>(h: T, t: seq<T>, cmp: (T, T) -> int)
    requires Sorted(t, cmp) && forall j :: 0 <= j < |t| ==> cmp(h, t[j]) <= 0
    ensures Sorted([h] + t, cmp)
  {
    var r := [h] + t;
    forall i, j | 0 <= i < j < |r| ensures cmp(r[i], r[j]) <= 0 {
      assert r[j] == t[j - 1];
      if i > 0 {
        assert r[i] == t[i - 1];
      }
    }
  }

  lemma SortedTail<T>(s: seq<T>, cmp: (T, T) -> int)
    requires s != [] && Sorted(s, cmp)
    ensures Sorted(s[1..], cmp) && forall j :: 1 <= j < |s| ==> cmp(s[0], s[j]) <= 0
  {
    forall i, j | 0 <= i < j < |s| - 1 ensures cmp(s[1..][i], s[1..][j]) <= 0 {
      assert s[1..][i] == s[i + 1] && s[1..][j] == s[j + 1];
    }
  }

  /** Inserting into sorted input keeps it sorted. */
  lemma {:induction false} InsertSorted<T(!new)>(s: seq<T>, x: T, cmp: (T, T) -> int)
    requires Consistent(cmp) && Sorted(s, cmp)
    ensures Sorted(Insert(s, x, cmp), cmp)
  {
    if s == [] {
      assert Insert(s, x, cmp) == [x];
    } else if cmp(s[0], x) <= 0 {
      SortedTail(s, cmp);
      InsertSorted(s[1..], x, cmp);
      HeadPrecedesInsert(s, x, cmp);
      SortedCons(s[0], Insert(s[1..], x, cmp), cmp);
    } else {
      SortedTail(s, cmp);
      forall j | 0 <= j < |s| ensures cmp(x, s[j]) <= 0 {
        assert cmp(x, s[0]) < 0;
        if j > 0 {
          Transitive(cmp, x, s[0], s[j]);
        }
      }
      SortedCons(x, s, cmp);
    }
  }

  lemma HeadPrecedesInsert<T>(s: seq<T>, x: T, cmp: (T, T) -> int)
    requires s != [] && Sorted(s, cmp) && cmp(s[0], x) <= 0
    ensures forall j :: 0 <= j < |s| ==> cmp(s[0], Insert(s[1..], x, cmp)[j]) <= 0
  {
    var t := Insert(s[1..], x, cmp);
    InsertElements(s[1..], x, cmp);
    forall j | 0 <= j < |t| ensures cmp(s[0], t[j]) <= 0 {
      if t[j] != x {
        var m :| 0 <= m < |s| - 1 && s[1..][m] == t[j];
        assert s[m + 1] == t[j];
      }
    }
  }

  /** The output never places an element after one it should follow. */
  lemma {:induction false} SortSorted<T(!new)>(s: seq<T>, cmp: (T, T) -> int)
    requires Consistent(cmp)
    ensures Sorted(InsertionSort(s, cmp), cmp)
  {
    if s != [] {
      SortSorted(s[..|s| - 1], cmp);
      InsertSorted(InsertionSort(s[..|s| - 1], cmp), s[|s| - 1], cmp);
    }
  }

  /** The elements of s that tie with k, in the order they occur in s. */
  ghost function Equivalents<T>(s: seq<T>, k: T, cmp: (T, T) -> int): seq<T>
  {
    if s == [] then []
    else Tie(s[0], k, cmp) + Equivalents(s[1..], k, cmp)
  }

  /** The tie class of k in one element. */
  ghost function Tie<T>(x: T, k: T, cmp: (T, T) -> int): seq<T>
  {
    if cmp(x, k) == 0 then [x] else []
  }

  lemma EquivalentsCons<T>(x: T, s: seq<T>, k: T, cmp: (T, T) -> int)
    ensures Equivalents([x] + s, k, cmp) == Tie(x, k, cmp) + Equivalents(s, k, cmp)
  {
    assert ([x] + s)[1..] == s;
  }

  lemma {:induction false} EquivalentsAppend<T>(a: seq<T>, b: seq<T>, k: T, cmp: (T, T) -> int)
    ensures Equivalents(a + b, k, cmp) == Equivalents(a, k, cmp) + Equivalents(b, k, cmp)
  {
    if a == [] {
      assert a + b == b;
    } else {
      EquivalentsAppend(a[1..], b, k, cmp);
      assert a + b == [a[0]] + (a[1..] + b);
      EquivalentsCons(a[0], a[1..] + b, k, cmp);
      Regroup(Tie(a[0], k, cmp), Equivalents(a[1..], k, cmp), Equivalents(b, k, cmp));
    }
  }

  lemma {:induction false} NoEquivalents<T>(s: seq<T>, k: T, cmp: (T, T) -> int)
    requires forall i :: 0 <= i < |s| ==> cmp(s[i], k) != 0
    ensures Equivalents(s, k, cmp) == []
  {
    if s != [] {
      NoEquivalents(s[1..], k, cmp);
    }
  }

  /** The first element of s tying with k is the earliest such element. */
  lemma {:induction false} FirstEquivalent<T>(s: seq<T>, k: T, cmp: (T, T) -> int)
    requires Equivalents(s, k, cmp) != []
    ensures exists j :: 0 <= j < |s| && s[j] == Equivalents(s, k, cmp)[0] && cmp(s[j], k) == 0 &&
                        forall i :: 0 <= i < j ==> cmp(s[i], k) != 0
  {
    if cmp(s[0], k) != 0 {
      FirstEquivalent(s[1..], k, cmp);
      var j :| 0 <= j < |s| - 1 && s[1..][j] == Equivalents(s[1..], k, cmp)[0] && cmp(s[1..][j], k) == 0 &&
               forall i :: 0 <= i < j ==> cmp(s[1..][i], k) != 0;
      assert s[j + 1] == s[1..][j];
      forall i | 0 <= i < j + 1 ensures cmp(s[i], k) != 0 {
        if i > 0 { assert s[i] == s[1..][i - 1]; }
      }
    } else {
      assert s[0] == Equivalents(s, k, cmp)[0];
    }
  }

  /** Inserting x adds x, if it ties with k, at the end of k's class. */
  lemma {:induction false} InsertEquivalents<T(!new)>(s: seq<T>, x: T, k: T, cmp: (T, T) -> int)
    requires Consistent(cmp) && Sorted(s, cmp)
    ensures Equivalents(Insert(s, x, cmp), k, cmp) == Equivalents(s, k, cmp) + Tie(x, k, cmp)
  {
    if s == [] {
      EquivalentsCons(x, [], k, cmp);
      assert Insert(s, x, cmp) == [x] + [];
    } else if cmp(s[0], x) <= 0 {
      SortedTail(s, cmp);
      InsertEquivalents(s[1..], x, k, cmp);
      InsertEquivalentsBehind(s, x, k, cmp);
    } else {
      if cmp(x, k) == 0 {
        forall i | 0 <= i < |s| ensures cmp(s[i], k) != 0 {
          InsertedBefore(s, x, k, i, cmp);
        }
        NoEquivalents(s, k, cmp);
      }
      EquivalentsCons(x, s, k, cmp);
    }
  }

  /** The step where x is inserted behind the head of s. */
  lemma InsertEquivalentsBehind<T>(s: seq<T>, x: T, k: T, cmp: (T, T) -> int)
    requires s != [] && cmp(s[0], x) <= 0
    requires Equivalents(Insert(s[1..], x, cmp), k, cmp) == Equivalents(s[1..], k, cmp) + Tie(x, k, cmp)
    ensures Equivalents(Insert(s, x, cmp), k, cmp) == Equivalents(s, k, cmp) + Tie(x, k, cmp)
  {
    var t := Insert(s[1..], x, cmp);
    assert Insert(s, x, cmp) == [s[0]] + t;
    EquivalentsCons(s[0], t, k, cmp);
    Regroup(Tie(s[0], k, cmp), Equivalents(s[1..], k, cmp), Tie(x, k, cmp));
  }

  /** When x goes in front of a sorted s and ties with k, nothing in s
      ties with k. */
  lemma InsertedBefore<T(!new)>(s: seq<T>, x: T, k: T, i: nat, cmp: (T, T) -> int)
    requires Consistent(cmp) && Sorted(s, cmp)
    requires i < |s| && cmp(s[0], x) > 0 && cmp(x, k) == 0
    ensures cmp(s[i], k) != 0
  {
    if cmp(s[i], k) == 0 {
      assert cmp(s[0], s[i]) <= 0 by { if i > 0 { assert cmp(s[0], s[i]) <= 0; } }
      Transitive(cmp, s[0], s[i], k);
      Transitive(cmp, s[0], k, x);
    }
  }

  /** Stability: for every k, the elements tying with k appear in the
      output in exactly the order they had in the input. */
  lemma {:induction false} SortStable<T(!new)>(s: seq<T>, k: T, cmp: (T, T) -> int)
    requires Consistent(cmp)
    ensures Equivalents(InsertionSort(s, cmp), k, cmp) == Equivalents(s, k, cmp)
  {
    if s != [] {
      var init, x := s[..|s| - 1], s[|s| - 1];
      SortSorted(init, cmp);
      InsertEquivalents(InsertionSort(init, cmp), x, k, cmp);
      SortStable(init, k, cmp);
      EquivalentsAppend(init, [x], k, cmp);
      EquivalentsCons(x, [], k, cmp);
      assert [x] + [] == [x];
      assert s == init + [x];
    }
  }

  /** Two sorted permutations of each other that keep every tie class in
      the same order are equal. */
  lemma {:induction false} SortedStableUnique<T(!new)>(r1: seq<T>, r2: seq<T>, cmp: (T, T) -> int)
    requires Consistent(cmp)
    requires Sorted(r1, cmp) && Sorted(r2, cmp)
    requires multiset(r1) == multiset(r2)
    requires forall k :: Equivalents(r1, k, cmp) == Equivalents(r2, k, cmp)
    ensures r1 == r2
    decreases |r1|
  {
    if r1 == [] {
      assert |multiset(r2)| == 0;
    } else {
      SameLength(r1, r2);
      SameHead(r1, r2, cmp);
      SameTails(r1, r2, cmp);
      SortedStableUnique(r1[1..], r2[1..], cmp);
      SameCons(r1, r2);
    }
  }

  lemma SameLength<T>(r1: seq<T>, r2: seq<T>)
    requires multiset(r1) == multiset(r2) && r1 != []
    ensures r2 != [] && |r2| == |r1|
  {
    assert |r2| == |multiset(r2)| == |multiset(r1)| == |r1|;
  }

  lemma SameCons<T>(r1: seq<T>, r2: seq<T>)
    requires r1 != [] && r2 != [] && r1[0] == r2[0] && r1[1..] == r2[1..]
    ensures r1 == r2
  {
    assert r1 == [r1[0]] + r1[1..];
    assert r2 == [r2[0]] + r2[1..];
  }

  /** Sorted, stable and with the same elements: the tails again are. */
  lemma SameTails<T(!new)>(r1: seq<T>, r2: seq<T>, cmp: (T, T) -> int)
    requires r1 != [] && r2 != [] && r1[0] == r2[0]
    requires Sorted(r1, cmp) && Sorted(r2, cmp)
    requires multiset(r1) == multiset(r2)
    requires forall k :: Equivalents(r1, k, cmp) == Equivalents(r2, k, cmp)
    ensures Sorted(r1[1..], cmp) && Sorted(r2[1..], cmp)
    ensures multiset(r1[1..]) == multiset(r2[1..])
    ensures forall k :: Equivalents(r1[1..], k, cmp) == Equivalents(r2[1..], k, cmp)
  {
    SortedTail(r1, cmp);
    SortedTail(r2, cmp);
    forall k ensures Equivalents(r1[1..], k, cmp) == Equivalents(r2[1..], k, cmp) {
      SameTailEquivalents(r1, r2, k, cmp);
    }
    TailMultiset(r1);
    TailMultiset(r2);
  }

  lemma TailMultiset<T>(r: seq<T>)
    requires r != []
    ensures multiset(r[1..]) == multiset(r) - multiset{r[0]}
  {
    assert r == [r[0]] + r[1..];
  }

  lemma SameHead<T(!new)>(r1: seq<T>, r2: seq<T>, cmp: (T, T) -> int)
    requires Consistent(cmp) && r1 != [] && r2 != []
    requires Sorted(r1, cmp) && Sorted(r2, cmp)
    requires multiset(r1) == multiset(r2)
    requires forall k :: Equivalents(r1, k, cmp) == Equivalents(r2, k, cmp)
    ensures r1[0] == r2[0]
  {
    var a, b := r1[0], r2[0];
    HeadFirst(r1, r2, cmp);
    HeadFirst(r2, r1, cmp);
    assert cmp(a, b) <= 0 && cmp(b, a) <= 0;
    HeadOfClass(r1, a, cmp);
    HeadOfClass(r2, a, cmp);
    assert Equivalents(r1, a, cmp) == Equivalents(r2, a, cmp);
  }

  /** A head that ties with k heads k's class. */
  lemma HeadOfClass<T>(r: seq<T>, k: T, cmp: (T, T) -> int)
    requires r != [] && cmp(r[0], k) == 0
    ensures Equivalents(r, k, cmp) != [] && Equivalents(r, k, cmp)[0] == r[0]
  {
  }

  lemma SameTailEquivalents<T>(r1: seq<T>, r2: seq<T>, k: T, cmp: (T, T) -> int)
    requires r1 != [] && r2 != [] && r1[0] == r2[0]
    requires Equivalents(r1, k, cmp) == Equivalents(r2, k, cmp)
    ensures Equivalents(r1[1..], k, cmp) == Equivalents(r2[1..], k, cmp)
  {
    var head := Tie(r1[0], k, cmp);
    var e1, e2 := Equivalents(r1[1..], k, cmp), Equivalents(r2[1..], k, cmp);
    assert Equivalents(r1, k, cmp) == head + e1;
    assert Equivalents(r2, k, cmp) == head + e2;
    assert e1 == (head + e1)[|head|..];
    assert e2 == (head + e2)[|head|..];
  }

  /** Any sorted, stable permutation of s is the insertion sort of s: the
      result of a stable sort does not depend on the algorithm. */
  lemma SortIsUnique<T(!new)>(s: seq<T>, r: seq<T>, cmp: (T, T) -> int)
    requires Consistent(cmp)
    requires Sorted(r, cmp) && multiset(r) == multiset(s)
    requires forall k :: Equivalents(r, k, cmp) == Equivalents(s, k, cmp)
    ensures r == InsertionSort(s, cmp)
  {
    SortSorted(s, cmp);
    SortPermutes(s, cmp);
    forall k ensures Equivalents(r, k, cmp) == Equivalents(InsertionSort(s, cmp), k, cmp) {
      SortStable(s, k, cmp);
    }
    SortedStableUnique(r, InsertionSort(s, cmp), cmp);
  }

  /** The head of the sorted output comes before or ties with every input
      element, and it is the earliest input element of its tie class. */
  lemma SortHead<T(!new)>(s: seq<T>, cmp: (T, T) -> int)
    requires Consistent(cmp) && s != []
    ensures forall i :: 0 <= i < |s| ==> cmp(InsertionSort(s, cmp)[0], s[i]) <= 0
    ensures exists j :: 0 <= j < |s| && s[j] == InsertionSort(s, cmp)[0] &&
                        forall i :: 0 <= i < j ==> cmp(s[i], s[j]) != 0
  {
    var r := InsertionSort(s, cmp);
    var h := r[0];
    SortSorted(s, cmp);
    SortPermutes(s, cmp);
    HeadFirst(r, s, cmp);
    SortStable(s, h, cmp);
    assert cmp(h, h) == 0;
    HeadOfClass(r, h, cmp);
    FirstEquivalent(s, h, cmp);
  }

  /** The head of a sorted permutation of s precedes every element of s. */
  lemma HeadFirst<T(!new)>(r: seq<T>, s: seq<T>, cmp: (T, T) -> int)
    requires Consistent(cmp) && r != [] && Sorted(r, cmp) && multiset(r) == multiset(s)
    ensures forall i :: 0 <= i < |s| ==> cmp(r[0], s[i]) <= 0
  {
    forall i | 0 <= i < |s| ensures cmp(r[0], s[i]) <= 0 {
      assert s[i] in multiset(r);
      var m :| 0 <= m < |r| && r[m] == s[i];
      if m > 0 { assert cmp(r[0], r[m]) <= 0; }
    }
  }
}
