/** The Array.prototype operations the views are written with:
    filter, find and slice(0, n). */
module Lists {
  import opened Types

  /** Array.prototype.filter: the elements satisfying `p`, in order. */
  function Filter<T>(p: T -> bool, s: seq<T>): (r: seq<T>)
    ensures |r| <= |s|
  {
    if s == [] then [] else Keep(p, s[0]) + Filter(p, s[1..])
  }

  /** x, if it passes. */
  function Keep<T>(p: T -> bool, x: T): seq<T>
  {
    if p(x) then [x] else []
  }

  lemma FilterCons<T>(p: T -> bool, x: T, s: seq<T>)
    ensures Filter(p, [x] + s) == Keep(p, x) + Filter(p, s)
  {
    assert ([x] + s)[1..] == s;
  }

  /** The filter keeps exactly the elements that pass. */
  lemma {:induction false} FilterMembers<T(!new)>(p: T -> bool, s: seq<T>)
    ensures forall i :: 0 <= i < |Filter(p, s)| ==> p(Filter(p, s)[i])
    ensures forall x :: x in Filter(p, s) <==> x in s && p(x)
  {
    if s != [] {
      FilterMembers(p, s[1..]);
      assert s == [s[0]] + s[1..];
    }
  }

  /** ... each as often as it occurs in the input. */
  lemma {:induction false} FilterCount<T(!new)>(p: T -> bool, s: seq<T>)
    ensures forall x :: multiset(Filter(p, s))[x] == if p(x) then multiset(s)[x] else 0
  {
    if s != [] {
      FilterCount(p, s[1..]);
      assert s == [s[0]] + s[1..];
    }
  }

  /** Filtering distributes over concatenation, so the filter keeps the
      input's relative order. */
  lemma {:induction false} FilterAppend<T>(p: T -> bool, a: seq<T>, b: seq<T>)
    ensures Filter(p, a + b) == Filter(p, a) + Filter(p, b)
  {
    if a == [] {
      assert a + b == b;
    } else {
      var k, t := Keep(p, a[0]), a[1..];
      calc {
        Filter(p, a + b);
        { assert a + b == [a[0]] + (t + b); FilterCons(p, a[0], t + b); }
        k + Filter(p, t + b);
        { FilterAppend(p, t, b); }
        k + (Filter(p, t) + Filter(p, b));
        { Regroup(k, Filter(p, t), Filter(p, b)); }
        (k + Filter(p, t)) + Filter(p, b);
      }
    }
  }

  lemma Regroup<T>(a: seq<T>, b: seq<T>, c: seq<T>)
    ensures a + (b + c) == (a + b) + c
  {
  }

  /** A filter that every element passes keeps the whole sequence. */
  lemma {:induction false} FilterAll<T>(p: T -> bool, s: seq<T>)
    requires forall i :: 0 <= i < |s| ==> p(s[i])
    ensures Filter(p, s) == s
  {
    if s != [] {
      FilterAll(p, s[1..]);
    }
  }

  /** A filter that no element passes keeps nothing. */
  lemma {:induction false} FilterNone<T>(p: T -> bool, s: seq<T>)
    requires forall i :: 0 <= i < |s| ==> !p(s[i])
    ensures Filter(p, s) == []
  {
    if s != [] {
      FilterNone(p, s[1..]);
    }
  }

  /** No two elements of s share a key. */
  predicate Unique<T>(key: T -> string, s: seq<T>)
  {
    forall i, j :: 0 <= i < j < |s| ==> key(s[i]) != key(s[j])
  }

  /** A key unused in s keeps the keys unique when appended. */
  lemma UniqueAppend<T>(key: T -> string, s: seq<T>, x: T)
    requires Unique(key, s) && forall i :: 0 <= i < |s| ==> key(s[i]) != key(x)
    ensures Unique(key, s + [x])
  {
    var r := s + [x];
    forall i, j | 0 <= i < j < |r| ensures key(r[i]) != key(r[j]) {
      assert r[i] == s[i];
    }
  }

  lemma UniqueCons<T>(key: T -> string, x: T, t: seq<T>)
    requires Unique(key, t) && forall j :: 0 <= j < |t| ==> key(t[j]) != key(x)
    ensures Unique(key, [x] + t)
  {
    var r := [x] + t;
    forall i, j | 0 <= i < j < |r| ensures key(r[i]) != key(r[j]) {
      assert r[j] == t[j - 1];
      if i > 0 {
        assert r[i] == t[i - 1];
      }
    }
  }

  /** Filtering keeps the keys unique. */
  lemma {:induction false} UniqueFilter<T(!new)>(key: T -> string, p: T -> bool, s: seq<T>)
    requires Unique(key, s)
    ensures Unique(key, Filter(p, s))
  {
    if s != [] {
      var t := Filter(p, s[1..]);
      assert Unique(key, s[1..]) by {
        forall i, j | 0 <= i < j < |s| - 1 ensures key(s[1..][i]) != key(s[1..][j]) {
          assert s[1..][i] == s[i + 1] && s[1..][j] == s[j + 1];
        }
      }
      UniqueFilter(key, p, s[1..]);
      if p(s[0]) {
        FilterMembers(p, s[1..]);
        forall j | 0 <= j < |t| ensures key(t[j]) != key(s[0]) {
          assert t[j] in s[1..];
          var m :| 0 <= m < |s| - 1 && s[1..][m] == t[j];
          assert s[m + 1] == t[j];
        }
        UniqueCons(key, s[0], t);
      } else {
        assert Filter(p, s) == t;
      }
    }
  }

  /** Array.prototype.find: the first element satisfying `p`, if any. */
  function Find<T>(p: T -> bool, s: seq<T>): (r: Option<T>)
    ensures r.None? <==> forall i :: 0 <= i < |s| ==> !p(s[i])
    ensures r.Some? ==> exists j :: 0 <= j < |s| && s[j] == r.value && p(s[j]) &&
                                    forall i :: 0 <= i < j ==> !p(s[i])
  {
    if s == [] then None
    else if p(s[0]) then Some(s[0])
    else
      var r := Find(p, s[1..]);
      assert r.Some? ==> exists j :: 1 <= j < |s| && s[j] == r.value && p(s[j]) &&
                                     forall i :: 0 <= i < j ==> !p(s[i]) by {
        if r.Some? {
          var j :| 0 <= j < |s| - 1 && s[1..][j] == r.value && p(s[1..][j]) &&
                   forall i :: 0 <= i < j ==> !p(s[1..][i]);
          assert forall i :: 1 <= i < j + 1 ==> !p(s[i]) by {
            forall i | 1 <= i < j + 1 ensures !p(s[i]) { assert s[i] == s[1..][i - 1]; }
          }
        }
      }
      r
  }

  /** Array.prototype.slice(0, n): the first n elements, or all of them. */
  function Take<T>(s: seq<T>, n: nat): (r: seq<T>)
    ensures |r| == if |s| < n then |s| else n
    ensures r <= s
  {
    if |s| <= n then s else s[..n]
  }
}
