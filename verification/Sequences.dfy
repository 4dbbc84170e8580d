/** List operations the source takes from the JavaScript array library, with the facts the proofs need. */
module Sequences {

  /** Array.prototype.filter. */
  function Filter<T(!new)>(p: T -> bool, xs: seq<T>): (r: seq<T>)
    ensures forall x :: x in r <==> x in xs && p(x)
    ensures |r| <= |xs|
  {
    if xs == [] then []
    else (if p(xs[0]) then [xs[0]] else []) + Filter(p, xs[1..])
  }

  /** Array.prototype.map. */
  function Map<T, U>(f: T -> U, xs: seq<T>): (r: seq<U>)
    ensures |r| == |xs|
    ensures forall i :: 0 <= i < |xs| ==> r[i] == f(xs[i])
  {
    seq(|xs|, i requires 0 <= i < |xs| => f(xs[i]))
  }

  /** Array.prototype.splice(index, 1). */
  function RemoveAt<T>(xs: seq<T>, index: nat): seq<T>
    requires index < |xs|
  {
    xs[..index] + xs[index + 1..]
  }

  lemma RemoveAtMultiset<T>(xs: seq<T>, index: nat)
    requires index < |xs|
    ensures multiset(xs) == multiset(RemoveAt(xs, index)) + multiset{xs[index]}
  {
    assert xs == xs[..index] + [xs[index]] + xs[index + 1..];
  }

  // ---------------------------------------------------------------- subsequences

  /** `xs` is `ys` with some elements left out. */
  ghost predicate IsSubsequence<T>(xs: seq<T>, ys: seq<T>) {
    if xs == [] then true
    else if ys == [] then false
    else
      var x, y := xs[|xs| - 1], ys[|ys| - 1];
      (x == y && IsSubsequence(xs[..|xs| - 1], ys[..|ys| - 1])) || IsSubsequence(xs, ys[..|ys| - 1])
  }

  lemma {:induction false} SubsequenceReflexive<T>(xs: seq<T>)
    ensures IsSubsequence(xs, xs)
  {
    if xs != [] { SubsequenceReflexive(xs[..|xs| - 1]); }
  }

  lemma {:induction false} SubsequenceCounts<T>(xs: seq<T>, ys: seq<T>)
    requires IsSubsequence(xs, ys)
    ensures multiset(xs) <= multiset(ys)
  {
    if xs != [] {
      var xinit, yinit := xs[..|xs| - 1], ys[..|ys| - 1];
      assert xs == xinit + [xs[|xs| - 1]] && ys == yinit + [ys[|ys| - 1]];
      if xs[|xs| - 1] == ys[|ys| - 1] && IsSubsequence(xinit, yinit) {
        SubsequenceCounts(xinit, yinit);
      } else {
        SubsequenceCounts(xs, yinit);
      }
    }
  }

  lemma SubsequenceSnoc<T>(xs: seq<T>, ys: seq<T>, x: T)
    requires IsSubsequence(xs, ys)
    ensures IsSubsequence(xs + [x], ys + [x]) && IsSubsequence(xs, ys + [x])
  {
    assert (xs + [x])[..|xs|] == xs && (ys + [x])[..|ys|] == ys;
  }

  lemma RemoveLastAndOthers<T>(xs: seq<T>, index: nat)
    requires index < |xs|
    ensures RemoveAt(xs, index) == if index == |xs| - 1 then xs[..|xs| - 1]
            else RemoveAt(xs[..|xs| - 1], index) + [xs[|xs| - 1]]
  {}

  lemma {:induction false} SubsequenceRemove<T>(xs: seq<T>, ys: seq<T>, index: nat)
    requires IsSubsequence(xs, ys) && index < |xs|
    ensures IsSubsequence(RemoveAt(xs, index), ys)
    decreases |ys|
  {
    var xInit, yInit, yLast := xs[..|xs| - 1], ys[..|ys| - 1], ys[|ys| - 1];
    assert yInit + [yLast] == ys;
    if IsSubsequence(xs, yInit) {
      SubsequenceRemove(xs, yInit, index);
      SubsequenceSnoc(RemoveAt(xs, index), yInit, yLast);
    } else {
      RemoveLastAndOthers(xs, index);
      SubsequenceSnoc(xInit, yInit, yLast);
      if index < |xInit| {
        SubsequenceRemove(xInit, yInit, index);
        SubsequenceSnoc(RemoveAt(xInit, index), yInit, yLast);
      }
    }
  }

  // ---------------------------------------------------------------- stable sort

  function Insert<T>(le: (T, T) -> bool, x: T, xs: seq<T>): (r: seq<T>)
    ensures multiset(r) == multiset([x]) + multiset(xs)
  {
    if xs == [] then [x]
    else if le(x, xs[0]) then [x] + xs
    else
      assert xs == [xs[0]] + xs[1..];
      [xs[0]] + Insert(le, x, xs[1..])
  }

  /** Array.prototype.sort: stable, for a comparison whose "not after" is `le`. */
  function StableSort<T>(le: (T, T) -> bool, xs: seq<T>): (r: seq<T>)
    ensures multiset(r) == multiset(xs)
  {
    if xs == [] then []
    else
      assert xs == [xs[0]] + xs[1..];
      Insert(le, xs[0], StableSort(le, xs[1..]))
  }

  ghost predicate TotalPreorder<T(!new)>(le: (T, T) -> bool) {
    && (forall x, y :: le(x, y) || le(y, x))
    && (forall x, y, z :: le(x, y) && le(y, z) ==> le(x, z))
  }

  ghost predicate Pairwise<T>(r: (T, T) -> bool, xs: seq<T>) {
    forall i, j :: 0 <= i < j < |xs| ==> r(xs[i], xs[j])
  }

  ghost predicate SortedBy<T>(le: (T, T) -> bool, xs: seq<T>) {
    Pairwise(le, xs)
  }

  lemma SameMembers<T>(xs: seq<T>, ys: seq<T>)
    requires multiset(xs) == multiset(ys)
    ensures |xs| == |ys| && forall x :: x in xs <==> x in ys
  {
    assert |multiset(xs)| == |xs| && |multiset(ys)| == |ys|;
    forall x ensures x in xs <==> x in ys {
      assert x in multiset(xs) <==> x in multiset(ys);
    }
  }

  lemma {:induction false} InsertSorted<T(!new)>(le: (T, T) -> bool, x: T, xs: seq<T>)
    requires TotalPreorder(le) && SortedBy(le, xs)
    ensures SortedBy(le, Insert(le, x, xs))
  {
    if xs != [] && !le(x, xs[0]) {
      InsertSorted(le, x, xs[1..]);
      var rest := Insert(le, x, xs[1..]);
      SameMembers(rest, [x] + xs[1..]);
      forall j | 0 <= j < |rest| ensures le(xs[0], rest[j]) {
        assert rest[j] in [x] + xs[1..];
      }
    }
  }

  lemma {:induction false} StableSortSorts<T(!new)>(le: (T, T) -> bool, xs: seq<T>)
    requires TotalPreorder(le)
    ensures SortedBy(le, StableSort(le, xs))
  {
    if xs != [] {
      StableSortSorts(le, xs[1..]);
      InsertSorted(le, xs[0], StableSort(le, xs[1..]));
    }
  }

  lemma FilterCons<T(!new)>(p: T -> bool, x: T, xs: seq<T>)
    ensures Filter(p, [x] + xs) == if p(x) then [x] + Filter(p, xs) else Filter(p, xs)
  {
    assert ([x] + xs)[1..] == xs;
  }

  lemma {:induction false} FilterSnoc<T(!new)>(p: T -> bool, xs: seq<T>, x: T)
    ensures Filter(p, xs + [x]) == if p(x) then Filter(p, xs) + [x] else Filter(p, xs)
  {
    hide Filter;
    FilterNone(p);
    if xs == [] {
      FilterCons(p, x, []);
      assert xs + [x] == [x] + [];
    } else {
      var head, rest := xs[0], xs[1..];
      FilterSnoc(p, rest, x);
      FilterCons(p, head, rest);
      FilterCons(p, head, rest + [x]);
      assert [head] + (rest + [x]) == xs + [x];
      assert [head] + rest == xs;
    }
  }

  lemma {:induction false} FilterConcat<T(!new)>(p: T -> bool, xs: seq<T>, ys: seq<T>)
    ensures Filter(p, xs + ys) == Filter(p, xs) + Filter(p, ys)
  {
    hide Filter;
    if ys == [] {
      FilterNone(p);
      assert xs + ys == xs;
    } else {
      var init, last := ys[..|ys| - 1], ys[|ys| - 1];
      FilterConcat(p, xs, init);
      FilterSnoc(p, xs + init, last);
      FilterSnoc(p, init, last);
      assert xs + init + [last] == xs + ys;
      assert init + [last] == ys;
    }
  }

  lemma {:induction false} FilterCounts<T(!new)>(p: T -> bool, xs: seq<T>, x: T)
    ensures multiset(Filter(p, xs))[x] == if p(x) then multiset(xs)[x] else 0
  {
    if xs != [] {
      FilterCounts(p, xs[1..], x);
      assert xs == [xs[0]] + xs[1..];
    }
  }

  lemma {:induction false} FilterTwice<T(!new)>(p: T -> bool, q: T -> bool, both: T -> bool, xs: seq<T>)
    requires forall x :: both(x) <==> p(x) && q(x)
    ensures Filter(q, Filter(p, xs)) == Filter(both, xs)
  {
    hide Filter;
    FilterNone(p);
    FilterNone(q);
    FilterNone(both);
    if xs != [] {
      var x, rest := xs[0], xs[1..];
      assert xs == [x] + rest;
      FilterTwice(p, q, both, rest);
      FilterCons(p, x, rest);
      FilterCons(both, x, rest);
      FilterCons(q, x, Filter(p, rest));
    }
  }

  lemma {:induction false} FilterKeepsPairwise<T(!new)>(p: T -> bool, r: (T, T) -> bool, xs: seq<T>)
    requires Pairwise(r, xs)
    ensures Pairwise(r, Filter(p, xs))
  {
    if xs != [] {
      FilterKeepsPairwise(p, r, xs[1..]);
      var rest := Filter(p, xs[1..]);
      forall j | 0 <= j < |rest| ensures r(xs[0], rest[j]) {
        assert rest[j] in xs[1..];
      }
    }
  }

  ghost predicate Symmetric<T(!new)>(r: (T, T) -> bool) {
    forall x, y :: r(x, y) ==> r(y, x)
  }

  lemma {:induction false} InsertKeepsPairwise<T(!new)>(r: (T, T) -> bool, le: (T, T) -> bool, x: T, xs: seq<T>)
    requires Symmetric(r) && Pairwise(r, xs) && forall y :: y in xs ==> r(x, y)
    ensures Pairwise(r, Insert(le, x, xs))
  {
    if xs != [] && !le(x, xs[0]) {
      assert r(x, xs[0]);
      InsertKeepsPairwise(r, le, x, xs[1..]);
      var rest := Insert(le, x, xs[1..]);
      SameMembers(rest, [x] + xs[1..]);
      forall j | 0 <= j < |rest| ensures r(xs[0], rest[j]) {
        assert rest[j] in [x] + xs[1..];
      }
    }
  }

  /** A symmetric relation between all elements survives sorting. */
  lemma {:induction false} SortKeepsPairwise<T(!new)>(r: (T, T) -> bool, le: (T, T) -> bool, xs: seq<T>)
    requires Symmetric(r) && Pairwise(r, xs)
    ensures Pairwise(r, StableSort(le, xs))
  {
    if xs != [] {
      SortKeepsPairwise(r, le, xs[1..]);
      SameMembers(StableSort(le, xs[1..]), xs[1..]);
      InsertKeepsPairwise(r, le, xs[0], StableSort(le, xs[1..]));
    }
  }

  lemma {:induction false} InsertAtFront<T(!new)>(le: (T, T) -> bool, x: T, xs: seq<T>)
    requires forall y :: y in xs ==> le(x, y)
    ensures Insert(le, x, xs) == [x] + xs
  {
    if xs != [] { assert xs[0] in xs; }
  }

  /** Leaving elements out before an insertion or after it is the same. */
  lemma {:induction false} FilterInsert<T(!new)>(p: T -> bool, le: (T, T) -> bool, x: T, xs: seq<T>)
    requires TotalPreorder(le) && SortedBy(le, xs)
    ensures Filter(p, Insert(le, x, xs)) == if p(x) then Insert(le, x, Filter(p, xs)) else Filter(p, xs)
  {
    hide Filter;
    FilterCons(p, x, xs);
    if xs == [] {
      assert Insert(le, x, xs) == [x] + xs;
      FilterNone(p);
    } else if le(x, xs[0]) {
      forall y | y in Filter(p, xs) ensures le(x, y) {
        var i :| 0 <= i < |xs| && xs[i] == y;
        assert i == 0 || le(xs[0], xs[i]);
      }
      InsertAtFront(le, x, Filter(p, xs));
    } else {
      var rest := xs[1..];
      FilterInsert(p, le, x, rest);
      FilterCons(p, xs[0], rest);
      FilterCons(p, xs[0], Insert(le, x, rest));
      assert [xs[0]] + rest == xs;
    }
  }

  lemma FilterNone<T(!new)>(p: T -> bool)
    ensures Filter(p, []) == []
  {}

  lemma SortNone<T>(le: (T, T) -> bool)
    ensures StableSort(le, []) == []
  {}

  lemma SortCons<T>(le: (T, T) -> bool, x: T, xs: seq<T>)
    ensures StableSort(le, [x] + xs) == Insert(le, x, StableSort(le, xs))
  {
    assert ([x] + xs)[1..] == xs;
  }

  /** Leaving elements out before sorting or after it is the same. */
  lemma {:induction false} FilterSort<T(!new)>(p: T -> bool, le: (T, T) -> bool, xs: seq<T>)
    requires TotalPreorder(le)
    ensures Filter(p, StableSort(le, xs)) == StableSort(le, Filter(p, xs))
  {
    hide TotalPreorder, Filter, StableSort, Insert;
    SortNone(le);
    FilterNone(p);
    if xs != [] {
      var rest := xs[1..];
      FilterSort(p, le, rest);
      StableSortSorts(le, rest);
      FilterInsert(p, le, xs[0], StableSort(le, rest));
      FilterCons(p, xs[0], rest);
      SortCons(le, xs[0], rest);
      SortCons(le, xs[0], Filter(p, rest));
      assert [xs[0]] + rest == xs;
    }
  }

  lemma {:induction false} SortedIsFixed<T(!new)>(le: (T, T) -> bool, xs: seq<T>)
    requires SortedBy(le, xs)
    ensures StableSort(le, xs) == xs
  {
    if xs != [] {
      SortedIsFixed(le, xs[1..]);
      InsertAtFront(le, xs[0], xs[1..]);
    }
  }

  /** The elements that compare equal to `pivot`. */
  function TiedWith<T>(le: (T, T) -> bool, pivot: T): T -> bool {
    x => le(pivot, x) && le(x, pivot)
  }

  /** Stability: elements that compare equal keep their order. */
  lemma StableSortIsStable<T(!new)>(le: (T, T) -> bool, pivot: T, xs: seq<T>)
    requires TotalPreorder(le)
    ensures Filter(TiedWith(le, pivot), StableSort(le, xs)) == Filter(TiedWith(le, pivot), xs)
  {
    var ties := Filter(TiedWith(le, pivot), xs);
    FilterSort(TiedWith(le, pivot), le, xs);
    forall i, j | 0 <= i < j < |ties| ensures le(ties[i], ties[j]) {
      assert ties[i] in ties && ties[j] in ties;
    }
    SortedIsFixed(le, ties);
  }

  /** What a filter keeps stays in its order. */
  lemma {:induction false} FilterPlaces<T(!new)>(p: T -> bool, xs: seq<T>, i: nat, j: nat)
    requires i < j < |xs| && p(xs[i]) && p(xs[j])
    ensures exists a, b :: 0 <= a < b < |Filter(p, xs)| && Filter(p, xs)[a] == xs[i] && Filter(p, xs)[b] == xs[j]
  {
    hide Filter;
    var head, rest := xs[0], xs[1..];
    assert [head] + rest == xs;
    FilterCons(p, head, rest);
    var kept, later := Filter(p, xs), Filter(p, rest);
    if i == 0 {
      assert xs[j] == rest[j - 1] && xs[j] in later;
      var b :| 0 <= b < |later| && later[b] == xs[j];
      assert kept[0] == xs[i] && kept[b + 1] == xs[j];
    } else {
      FilterPlaces(p, rest, i - 1, j - 1);
      var a, b :| 0 <= a < b < |later| && later[a] == rest[i - 1] && later[b] == rest[j - 1];
      var o := |kept| - |later|;
      assert kept[a + o] == xs[i] && kept[b + o] == xs[j];
    }
  }

  /** Stability: of elements that compare equal, the one that came first stays first. */
  lemma TiesStayInOrder<T(!new)>(le: (T, T) -> bool, r: (T, T) -> bool, xs: seq<T>, i: nat, j: nat)
    requires TotalPreorder(le) && Pairwise(r, xs) && i < j < |StableSort(le, xs)|
    requires le(StableSort(le, xs)[j], StableSort(le, xs)[i])
    ensures r(StableSort(le, xs)[i], StableSort(le, xs)[j])
  {
    hide StableSort, Filter;
    var sorted := StableSort(le, xs);
    var tied := TiedWith(le, sorted[i]);
    StableSortSorts(le, xs);
    StableSortIsStable(le, sorted[i], xs);
    FilterKeepsPairwise(tied, r, xs);
    FilterPlaces(tied, sorted, i, j);
  }

  lemma SortedHeadsAgree<T(!new)>(le: (T, T) -> bool, xs: seq<T>, ys: seq<T>)
    requires xs != [] && SortedBy(le, xs) && SortedBy(le, ys) && multiset(xs) == multiset(ys)
    requires forall x, y :: x in xs && y in xs && le(x, y) && le(y, x) ==> x == y
    ensures ys != [] && xs[0] == ys[0]
  {
    SameMembers(xs, ys);
    assert xs[0] in ys && ys[0] in xs;
    var j :| 0 <= j < |ys| && ys[j] == xs[0];
    var k :| 0 <= k < |xs| && xs[k] == ys[0];
    if j != 0 && k != 0 { assert le(ys[0], ys[j]) && le(xs[0], xs[k]); }
  }

  lemma TailsAgree<T>(xs: seq<T>, ys: seq<T>)
    requires xs != [] && ys != [] && xs[0] == ys[0] && multiset(xs) == multiset(ys)
    ensures multiset(xs[1..]) == multiset(ys[1..])
  {
    assert xs == [xs[0]] + xs[1..] && ys == [ys[0]] + ys[1..];
    assert multiset(xs[1..]) == multiset(xs) - multiset{xs[0]};
  }

  /** When no two different elements compare equal, sorting forgets the original order. */
  lemma {:induction false} SortedIsUnique<T(!new)>(le: (T, T) -> bool, xs: seq<T>, ys: seq<T>)
    requires SortedBy(le, xs) && SortedBy(le, ys) && multiset(xs) == multiset(ys)
    requires forall x, y :: x in xs && y in xs && le(x, y) && le(y, x) ==> x == y
    ensures xs == ys
  {
    SameMembers(xs, ys);
    if xs != [] {
      SortedHeadsAgree(le, xs, ys);
      TailsAgree(xs, ys);
      SortedIsUnique(le, xs[1..], ys[1..]);
    }
  }

  lemma FilterCancels<T(!new)>(p: T -> bool, x: T, xs: seq<T>, ys: seq<T>)
    requires Filter(p, [x] + xs) == Filter(p, [x] + ys)
    ensures Filter(p, xs) == Filter(p, ys)
  {
    FilterCons(p, x, xs);
    FilterCons(p, x, ys);
    assert ([x] + Filter(p, xs))[1..] == Filter(p, xs);
  }

  /** A sorted list is determined by its elements and the order among those that compare equal. */
  lemma {:induction false} SortedByTiesIsUnique<T(!new)>(le: (T, T) -> bool, xs: seq<T>, ys: seq<T>)
    requires TotalPreorder(le) && SortedBy(le, xs) && SortedBy(le, ys) && multiset(xs) == multiset(ys)
    requires forall pivot :: Filter(TiedWith(le, pivot), xs) == Filter(TiedWith(le, pivot), ys)
    ensures xs == ys
  {
    hide TotalPreorder, Filter;
    SameMembers(xs, ys);
    if xs != [] {
      SortedHeadsTie(le, xs, ys);
      var x0, y0, xt, yt := xs[0], ys[0], xs[1..], ys[1..];
      assert [x0] + xt == xs && [y0] + yt == ys;
      assert x0 == y0 by {
        FilterCons(TiedWith(le, x0), x0, xt);
        FilterCons(TiedWith(le, x0), y0, yt);
        assert Filter(TiedWith(le, x0), xs)[0] == Filter(TiedWith(le, x0), ys)[0];
      }
      TailsAgree(xs, ys);
      forall pivot ensures Filter(TiedWith(le, pivot), xt) == Filter(TiedWith(le, pivot), yt) {
        FilterCancels(TiedWith(le, pivot), x0, xt, yt);
      }
      SortedByTiesIsUnique(le, xt, yt);
    }
  }

  lemma SortedHeadsTie<T(!new)>(le: (T, T) -> bool, xs: seq<T>, ys: seq<T>)
    requires TotalPreorder(le) && xs != [] && ys != [] && SortedBy(le, xs) && SortedBy(le, ys)
             && multiset(xs) == multiset(ys)
    ensures le(xs[0], ys[0]) && le(ys[0], xs[0]) && le(xs[0], xs[0])
  {
    SameMembers(xs, ys);
    assert xs[0] in ys && ys[0] in xs;
    var j :| 0 <= j < |ys| && ys[j] == xs[0];
    var k :| 0 <= k < |xs| && xs[k] == ys[0];
    assert le(xs[0], xs[0]);
    assert (j != 0 ==> le(ys[0], ys[j])) && (k != 0 ==> le(xs[0], xs[k]));
  }
}
