/**
 List operations of the source: comprehensions with a filter, and the head of a stable sort.
 */
module Sequences {

  /** The elements of s that pass the test, in order. */
  function Filter<T>(keep: T -> bool, s: seq<T>): (r: seq<T>)
    ensures forall x :: x in r ==> x in s && keep(x)
  {
    if s == [] then []
    else if keep(s[0]) then [s[0]] + Filter(keep, s[1..])
    else Filter(keep, s[1..])
  }

  lemma {:induction false} FilterKeeps<T>(keep: T -> bool, s: seq<T>, x: T)
    requires x in s && keep(x)
    ensures x in Filter(keep, s)
  {
    if x != s[0] {
      FilterKeeps(keep, s[1..], x);
    }
  }

  lemma {:induction false} FilterNone<T>(keep: T -> bool, s: seq<T>)
    requires forall x :: x in s ==> !keep(x)
    ensures Filter(keep, s) == []
  {
    if s != [] {
      FilterNone(keep, s[1..]);
    }
  }

  lemma {:induction false} FilterAll<T>(keep: T -> bool, s: seq<T>)
    requires forall x :: x in s ==> keep(x)
    ensures Filter(keep, s) == s
  {
    if s != [] {
      FilterAll(keep, s[1..]);
    }
  }

  lemma {:induction false} FilterAppend<T>(keep: T -> bool, s: seq<T>, t: seq<T>)
    ensures Filter(keep, s + t) == Filter(keep, s) + Filter(keep, t)
  {
    if s == [] {
      assert s + t == t;
    } else {
      var rest := Filter(keep, s[1..]);
      assert (s + t)[1..] == s[1..] + t;
      FilterAppend(keep, s[1..], t);
      assert [s[0]] + (rest + Filter(keep, t)) == [s[0]] + rest + Filter(keep, t);
    }
  }

  lemma FilterOne<T>(keep: T -> bool, x: T)
    ensures Filter(keep, [x]) == if keep(x) then [x] else []
  {
    assert [x][1..] == [];
  }

  lemma FilterTwo<T>(keep: T -> bool, x: T, y: T)
    ensures Filter(keep, [x, y]) == (if keep(x) then [x] else []) + (if keep(y) then [y] else [])
  {
    assert [x, y] == [x] + [y];
    FilterAppend(keep, [x], [y]);
    FilterOne(keep, x);
    FilterOne(keep, y);
  }

  lemma FilterWithout<T>(keep: T -> bool, t: seq<T>, i: nat)
    requires i < |t|
    ensures multiset(Filter(keep, t)) ==
            multiset(Filter(keep, t[..i] + t[i + 1..])) + multiset(Filter(keep, [t[i]]))
  {
    var front, back := t[..i], t[i + 1..];
    assert t == front + ([t[i]] + back);
    FilterAppend(keep, front, back);
    FilterAppend(keep, [t[i]], back);
    FilterAppend(keep, front, [t[i]] + back);
  }

  lemma RemoveSame<T>(s: seq<T>, t: seq<T>, i: nat)
    requires s != [] && i < |t| && t[i] == s[0] && multiset(s) == multiset(t)
    ensures multiset(s[1..]) == multiset(t[..i] + t[i + 1..])
  {
    assert s == [s[0]] + s[1..];
    assert t == t[..i] + ([t[i]] + t[i + 1..]);
    assert multiset(s[1..]) == multiset(s) - multiset{s[0]};
    assert multiset(t[..i] + t[i + 1..]) == multiset(t) - multiset{s[0]};
  }

  /** Filtering commutes with reordering. */
  lemma {:induction false} FilterPermutation<T>(keep: T -> bool, s: seq<T>, t: seq<T>)
    requires multiset(s) == multiset(t)
    ensures multiset(Filter(keep, s)) == multiset(Filter(keep, t))
  {
    if s == [] {
      assert |t| == |multiset(t)| == 0;
    } else {
      assert s[0] in multiset(t);
      var i :| 0 <= i < |t| && t[i] == s[0];
      RemoveSame(s, t, i);
      FilterPermutation(keep, s[1..], t[..i] + t[i + 1..]);
      FilterWithout(keep, s, 0);
      FilterWithout(keep, t, i);
      assert s[..0] + s[1..] == s[1..];
    }
  }

  /** Two kept elements stand in the filtered list in the same order. */
  lemma {:induction false} FilterPlaces<T>(keep: T -> bool, s: seq<T>, i: nat, j: nat) returns (k: nat, l: nat)
    requires i < j < |s| && keep(s[i]) && keep(s[j])
    ensures k < l < |Filter(keep, s)| && Filter(keep, s)[k] == s[i] && Filter(keep, s)[l] == s[j]
  {
    var rest := s[1..];
    if i == 0 {
      assert rest[j - 1] == s[j];
      FilterKeeps(keep, rest, s[j]);
      l :| 0 <= l < |Filter(keep, rest)| && Filter(keep, rest)[l] == s[j];
      k, l := 0, l + 1;
    } else {
      k, l := FilterPlaces(keep, rest, i - 1, j - 1);
      if keep(s[0]) {
        k, l := k + 1, l + 1;
      }
    }
  }

  /** A coarser filter applied first changes nothing. */
  lemma {:induction false} FilterFilter<T>(fine: T -> bool, coarse: T -> bool, s: seq<T>)
    requires forall x :: x in s && fine(x) ==> coarse(x)
    ensures Filter(fine, Filter(coarse, s)) == Filter(fine, s)
  {
    if s != [] {
      FilterFilter(fine, coarse, s[1..]);
      if coarse(s[0]) {
        assert Filter(coarse, s)[1..] == Filter(coarse, s[1..]);
      }
    }
  }

  /** A stable sort by the key puts this element first. */
  function Earliest<T>(key: T -> int, s: seq<T>): (r: T)
    requires s != []
    ensures r in s
    ensures forall x :: x in s ==> key(r) <= key(x)
  {
    if |s| == 1 then s[0]
    else
      var rest := Earliest(key, s[1..]);
      if key(s[0]) <= key(rest) then s[0] else rest
  }

  /** Dropping elements other than the first minimum keeps it the first minimum. */
  lemma {:induction false} EarliestOfFilter<T>(key: T -> int, keep: T -> bool, s: seq<T>)
    requires s != [] && keep(Earliest(key, s))
    ensures Filter(keep, s) != []
    ensures Earliest(key, Filter(keep, s)) == Earliest(key, s)
  {
    if |s| > 1 {
      var rest := s[1..];
      if key(s[0]) <= key(Earliest(key, rest)) {
        var f := Filter(keep, rest);
        assert Filter(keep, s) == [s[0]] + f;
        if f != [] {
          assert ([s[0]] + f)[1..] == f;
          assert Earliest(key, f) in rest;
        }
      } else {
        EarliestOfFilter(key, keep, rest);
        if keep(s[0]) {
          assert ([s[0]] + Filter(keep, rest))[1..] == Filter(keep, rest);
        }
      }
    }
  }

  /** An element of multiplicity two sits at two places. */
  lemma {:induction false} TwoPlaces<T>(s: seq<T>, x: T) returns (i: nat, j: nat)
    requires multiset(s)[x] >= 2
    ensures i < j < |s| && s[i] == x && s[j] == x
  {
    if s == [] {
      assert false;
    } else {
      assert s == [s[0]] + s[1..];
      if s[0] == x {
        assert x in multiset(s[1..]);
        j :| 0 <= j < |s[1..]| && s[1..][j] == x;
        i, j := 0, j + 1;
      } else {
        i, j := TwoPlaces(s[1..], x);
        i, j := i + 1, j + 1;
      }
    }
  }

  /** An element at two places has multiplicity two. */
  lemma TwoPlacesCount<T>(s: seq<T>, i: nat, j: nat)
    requires i < j < |s| && s[i] == s[j]
    ensures multiset(s)[s[i]] >= 2
  {
    assert s == s[..j] + s[j..];
    assert s[..j][i] == s[i];
    assert s[j..][0] == s[i];
    assert s[i] in multiset(s[..j]) && s[i] in multiset(s[j..]);
  }

  /** Two elements of a list can be found at different places of any reordering of it. */
  lemma PairInPermutation<T>(s: seq<T>, t: seq<T>, i: nat, j: nat) returns (k: nat, l: nat)
    requires multiset(s) == multiset(t)
    requires i < j < |s|
    ensures k < |t| && l < |t| && k != l && t[k] == s[i] && t[l] == s[j]
  {
    assert s[i] in multiset(t) && s[j] in multiset(t);
    if s[i] == s[j] {
      TwoPlacesCount(s, i, j);
      k, l := TwoPlaces(t, s[i]);
    } else {
      k :| 0 <= k < |t| && t[k] == s[i];
      l :| 0 <= l < |t| && t[l] == s[j];
    }
  }

  /** Every member of a list can be moved to its front. */
  lemma MoveToFront<T>(s: seq<T>, x: T) returns (t: seq<T>)
    requires x in s
    ensures multiset(t) == multiset(s) && t != [] && t[0] == x
  {
    var i :| 0 <= i < |s| && s[i] == x;
    t := [x] + (s[..i] + s[i + 1..]);
    assert s == s[..i] + [x] + s[i + 1..];
  }
}
