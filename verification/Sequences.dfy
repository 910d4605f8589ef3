/** Filtering and flattening of sequences, with the facts the rest of the model needs. */
module Sequences {

  /** The elements of s that satisfy keep, in their original order. */
  function Filter<T>(s: seq<T>, keep: T -> bool): seq<T> {
    if s == [] then []
    else if keep(s[0]) then [s[0]] + Filter(s[1..], keep)
    else Filter(s[1..], keep)
  }

  /** Flattens a sequence of sequences. */
  function Flatten<T>(ss: seq<seq<T>>): seq<T> {
    if ss == [] then [] else ss[0] + Flatten(ss[1..])
  }

  lemma Associative<T>(a: seq<T>, b: seq<T>, c: seq<T>)
    ensures (a + b) + c == a + (b + c)
  {
  }

  /** Taking the first element off a concatenation. */
  lemma TailOfSum<T>(a: seq<T>, b: seq<T>)
    requires a != []
    ensures a + b != [] && (a + b)[0] == a[0] && (a + b)[1..] == a[1..] + b
  {
  }

  lemma {:induction false} FilterAppend<T>(a: seq<T>, b: seq<T>, keep: T -> bool)
    ensures Filter(a + b, keep) == Filter(a, keep) + Filter(b, keep)
  {
    if a == [] {
      assert a + b == b;
    } else {
      TailOfSum(a, b);
      FilterAppend(a[1..], b, keep);
      Associative([a[0]], Filter(a[1..], keep), Filter(b, keep));
    }
  }

  /** What one element contributes to a filter, wherever it stands. */
  lemma FilterMiddle<T>(s: seq<T>, keep: T -> bool, i: nat)
    requires i < |s|
    ensures keep(s[i]) ==> Filter(s, keep) == Filter(s[..i], keep) + ([s[i]] + Filter(s[i + 1..], keep))
    ensures !keep(s[i]) ==> Filter(s, keep) == Filter(s[..i], keep) + Filter(s[i + 1..], keep)
  {
    var x, back := s[i], s[i + 1..];
    assert s == s[..i] + ([x] + back);
    FilterAppend(s[..i], [x] + back, keep);
    FilterFirst(x, back, keep);
  }

  lemma FilterFirst<T>(x: T, s: seq<T>, keep: T -> bool)
    ensures Filter([x] + s, keep) == if keep(x) then [x] + Filter(s, keep) else Filter(s, keep)
  {
    assert ([x] + s)[1..] == s;
  }

  /** A kept element lands at the position that counts the kept elements before it. */
  lemma FilterAt<T>(s: seq<T>, keep: T -> bool, i: nat)
    requires i < |s| && keep(s[i])
    ensures |Filter(s[..i], keep)| < |Filter(s, keep)|
    ensures Filter(s, keep)[|Filter(s[..i], keep)|] == s[i]
  {
    FilterMiddle(s, keep, i);
  }

  /** Removing an element that a filter rejects does not change what the filter keeps. */
  lemma FilterSkips<T>(s: seq<T>, keep: T -> bool, i: nat)
    requires i < |s| && !keep(s[i])
    ensures Filter(s[..i] + s[i + 1..], keep) == Filter(s, keep)
  {
    FilterMiddle(s, keep, i);
    FilterAppend(s[..i], s[i + 1..], keep);
  }

  /** The first element a filter keeps is the first element of its result. */
  lemma FilterTakesFirst<T>(s: seq<T>, keep: T -> bool, i: nat)
    requires i < |s| && keep(s[i])
    requires forall j :: 0 <= j < i ==> !keep(s[j])
    ensures Filter(s, keep) == [s[i]] + Filter(s[..i] + s[i + 1..], keep)
  {
    var front, back := s[..i], s[i + 1..];
    assert Filter(front, keep) == [] by { FilterNone(front, keep); }
    assert Filter(s, keep) == [s[i]] + Filter(back, keep) by { FilterMiddle(s, keep, i); }
    assert Filter(front + back, keep) == Filter(back, keep) by { FilterAppend(front, back, keep); }
  }

  lemma FilterOne<T>(x: T, keep: T -> bool)
    ensures Filter([x], keep) == if keep(x) then [x] else []
  {
    assert [x][1..] == [];
  }

  lemma {:induction false} FilterNone<T>(s: seq<T>, keep: T -> bool)
    requires forall x :: x in s ==> !keep(x)
    ensures Filter(s, keep) == []
  {
    if s != [] {
      assert s[0] in s;
      FilterNone(s[1..], keep);
    }
  }

  /** A filter and its complement split the elements: nothing is lost or duplicated. */
  lemma {:induction false} FilterSplits<T>(s: seq<T>, keep: T -> bool, reject: T -> bool)
    requires forall x :: x in s ==> reject(x) == !keep(x)
    ensures multiset(Filter(s, keep)) + multiset(Filter(s, reject)) == multiset(s)
    ensures |Filter(s, keep)| + |Filter(s, reject)| == |s|
  {
    if s != [] {
      assert s[0] in s;
      FilterSplits(s[1..], keep, reject);
      assert s == [s[0]] + s[1..];
    }
  }

  lemma {:induction false} FilterAll<T>(s: seq<T>, keep: T -> bool)
    ensures forall x :: x in Filter(s, keep) <==> x in s && keep(x)
    ensures |Filter(s, keep)| <= |s|
    ensures Filter(s, keep) == s <==> forall x :: x in s ==> keep(x)
  {
    if s != [] {
      FilterAll(s[1..], keep);
      assert s == [s[0]] + s[1..];
    }
  }

  lemma {:induction false} FlattenAppend<T>(a: seq<seq<T>>, b: seq<seq<T>>)
    ensures Flatten(a + b) == Flatten(a) + Flatten(b)
  {
    if a == [] {
      assert a + b == b;
    } else {
      TailOfSum(a, b);
      FlattenAppend(a[1..], b);
      Associative(a[0], Flatten(a[1..]), Flatten(b));
    }
  }

  lemma FlattenOne<T>(s: seq<T>)
    ensures Flatten([s]) == s
  {
    assert [s][1..] == [];
  }

  /** How many elements of s satisfy p. */
  function CountWhere<T>(s: seq<T>, p: T -> bool): nat {
    if s == [] then 0 else CountWhere(s[..|s| - 1], p) + (if p(s[|s| - 1]) then 1 else 0)
  }

  lemma {:induction false} FilterCounts<T>(s: seq<T>, p: T -> bool)
    ensures |Filter(s, p)| == CountWhere(s, p)
  {
    if s != [] {
      var front, last := s[..|s| - 1], s[|s| - 1];
      FilterCounts(front, p);
      assert s == front + [last];
      FilterAppend(front, [last], p);
      FilterOne(last, p);
    }
  }

  /** Filtering twice keeps what satisfies both. */
  lemma {:induction false} FilterTwice<T>(s: seq<T>, a: T -> bool, b: T -> bool, both: T -> bool)
    requires forall x :: both(x) == (a(x) && b(x))
    ensures Filter(Filter(s, a), b) == Filter(s, both)
  {
    if s != [] {
      FilterTwice(s[1..], a, b, both);
      if a(s[0]) {
        FilterFirst(s[0], Filter(s[1..], a), b);
      }
    }
  }
}
