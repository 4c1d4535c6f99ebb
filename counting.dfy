/**
 * Frequency counting as pandas does it for one column: `value_counts()` (the
 * distinct non-missing values, each with its number of occurrences, most
 * frequent first), `idxmax()` of those counts, and the minimum and maximum
 * of a column.
 */
module Counting {
  import opened Wrappers

  /** The number of occurrences of `v` in `xs`. */
  function Count<T(==)>(v: T, xs: seq<T>): nat {
    if xs == [] then 0 else (if xs[0] == v then 1 else 0) + Count(v, xs[1..])
  }

  predicate NoDup<T(==)>(s: seq<T>) {
    forall i, j :: 0 <= i < j < |s| ==> s[i] != s[j]
  }

  /** The non-missing entries of a column, in order (pandas skips NaN when counting). */
  function Present<T(!new)>(xs: seq<Option<T>>): (r: seq<T>)
    ensures |r| <= |xs|
    ensures forall v :: v in r <==> Some(v) in xs
  {
    if xs == [] then []
    else (if xs[0].Some? then [xs[0].value] else []) + Present(xs[1..])
  }

  /** Dropping the missing cells keeps every present value's number of occurrences. */
  lemma {:induction false} PresentCounts<T(!new)>(xs: seq<Option<T>>)
    ensures |Present(xs)| == |xs| - Count(None, xs)
    ensures forall v :: Count(v, Present(xs)) == Count(Some(v), xs)
  {
    if xs != [] {
      PresentCounts(xs[1..]);
      var head: seq<T> := if xs[0].Some? then [xs[0].value] else [];
      var rest := Present(xs[1..]);
      assert Present(xs) == head + rest;
      if xs[0].Some? {
        assert (head + rest)[1..] == rest;
      } else {
        assert head + rest == rest;
      }
    }
  }

  /** The distinct values of `xs`. */
  function Distinct<T(==,!new)>(xs: seq<T>): (r: seq<T>)
    ensures NoDup(r)
    ensures forall v :: v in r <==> v in xs
  {
    if xs == [] then []
    else
      var d := Distinct(xs[1..]);
      if xs[0] in d then d else [xs[0]] + d
  }

  /** One entry of a `value_counts()` result. */
  datatype Tally<T> = Tally(value: T, count: nat)

  /** The index of a `value_counts()` result. */
  function Values<T>(ts: seq<Tally<T>>): seq<T> {
    seq(|ts|, i requires 0 <= i < |ts| => ts[i].value)
  }

  /** The values of a `value_counts()` result, as `tolist()` gives them. */
  function Counts<T>(ts: seq<Tally<T>>): seq<int> {
    seq(|ts|, i requires 0 <= i < |ts| => ts[i].count)
  }

  function TotalCount<T>(ts: seq<Tally<T>>): nat {
    if ts == [] then 0 else ts[0].count + TotalCount(ts[1..])
  }

  predicate NonIncreasing<T>(ts: seq<Tally<T>>) {
    forall i, j :: 0 <= i < j < |ts| ==> ts[i].count >= ts[j].count
  }

  function TallyOf<T(==)>(ds: seq<T>, xs: seq<T>): (r: seq<Tally<T>>)
    ensures Values(r) == ds
    ensures forall i :: 0 <= i < |r| ==> r[i].count == Count(r[i].value, xs)
  {
    if ds == [] then [] else [Tally(ds[0], Count(ds[0], xs))] + TallyOf(ds[1..], xs)
  }

  /** Insert a tally in front of the first one that does not count more. */
  function Insert<T>(t: Tally<T>, ts: seq<Tally<T>>): seq<Tally<T>> {
    if ts == [] then [t]
    else if t.count >= ts[0].count then [t] + ts
    else [ts[0]] + Insert(t, ts[1..])
  }

  /** Sort tallies by decreasing count (pandas' tie order is its own; this one keeps input order). */
  function SortByCount<T>(ts: seq<Tally<T>>): seq<Tally<T>> {
    if ts == [] then [] else Insert(ts[0], SortByCount(ts[1..]))
  }

  /** pandas' `Series.value_counts()` on a column without missing values. */
  function ValueCounts<T(==,!new)>(xs: seq<T>): (r: seq<Tally<T>>)
    ensures NonIncreasing(r)
    ensures NoDup(Values(r))
    ensures forall v :: v in Values(r) <==> v in xs
    ensures forall i :: 0 <= i < |r| ==> r[i].count == Count(r[i].value, xs) && r[i].count > 0
    ensures TotalCount(r) == |xs|
  {
    var ds := Distinct(xs);
    var ts := TallyOf(ds, xs);
    SortFacts(ts);
    TallyTotal(ds, xs);
    var r := SortByCount(ts);
    forall i | 0 <= i < |r| ensures r[i].count == Count(r[i].value, xs) && r[i].count > 0 {
      assert r[i] in multiset(ts);
      assert Values(r)[i] == r[i].value;
      CountPositive(r[i].value, xs);
    }
    r
  }

  /** `value_counts()` is empty exactly on an empty column. */
  lemma ValueCountsEmpty<T(!new)>(xs: seq<T>)
    ensures ValueCounts(xs) == [] <==> xs == []
  {
    if xs != [] {
      assert xs[0] in Values(ValueCounts(xs));
    }
  }

  /** `v` is a most frequent value of a non-empty column. */
  ghost predicate IsMode<T(!new)>(v: T, xs: seq<T>) {
    v in xs && forall u :: u in xs ==> Count(u, xs) <= Count(v, xs)
  }

  /** `value_counts().idxmax()`: a most frequent value; none (pandas raises) on an empty column. */
  function MostCommon<T(==,!new)>(xs: seq<T>): (r: Option<T>)
    ensures r.Some? <==> |xs| > 0
    ensures r.Some? ==> IsMode(r.value, xs)
  {
    if xs == [] then None
    else
      FirstIsMode(xs);
      Some(ValueCounts(xs)[0].value)
  }

  function MinOf(s: seq<int>): (r: int)
    requires |s| > 0
    ensures r in s && forall x :: x in s ==> r <= x
  {
    if |s| == 1 then s[0]
    else
      assert s == [s[0]] + s[1..];
      var m := MinOf(s[1..]);
      if s[0] <= m then s[0] else m
  }

  function MaxOf(s: seq<int>): (r: int)
    requires |s| > 0
    ensures r in s && forall x :: x in s ==> x <= r
  {
    if |s| == 1 then s[0]
    else
      assert s == [s[0]] + s[1..];
      var m := MaxOf(s[1..]);
      if s[0] >= m then s[0] else m
  }

  // ---------------------------------------------------------------------------
  // Properties

  lemma {:induction false} CountPositive<T>(v: T, xs: seq<T>)
    ensures Count(v, xs) > 0 <==> v in xs
  {
    if xs != [] {
      CountPositive(v, xs[1..]);
    }
  }

  lemma ValuesCons<T>(t: Tally<T>, ts: seq<Tally<T>>)
    ensures Values([t] + ts) == [t.value] + Values(ts)
  {
  }

  lemma NoDupCons<T>(x: T, s: seq<T>)
    ensures NoDup([x] + s) <==> x !in s && NoDup(s)
  {
    if x !in s && NoDup(s) {
      forall i, j | 0 <= i < j < |[x] + s| ensures ([x] + s)[i] != ([x] + s)[j] {
        if i > 0 {
          assert ([x] + s)[i] == s[i - 1];
        }
      }
    }
    if NoDup([x] + s) {
      forall i, j | 0 <= i < j < |s| ensures s[i] != s[j] {
        assert s[i] == ([x] + s)[i + 1] && s[j] == ([x] + s)[j + 1];
      }
      forall k | 0 <= k < |s| ensures s[k] != x {
        assert s[k] == ([x] + s)[k + 1] && ([x] + s)[0] == x;
      }
    }
  }

  lemma {:induction false} InsertMultiset<T>(t: Tally<T>, ts: seq<Tally<T>>)
    ensures multiset(Insert(t, ts)) == multiset(ts) + multiset{t}
    ensures TotalCount(Insert(t, ts)) == t.count + TotalCount(ts)
  {
    if ts != [] && t.count < ts[0].count {
      assert ts == [ts[0]] + ts[1..];
      InsertMultiset(t, ts[1..]);
      assert ([ts[0]] + Insert(t, ts[1..]))[1..] == Insert(t, ts[1..]);
    } else if ts != [] {
      assert ([t] + ts)[1..] == ts;
    }
  }

  /** Every count in `ts` is at most `b`. */
  predicate CountsAtMost<T>(ts: seq<Tally<T>>, b: nat) {
    forall k :: 0 <= k < |ts| ==> ts[k].count <= b
  }

  lemma {:induction false} InsertBounded<T>(t: Tally<T>, ts: seq<Tally<T>>, b: nat)
    requires CountsAtMost(ts, b) && t.count <= b
    ensures CountsAtMost(Insert(t, ts), b)
  {
    if ts != [] && t.count < ts[0].count {
      InsertBounded(t, ts[1..], b);
      var ins := Insert(t, ts[1..]);
      assert Insert(t, ts) == [ts[0]] + ins;
    }
  }

  lemma {:induction false} InsertSorted<T>(t: Tally<T>, ts: seq<Tally<T>>)
    requires NonIncreasing(ts)
    ensures NonIncreasing(Insert(t, ts))
  {
    if ts != [] && t.count < ts[0].count {
      var c, rest := ts[0], ts[1..];
      InsertSorted(t, rest);
      assert CountsAtMost(rest, c.count) by {
        forall k | 0 <= k < |rest| ensures rest[k].count <= c.count {
          assert rest[k] == ts[k + 1];
        }
      }
      InsertBounded(t, rest, c.count);
      var ins := Insert(t, rest);
      assert Insert(t, ts) == [c] + ins;
      forall i, j | 0 <= i < j < |[c] + ins| ensures ([c] + ins)[i].count >= ([c] + ins)[j].count {
        if i == 0 {
          assert ([c] + ins)[j] == ins[j - 1];
        } else {
          assert ([c] + ins)[i] == ins[i - 1] && ([c] + ins)[j] == ins[j - 1];
        }
      }
    }
  }

  lemma {:induction false} InsertValues<T>(t: Tally<T>, ts: seq<Tally<T>>)
    ensures forall v :: v in Values(Insert(t, ts)) <==> v == t.value || v in Values(ts)
    ensures NoDup(Values(ts)) && t.value !in Values(ts) ==> NoDup(Values(Insert(t, ts)))
  {
    if ts == [] {
      assert Values([t]) == [t.value];
    } else if t.count >= ts[0].count {
      ValuesCons(t, ts);
      NoDupCons(t.value, Values(ts));
    } else {
      var c, rest := ts[0], ts[1..];
      assert ts == [c] + rest;
      InsertValues(t, rest);
      var ins := Insert(t, rest);
      ValuesCons(c, ins);
      ValuesCons(c, rest);
      NoDupCons(c.value, Values(ins));
      NoDupCons(c.value, Values(rest));
    }
  }

  lemma {:induction false} SortFacts<T>(ts: seq<Tally<T>>)
    ensures multiset(SortByCount(ts)) == multiset(ts)
    ensures TotalCount(SortByCount(ts)) == TotalCount(ts)
    ensures NonIncreasing(SortByCount(ts))
    ensures forall v :: v in Values(SortByCount(ts)) <==> v in Values(ts)
    ensures NoDup(Values(ts)) ==> NoDup(Values(SortByCount(ts)))
  {
    SortOrder(ts);
    SortValues(ts);
  }

  lemma {:induction false} SortOrder<T>(ts: seq<Tally<T>>)
    ensures multiset(SortByCount(ts)) == multiset(ts)
    ensures TotalCount(SortByCount(ts)) == TotalCount(ts)
    ensures NonIncreasing(SortByCount(ts))
  {
    if ts != [] {
      var rest := ts[1..];
      assert ts == [ts[0]] + rest;
      SortOrder(rest);
      InsertMultiset(ts[0], SortByCount(rest));
      InsertSorted(ts[0], SortByCount(rest));
    }
  }

  lemma {:induction false} SortValues<T>(ts: seq<Tally<T>>)
    ensures forall v :: v in Values(SortByCount(ts)) <==> v in Values(ts)
    ensures NoDup(Values(ts)) ==> NoDup(Values(SortByCount(ts)))
  {
    if ts != [] {
      var rest := ts[1..];
      assert ts == [ts[0]] + rest;
      SortValues(rest);
      InsertValues(ts[0], SortByCount(rest));
      ValuesCons(ts[0], rest);
      NoDupCons(ts[0].value, Values(rest));
    }
  }

  /** Each element of `x :: xs` adds one to exactly one tally of a duplicate-free list. */
  lemma {:induction false} TallySplit<T>(ds: seq<T>, x: T, rest: seq<T>)
    requires NoDup(ds)
    ensures TotalCount(TallyOf(ds, [x] + rest)) == (if x in ds then 1 else 0) + TotalCount(TallyOf(ds, rest))
  {
    if ds != [] {
      NoDupCons(ds[0], ds[1..]);
      assert ds == [ds[0]] + ds[1..];
      TallySplit(ds[1..], x, rest);
      assert ([x] + rest)[1..] == rest;
    }
  }

  lemma {:induction false} TallyOfEmpty<T>(ds: seq<T>)
    ensures TotalCount(TallyOf(ds, [])) == 0
  {
    if ds != [] {
      TallyOfEmpty(ds[1..]);
    }
  }

  /** The counts of the distinct values of a column add up to its length. */
  lemma {:induction false} TallyTotal<T>(ds: seq<T>, xs: seq<T>)
    requires NoDup(ds)
    requires forall v :: v in xs ==> v in ds
    ensures TotalCount(TallyOf(ds, xs)) == |xs|
  {
    if xs == [] {
      TallyOfEmpty(ds);
    } else {
      assert xs == [xs[0]] + xs[1..];
      TallySplit(ds, xs[0], xs[1..]);
      TallyTotal(ds, xs[1..]);
    }
  }

  /** The first entry of `value_counts()` is a most frequent value. */
  lemma FirstIsMode<T(!new)>(xs: seq<T>)
    requires |xs| > 0
    ensures |ValueCounts(xs)| > 0 && IsMode(ValueCounts(xs)[0].value, xs)
  {
    var r := ValueCounts(xs);
    assert xs[0] in Values(r);
    assert Values(r)[0] == r[0].value;
    forall u | u in xs ensures Count(u, xs) <= Count(r[0].value, xs) {
      assert u in Values(r);
      var j :| 0 <= j < |r| && Values(r)[j] == u;
    }
  }
}
