/** Operations on fixture lists shared by the build scripts and the page: the
    instant a record's kickoff string denotes, the date-window test,
    `Array.prototype.filter`, and the sort by kickoff
    (`(a, b) => new Date(a.kickoff_datetime_jst).getTime() - new Date(b.kickoff_datetime_jst).getTime()`
    under the stable `Array.prototype.sort`). */
module Kickoff {
  import opened Types
  import opened EcmaDate

  /** Asia/Tokyo, taken as a fixed offset of nine hours. */
  const JstOffset: int := 9 * MsPerHour

  /** `new Date(m.kickoff_datetime_jst)`. */
  function KickoffTime(m: Match): DateValue {
    ParseDate(m.kickoff)
  }

  /** `matchDate >= lo && matchDate <= hi`: an invalid date fails both comparisons. */
  predicate InWindow(m: Match, lo: int, hi: int) {
    match KickoffTime(m)
    case Time(t) => lo <= t <= hi
    case NaN => false
  }

  /** The filter callback `match => InWindow(match, lo, hi)`. */
  function InWindowTest(lo: int, hi: int): Match -> bool {
    m => InWindow(m, lo, hi)
  }

  /** `subDays(now, 1)`, with no daylight-saving shift. */
  function DayBefore(now: int): int { now - MsPerDay }

  /** `addDays(now, days)`, with no daylight-saving shift. */
  function DaysAfter(now: int, days: int): int { now + days * MsPerDay }

  // ------------------------------------------------------------- filter

  /** `s.filter(p)`. */
  function Filter<T(!new)>(s: seq<T>, p: T -> bool): (r: seq<T>)
    ensures |r| <= |s|
    ensures forall x :: x in r <==> x in s && p(x)
  {
    if s == [] then [] else (if p(s[0]) then [s[0]] else []) + Filter(s[1..], p)
  }

  /** `r` is `s` with some elements removed and the rest in their order. */
  predicate IsSubsequence<T(==)>(r: seq<T>, s: seq<T>)
    decreases |s|
  {
    if r == [] then true
    else if s == [] then false
    else if r[0] == s[0] then IsSubsequence(r[1..], s[1..])
    else IsSubsequence(r, s[1..])
  }

  lemma {:induction false} SubsequenceOfTail<T>(r: seq<T>, s: seq<T>)
    requires s != [] && IsSubsequence(r, s[1..])
    ensures IsSubsequence(r, s)
    decreases |s|, 0
  {
    if r != [] && r[0] == s[0] {
      SubsequenceDropFirst(r, s[1..]);
    }
  }

  lemma {:induction false} SubsequenceDropFirst<T>(r: seq<T>, u: seq<T>)
    requires r != [] && IsSubsequence(r, u)
    ensures IsSubsequence(r[1..], u)
    decreases |u|, 1
  {
    if r[0] == u[0] {
      SubsequenceOfTail(r[1..], u);
    } else {
      SubsequenceDropFirst(r, u[1..]);
      SubsequenceOfTail(r[1..], u);
    }
  }

  /** The filtered list keeps the order of the list it came from. */
  lemma {:induction false} FilterIsSubsequence<T(!new)>(s: seq<T>, p: T -> bool)
    ensures IsSubsequence(Filter(s, p), s)
  {
    if s != [] {
      FilterIsSubsequence(s[1..], p);
      if !p(s[0]) {
        assert Filter(s, p) == Filter(s[1..], p);
        SubsequenceOfTail(Filter(s, p), s);
      } else {
        assert Filter(s, p)[1..] == Filter(s[1..], p);
      }
    }
  }

  lemma {:induction false} FilterAppend<T(!new)>(a: seq<T>, b: seq<T>, p: T -> bool)
    ensures Filter(a + b, p) == Filter(a, p) + Filter(b, p)
  {
    if a != [] {
      assert (a + b)[1..] == a[1..] + b;
      FilterAppend(a[1..], b, p);
    } else {
      assert a + b == b;
    }
  }

  lemma {:induction false} FilterAll<T(!new)>(s: seq<T>, p: T -> bool)
    requires forall x :: x in s ==> p(x)
    ensures Filter(s, p) == s
  {
    if s != [] {
      FilterAll(s[1..], p);
    }
  }

  lemma {:induction false} FilterNone<T(!new)>(s: seq<T>, p: T -> bool)
    requires forall x :: x in s ==> !p(x)
    ensures Filter(s, p) == []
  {
    if s != [] {
      FilterNone(s[1..], p);
    }
  }

  lemma {:induction false} FilterCommutes<T(!new)>(s: seq<T>, p: T -> bool, q: T -> bool)
    ensures Filter(Filter(s, p), q) == Filter(Filter(s, q), p)
  {
    if s != [] {
      FilterCommutes(s[1..], p, q);
      var h := [s[0]];
      FilterAppend(if p(s[0]) then h else [], Filter(s[1..], p), q);
      FilterAppend(if q(s[0]) then h else [], Filter(s[1..], q), p);
    }
  }

  lemma FilterIdempotent<T(!new)>(s: seq<T>, p: T -> bool)
    ensures Filter(Filter(s, p), p) == Filter(s, p)
  {
    FilterAll(Filter(s, p), p);
  }

  lemma {:induction false} FilterLast<T(!new)>(a: seq<T>, x: T, p: T -> bool)
    ensures Filter(a + [x], p) == Filter(a, p) + (if p(x) then [x] else [])
  {
    FilterAppend(a, [x], p);
  }

  /** The filter of a nonempty list, split off at its last element. */
  lemma FilterDropLast<T(!new)>(t: seq<T>, p: T -> bool)
    requires t != []
    ensures Filter(t, p) == Filter(t[..|t| - 1], p) + (if p(t[|t| - 1]) then [t[|t| - 1]] else [])
  {
    var init, x := t[..|t| - 1], t[|t| - 1];
    assert init + [x] == t;
    FilterLast(init, x, p);
  }

  /** How often a value occurs in the filtered list: as often as in the list
      if it passes the test, never otherwise. */
  lemma {:induction false} FilterMultiplicity<T(!new)>(s: seq<T>, p: T -> bool, x: T)
    ensures multiset(Filter(s, p))[x] == if p(x) then multiset(s)[x] else 0
  {
    if s != [] {
      FilterMultiplicity(s[1..], p, x);
      assert s == [s[0]] + s[1..];
      assert multiset(s) == multiset{s[0]} + multiset(s[1..]);
    }
  }

  /** Lists with the same elements, each as often, filter to lists with the
      same elements, each as often; in particular to lists of equal length. */
  lemma FilterOfPermutation<T(!new)>(a: seq<T>, b: seq<T>, p: T -> bool)
    requires multiset(a) == multiset(b)
    ensures multiset(Filter(a, p)) == multiset(Filter(b, p))
    ensures |Filter(a, p)| == |Filter(b, p)|
  {
    forall x
      ensures multiset(Filter(a, p))[x] == multiset(Filter(b, p))[x]
    {
      FilterMultiplicity(a, p, x);
      FilterMultiplicity(b, p, x);
    }
    assert multiset(Filter(a, p)) == multiset(Filter(b, p));
    assert |multiset(Filter(a, p))| == |Filter(a, p)|;
    assert |multiset(Filter(b, p))| == |Filter(b, p)|;
  }

  /** Filtering by two tests one after the other is filtering by both. */
  lemma {:induction false} FilterBoth<T(!new)>(s: seq<T>, p: T -> bool, q: T -> bool, both: T -> bool)
    requires forall x :: both(x) == (p(x) && q(x))
    ensures Filter(s, both) == Filter(Filter(s, p), q)
  {
    if s != [] {
      FilterBoth(s[1..], p, q, both);
      FilterAppend(if p(s[0]) then [s[0]] else [], Filter(s[1..], p), q);
    }
  }

  /** A filtered sorted list is sorted. */
  lemma {:induction false} FilterKeepsSorted<T(!new)>(s: seq<T>, p: T -> bool, key: T -> int)
    requires SortedBy(s, key)
    ensures SortedBy(Filter(s, p), key)
  {
    if s != [] {
      var rest := Filter(s[1..], p);
      FilterKeepsSorted(s[1..], p, key);
      if p(s[0]) {
        forall j | 0 <= j < |rest|
          ensures key(s[0]) <= key(rest[j])
        {
          assert rest[j] in s[1..];
        }
        assert Filter(s, p) == [s[0]] + rest;
      }
    }
  }

  /** The file a script writes: its records when there are any, None when
      it writes nothing. */
  function NonEmpty<T>(s: seq<T>): (r: Option<seq<T>>)
    ensures r.Some? <==> |s| > 0
    ensures r.Some? ==> r.value == s
  {
    if |s| > 0 then Some(s) else None
  }

  // ------------------------------------------------- skipping collection

  /** What a loop that pushes `f(x)` for each element, skipping the elements
      whose `f` fails (a per-item try/catch, a `continue`), collects. */
  function Collect<A, B>(s: seq<A>, f: A -> Option<B>): (r: seq<B>)
    ensures |r| <= |s|
  {
    if s == [] then []
    else Collect(s[..|s| - 1], f) + (match f(s[|s| - 1]) case Some(b) => [b] case None => [])
  }

  /** A value is collected iff some element produces it. */
  lemma {:induction false} CollectMembers<A, B>(s: seq<A>, f: A -> Option<B>, b: B)
    ensures b in Collect(s, f) <==> exists i :: 0 <= i < |s| && f(s[i]) == Some(b)
  {
    if s != [] {
      var s' := s[..|s| - 1];
      var last := match f(s[|s| - 1]) case Some(c) => [c] case None => [];
      assert Collect(s, f) == Collect(s', f) + last;
      CollectMembers(s', f, b);
      assert b in last <==> f(s[|s| - 1]) == Some(b);
      assert forall i :: 0 <= i < |s'| ==> s'[i] == s[i];
    }
  }

  /** The positions of `s` whose element `f` keeps, in increasing order. */
  function Kept<A, B>(s: seq<A>, f: A -> Option<B>): seq<nat> {
    if s == [] then []
    else Kept(s[..|s| - 1], f) + (if f(s[|s| - 1]).Some? then [|s| - 1] else [])
  }

  /** The collection keeps the order of `s`: its p-th value comes from the
      p-th kept position, the kept positions increase, and every position
      whose element `f` keeps is among them. */
  lemma {:induction false} CollectOrder<A, B>(s: seq<A>, f: A -> Option<B>)
    ensures var r, k := Collect(s, f), Kept(s, f);
      && |k| == |r|
      && (forall p :: 0 <= p < |k| ==> k[p] < |s| && f(s[k[p]]) == Some(r[p]))
      && (forall p, q :: 0 <= p < q < |k| ==> k[p] < k[q])
      && (forall i :: 0 <= i < |s| && f(s[i]).Some? ==> i in k)
  {
    if s != [] {
      var n := |s| - 1;
      var s' := s[..n];
      CollectOrder(s', f);
      var r', k' := Collect(s', f), Kept(s', f);
      var r, k := Collect(s, f), Kept(s, f);
      assert forall i :: 0 <= i < n ==> s'[i] == s[i];
      if f(s[n]).Some? {
        assert r == r' + [f(s[n]).value] && k == k' + [n];
      } else {
        assert r == r' + [] && k == k' + [];
        assert r == r' && k == k';
      }
    }
  }

  /** Nothing is skipped iff `f` succeeds everywhere; then the collection has
      one result per element. */
  lemma {:induction false} CollectNoneSkipped<A, B>(s: seq<A>, f: A -> Option<B>)
    requires forall i :: 0 <= i < |s| ==> f(s[i]).Some?
    ensures |Collect(s, f)| == |s|
    ensures forall i :: 0 <= i < |s| ==> Collect(s, f)[i] == f(s[i]).value
  {
    if s != [] {
      var s' := s[..|s| - 1];
      assert forall i :: 0 <= i < |s'| ==> s'[i] == s[i];
      CollectNoneSkipped(s', f);
    }
  }

  /** Collecting over a concatenation. */
  lemma {:induction false} CollectAppend<A, B>(s: seq<A>, t: seq<A>, f: A -> Option<B>)
    ensures Collect(s + t, f) == Collect(s, f) + Collect(t, f)
    decreases |t|
  {
    if t == [] {
      assert s + t == s;
    } else {
      var t' := t[..|t| - 1];
      assert (s + t)[..|s + t| - 1] == s + t';
      CollectAppend(s, t', f);
    }
  }

  /** The loop itself, appending to `acc`. */
  method CollectInto<A, B>(acc: seq<B>, s: seq<A>, f: A -> Option<B>) returns (r: seq<B>)
    ensures r == acc + Collect(s, f)
  {
    r := acc;
    var i := 0;
    while i < |s|
      invariant 0 <= i <= |s|
      invariant r == acc + Collect(s[..i], f)
    {
      assert s[..i + 1][..i] == s[..i];
      var y := f(s[i]);
      if y.Some? {
        r := r + [y.value];
      }
      i := i + 1;
    }
    assert s[..|s|] == s;
  }

  /** The elements paired with their positions (the `index` of `.each`, the
      counter of an indexed `for`). */
  function Indexed<T>(s: seq<T>): (r: seq<(nat, T)>)
    ensures |r| == |s|
    ensures forall i :: 0 <= i < |s| ==> r[i] == (i, s[i])
  {
    seq(|s|, i requires 0 <= i < |s| => (i, s[i]))
  }

  /** A loop over the positions, pushing `f((i, s[i]))` when it succeeds. */
  method CollectIndexed<A, B>(s: seq<A>, f: ((nat, A)) -> Option<B>) returns (r: seq<B>)
    ensures r == Collect(Indexed(s), f)
  {
    ghost var t := Indexed(s);
    r := [];
    var i := 0;
    while i < |s|
      invariant 0 <= i <= |s|
      invariant r == Collect(t[..i], f)
    {
      assert t[..i + 1][..i] == t[..i];
      assert t[i] == (i, s[i]);
      var y := f((i, s[i]));
      if y.Some? {
        r := r + [y.value];
      }
      i := i + 1;
    }
    assert t[..|s|] == t;
  }

  /** A value is collected from the indexed elements iff the element at some
      position produces it from that position. */
  lemma CollectIndexedMembers<A, B>(s: seq<A>, f: ((nat, A)) -> Option<B>, b: B)
    ensures b in Collect(Indexed(s), f) <==> exists i :: 0 <= i < |s| && f((i, s[i])) == Some(b)
  {
    var t := Indexed(s);
    CollectMembers(t, f, b);
    if b in Collect(t, f) {
      var i :| 0 <= i < |t| && f(t[i]) == Some(b);
      assert f((i, s[i])) == Some(b);
    }
    if exists i :: 0 <= i < |s| && f((i, s[i])) == Some(b) {
      var i :| 0 <= i < |s| && f((i, s[i])) == Some(b);
      assert f(t[i]) == Some(b);
    }
  }

  /** The order of a collection over the indexed elements: the p-th value
      comes from the p-th kept position, and those positions increase. */
  lemma CollectIndexedOrder<A, B>(s: seq<A>, f: ((nat, A)) -> Option<B>)
    ensures var r, k := Collect(Indexed(s), f), Kept(Indexed(s), f);
      && |k| == |r|
      && (forall p :: 0 <= p < |k| ==> k[p] < |s| && f((k[p], s[k[p]])) == Some(r[p]))
      && (forall p, q :: 0 <= p < q < |k| ==> k[p] < k[q])
      && (forall i :: 0 <= i < |s| && f((i, s[i])).Some? ==> i in k)
  {
    var t := Indexed(s);
    CollectOrder(t, f);
  }

  // ------------------------------------------- collection that may abort

  /** What one element does to a loop that may skip it (`continue`), leave
      the loop by an exception, or push a value. */
  datatype Step<+B> = Skip | Abort | Push(value: B)

  /** What such a loop collects: None once an element aborts. */
  function CollectUnlessAbort<A, B>(s: seq<A>, f: A -> Step<B>): Option<seq<B>> {
    if s == [] then Some([])
    else
      match CollectUnlessAbort(s[..|s| - 1], f)
      case None => None
      case Some(r) =>
        match f(s[|s| - 1])
        case Skip => Some(r)
        case Abort => None
        case Push(b) => Some(r + [b])
  }

  /** The pushed value of a step, if any. */
  function Pushed<A, B>(f: A -> Step<B>): A -> Option<B> {
    x => if f(x).Push? then Some(f(x).value) else None
  }

  /** The loop aborts iff some element aborts; otherwise it collects exactly
      the pushed values, in order. */
  lemma {:induction false} CollectUnlessAbortSpec<A, B>(s: seq<A>, f: A -> Step<B>)
    ensures CollectUnlessAbort(s, f)
            == if exists i :: 0 <= i < |s| && f(s[i]).Abort? then None else Some(Collect(s, Pushed(f)))
  {
    if s != [] {
      var s' := s[..|s| - 1];
      var x := s[|s| - 1];
      CollectUnlessAbortSpec(s', f);
      if exists i :: 0 <= i < |s'| && f(s'[i]).Abort? {
        var i :| 0 <= i < |s'| && f(s'[i]).Abort?;
        assert s[i] == s'[i];
      } else if f(x).Abort? {
        assert f(s[|s| - 1]).Abort?;
      } else {
        forall i | 0 <= i < |s|
          ensures !f(s[i]).Abort?
        {
          if i < |s'| {
            assert s[i] == s'[i];
          }
        }
        var r := Collect(s', Pushed(f));
        assert Collect(s, Pushed(f)) == r + (match Pushed(f)(x) case Some(b) => [b] case None => []);
        if f(x).Push? {
          assert Pushed(f)(x) == Some(f(x).value);
        } else {
          assert Pushed(f)(x) == None;
          assert r + [] == r;
        }
      }
    }
  }

  /** Once a prefix aborts, the whole loop does. */
  lemma AbortPropagates<A, B>(s: seq<A>, k: int, f: A -> Step<B>)
    requires 0 <= k <= |s| && CollectUnlessAbort(s[..k], f).None?
    ensures CollectUnlessAbort(s, f).None?
  {
    CollectUnlessAbortSpec(s[..k], f);
    var i :| 0 <= i < k && f(s[..k][i]).Abort?;
    assert s[i] == s[..k][i];
    CollectUnlessAbortSpec(s, f);
  }

  /** The loop over the positions and elements of `s`, leaving it with None
      at the first element that aborts. */
  method CollectIndexedUnlessAbort<A, B>(s: seq<A>, f: ((nat, A)) -> Step<B>) returns (r: Option<seq<B>>)
    ensures r == CollectUnlessAbort(Indexed(s), f)
  {
    ghost var t := Indexed(s);
    var acc: seq<B> := [];
    var i := 0;
    while i < |s|
      invariant 0 <= i <= |s|
      invariant CollectUnlessAbort(t[..i], f) == Some(acc)
    {
      assert t[..i + 1][..i] == t[..i];
      assert t[i] == (i, s[i]);
      var y := f((i, s[i]));
      if y.Abort? {
        AbortPropagates(t, i + 1, f);
        return None;
      }
      if y.Push? {
        acc := acc + [y.value];
      }
      i := i + 1;
    }
    assert t[..|s|] == t;
    r := Some(acc);
  }

  /** When no position aborts, the indexed loop keeps the order of `s`: the
      p-th value is pushed at the p-th kept position, those positions
      increase, and every pushing position is among them. */
  lemma CollectIndexedUnlessAbortOrder<A, B>(s: seq<A>, f: ((nat, A)) -> Step<B>)
    requires forall i :: 0 <= i < |s| ==> !f((i, s[i])).Abort?
    ensures var r, k := Collect(Indexed(s), Pushed(f)), Kept(Indexed(s), Pushed(f));
      && CollectUnlessAbort(Indexed(s), f) == Some(r)
      && |k| == |r|
      && (forall p :: 0 <= p < |k| ==> k[p] < |s| && f((k[p], s[k[p]])) == Push(r[p]))
      && (forall p, q :: 0 <= p < q < |k| ==> k[p] < k[q])
      && (forall i :: 0 <= i < |s| && f((i, s[i])).Push? ==> i in k)
  {
    var t := Indexed(s);
    CollectUnlessAbortSpec(t, f);
    assert forall i :: 0 <= i < |t| ==> t[i] == (i, s[i]);
    CollectIndexedOrder(s, Pushed(f));
  }

  /** The indexed loop aborts iff the element at some position aborts; when
      it does not, a value is collected iff some position pushes it. */
  lemma CollectIndexedUnlessAbortSpec<A, B>(s: seq<A>, f: ((nat, A)) -> Step<B>, b: B)
    ensures (exists i :: 0 <= i < |s| && f((i, s[i])).Abort?) <==> CollectUnlessAbort(Indexed(s), f).None?
    ensures CollectUnlessAbort(Indexed(s), f).Some?
            ==> (b in CollectUnlessAbort(Indexed(s), f).value <==> exists i :: 0 <= i < |s| && f((i, s[i])) == Push(b))
  {
    var t := Indexed(s);
    CollectUnlessAbortSpec(t, f);
    if exists i :: 0 <= i < |s| && f((i, s[i])).Abort? {
      var i :| 0 <= i < |s| && f((i, s[i])).Abort?;
      assert f(t[i]).Abort?;
    } else {
      forall j | 0 <= j < |t|
        ensures !f(t[j]).Abort?
      {
        assert t[j] == (j, s[j]);
      }
      CollectMembers(t, Pushed(f), b);
      if b in Collect(t, Pushed(f)) {
        var j :| 0 <= j < |t| && Pushed(f)(t[j]) == Some(b);
        assert f((j, s[j])) == Push(b);
      }
      if exists j :: 0 <= j < |s| && f((j, s[j])) == Push(b) {
        var j :| 0 <= j < |s| && f((j, s[j])) == Push(b);
        assert Pushed(f)(t[j]) == Some(b);
      }
    }
  }

  // --------------------------------------------------------------- sort

  predicate SortedBy<T>(s: seq<T>, key: T -> int) {
    forall i, j :: 0 <= i < j < |s| ==> key(s[i]) <= key(s[j])
  }

  /** `x` placed after every element of `t` whose key is not above its own. */
  function Insert<T>(t: seq<T>, x: T, key: T -> int): seq<T> {
    if t == [] then [x]
    else if key(t[|t| - 1]) > key(x) then Insert(t[..|t| - 1], x, key) + [t[|t| - 1]]
    else t + [x]
  }

  /** The order a stable sort by `key` leaves `s` in. */
  function SortBy<T>(s: seq<T>, key: T -> int): seq<T> {
    if s == [] then [] else Insert(SortBy(s[..|s| - 1], key), s[|s| - 1], key)
  }

  lemma {:induction false} InsertPermutes<T>(t: seq<T>, x: T, key: T -> int)
    ensures multiset(Insert(t, x, key)) == multiset(t) + multiset{x}
  {
    if t != [] && key(t[|t| - 1]) > key(x) {
      InsertPermutes(t[..|t| - 1], x, key);
      assert t == t[..|t| - 1] + [t[|t| - 1]];
    }
  }

  lemma {:induction false} InsertSorted<T>(t: seq<T>, x: T, key: T -> int)
    requires SortedBy(t, key)
    ensures SortedBy(Insert(t, x, key), key)
  {
    if t != [] && key(t[|t| - 1]) > key(x) {
      var init, last := t[..|t| - 1], t[|t| - 1];
      InsertSorted(init, x, key);
      var u := Insert(init, x, key);
      InsertPermutes(init, x, key);
      forall i | 0 <= i < |u|
        ensures key(u[i]) <= key(last)
      {
        assert u[i] in multiset(u);
        assert u[i] in multiset(init) || u[i] == x;
        if u[i] != x {
          var k :| 0 <= k < |init| && init[k] == u[i];
          assert t[k] == u[i];
        }
      }
    }
  }

  lemma {:induction false} SortBySorted<T>(s: seq<T>, key: T -> int)
    ensures SortedBy(SortBy(s, key), key)
  {
    if s != [] {
      SortBySorted(s[..|s| - 1], key);
      InsertSorted(SortBy(s[..|s| - 1], key), s[|s| - 1], key);
    }
  }

  lemma {:induction false} SortByPermutes<T>(s: seq<T>, key: T -> int)
    ensures multiset(SortBy(s, key)) == multiset(s)
    ensures |SortBy(s, key)| == |s|
  {
    if s != [] {
      SortByPermutes(s[..|s| - 1], key);
      InsertPermutes(SortBy(s[..|s| - 1], key), s[|s| - 1], key);
      assert s == s[..|s| - 1] + [s[|s| - 1]];
    }
  }

  /** The elements whose key is `k`. */
  function KeyIs<T>(key: T -> int, k: int): T -> bool {
    x => key(x) == k
  }

  lemma FilterSingleton<T(!new)>(y: T, p: T -> bool)
    ensures Filter([y], p) == if p(y) then [y] else []
  {
    assert [y][1..] == [];
  }

  lemma SwapAroundEmpty<T>(a: seq<T>, l: seq<T>, x: seq<T>)
    requires l == [] || x == []
    ensures a + x + l == a + l + x
  {
    if l == [] {
      assert a + x + l == a + x && a + l == a;
    } else {
      assert a + x == a && a + l + x == a + l;
    }
  }

  lemma {:induction false} InsertKeepsEqualKeyOrder<T(!new)>(t: seq<T>, x: T, key: T -> int, k: int)
    ensures Filter(Insert(t, x, key), KeyIs(key, k)) == Filter(t, KeyIs(key, k)) + Filter([x], KeyIs(key, k))
  {
    var p := KeyIs(key, k);
    if t == [] {
      assert Filter(t, p) == [];
      assert Insert(t, x, key) == [x];
    } else if key(t[|t| - 1]) > key(x) {
      var init, last := t[..|t| - 1], t[|t| - 1];
      InsertKeepsEqualKeyOrder(init, x, key, k);
      FilterLast(Insert(init, x, key), last, p);
      FilterDropLast(t, p);
      FilterSingleton(x, p);
      SwapAroundEmpty(Filter(init, p), if p(last) then [last] else [], Filter([x], p));
    } else {
      FilterAppend(t, [x], p);
    }
  }

  lemma {:induction false} SortByStable<T(!new)>(s: seq<T>, key: T -> int, k: int)
    ensures Filter(SortBy(s, key), KeyIs(key, k)) == Filter(s, KeyIs(key, k))
  {
    if s != [] {
      var init, last := s[..|s| - 1], s[|s| - 1];
      SortByStable(init, key, k);
      InsertKeepsEqualKeyOrder(SortBy(init, key), last, key, k);
      assert s == init + [last];
      FilterAppend(init, [last], KeyIs(key, k));
    }
  }

  lemma InFilterOfKey<T(!new)>(s: seq<T>, i: int, key: T -> int)
    requires 0 <= i < |s|
    ensures s[i] in Filter(s, KeyIs(key, key(s[i])))
  {
  }

  lemma LastInOther<T(!new)>(a: seq<T>, b: seq<T>, key: T -> int)
    requires a != []
    requires Filter(a, KeyIs(key, key(a[|a| - 1]))) == Filter(b, KeyIs(key, key(a[|a| - 1])))
    ensures a[|a| - 1] in b
  {
    var x := a[|a| - 1];
    InFilterOfKey(a, |a| - 1, key);
    assert x in Filter(b, KeyIs(key, key(x)));
  }

  lemma KeyAtMostLast<T>(b: seq<T>, x: T, key: T -> int)
    requires SortedBy(b, key) && x in b
    ensures key(x) <= key(b[|b| - 1])
  {
    var i :| 0 <= i < |b| && b[i] == x;
    if i < |b| - 1 {
      assert key(b[i]) <= key(b[|b| - 1]);
    }
  }

  /** Sorted lists with the same elements per key end in the same key. */
  lemma LastKeysAgree<T(!new)>(a: seq<T>, b: seq<T>, key: T -> int)
    requires SortedBy(a, key) && SortedBy(b, key) && a != [] && b != []
    requires Filter(a, KeyIs(key, key(a[|a| - 1]))) == Filter(b, KeyIs(key, key(a[|a| - 1])))
    requires Filter(a, KeyIs(key, key(b[|b| - 1]))) == Filter(b, KeyIs(key, key(b[|b| - 1])))
    ensures key(a[|a| - 1]) == key(b[|b| - 1])
  {
    LastInOther(a, b, key);
    LastInOther(b, a, key);
    KeyAtMostLast(b, a[|a| - 1], key);
    KeyAtMostLast(a, b[|b| - 1], key);
  }

  lemma AppendCancel<T>(a: seq<T>, b: seq<T>, x: T, y: T)
    requires a + [x] == b + [y]
    ensures a == b && x == y
  {
    assert |a| == |b|;
    assert a == (a + [x])[..|a|];
    assert b == (b + [y])[..|b|];
    assert x == (a + [x])[|a|];
  }

  lemma SortedPrefix<T>(a: seq<T>, n: int, key: T -> int)
    requires SortedBy(a, key) && 0 <= n <= |a|
    ensures SortedBy(a[..n], key)
  {
  }

  /** Equal last elements cancel from a per-key filter. */
  lemma DropLastKeepsFilter<T(!new)>(a: seq<T>, b: seq<T>, key: T -> int, k: int)
    requires a != [] && b != [] && a[|a| - 1] == b[|b| - 1]
    requires Filter(a, KeyIs(key, k)) == Filter(b, KeyIs(key, k))
    ensures Filter(a[..|a| - 1], KeyIs(key, k)) == Filter(b[..|b| - 1], KeyIs(key, k))
  {
    var p, x := KeyIs(key, k), a[|a| - 1];
    FilterDropLast(a, p);
    FilterDropLast(b, p);
    var fa, fb := Filter(a[..|a| - 1], p), Filter(b[..|b| - 1], p);
    if key(x) == k {
      AppendCancel(fa, fb, x, x);
    } else {
      assert fa + [] == fa && fb + [] == fb;
    }
  }

  /** Lists ending in elements of the same key, with equal filters for that
      key, end in the same element. */
  lemma LastsEqual<T(!new)>(a: seq<T>, b: seq<T>, key: T -> int)
    requires a != [] && b != [] && key(a[|a| - 1]) == key(b[|b| - 1])
    requires Filter(a, KeyIs(key, key(a[|a| - 1]))) == Filter(b, KeyIs(key, key(a[|a| - 1])))
    ensures a[|a| - 1] == b[|b| - 1]
  {
    var p := KeyIs(key, key(a[|a| - 1]));
    FilterDropLast(a, p);
    FilterDropLast(b, p);
    AppendCancel(Filter(a[..|a| - 1], p), Filter(b[..|b| - 1], p), a[|a| - 1], b[|b| - 1]);
  }

  /** Two sorted lists that agree on the order of each run of equal keys are
      the same list. */
  lemma {:induction false} SortedUnique<T(!new)>(a: seq<T>, b: seq<T>, key: T -> int)
    requires SortedBy(a, key) && SortedBy(b, key)
    requires forall k :: Filter(a, KeyIs(key, k)) == Filter(b, KeyIs(key, k))
    ensures a == b
    decreases |a| + |b|
  {
    if a == [] && b != [] {
      InFilterOfKey(b, 0, key);
    } else if a != [] && b == [] {
      InFilterOfKey(a, 0, key);
    } else if a != [] {
      LastKeysAgree(a, b, key);
      LastsEqual(a, b, key);
      DropLastKeepsFilters(a, b, key);
      SortedPrefix(a, |a| - 1, key);
      SortedPrefix(b, |b| - 1, key);
      SortedUnique(a[..|a| - 1], b[..|b| - 1], key);
      SameInitAndLast(a, b);
    }
  }

  /** Dropping a common last element keeps two lists agreeing per key. */
  lemma DropLastKeepsFilters<T(!new)>(a: seq<T>, b: seq<T>, key: T -> int)
    requires a != [] && b != [] && a[|a| - 1] == b[|b| - 1]
    requires forall k :: Filter(a, KeyIs(key, k)) == Filter(b, KeyIs(key, k))
    ensures forall k :: Filter(a[..|a| - 1], KeyIs(key, k)) == Filter(b[..|b| - 1], KeyIs(key, k))
  {
    forall k
      ensures Filter(a[..|a| - 1], KeyIs(key, k)) == Filter(b[..|b| - 1], KeyIs(key, k))
    {
      DropLastKeepsFilter(a, b, key, k);
    }
  }

  lemma SameInitAndLast<T>(a: seq<T>, b: seq<T>)
    requires a != [] && b != []
    requires a[..|a| - 1] == b[..|b| - 1] && a[|a| - 1] == b[|b| - 1]
    ensures a == b
  {
    assert a == a[..|a| - 1] + [a[|a| - 1]];
    assert b == b[..|b| - 1] + [b[|b| - 1]];
  }

  /** Insert puts `x` at `j` when the key just before `j` is not above its
      own and every key from `j` on is. */
  lemma {:induction false} InsertAt<T>(t: seq<T>, j: int, x: T, key: T -> int)
    requires 0 <= j <= |t|
    requires j == 0 || key(t[j - 1]) <= key(x)
    requires forall k :: j <= k < |t| ==> key(t[k]) > key(x)
    ensures Insert(t, x, key) == t[..j] + [x] + t[j..]
    decreases |t|
  {
    if j == |t| {
      assert t[..j] == t && t[j..] == [];
      if j > 0 {
        assert t[|t| - 1] == t[j - 1];
      }
    } else {
      var init, last := t[..|t| - 1], t[|t| - 1];
      assert key(last) > key(x);
      assert j == 0 || init[j - 1] == t[j - 1];
      assert forall k :: j <= k < |init| ==> init[k] == t[k];
      InsertAt(init, j, x, key);
      assert init[..j] == t[..j];
      assert init[j..] + [last] == t[j..];
    }
  }

  /** A list that holds `t[..j]`, then `x`, then the rest of `t`, index by index. */
  lemma AssembleInsert<T>(u: seq<T>, t: seq<T>, j: int, x: T)
    requires 0 <= j <= |t| && |u| == |t| + 1
    requires forall k :: 0 <= k < j ==> u[k] == t[k]
    requires u[j] == x
    requires forall k :: j < k < |u| ==> u[k] == t[k - 1]
    ensures u == t[..j] + [x] + t[j..]
  {
  }

  /** One step of insertion: `a[i]` moves left past the larger keys before it. */
  method InsertInPlace<T>(a: array<T>, i: int, key: T -> int)
    requires 0 <= i < a.Length
    modifies a
    ensures a[..i + 1] == Insert(old(a[..i]), old(a[i]), key)
    ensures a[i + 1..] == old(a[i + 1..])
  {
    var x := a[i];
    ghost var t := a[..i];
    var j := i;
    while j > 0 && key(a[j - 1]) > key(x)
      invariant 0 <= j <= i
      invariant forall k :: 0 <= k < j ==> a[k] == t[k]
      invariant forall k :: j < k <= i ==> a[k] == t[k - 1]
      invariant forall k :: i < k < a.Length ==> a[k] == old(a[k])
      invariant forall k :: j <= k < i ==> key(t[k]) > key(x)
    {
      a[j] := a[j - 1];
      j := j - 1;
    }
    a[j] := x;
    InsertAt(t, j, x, key);
    ghost var u := a[..i + 1];
    assert forall k :: 0 <= k < j ==> u[k] == t[k];
    assert forall k :: j < k < |u| ==> u[k] == t[k - 1];
    assert u[j] == x;
    AssembleInsert(u, t, j, x);
    assert a[i + 1..] == old(a[i + 1..]);
  }

  /** `a.sort((x, y) => key(x) - key(y))` in place, by insertion, which is
      stable like the engine's sort. */
  method SortInPlace<T>(a: array<T>, key: T -> int)
    modifies a
    ensures a[..] == SortBy(old(a[..]), key)
  {
    ghost var orig := a[..];
    var i := 0;
    while i < a.Length
      invariant 0 <= i <= a.Length
      invariant a[..i] == SortBy(orig[..i], key)
      invariant a[i..] == orig[i..]
    {
      assert orig[..i + 1][..i] == orig[..i];
      assert a[i] == orig[i];
      InsertInPlace(a, i, key);
      i := i + 1;
    }
    assert a[..] == a[..a.Length] && orig == orig[..a.Length];
  }

  /** Sorting a copy of a list: the list is copied into a fresh array and
      sorted there. */
  method SortedCopy<T>(s: seq<T>, key: T -> int) returns (r: seq<T>)
    ensures r == SortBy(s, key)
  {
    var a := new T[|s|](j requires 0 <= j < |s| => s[j]);
    assert a[..] == s;
    SortInPlace(a, key);
    r := a[..];
  }

  /** Sorting two lists put end to end: sorted, and holding the elements of
      both, each as often. */
  lemma SortConcatContents<T>(a: seq<T>, b: seq<T>, key: T -> int, x: T)
    ensures SortedBy(SortBy(a + b, key), key)
    ensures multiset(SortBy(a + b, key)) == multiset(a) + multiset(b)
    ensures |SortBy(a + b, key)| == |a| + |b|
    ensures x in SortBy(a + b, key) <==> x in a || x in b
  {
    SortBySorted(a + b, key);
    SortByPermutes(a + b, key);
    assert x in SortBy(a + b, key) <==> x in multiset(SortBy(a + b, key));
    assert x in a + b <==> x in multiset(a + b);
  }

  /** When no element of `a` passes a test, the sorted concatenation has as
      many elements passing it as `b`. */
  lemma SortConcatFilterCount<T(!new)>(a: seq<T>, b: seq<T>, key: T -> int, p: T -> bool)
    requires forall x :: x in a ==> !p(x)
    ensures |Filter(SortBy(a + b, key), p)| == |Filter(b, p)|
  {
    SortByPermutes(a + b, key);
    FilterOfPermutation(SortBy(a + b, key), a + b, p);
    FilterAppend(a, b, p);
    FilterNone(a, p);
  }

  /** Keeping the elements of a sorted concatenation `a + b` that pass a test
      which all of `a` and none of `b` pass, appending `b` again and sorting
      gives the same list back. */
  lemma SortConcatRefilter<T(!new)>(a: seq<T>, b: seq<T>, key: T -> int, p: T -> bool)
    requires forall x :: x in a ==> p(x)
    requires forall x :: x in b ==> !p(x)
    ensures SortBy(Filter(SortBy(a + b, key), p) + b, key) == SortBy(a + b, key)
  {
    var out := SortBy(a + b, key);
    var again := Filter(out, p) + b;
    SortBySorted(a + b, key);
    SortBySorted(again, key);
    forall k
      ensures Filter(SortBy(again, key), KeyIs(key, k)) == Filter(out, KeyIs(key, k))
    {
      SortByStable(again, key, k);
      SortByStable(a + b, key, k);
      RefilterKeepsKeyGroup(a, b, out, key, k, p);
    }
    SortedUnique(SortBy(again, key), out, key);
  }

  /** The elements of one key, before and after the refiltering. */
  lemma RefilterKeepsKeyGroup<T(!new)>(a: seq<T>, b: seq<T>, out: seq<T>, key: T -> int, k: int, p: T -> bool)
    requires forall x :: x in a ==> p(x)
    requires forall x :: x in b ==> !p(x)
    requires Filter(out, KeyIs(key, k)) == Filter(a + b, KeyIs(key, k))
    ensures Filter(Filter(out, p) + b, KeyIs(key, k)) == Filter(out, KeyIs(key, k))
  {
    var q := KeyIs(key, k);
    calc {
      Filter(Filter(out, p) + b, q);
      { FilterAppend(Filter(out, p), b, q); }
      Filter(Filter(out, p), q) + Filter(b, q);
      { FilterCommutes(out, p, q); }
      Filter(Filter(a + b, q), p) + Filter(b, q);
      { FilterAppend(a, b, q); FilterAppend(Filter(a, q), Filter(b, q), p); }
      Filter(Filter(a, q), p) + Filter(Filter(b, q), p) + Filter(b, q);
      { FilterCommutes(a, q, p); FilterAll(a, p); FilterCommutes(b, q, p); FilterNone(b, p); }
      Filter(a, q) + Filter([], q) + Filter(b, q);
      { assert Filter(a, q) + Filter([], q) == Filter(a, q); FilterAppend(a, b, q); }
      Filter(out, q);
    }
  }

  // ---------------------------------------------- the sort by kickoff

  /** The number the comparator subtracts: the kickoff instant, and 0 for an
      unparseable kickoff. */
  function SortKey(m: Match): int {
    match KickoffTime(m)
    case Time(t) => t
    case NaN => 0
  }

  function SortByKickoff(s: seq<Match>): seq<Match> {
    SortBy(s, SortKey)
  }

  /** The result is non-decreasing by kickoff, holds the same records each as
      often, and keeps records with equal kickoff in their order. */
  lemma SortByKickoffCorrect(s: seq<Match>)
    ensures SortedBy(SortByKickoff(s), SortKey)
    ensures multiset(SortByKickoff(s)) == multiset(s) && |SortByKickoff(s)| == |s|
    ensures forall k :: Filter(SortByKickoff(s), KeyIs(SortKey, k)) == Filter(s, KeyIs(SortKey, k))
  {
    SortBySorted(s, SortKey);
    SortByPermutes(s, SortKey);
    forall k
      ensures Filter(SortByKickoff(s), KeyIs(SortKey, k)) == Filter(s, KeyIs(SortKey, k))
    {
      SortByStable(s, SortKey, k);
    }
  }

  /** The sort is the only ordering with those three properties. */
  lemma SortByKickoffUnique(s: seq<Match>, t: seq<Match>)
    requires SortedBy(t, SortKey)
    requires forall k :: Filter(t, KeyIs(SortKey, k)) == Filter(s, KeyIs(SortKey, k))
    ensures t == SortByKickoff(s)
  {
    SortByKickoffCorrect(s);
    SortedUnique(t, SortByKickoff(s), SortKey);
  }

  /** Sorting a sorted list changes nothing. */
  lemma SortByKickoffIdempotent(s: seq<Match>)
    ensures SortByKickoff(SortByKickoff(s)) == SortByKickoff(s)
  {
    var t := SortByKickoff(s);
    SortByKickoffCorrect(s);
    SortByKickoffUnique(t, t);
  }
}
