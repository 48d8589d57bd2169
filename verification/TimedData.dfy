/** Searching and splicing of values ordered by time. */
module TimedData {
  import opened NodeIds

  datatype Timed<V> = Timed(time: int, value: V)

  /** In order, equal times allowed. */
  ghost predicate Sorted<V>(s: seq<Timed<V>>) {
    forall i, j :: 0 <= i < j < |s| ==> s[i].time <= s[j].time
  }

  /** In order without duplicates, upwards or downwards: `IsTimeSorted`, `IsReverseTimeSorted`. */
  ghost predicate Ordered<V>(s: seq<Timed<V>>, forward: bool) {
    forall i, j :: 0 <= i < j < |s| ==> if forward then s[i].time < s[j].time else s[j].time < s[i].time
  }

  // ---------------------------------------------------------------- bounds

  /** The first position whose time is not below `time`. */
  function LowerBound<V>(s: seq<Timed<V>>, time: int): (i: nat)
    ensures i <= |s| && (forall k :: 0 <= k < i ==> s[k].time < time) && (i < |s| ==> time <= s[i].time)
    ensures Sorted(s) ==> forall k :: i <= k < |s| ==> time <= s[k].time
  {
    if s == [] || time <= s[0].time then 0 else 1 + LowerBound(s[1..], time)
  }

  /** The first position whose time is above `time`. */
  function UpperBound<V>(s: seq<Timed<V>>, time: int): (i: nat)
    ensures i <= |s| && (forall k :: 0 <= k < i ==> s[k].time <= time) && (i < |s| ==> time < s[i].time)
    ensures Sorted(s) ==> forall k :: i <= k < |s| ==> time < s[k].time
  {
    if s == [] || time < s[0].time then 0 else 1 + UpperBound(s[1..], time)
  }

  /** The first position whose time is below `time`, going downwards. */
  function ReverseUpperBound<V>(s: seq<Timed<V>>, time: int): (i: nat)
    ensures i <= |s| && (forall k :: 0 <= k < i ==> time <= s[k].time) && (i < |s| ==> s[i].time < time)
    ensures Ordered(s, false) ==> forall k :: i <= k < |s| ==> s[k].time < time
  {
    if s == [] || s[0].time < time then 0 else 1 + ReverseUpperBound(s[1..], time)
  }

  // ---------------------------------------------------------------- splicing

  function Before<V>(s: seq<Timed<V>>, time: int): seq<Timed<V>> {
    if s == [] then [] else (if s[0].time < time then [s[0]] else []) + Before(s[1..], time)
  }

  function After<V>(s: seq<Timed<V>>, time: int): seq<Timed<V>> {
    if s == [] then [] else (if time < s[0].time then [s[0]] else []) + After(s[1..], time)
  }

  /** What replacing the range that the updates span by the updates means. */
  function Spliced<V>(values: seq<Timed<V>>, updates: seq<Timed<V>>): seq<Timed<V>> {
    if updates == [] then values
    else Before(values, updates[0].time) + updates + After(values, updates[|updates| - 1].time)
  }

  lemma {:induction false} BeforeIsPrefix<V>(s: seq<Timed<V>>, time: int)
    requires Sorted(s)
    ensures Before(s, time) == s[..LowerBound(s, time)]
  {
    if s != [] {
      BeforeIsPrefix(s[1..], time);
      if time <= s[0].time {
        NothingBefore(s[1..], time);
      }
    }
  }

  lemma {:induction false} NothingBefore<V>(s: seq<Timed<V>>, time: int)
    requires forall i :: 0 <= i < |s| ==> time <= s[i].time
    ensures Before(s, time) == []
  {
    if s != [] {
      NothingBefore(s[1..], time);
    }
  }

  lemma {:induction false} AfterIsSuffix<V>(s: seq<Timed<V>>, time: int)
    requires Sorted(s)
    ensures After(s, time) == s[UpperBound(s, time)..]
  {
    if s != [] {
      if time < s[0].time {
        AllAfter(s, time);
      } else {
        AfterIsSuffix(s[1..], time);
      }
    }
  }

  lemma {:induction false} AllAfter<V>(s: seq<Timed<V>>, time: int)
    requires forall i :: 0 <= i < |s| ==> time < s[i].time
    ensures After(s, time) == s
  {
    if s != [] {
      AllAfter(s[1..], time);
    }
  }

  /** The bounds between which `ReplaceSubrange` works. */
  lemma SplicedBetween<V>(values: seq<Timed<V>>, updates: seq<Timed<V>>)
    requires Sorted(values) && Sorted(updates) && updates != []
    ensures var low, high := LowerBound(values, updates[0].time), UpperBound(values, updates[|updates| - 1].time);
      low <= high && Spliced(values, updates) == values[..low] + updates + values[high..]
  {
    hide LowerBound, UpperBound, Before, After;
    BeforeIsPrefix(values, updates[0].time);
    AfterIsSuffix(values, updates[|updates| - 1].time);
    BoundsInOrder(values, updates[0].time, updates[|updates| - 1].time);
  }

  lemma BoundsInOrder<V>(values: seq<Timed<V>>, from: int, to: int)
    requires Sorted(values) && from <= to
    ensures LowerBound(values, from) <= UpperBound(values, to)
  {
    hide LowerBound, UpperBound;
  }

  lemma OverwriteStep<V>(was: seq<V>, updates: seq<V>, first: nat, i: nat)
    requires i < |updates| && first + i < |was|
    ensures (was[..first] + updates[..i] + was[first + i..])[first + i := updates[i]]
         == was[..first] + updates[..i + 1] + was[first + i + 1..]
  {
  }

  lemma OverwriteThenInsert<V>(was: seq<V>, updates: seq<V>, first: nat, last: nat)
    requires first <= last <= |was| && last - first < |updates|
    ensures var s := was[..first] + updates[..last - first] + was[last..];
      s[..last] + updates[last - first..] + s[last..] == was[..first] + updates + was[last..]
  {
    assert updates == updates[..last - first] + updates[last - first..];
  }

  lemma OverwriteThenErase<V>(was: seq<V>, updates: seq<V>, first: nat, last: nat)
    requires first <= last <= |was| && |updates| <= last - first
    ensures var s := was[..first] + updates + was[first + |updates|..];
      s[..first + |updates|] + s[last..] == was[..first] + updates + was[last..]
  {
  }

  lemma NothingToSplice<V>(values: seq<Timed<V>>, updates: seq<Timed<V>>)
    ensures updates == [] ==> Spliced(values, updates) == values
  {
  }

  lemma SplicedIsSorted<V>(values: seq<Timed<V>>, updates: seq<Timed<V>>)
    requires Sorted(values) && Sorted(updates)
    ensures Sorted(Spliced(values, updates))
  {
    hide Spliced, LowerBound, UpperBound;
    NothingToSplice(values, updates);
    if updates != [] {
      SplicedBetween(values, updates);
    }
  }

  lemma {:induction false} BeforeHolds<V>(s: seq<Timed<V>>, time: int, x: Timed<V>)
    ensures x in Before(s, time) <==> x in s && x.time < time
  {
    if s != [] {
      BeforeHolds(s[1..], time, x);
    }
  }

  lemma {:induction false} AfterHolds<V>(s: seq<Timed<V>>, time: int, x: Timed<V>)
    ensures x in After(s, time) <==> x in s && time < x.time
  {
    if s != [] {
      AfterHolds(s[1..], time, x);
    }
  }

  /** The result holds the updates and what lies outside their range. */
  lemma SplicedHolds<V>(values: seq<Timed<V>>, updates: seq<Timed<V>>, x: Timed<V>)
    requires Sorted(updates) && updates != []
    ensures x in Spliced(values, updates) <==>
      x in updates || (x in values && !(updates[0].time <= x.time <= updates[|updates| - 1].time))
  {
    BeforeHolds(values, updates[0].time, x);
    AfterHolds(values, updates[|updates| - 1].time, x);
  }

  lemma BeforeOfCons<V>(x: Timed<V>, s: seq<Timed<V>>, time: int)
    ensures Before([x] + s, time) == (if x.time < time then [x] else []) + Before(s, time)
  {
    assert ([x] + s)[1..] == s;
  }

  lemma AfterOfCons<V>(x: Timed<V>, s: seq<Timed<V>>, time: int)
    ensures After([x] + s, time) == (if time < x.time then [x] else []) + After(s, time)
  {
    assert ([x] + s)[1..] == s;
  }

  lemma {:induction false} BeforeOfJoin<V>(a: seq<Timed<V>>, b: seq<Timed<V>>, time: int)
    ensures Before(a + b, time) == Before(a, time) + Before(b, time)
  {
    hide Before;
    if a == [] {
      assert a + b == b;
      BeforeOfNothing<V>(time);
    } else {
      BeforeOfJoin(a[1..], b, time);
      assert a + b == [a[0]] + (a[1..] + b) && a == [a[0]] + a[1..];
      BeforeOfCons(a[0], a[1..] + b, time);
      BeforeOfCons(a[0], a[1..], time);
    }
  }

  lemma BeforeOfNothing<V>(time: int)
    ensures Before<V>([], time) == []
  {
  }

  lemma {:induction false} AfterOfJoin<V>(a: seq<Timed<V>>, b: seq<Timed<V>>, time: int)
    ensures After(a + b, time) == After(a, time) + After(b, time)
  {
    hide After;
    if a == [] {
      assert a + b == b;
      AfterOfNothing<V>(time);
    } else {
      AfterOfJoin(a[1..], b, time);
      assert a + b == [a[0]] + (a[1..] + b) && a == [a[0]] + a[1..];
      AfterOfCons(a[0], a[1..] + b, time);
      AfterOfCons(a[0], a[1..], time);
    }
  }

  lemma AfterOfNothing<V>(time: int)
    ensures After<V>([], time) == []
  {
  }

  lemma {:induction false} BeforeTimes<V>(s: seq<Timed<V>>, time: int)
    ensures forall i :: 0 <= i < |Before(s, time)| ==> Before(s, time)[i].time < time
  {
    if s != [] {
      BeforeTimes(s[1..], time);
    }
  }

  lemma {:induction false} AfterTimes<V>(s: seq<Timed<V>>, time: int)
    ensures forall i :: 0 <= i < |After(s, time)| ==> time < After(s, time)[i].time
  {
    if s != [] {
      AfterTimes(s[1..], time);
    }
  }

  lemma {:induction false} AllBefore<V>(s: seq<Timed<V>>, time: int)
    requires forall i :: 0 <= i < |s| ==> s[i].time < time
    ensures Before(s, time) == s
  {
    if s != [] {
      AllBefore(s[1..], time);
    }
  }

  lemma {:induction false} NothingAfter<V>(s: seq<Timed<V>>, time: int)
    requires forall i :: 0 <= i < |s| ==> s[i].time <= time
    ensures After(s, time) == []
  {
    if s != [] {
      NothingAfter(s[1..], time);
    }
  }

  /** Applying the same updates again changes nothing. */
  lemma SplicedTwice<V>(values: seq<Timed<V>>, updates: seq<Timed<V>>)
    requires Sorted(updates)
    ensures Spliced(Spliced(values, updates), updates) == Spliced(values, updates)
  {
    hide Before, After;
    if updates != [] {
      var first, last := updates[0].time, updates[|updates| - 1].time;
      var low, high := Before(values, first), After(values, last);
      BeforeTimes(values, first);
      AfterTimes(values, last);
      AllBefore(low, first);
      AllAfter(high, last);
      NothingBefore(high, first);
      NothingAfter(low, last);
      NothingBefore(updates, first);
      NothingAfter(updates, last);
      BeforeOfJoin(low + updates, high, first);
      BeforeOfJoin(low, updates, first);
      AfterOfJoin(low + updates, high, last);
      AfterOfJoin(low, updates, last);
    }
  }

  // ---------------------------------------------------------------- inserting a whole batch

  /** `FindInsertPosition` */
  function FindInsertPosition<V>(values: seq<Timed<V>>, from: int, to: int): Option<nat> {
    var i, j := LowerBound(values, from), LowerBound(values, to);
    if i != |values| && values[i].time == from then None
    else if j != |values| && values[j].time == to then None
    else if i != j then None
    else Some(i)
  }

  /** A position is found exactly when no value lies in the range. */
  lemma InsertPositionFound<V>(values: seq<Timed<V>>, from: int, to: int)
    requires Sorted(values) && from <= to
    ensures FindInsertPosition(values, from, to).Some? <==> forall x :: x in values ==> !(from <= x.time <= to)
  {
    var i, j := LowerBound(values, from), LowerBound(values, to);
    LowerBoundRises(values, from, to);
    if i < j {
      assert values[i] in values && from <= values[i].time <= to;
    } else {
      if i < |values| { assert values[i] in values; }
    }
  }

  lemma LowerBoundRises<V>(values: seq<Timed<V>>, from: int, to: int)
    requires from <= to
    ensures LowerBound(values, from) <= LowerBound(values, to)
  {
  }

  /** Inserting a batch at the position found is the splice: the short cut changes nothing. */
  lemma InsertIsSplice<V>(values: seq<Timed<V>>, updates: seq<Timed<V>>)
    requires Sorted(values) && Sorted(updates) && updates != []
    requires FindInsertPosition(values, updates[0].time, updates[|updates| - 1].time).Some?
    ensures var i := FindInsertPosition(values, updates[0].time, updates[|updates| - 1].time).value;
      i <= |values| && values[..i] + updates + values[i..] == Spliced(values, updates)
  {
    var first, last := updates[0].time, updates[|updates| - 1].time;
    var i := LowerBound(values, first);
    SplicedBetween(values, updates);
    InsertPositionFound(values, first, last);
    forall k | i <= k < |values| ensures last < values[k].time {
      assert values[k] in values;
    }
    assert UpperBound(values, last) == i;
  }

  lemma SplicedIsOrdered<V>(values: seq<Timed<V>>, updates: seq<Timed<V>>)
    requires Ordered(values, true) && Ordered(updates, true)
    ensures Ordered(Spliced(values, updates), true)
  {
    hide Spliced, LowerBound, UpperBound;
    NothingToSplice(values, updates);
    if updates != [] {
      SplicedBetween(values, updates);
    }
  }

  // ---------------------------------------------------------------- a raw batch

  /** The first value of the time, if there is one. */
  function First<V>(s: seq<Timed<V>>, time: int): Option<Timed<V>> {
    if s == [] then None else if s[0].time == time then Some(s[0]) else First(s[1..], time)
  }

  /** `std::erase_if` of the values without a time. */
  function Timely<V>(s: seq<Timed<V>>, never: int): (r: seq<Timed<V>>)
    ensures forall i :: 0 <= i < |r| ==> r[i].time != never && r[i] in s
  {
    if s == [] then [] else (if s[0].time == never then [] else [s[0]]) + Timely(s[1..], never)
  }

  /** After all that are not later, so that equal times stay in order. */
  function Inserted<V>(s: seq<Timed<V>>, x: Timed<V>): seq<Timed<V>> {
    var i := UpperBound(s, x.time);
    s[..i] + [x] + s[i..]
  }

  /** `std::ranges::stable_sort` by time */
  function StableSorted<V>(s: seq<Timed<V>>): (r: seq<Timed<V>>)
    ensures Sorted(r)
  {
    if s == [] then [] else Inserted(StableSorted(s[..|s| - 1]), s[|s| - 1])
  }

  /** `std::ranges::unique` by time */
  function Unique<V>(s: seq<Timed<V>>): (r: seq<Timed<V>>)
    ensures if s == [] then r == [] else r != [] && r[0] == s[0]
    ensures Sorted(s) ==> Ordered(r, true) && forall i :: 0 <= i < |r| ==> s[0].time <= r[i].time
    decreases |s|
  {
    if |s| < 2 then s
    else if s[0].time == s[1].time then Unique([s[0]] + s[2..])
    else [s[0]] + Unique(s[1..])
  }

  /** The batch as it is used: values without a time dropped, the others sorted, and of each time the
      first only. */
  function Sanitized<V>(batch: seq<Timed<V>>, never: int): (r: seq<Timed<V>>)
    ensures Ordered(r, true)
  {
    Unique(StableSorted(Timely(batch, never)))
  }

  lemma {:induction false} FirstOfJoin<V>(a: seq<Timed<V>>, b: seq<Timed<V>>, time: int)
    ensures First(a + b, time) == if First(a, time).Some? then First(a, time) else First(b, time)
  {
    if a == [] {
      assert a + b == b;
    } else {
      FirstOfJoin(a[1..], b, time);
      assert (a + b)[1..] == a[1..] + b;
    }
  }

  lemma {:induction false} NoFirst<V>(s: seq<Timed<V>>, time: int)
    requires forall i :: 0 <= i < |s| ==> s[i].time != time
    ensures First(s, time).None?
  {
    if s != [] {
      NoFirst(s[1..], time);
    }
  }

  lemma {:induction false} TimelyFirst<V>(s: seq<Timed<V>>, never: int, time: int)
    ensures First(Timely(s, never), time) == if time == never then None else First(s, time)
  {
    if s != [] {
      TimelyFirst(s[1..], never, time);
      FirstOfJoin(if s[0].time == never then [] else [s[0]], Timely(s[1..], never), time);
    }
  }

  lemma InsertedFirst<V>(s: seq<Timed<V>>, x: Timed<V>, time: int)
    requires Sorted(s)
    ensures First(Inserted(s, x), time) == First(s + [x], time)
  {
    hide First, UpperBound;
    var i := UpperBound(s, x.time);
    var low, high := s[..i], s[i..];
    assert s == low + high && Inserted(s, x) == low + ([x] + high);
    FirstOfJoin(low, [x] + high, time);
    FirstOfJoin([x], high, time);
    FirstOfJoin(s, [x], time);
    FirstOfJoin(low, high, time);
    if time == x.time {
      NoFirst(high, time);
    } else {
      NoFirst([x], time);
    }
  }

  lemma {:induction false} StableSortedFirst<V>(s: seq<Timed<V>>, time: int)
    ensures First(StableSorted(s), time) == First(s, time)
  {
    if s != [] {
      var init, last := s[..|s| - 1], s[|s| - 1];
      assert s == init + [last];
      StableSortedFirst(init, time);
      InsertedFirst(StableSorted(init), last, time);
      FirstOfJoin(StableSorted(init), [last], time);
      FirstOfJoin(init, [last], time);
    }
  }

  lemma {:induction false} UniqueFirst<V>(s: seq<Timed<V>>, time: int)
    ensures First(Unique(s), time) == First(s, time)
    decreases |s|
  {
    if |s| >= 2 {
      if s[0].time == s[1].time {
        var less := [s[0]] + s[2..];
        UniqueFirst(less, time);
        assert less[1..] == s[1..][1..];
      } else {
        UniqueFirst(s[1..], time);
        assert Unique(s)[1..] == Unique(s[1..]);
      }
    }
  }

  lemma {:induction false} FirstOfOrdered<V>(s: seq<Timed<V>>, x: Timed<V>)
    requires Ordered(s, true)
    ensures x in s <==> First(s, x.time) == Some(x)
  {
    if s != [] {
      FirstOfOrdered(s[1..], x);
      assert x in s <==> x == s[0] || x in s[1..];
    }
  }

  /** Whatever order and repetition the batch comes in, what is used of it is the first value of each
      time there is. */
  lemma SanitizedHolds<V>(batch: seq<Timed<V>>, never: int, x: Timed<V>)
    ensures x in Sanitized(batch, never) <==> x.time != never && First(batch, x.time) == Some(x)
  {
    FirstOfOrdered(Sanitized(batch, never), x);
    UniqueFirst(StableSorted(Timely(batch, never)), x.time);
    StableSortedFirst(Timely(batch, never), x.time);
    TimelyFirst(batch, never, x.time);
  }

  /** `IsTimeSorted`, between neighbours */
  predicate IsTimeSorted<V>(s: seq<Timed<V>>) {
    forall i :: 0 <= i < |s| - 1 ==> s[i].time < s[i + 1].time
  }

  lemma {:induction false} TimeSortedIsOrdered<V>(s: seq<Timed<V>>)
    ensures IsTimeSorted(s) <==> Ordered(s, true)
  {
    if s != [] && IsTimeSorted(s) {
      var init := s[..|s| - 1];
      TimeSortedIsOrdered(init);
      assert |s| > 1 ==> s[|s| - 2].time < s[|s| - 2 + 1].time && init[|init| - 1] == s[|s| - 2];
    }
  }

  /** A batch in order that does not begin with a value without a time is used as it is. */
  lemma {:induction false} OrderedIsSanitized<V>(batch: seq<Timed<V>>, never: int)
    requires Ordered(batch, true) && forall i :: 0 <= i < |batch| ==> never <= batch[i].time
    requires batch != [] ==> batch[0].time != never
    ensures Sanitized(batch, never) == batch
  {
    AllTimely(batch, never);
    StableSortedKeeps(batch);
    UniqueKeeps(batch);
  }

  lemma {:induction false} AllTimely<V>(s: seq<Timed<V>>, never: int)
    requires forall i :: 0 <= i < |s| ==> never < s[i].time
    ensures Timely(s, never) == s
  {
    if s != [] {
      AllTimely(s[1..], never);
    }
  }

  lemma {:induction false} StableSortedKeeps<V>(s: seq<Timed<V>>)
    requires Ordered(s, true)
    ensures StableSorted(s) == s
  {
    if s != [] {
      var init, last := s[..|s| - 1], s[|s| - 1];
      StableSortedKeeps(init);
      InsertedAtEnd(init, last);
      assert s == init + [last];
    }
  }

  lemma InsertedAtEnd<V>(s: seq<Timed<V>>, x: Timed<V>)
    requires forall i :: 0 <= i < |s| ==> s[i].time <= x.time
    ensures Inserted(s, x) == s + [x]
  {
    hide UpperBound;
  }

  lemma {:induction false} UniqueKeeps<V>(s: seq<Timed<V>>)
    requires Ordered(s, true)
    ensures Unique(s) == s
  {
    if |s| >= 2 {
      UniqueKeeps(s[1..]);
    }
  }

  // ---------------------------------------------------------------- the buffer

  class Series<V> {
    var values: seq<Timed<V>>

    constructor (values: seq<Timed<V>>)
      ensures this.values == values
    {
      this.values := values;
    }

    /** Copies the source over the values from `at` on. */
    method Overwrite(source: seq<Timed<V>>, at: nat)
      requires at + |source| <= |values|
      modifies this
      ensures values == old(values)[..at] + source + old(values)[at + |source|..]
    {
      ghost var was := values;
      assert was == was[..at] + source[..0] + was[at..];
      for i := 0 to |source|
        invariant values == was[..at] + source[..i] + was[at + i..]
      {
        OverwriteStep(was, source, at, i);
        values := values[at + i := source[i]];
      }
      assert source[..|source|] == source;
    }

    /** `ReplaceSubrange`: overwrites what it can in place, and inserts or erases the difference. */
    method ReplaceSubrange(updates: seq<Timed<V>>)
      requires Sorted(values) && Sorted(updates)
      modifies this
      ensures values == Spliced(old(values), updates) && Sorted(values)
    {
      hide LowerBound, UpperBound, Sorted, Spliced;
      SplicedIsSorted(values, updates);
      NothingToSplice(values, updates);
      if updates == [] {
        return;
      }
      SplicedBetween(values, updates);
      var first := LowerBound(values, updates[0].time);
      var last := UpperBound(values, updates[|updates| - 1].time);
      var count := last - first;
      var copyCount := if count < |updates| then count else |updates|;
      ghost var was := values;
      Overwrite(updates[..copyCount], first);
      if count < |updates| {
        OverwriteThenInsert(was, updates, first, last);
        values := values[..last] + updates[copyCount..] + values[last..];
      } else {
        OverwriteThenErase(was, updates, first, last);
        assert updates[..copyCount] == updates;
        values := values[..first + copyCount] + values[last..];
      }
    }

    /** `ReplaceRange`: any batch. It is used as it is where it is in order, and inserted whole where it
        overlaps nothing. No time is below `never`, which stands for no time. */
    method ReplaceRange(raw: seq<Timed<V>>, never: int)
      requires Ordered(values, true) && forall i :: 0 <= i < |raw| ==> never <= raw[i].time
      modifies this
      ensures values == Spliced(old(values), Sanitized(raw, never)) && Ordered(values, true)
    {
      hide Sanitized;
      var batch := raw;
      TimeSortedIsOrdered(raw);
      if (raw != [] && raw[0].time == never) || !IsTimeSorted(raw) {
        batch := Sanitized(raw, never);
      } else {
        OrderedIsSanitized(raw, never);
      }
      SplicedIsOrdered(values, batch);
      if batch == [] {
        return;
      }
      var i := FindInsertPosition(values, batch[0].time, batch[|batch| - 1].time);
      if i.Some? {
        InsertIsSplice(values, batch);
        values := values[..i.value] + batch + values[i.value..];
      } else {
        ReplaceSubrange(batch);
      }
    }
  }
}
