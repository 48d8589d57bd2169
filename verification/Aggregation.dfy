/** Streaming aggregation of time-ordered samples over aligned intervals. */
module Aggregation {
  import opened NodeIds
  import opened TimedData

  // ---------------------------------------------------------------- intervals

  datatype Interval = Interval(first: int, second: int)

  /** `GetAggregateInterval`; what is divided is not negative, so neither is the remainder, whatever the
      sign of the width. */
  function GetAggregateInterval(time: int, origin: int, width: int): (r: Interval)
    ensures 0 <= width ==> time <= r.second
    ensures 0 < width ==> time < r.second
    ensures width < 0 ==> (time <= r.second <==> time <= origin + width)
    ensures r.first <= time <==> origin <= time || width == 0
    ensures r.second == r.first + width
  {
    if width == 0 then Interval(time, time)
    else if time < origin then Interval(origin, origin + width)
    else
      var delta := time - origin;
      var aligned := delta - delta % width;
      Interval(origin + aligned, origin + aligned + width)
  }

  lemma AlignedUnique(a: nat, b: nat, width: nat)
    requires 0 < width && a - a % width <= b < a - a % width + width
    ensures b - b % width == a - a % width
  {
    var q := a / width;
    assert a - a % width == q * width;
    assert b / width == q by {
      assert q * width <= b < q * width + width;
      DivisionUnique(b, width, q);
    }
  }

  lemma DivisionUnique(b: nat, width: nat, q: nat)
    requires 0 < width && q * width <= b < q * width + width
    ensures b / width == q
  {
    var r := b / width;
    assert r * width <= b < r * width + width;
    if r < q {
      ProductRises(r + 1, q, width);
    } else if q < r {
      ProductRises(q + 1, r, width);
    }
  }

  lemma ProductRises(a: nat, b: nat, width: nat)
    requires a <= b
    ensures a * width <= b * width
  {
  }

  /** A later time lies in the same interval exactly when it is before the interval's end. */
  lemma SameIntervalLater(a: int, b: int, origin: int, width: int)
    requires 0 < width && a <= b
    ensures GetAggregateInterval(a, origin, width) == GetAggregateInterval(b, origin, width)
      <==> b < GetAggregateInterval(a, origin, width).second
    ensures GetAggregateInterval(a, origin, width).first <= GetAggregateInterval(b, origin, width).first
  {
    var ia := GetAggregateInterval(a, origin, width);
    if b < ia.second && origin <= b {
      if origin <= a {
        AlignedUnique(a - origin, b - origin, width);
      } else {
        AlignedUnique(0, b - origin, width);
      }
    }
  }

  lemma ModuloNegative(a: nat, width: int)
    requires width < 0
    ensures a % width == a % -width
  {
    var q, m := -(a / width), a % width;
    assert a == q * -width + m;
    DivisionUnique(a, -width, q);
  }

  /** A negative width aligns as its absolute value does, and the interval lies before its start. */
  lemma NegativeWidth(time: int, origin: int, width: int)
    requires width < 0
    ensures GetAggregateInterval(time, origin, width).first == GetAggregateInterval(time, origin, -width).first
  {
    if origin <= time {
      ModuloNegative(time - origin, width);
    }
  }

  /** From the origin on, intervals begin a whole number of widths after it. */
  lemma OnTheGrid(time: int, origin: int, width: int) returns (k: int)
    requires width != 0 && origin <= time
    ensures GetAggregateInterval(time, origin, width).first == origin + k * width
  {
    k := (time - origin) / width;
  }

  /** Of any width: intervals that differ begin one after the other. */
  lemma IntervalsRise(a: int, b: int, origin: int, width: int)
    requires a <= b
    ensures var ia, ib := GetAggregateInterval(a, origin, width), GetAggregateInterval(b, origin, width);
      ia.first <= ib.first && (ia != ib ==> ia.first < ib.first)
  {
    if width > 0 {
      SameIntervalLater(a, b, origin, width);
    } else if width < 0 {
      NegativeWidth(a, origin, width);
      NegativeWidth(b, origin, width);
      SameIntervalLater(a, b, origin, -width);
    }
  }

  // ---------------------------------------------------------------- aggregates of a group

  /** A value as `Variant::get` of a double sees it. */
  datatype Value = Number(x: real) | Counted(n: nat) | Unconvertible(tag: int) {
    function AsDouble(): Option<real> {
      match this
      case Number(x) => Some(x)
      case Counted(n) => Some(n as real)
      case Unconvertible(_) => None
    }
  }

  datatype Reading = Reading(value: Value, qualifier: nat)

  type Sample = Timed<Reading>

  /** A value with its source and server time, which are the ends of the interval. */
  datatype DataValue = DataValue(value: Value, qualifier: nat, interval: Interval)

  datatype Aggregate = Total | Average | Count | Start | End

  /** `AggregateFilter`, with the direction of the stream; `None` is a function that is not known. */
  datatype Filter = Filter(aggregate: Option<Aggregate>, origin: int, width: int, forward: bool) {
    function IntervalOf(time: int): Interval {
      GetAggregateInterval(time, origin, width)
    }
  }

  function Sum(samples: seq<Sample>): real {
    if samples == [] then 0.0
    else
      var last := samples[|samples| - 1].value.value.AsDouble();
      Sum(samples[..|samples| - 1]) + if last.Some? then last.value else 0.0
  }

  lemma {:induction false} SumOfJoin(a: seq<Sample>, b: seq<Sample>)
    ensures Sum(a + b) == Sum(a) + Sum(b)
  {
    if b == [] {
      assert a + b == a;
    } else {
      SumOfJoin(a, b[..|b| - 1]);
      assert (a + b)[..|a + b| - 1] == a + b[..|b| - 1];
    }
  }

  /** What an aggregate says of all samples of an interval, however they came in. */
  function Summary(aggregate: Aggregate, forward: bool, interval: Interval, samples: seq<Sample>): DataValue
    requires samples != []
  {
    var front, back := samples[0].value, samples[|samples| - 1].value;
    match aggregate
    case Total => DataValue(Number(Sum(samples)), 0, interval)
    case Average => DataValue(Number(Sum(samples) / |samples| as real), 0, interval)
    case Count => DataValue(Counted(|samples|), 0, interval)
    case Start => var s := if forward then front else back; DataValue(s.value, s.qualifier, interval)
    case End => var s := if forward then back else front; DataValue(s.value, s.qualifier, interval)
  }

  /** One sample counts as the number its value converts to, if any; with the sum of parts this says what
      a sum is. */
  lemma SumOfOne(s: Sample)
    ensures Sum([]) == 0.0
    ensures Sum([s]) ==
      match s.value.value { case Number(x) => x case Counted(n) => n as real case Unconvertible(_) => 0.0 }
  {
    assert [s][..0] == [];
  }

  /** What the value says of the samples of the interval, whichever way they came in. */
  ghost predicate Tells(aggregate: Aggregate, v: DataValue, interval: Interval, samples: seq<Sample>) {
    && v.interval == interval
    && match aggregate
       case Total => v.value == Number(Sum(samples)) && v.qualifier == 0
       case Average => v.value.Number? && v.value.x * |samples| as real == Sum(samples) && v.qualifier == 0
       case Count => v.value == Counted(|samples|) && v.qualifier == 0
       case Start => exists i :: 0 <= i < |samples| && IsEarliest(samples, i) && IsOf(v, samples[i].value)
       case End => exists i :: 0 <= i < |samples| && IsLatest(samples, i) && IsOf(v, samples[i].value)
  }

  ghost predicate IsEarliest(samples: seq<Sample>, i: nat)
    requires i < |samples|
  {
    forall j :: 0 <= j < |samples| ==> samples[i].time <= samples[j].time
  }

  ghost predicate IsLatest(samples: seq<Sample>, i: nat)
    requires i < |samples|
  {
    forall j :: 0 <= j < |samples| ==> samples[j].time <= samples[i].time
  }

  predicate IsOf(v: DataValue, reading: Reading) {
    v.value == reading.value && v.qualifier == reading.qualifier
  }

  /** The aggregate depends on the order of the samples. */
  predicate TakesOne(aggregate: Aggregate) {
    aggregate.Start? || aggregate.End?
  }

  /** In either direction the start is the sample of the least time, and the end that of the greatest. */
  lemma SummaryTells(aggregate: Aggregate, forward: bool, interval: Interval, samples: seq<Sample>)
    requires samples != [] && (TakesOne(aggregate) ==> Ordered(samples, forward))
    ensures Tells(aggregate, Summary(aggregate, forward, interval, samples), interval, samples)
  {
    var v, last := Summary(aggregate, forward, interval, samples), |samples| - 1;
    if aggregate.Start? {
      var i := if forward then 0 else last;
      assert IsEarliest(samples, i) && IsOf(v, samples[i].value);
    } else if aggregate.End? {
      var i := if forward then last else 0;
      assert IsLatest(samples, i) && IsOf(v, samples[i].value);
    }
  }

  /** `CalculateTotal` */
  method CalculateTotal(samples: seq<Sample>) returns (total: real)
    ensures total == Sum(samples)
  {
    total := 0.0;
    for i := 0 to |samples|
      invariant total == Sum(samples[..i])
    {
      assert samples[..i + 1][..i] == samples[..i];
      var number := samples[i].value.value.AsDouble();
      if number.Some? {
        total := total + number.value;
      }
    }
    assert samples[..|samples|] == samples;
  }

  /** The closure that `GetAggregator` makes, with what it keeps between calls. */
  class Aggregator {
    const aggregate: Aggregate
    const interval: Interval
    const forward: bool
    var total: real
    var count: nat
    var start: Option<Reading>
    ghost var taken: seq<Sample>

    ghost predicate Valid()
      reads this
    {
      && (aggregate.Total? || aggregate.Average? ==> total == Sum(taken))
      && (aggregate.Average? || aggregate.Count? ==> count == |taken|)
      && (KeepsFront() ==> start == if taken == [] then None else Some(taken[0].value))
    }

    predicate KeepsFront() {
      if forward then aggregate.Start? else aggregate.End?
    }

    constructor (aggregate: Aggregate, interval: Interval, forward: bool)
      ensures Valid() && taken == []
      ensures this.aggregate == aggregate && this.interval == interval && this.forward == forward
    {
      this.aggregate, this.interval, this.forward := aggregate, interval, forward;
      total, count, start, taken := 0.0, 0, None, [];
    }

    method Run(samples: seq<Sample>) returns (r: DataValue)
      requires Valid() && samples != []
      modifies this
      ensures Valid() && taken == old(taken) + samples
      ensures r == Summary(aggregate, forward, interval, taken)
      ensures (TakesOne(aggregate) ==> Ordered(taken, forward)) ==> Tells(aggregate, r, interval, taken)
    {
      hide Tells, Ordered;
      if TakesOne(aggregate) ==> Ordered(taken + samples, forward) {
        SummaryTells(aggregate, forward, interval, taken + samples);
      }
      SumOfJoin(taken, samples);
      taken := taken + samples;
      if aggregate.Total? {
        var more := CalculateTotal(samples);
        total := total + more;
        r := DataValue(Number(total), 0, interval);
      } else if aggregate.Average? {
        var more := CalculateTotal(samples);
        total := total + more;
        count := count + |samples|;
        r := DataValue(Number(total / count as real), 0, interval);
      } else if aggregate.Count? {
        count := count + |samples|;
        r := DataValue(Counted(count), 0, interval);
      } else if KeepsFront() {
        if start.None? {
          start := Some(samples[0].value);
        }
        r := DataValue(start.value.value, start.value.qualifier, interval);
      } else {
        var last := samples[|samples| - 1].value;
        r := DataValue(last.value, last.qualifier, interval);
      }
    }
  }

  // ---------------------------------------------------------------- groups

  /** The samples that one aggregator has been given. */
  datatype Group = Group(interval: Interval, samples: seq<Sample>)

  /** Samples of the interval of the last group join it, others begin a group. */
  function Join(groups: seq<Group>, interval: Interval, part: seq<Sample>): seq<Group> {
    if groups != [] && groups[|groups| - 1].interval == interval then
      groups[..|groups| - 1] + [Group(interval, groups[|groups| - 1].samples + part)]
    else
      groups + [Group(interval, part)]
  }

  /** How many samples at the front of the chunk go to the aggregator together. */
  function Leading(f: Filter, chunk: seq<Sample>): (k: nat)
    requires chunk != []
    ensures k <= |chunk|
  {
    var interval := f.IntervalOf(chunk[0].time);
    if f.forward then UpperBound(chunk, interval.second) else ReverseUpperBound(chunk, interval.first)
  }

  /** The sample can be aggregated: downwards the stream must not go below the origin, and upwards with
      a negative width it must not come near it. */
  predicate InRange(f: Filter, time: int) {
    if f.forward then 0 <= f.width || time <= f.origin + f.width else f.width == 0 || f.origin <= time
  }

  ghost predicate AllInRange(f: Filter, chunk: seq<Sample>) {
    forall i :: 0 <= i < |chunk| ==> InRange(f, chunk[i].time)
  }

  /** The check on the number of leading samples fails exactly for a sample out of range. */
  lemma LeadingCheck(f: Filter, chunk: seq<Sample>)
    requires chunk != []
    ensures Leading(f, chunk) != 0 <==> InRange(f, chunk[0].time)
  {
  }

  /** What processing a chunk makes of the groups. */
  ghost function Absorb(f: Filter, groups: seq<Group>, chunk: seq<Sample>): seq<Group>
    requires AllInRange(f, chunk)
    decreases |chunk|
  {
    if chunk == [] then groups
    else
      var k := Leading(f, chunk);
      LeadingCheck(f, chunk);
      Absorb(f, Join(groups, f.IntervalOf(chunk[0].time), chunk[..k]), chunk[k..])
  }

  /** The reference: each sample joins the samples before it that lie in the same aligned interval. */
  function Aligned(f: Filter, samples: seq<Sample>): seq<Group> {
    if samples == [] then []
    else
      var last := samples[|samples| - 1];
      Join(Aligned(f, samples[..|samples| - 1]), f.IntervalOf(last.time), [last])
  }

  // ---------------------------------------------------------------- chunks against the reference

  /** Every sample lies in its group's interval. */
  ghost predicate Fits(f: Filter, groups: seq<Group>) {
    forall i, k :: 0 <= i < |groups| && 0 <= k < |groups[i].samples| ==>
      f.IntervalOf(groups[i].samples[k].time) == groups[i].interval
  }

  ghost predicate PartFits(f: Filter, interval: Interval, part: seq<Sample>) {
    forall k :: 0 <= k < |part| ==> f.IntervalOf(part[k].time) == interval
  }

  /** Upwards, no sample of the chunk lies on the end of the interval of an earlier one. */
  ghost predicate Clean(f: Filter, chunk: seq<Sample>) {
    f.forward && 0 <= f.width ==>
      forall i, j :: 0 <= i < j < |chunk| ==> chunk[j].time != f.IntervalOf(chunk[i].time).second
  }

  lemma FitsJoin(f: Filter, groups: seq<Group>, interval: Interval, part: seq<Sample>)
    ensures Fits(f, Join(groups, interval, part)) <==> Fits(f, groups) && PartFits(f, interval, part)
  {
    var joined := Join(groups, interval, part);
    if groups != [] && groups[|groups| - 1].interval == interval {
      var last := groups[|groups| - 1].samples;
      assert joined[|groups| - 1].samples == last + part;
      forall k | 0 <= k < |part| ensures (last + part)[|last| + k] == part[k] {}
      forall k | 0 <= k < |last| ensures (last + part)[k] == last[k] {}
    } else {
      assert joined[|groups|].samples == part;
    }
    if Fits(f, joined) {
      forall i, k | 0 <= i < |groups| && 0 <= k < |groups[i].samples|
        ensures f.IntervalOf(groups[i].samples[k].time) == groups[i].interval
      {
        assert joined[i].samples[k] == groups[i].samples[k];
      }
    }
  }

  /** The leading samples lie in one interval exactly when none of them is on its end. */
  lemma LeadingFits(f: Filter, chunk: seq<Sample>)
    requires chunk != [] && Ordered(chunk, f.forward) && AllInRange(f, chunk)
    ensures PartFits(f, f.IntervalOf(chunk[0].time), chunk[..Leading(f, chunk)]) <==>
      (f.forward && 0 <= f.width ==>
        forall j :: 0 < j < |chunk| ==> chunk[j].time != f.IntervalOf(chunk[0].time).second)
  {
    var interval, k := f.IntervalOf(chunk[0].time), Leading(f, chunk);
    forall j | 0 < j < k ensures f.IntervalOf(chunk[j].time) == interval
      <==> (f.forward && 0 <= f.width ==> chunk[j].time != interval.second)
    {
      if !f.forward && f.width != 0 {
        BackInto(f, chunk[0].time, chunk[j].time);
      } else if f.width > 0 {
        SameIntervalLater(chunk[0].time, chunk[j].time, f.origin, f.width);
      }
    }
    assert f.forward ==> Sorted(chunk);
  }

  /** Downwards, a time not below the start of the interval lies in it. */
  lemma BackInto(f: Filter, from: int, to: int)
    requires f.width != 0 && to <= from && f.origin <= to
    ensures f.IntervalOf(from).first <= to <==> f.IntervalOf(to) == f.IntervalOf(from)
  {
    var width := if f.width > 0 then f.width else -f.width;
    if f.width < 0 {
      NegativeWidth(from, f.origin, f.width);
      NegativeWidth(to, f.origin, f.width);
    }
    if f.IntervalOf(from).first <= to {
      AlignedUnique(from - f.origin, to - f.origin, width);
    }
  }

  /** A chunk is clean when its leading samples fit and the rest is clean. */
  lemma CleanParts(f: Filter, chunk: seq<Sample>)
    requires chunk != [] && Ordered(chunk, f.forward) && AllInRange(f, chunk)
    ensures Clean(f, chunk) <==>
      PartFits(f, f.IntervalOf(chunk[0].time), chunk[..Leading(f, chunk)]) && Clean(f, chunk[Leading(f, chunk)..])
  {
    LeadingFits(f, chunk);
    var interval, k := f.IntervalOf(chunk[0].time), Leading(f, chunk);
    if f.forward && 0 <= f.width {
      assert Sorted(chunk);
      var rest := chunk[k..];
      assert forall i :: k <= i < |chunk| ==> chunk[i] == rest[i - k];
      if Clean(f, rest) && PartFits(f, interval, chunk[..k]) {
        forall i, j | 0 <= i < j < |chunk| ensures chunk[j].time != f.IntervalOf(chunk[i].time).second {
          if i < k {
            assert chunk[..k][i] == chunk[i];
          } else {
            assert rest[j - k].time != f.IntervalOf(rest[i - k].time).second;
          }
        }
      }
      if Clean(f, chunk) {
        forall i, j | 0 <= i < j < |rest| ensures rest[j].time != f.IntervalOf(rest[i].time).second {
          assert rest[i] == chunk[k + i] && rest[j] == chunk[k + j];
        }
      }
    }
  }

  /** All samples end in the group of their interval exactly when the chunk is clean. */
  lemma {:induction false} AbsorbFits(f: Filter, groups: seq<Group>, chunk: seq<Sample>)
    requires Ordered(chunk, f.forward) && AllInRange(f, chunk)
    ensures Fits(f, Absorb(f, groups, chunk)) <==> Fits(f, groups) && Clean(f, chunk)
    decreases |chunk|
  {
    if chunk != [] {
      var k, interval := Leading(f, chunk), f.IntervalOf(chunk[0].time);
      LeadingCheck(f, chunk);
      CleanParts(f, chunk);
      FitsJoin(f, groups, interval, chunk[..k]);
      AbsorbFits(f, Join(groups, interval, chunk[..k]), chunk[k..]);
    }
  }

  lemma {:induction false} AlignedFits(f: Filter, samples: seq<Sample>)
    ensures Fits(f, Aligned(f, samples))
  {
    if samples != [] {
      var last := samples[|samples| - 1];
      AlignedFits(f, samples[..|samples| - 1]);
      FitsJoin(f, Aligned(f, samples[..|samples| - 1]), f.IntervalOf(last.time), [last]);
    }
  }

  lemma JoinTwice(groups: seq<Group>, interval: Interval, a: seq<Sample>, b: seq<Sample>)
    ensures Join(Join(groups, interval, a), interval, b) == Join(groups, interval, a + b)
  {
    if groups != [] && groups[|groups| - 1].interval == interval {
      assert groups[|groups| - 1].samples + a + b == groups[|groups| - 1].samples + (a + b);
    }
  }

  /** A run of samples of one interval joins the reference at once. */
  lemma {:induction false} AlignedRun(f: Filter, done: seq<Sample>, interval: Interval, part: seq<Sample>)
    requires part != [] && PartFits(f, interval, part)
    ensures Aligned(f, done + part) == Join(Aligned(f, done), interval, part)
    decreases |part|
  {
    var init, last := part[..|part| - 1], part[|part| - 1];
    assert (done + part)[..|done + part| - 1] == done + init;
    assert (done + part)[|done + part| - 1] == last;
    assert part == init + [last];
    if init == [] {
      assert done + init == done;
    } else {
      assert PartFits(f, interval, init) by {
        assert forall k :: 0 <= k < |init| ==> init[k] == part[k];
      }
      AlignedRun(f, done, interval, init);
      JoinTwice(Aligned(f, done), interval, init, [last]);
    }
  }

  /** A clean chunk continues the reference. */
  lemma {:induction false} AbsorbIsAligned(f: Filter, done: seq<Sample>, chunk: seq<Sample>)
    requires Ordered(chunk, f.forward) && AllInRange(f, chunk) && Clean(f, chunk)
    ensures Absorb(f, Aligned(f, done), chunk) == Aligned(f, done + chunk)
    decreases |chunk|
  {
    hide Aligned, Join, Clean, PartFits, Leading, Filter.IntervalOf;
    if chunk == [] {
      assert done + chunk == done;
    } else {
      var k := Leading(f, chunk);
      LeadingCheck(f, chunk);
      CleanParts(f, chunk);
      AlignedRun(f, done, f.IntervalOf(chunk[0].time), chunk[..k]);
      AbsorbIsAligned(f, done + chunk[..k], chunk[k..]);
      assert done + chunk[..k] + chunk[k..] == done + chunk;
    }
  }

  function Flatten(chunks: seq<seq<Sample>>): seq<Sample> {
    if chunks == [] then [] else Flatten(chunks[..|chunks| - 1]) + chunks[|chunks| - 1]
  }

  /** The chunks are time-ordered and in range, each of them and one after the other. */
  ghost predicate Stream(f: Filter, chunks: seq<seq<Sample>>) {
    Ordered(Flatten(chunks), f.forward) && AllInRange(f, Flatten(chunks))
  }

  lemma StreamParts(f: Filter, chunks: seq<seq<Sample>>)
    requires Stream(f, chunks) && chunks != []
    ensures Stream(f, chunks[..|chunks| - 1])
    ensures Ordered(chunks[|chunks| - 1], f.forward) && AllInRange(f, chunks[|chunks| - 1])
  {
    var init, last := Flatten(chunks[..|chunks| - 1]), chunks[|chunks| - 1];
    assert forall i :: 0 <= i < |init| ==> init[i] == Flatten(chunks)[i];
    assert forall i :: 0 <= i < |last| ==> last[i] == Flatten(chunks)[|init| + i];
  }

  /** The groups after processing the chunks one after the other. */
  ghost function Fed(f: Filter, chunks: seq<seq<Sample>>): seq<Group>
    requires Stream(f, chunks)
    decreases |chunks|
  {
    if chunks == [] then []
    else
      StreamParts(f, chunks);
      Absorb(f, Fed(f, chunks[..|chunks| - 1]), chunks[|chunks| - 1])
  }

  ghost predicate AllClean(f: Filter, chunks: seq<seq<Sample>>) {
    forall i :: 0 <= i < |chunks| ==> Clean(f, chunks[i])
  }

  lemma {:induction false} FedFits(f: Filter, chunks: seq<seq<Sample>>)
    requires Stream(f, chunks)
    ensures Fits(f, Fed(f, chunks)) <==> AllClean(f, chunks)
    decreases |chunks|
  {
    if chunks != [] {
      var init, last := chunks[..|chunks| - 1], chunks[|chunks| - 1];
      StreamParts(f, chunks);
      FedFits(f, init);
      AbsorbFits(f, Fed(f, init), last);
      assert chunks == init + [last];
    }
  }

  lemma {:induction false} FedIsAligned(f: Filter, chunks: seq<seq<Sample>>)
    requires Stream(f, chunks) && AllClean(f, chunks)
    ensures Fed(f, chunks) == Aligned(f, Flatten(chunks))
    decreases |chunks|
  {
    if chunks != [] {
      var init, last := chunks[..|chunks| - 1], chunks[|chunks| - 1];
      StreamParts(f, chunks);
      FedIsAligned(f, init);
      AbsorbIsAligned(f, Flatten(init), last);
    }
  }

  /** The central promise and its exact limit: how the stream is cut into chunks does not matter,
      unless upwards a chunk holds a sample on the end of the interval of an earlier one. */
  lemma ChunksDoNotMatter(f: Filter, chunks: seq<seq<Sample>>)
    requires Stream(f, chunks)
    ensures Fed(f, chunks) == Aligned(f, Flatten(chunks)) <==> AllClean(f, chunks)
    ensures !f.forward ==> AllClean(f, chunks)
  {
    FedFits(f, chunks);
    AlignedFits(f, Flatten(chunks));
    if AllClean(f, chunks) {
      FedIsAligned(f, chunks);
    }
  }

  /** One chunk or two: a sample on an interval's end goes with the earlier or the later interval. */
  lemma ChunkMatters()
    ensures var f := Filter(Some(Count), 0, 10, true);
      var a, b := Timed(5, Reading(Number(1.0), 0)), Timed(10, Reading(Number(2.0), 0));
      Stream(f, [[a, b]]) && Stream(f, [[a], [b]]) && Fed(f, [[a, b]]) != Fed(f, [[a], [b]])
  {
    OneChunkOrTwo(Filter(Some(Count), 0, 10, true), Timed(5, Reading(Number(1.0), 0)),
                  Timed(10, Reading(Number(2.0), 0)));
  }

  lemma OneChunkOrTwo(f: Filter, a: Sample, b: Sample)
    requires f.forward && 0 < f.width && a.time < b.time == f.IntervalOf(a.time).second
    ensures Stream(f, [[a, b]]) && Stream(f, [[a], [b]]) && Fed(f, [[a, b]]) != Fed(f, [[a], [b]])
  {
    hide Fed, Aligned, Flatten, Clean, GetAggregateInterval;
    FlattenPair(a, b);
    CleanExample(f, a, b);
    assert [[a, b]][0] == [a, b] && !AllClean(f, [[a, b]]) && AllClean(f, [[a], [b]]);
    ChunksDoNotMatter(f, [[a, b]]);
    ChunksDoNotMatter(f, [[a], [b]]);
  }

  lemma FlattenPair(a: Sample, b: Sample)
    ensures Flatten([[a, b]]) == [a, b] == Flatten([[a], [b]])
  {
    assert [[a, b]][..0] == [] && [[a], [b]][..1] == [[a]] && [[a]][..0] == [];
  }

  lemma CleanExample(f: Filter, a: Sample, b: Sample)
    requires f.forward && 0 < f.width && b.time == f.IntervalOf(a.time).second
    ensures !Clean(f, [a, b]) && Clean(f, [a]) && Clean(f, [b])
  {
    assert [a, b][1].time == f.IntervalOf([a, b][0].time).second;
  }

  // ---------------------------------------------------------------- each sample once, in order

  function AllSamples(groups: seq<Group>): seq<Sample> {
    if groups == [] then [] else AllSamples(groups[..|groups| - 1]) + groups[|groups| - 1].samples
  }

  lemma JoinKeepsSamples(groups: seq<Group>, interval: Interval, part: seq<Sample>)
    ensures AllSamples(Join(groups, interval, part)) == AllSamples(groups) + part
  {
    var joined := Join(groups, interval, part);
    if groups != [] && groups[|groups| - 1].interval == interval {
      assert joined[..|joined| - 1] == groups[..|groups| - 1];
    } else {
      assert joined[..|joined| - 1] == groups;
    }
  }

  lemma {:induction false} AbsorbKeepsSamples(f: Filter, groups: seq<Group>, chunk: seq<Sample>)
    requires AllInRange(f, chunk)
    ensures AllSamples(Absorb(f, groups, chunk)) == AllSamples(groups) + chunk
    decreases |chunk|
  {
    hide Join, Leading;
    if chunk == [] {
      assert AllSamples(groups) + [] == AllSamples(groups);
    } else {
      var k, interval := Leading(f, chunk), f.IntervalOf(chunk[0].time);
      LeadingCheck(f, chunk);
      JoinKeepsSamples(groups, interval, chunk[..k]);
      AbsorbKeepsSamples(f, Join(groups, interval, chunk[..k]), chunk[k..]);
      assert AllSamples(groups) + chunk[..k] + chunk[k..] == AllSamples(groups) + chunk;
    }
  }

  /** Clean or not, each sample goes to one group, in the order of the stream. */
  lemma {:induction false} EachSampleOnce(f: Filter, chunks: seq<seq<Sample>>)
    requires Stream(f, chunks)
    ensures AllSamples(Fed(f, chunks)) == Flatten(chunks)
    decreases |chunks|
  {
    if chunks != [] {
      StreamParts(f, chunks);
      EachSampleOnce(f, chunks[..|chunks| - 1]);
      AbsorbKeepsSamples(f, Fed(f, chunks[..|chunks| - 1]), chunks[|chunks| - 1]);
    }
  }

  lemma PartsOrdered(a: seq<Sample>, b: seq<Sample>, forward: bool)
    requires Ordered(a + b, forward)
    ensures Ordered(a, forward) && Ordered(b, forward)
  {
    var s := a + b;
    assert forall k :: 0 <= k < |a| ==> s[k] == a[k];
    assert forall k :: 0 <= k < |b| ==> s[|a| + k] == b[k];
  }

  lemma {:induction false} GroupOrdered(groups: seq<Group>, i: nat, forward: bool)
    requires i < |groups| && Ordered(AllSamples(groups), forward)
    ensures Ordered(groups[i].samples, forward)
  {
    hide Ordered;
    PartsOrdered(AllSamples(groups[..|groups| - 1]), groups[|groups| - 1].samples, forward);
    if i < |groups| - 1 {
      GroupOrdered(groups[..|groups| - 1], i, forward);
    }
  }

  /** Groups have samples, the first of them lies in the interval, and neighbours differ. */
  ghost predicate WellFormed(f: Filter, groups: seq<Group>) {
    && (forall i :: 0 <= i < |groups| ==>
         groups[i].samples != [] && f.IntervalOf(groups[i].samples[0].time) == groups[i].interval)
    && (forall i :: 0 < i < |groups| ==> groups[i - 1].interval != groups[i].interval)
  }

  lemma {:induction false} AbsorbWellFormed(f: Filter, groups: seq<Group>, chunk: seq<Sample>)
    requires WellFormed(f, groups) && AllInRange(f, chunk)
    ensures WellFormed(f, Absorb(f, groups, chunk))
    decreases |chunk|
  {
    hide Leading, GetAggregateInterval;
    if chunk != [] {
      var k, interval := Leading(f, chunk), f.IntervalOf(chunk[0].time);
      LeadingCheck(f, chunk);
      assert chunk[..k][0] == chunk[0];
      JoinWellFormed(f, groups, interval, chunk[..k]);
      AbsorbWellFormed(f, Join(groups, interval, chunk[..k]), chunk[k..]);
    }
  }

  lemma JoinWellFormed(f: Filter, groups: seq<Group>, interval: Interval, part: seq<Sample>)
    requires WellFormed(f, groups) && part != [] && f.IntervalOf(part[0].time) == interval
    ensures WellFormed(f, Join(groups, interval, part))
  {
    hide GetAggregateInterval;
  }

  lemma {:induction false} FedWellFormed(f: Filter, chunks: seq<seq<Sample>>)
    requires Stream(f, chunks)
    ensures WellFormed(f, Fed(f, chunks))
    decreases |chunks|
  {
    hide WellFormed;
    if chunks == [] {
      NothingWellFormed(f);
    } else {
      StreamParts(f, chunks);
      FedWellFormed(f, chunks[..|chunks| - 1]);
      AbsorbWellFormed(f, Fed(f, chunks[..|chunks| - 1]), chunks[|chunks| - 1]);
    }
  }

  lemma NothingWellFormed(f: Filter)
    ensures WellFormed(f, [])
  {
  }

  /** Intervals follow one another, strictly. */
  ghost predicate InOrder(f: Filter, groups: seq<Group>) {
    forall i, j :: 0 <= i < j < |groups| ==>
      if f.forward then groups[i].interval.first < groups[j].interval.first
      else groups[j].interval.first < groups[i].interval.first
  }

  lemma {:induction false} GroupStands(groups: seq<Group>, i: nat) returns (p: nat)
    requires i < |groups| && groups[i].samples != []
    ensures p < |AllSamples(groups)| && AllSamples(groups)[p] == groups[i].samples[0]
    ensures i < |groups| - 1 ==> p < |AllSamples(groups[..|groups| - 1])|
    ensures i == |groups| - 1 ==> p == |AllSamples(groups[..|groups| - 1])|
  {
    if i == |groups| - 1 {
      p := |AllSamples(groups[..i])|;
    } else {
      p := GroupStands(groups[..|groups| - 1], i);
    }
  }

  lemma {:induction false} OrderedGroups(f: Filter, groups: seq<Group>)
    requires WellFormed(f, groups) && Ordered(AllSamples(groups), f.forward)
    ensures InOrder(f, groups)
  {
    hide WellFormed, Ordered;
    if |groups| > 1 {
      var n := |groups| - 1;
      PartsOrdered(AllSamples(groups[..n]), groups[n].samples, f.forward);
      InitWellFormed(f, groups);
      OrderedGroups(f, groups[..n]);
      var q := GroupStands(groups, n);
      var p := GroupStands(groups, n - 1);
      NextInterval(f, groups, p, q);
      InOrderNext(f, groups);
    }
  }

  lemma InitWellFormed(f: Filter, groups: seq<Group>)
    requires WellFormed(f, groups) && groups != []
    ensures WellFormed(f, groups[..|groups| - 1])
    ensures forall i :: 0 <= i < |groups| ==> groups[i].samples != []
  {
    hide GetAggregateInterval;
  }

  lemma InOrderNext(f: Filter, groups: seq<Group>)
    requires |groups| > 1 && InOrder(f, groups[..|groups| - 1])
    requires var a, b := groups[|groups| - 2].interval.first, groups[|groups| - 1].interval.first;
      if f.forward then a < b else b < a
    ensures InOrder(f, groups)
  {
    var n := |groups| - 1;
    forall i | 0 <= i < n - 1 ensures groups[..n][i] == groups[i] && groups[..n][n - 1] == groups[n - 1] {}
  }

  lemma NextInterval(f: Filter, groups: seq<Group>, p: nat, q: nat)
    requires WellFormed(f, groups) && |groups| > 1 && Ordered(AllSamples(groups), f.forward)
    requires p < q < |AllSamples(groups)|
    requires AllSamples(groups)[p] == groups[|groups| - 2].samples[0]
    requires AllSamples(groups)[q] == groups[|groups| - 1].samples[0]
    ensures var a, b := groups[|groups| - 2].interval.first, groups[|groups| - 1].interval.first;
      if f.forward then a < b else b < a
  {
    hide GetAggregateInterval, AllSamples;
    if f.forward {
      IntervalsRise(AllSamples(groups)[p].time, AllSamples(groups)[q].time, f.origin, f.width);
    } else {
      IntervalsRise(AllSamples(groups)[q].time, AllSamples(groups)[p].time, f.origin, f.width);
    }
  }

  /** The samples of the stream that lie in the interval. */
  function Within(f: Filter, interval: Interval, samples: seq<Sample>): seq<Sample> {
    if samples == [] then []
    else
      var last := samples[|samples| - 1];
      Within(f, interval, samples[..|samples| - 1]) + if f.IntervalOf(last.time) == interval then [last] else []
  }

  lemma {:induction false} WithinJoin(f: Filter, interval: Interval, a: seq<Sample>, b: seq<Sample>)
    ensures Within(f, interval, a + b) == Within(f, interval, a) + Within(f, interval, b)
  {
    if b == [] {
      assert a + b == a;
    } else {
      WithinJoin(f, interval, a, b[..|b| - 1]);
      assert (a + b)[..|a + b| - 1] == a + b[..|b| - 1];
    }
  }

  lemma {:induction false} WithinFitting(f: Filter, interval: Interval, own: Interval, part: seq<Sample>)
    requires PartFits(f, own, part)
    ensures Within(f, interval, part) == if interval == own then part else []
  {
    if part != [] {
      WithinFitting(f, interval, own, part[..|part| - 1]);
    }
  }

  lemma {:induction false} WithinGroups(f: Filter, groups: seq<Group>, interval: Interval)
    requires Fits(f, groups)
    ensures (forall i :: 0 <= i < |groups| ==> groups[i].interval != interval) ==>
      Within(f, interval, AllSamples(groups)) == []
    ensures forall i :: 0 <= i < |groups| && groups[i].interval == interval && InOrder(f, groups) ==>
      Within(f, interval, AllSamples(groups)) == groups[i].samples
  {
    hide GetAggregateInterval, Within;
    if groups == [] {
      WithinFitting(f, interval, interval, []);
    } else {
      var n := |groups| - 1;
      var init, last := groups[..n], groups[n];
      WithinGroups(f, init, interval);
      WithinJoin(f, interval, AllSamples(init), last.samples);
      WithinFitting(f, interval, last.interval, last.samples);
    }
  }

  /** What the groups of clean chunks are: one for each interval met, with all its samples. */
  lemma GroupsAreIntervals(f: Filter, chunks: seq<seq<Sample>>)
    requires Stream(f, chunks) && AllClean(f, chunks)
    ensures InOrder(f, Fed(f, chunks))
    ensures forall i :: 0 <= i < |Fed(f, chunks)| ==>
      Fed(f, chunks)[i].samples == Within(f, Fed(f, chunks)[i].interval, Flatten(chunks)) != []
    ensures forall k :: 0 <= k < |Flatten(chunks)| ==>
      exists i :: 0 <= i < |Fed(f, chunks)| && Fed(f, chunks)[i].interval == f.IntervalOf(Flatten(chunks)[k].time)
  {
    hide GetAggregateInterval, Within, Fed, AllClean;
    var groups := Fed(f, chunks);
    FedFits(f, chunks);
    FedWellFormed(f, chunks);
    EachSampleOnce(f, chunks);
    OrderedGroups(f, groups);
    forall i | 0 <= i < |groups| ensures groups[i].samples == Within(f, groups[i].interval, Flatten(chunks)) {
      WithinGroups(f, groups, groups[i].interval);
    }
    forall k | 0 <= k < |Flatten(chunks)|
      ensures exists i :: 0 <= i < |groups| && groups[i].interval == f.IntervalOf(Flatten(chunks)[k].time)
    {
      WithinGroups(f, groups, f.IntervalOf(Flatten(chunks)[k].time));
      WithinFinds(f, Flatten(chunks), k);
    }
  }

  lemma {:induction false} WithinFinds(f: Filter, samples: seq<Sample>, k: nat)
    requires k < |samples|
    ensures Within(f, f.IntervalOf(samples[k].time), samples) != []
  {
    if k < |samples| - 1 {
      WithinFinds(f, samples[..|samples| - 1], k);
    }
  }

  // ---------------------------------------------------------------- the state

  function Summaries(aggregate: Aggregate, forward: bool, groups: seq<Group>): (r: seq<DataValue>)
    requires forall i :: 0 <= i < |groups| ==> groups[i].samples != []
    ensures |r| == |groups|
    ensures forall i :: 0 <= i < |r| ==> r[i] == Summary(aggregate, forward, groups[i].interval, groups[i].samples)
  {
    seq(|groups|, i requires 0 <= i < |groups| => Summary(aggregate, forward, groups[i].interval, groups[i].samples))
  }

  /** Each value says of its group what the aggregate is to say. */
  ghost predicate AllTell(aggregate: Aggregate, values: seq<DataValue>, groups: seq<Group>) {
    |values| == |groups| && forall i :: 0 <= i < |groups| ==>
      Tells(aggregate, values[i], groups[i].interval, groups[i].samples)
  }

  lemma SummariesTell(aggregate: Aggregate, forward: bool, groups: seq<Group>)
    requires NonEmpty(groups) && (TakesOne(aggregate) ==> Ordered(AllSamples(groups), forward))
    ensures AllTell(aggregate, Summaries(aggregate, forward, groups), groups)
  {
    hide Tells, Summary, Ordered, AllSamples;
    forall i | 0 <= i < |groups|
      ensures Tells(aggregate, Summaries(aggregate, forward, groups)[i], groups[i].interval, groups[i].samples)
    {
      if TakesOne(aggregate) {
        GroupOrdered(groups, i, forward);
      }
      SummaryTells(aggregate, forward, groups[i].interval, groups[i].samples);
    }
  }

  ghost predicate NonEmpty(groups: seq<Group>) {
    forall i :: 0 <= i < |groups| ==> groups[i].samples != []
  }

  /** The samples of the interval so far, when it is that of the last group. */
  function Own(groups: seq<Group>, interval: Interval): seq<Sample> {
    if groups != [] && groups[|groups| - 1].interval == interval then groups[|groups| - 1].samples else []
  }

  function Others(groups: seq<Group>, interval: Interval): seq<Group> {
    if groups != [] && groups[|groups| - 1].interval == interval then groups[..|groups| - 1] else groups
  }

  class AggregateState {
    const filter: Filter
    var dataValues: seq<DataValue>
    var aggregator: Aggregator?
    var aggregatorInterval: Option<Interval>
    var aggregatedValue: Option<DataValue>
    /** The chunks so far, and the samples each aggregator got. */
    ghost var chunks: seq<seq<Sample>>
    ghost var groups: seq<Group>

    /** The values say what the groups but the last are, and the last is still open. */
    ghost predicate Stands()
      reads this`dataValues, this`aggregator, this`aggregatorInterval, this`aggregatedValue, this`groups, aggregator
    {
      && WellFormed(filter, groups)
      && (filter.aggregate.None? || groups == [] ==>
           groups == [] && dataValues == [] && aggregatedValue.None? && aggregator == null)
      && (filter.aggregate.Some? && groups == [] ==> aggregatorInterval.None?)
      && (filter.aggregate.Some? && groups != [] ==>
           var last := groups[|groups| - 1];
           && dataValues == Summaries(filter.aggregate.value, filter.forward, groups[..|groups| - 1])
           && aggregatedValue == Some(Summary(filter.aggregate.value, filter.forward, last.interval, last.samples))
           && aggregatorInterval == Some(last.interval)
           && aggregator != null && aggregator.Valid() && aggregator.taken == last.samples
           && aggregator.aggregate == filter.aggregate.value && aggregator.interval == last.interval
           && aggregator.forward == filter.forward)
    }

    ghost predicate Valid()
      reads this, aggregator
    {
      && Stands()
      && (filter.aggregate.Some? && Stream(filter, chunks) ==> groups == Fed(filter, chunks))
    }

    constructor (filter: Filter)
      ensures Valid() && this.filter == filter && groups == [] && chunks == []
    {
      this.filter := filter;
      dataValues, aggregator, aggregatorInterval, aggregatedValue := [], null, None, None;
      chunks, groups := [], [];
    }

    /** The interval of the samples at the front is not the last one met. */
    predicate Begins(interval: Interval)
      reads this`aggregatorInterval
    {
      aggregatorInterval != Some(interval)
    }

    /** The aggregator for the interval is at hand, and all values but its own are out. */
    ghost predicate Ready(interval: Interval)
      requires filter.aggregate.Some? && NonEmpty(groups)
      reads this`dataValues, this`aggregator, this`aggregatorInterval, this`groups, aggregator
    {
      && dataValues == Summaries(filter.aggregate.value, filter.forward, Others(groups, interval))
      && aggregatorInterval == Some(interval)
      && aggregator != null && aggregator.Valid() && aggregator.taken == Own(groups, interval)
      && aggregator.aggregate == filter.aggregate.value && aggregator.interval == interval
      && aggregator.forward == filter.forward
    }

    method Renew(interval: Interval)
      requires Stands() && filter.aggregate.Some?
      modifies this`dataValues, this`aggregator, this`aggregatorInterval, this`aggregatedValue
      ensures Ready(interval)
      ensures aggregator == old(aggregator) || fresh(aggregator)
    {
      hide Summary;
      if Begins(interval) {
        if aggregatedValue.Some? {
          SummariesNext(filter.aggregate.value, filter.forward, groups);
          dataValues := dataValues + [aggregatedValue.value];
          aggregatedValue := None;
        }
        aggregatorInterval := Some(interval);
        aggregator := new Aggregator(filter.aggregate.value, interval, filter.forward);
      }
    }

    /** Gives one aggregator the samples of its interval, a new one where the interval changes. */
    method Advance(interval: Interval, part: seq<Sample>) returns (known: bool)
      requires Stands() && part != [] && filter.IntervalOf(part[0].time) == interval
      requires filter.aggregate.None? ==> Begins(interval)
      modifies this, aggregator
      ensures Stands() && known == filter.aggregate.Some? && chunks == old(chunks)
      ensures groups == if known then Join(old(groups), interval, part) else old(groups)
      ensures !known ==> aggregatorInterval == Some(interval)
      ensures aggregator == old(aggregator) || fresh(aggregator)
    {
      hide GetAggregateInterval, Summary, Join;
      if filter.aggregate.None? {
        aggregatorInterval := Some(interval);
        aggregator := null;
        return false;
      }
      Renew(interval);
      JoinWellFormed(filter, groups, interval, part);
      JoinEnds(groups, interval, part);
      var value := aggregator.Run(part);
      aggregatedValue := Some(value);
      groups := Join(groups, interval, part);
      known := true;
    }

    /** Under an unknown aggregate a chunk that begins in the interval of the last one calls an empty
        function, which throws. */
    method Process(chunk: seq<Sample>) returns (thrown: bool)
      requires Valid() && AllInRange(filter, chunk)
      modifies this, aggregator
      ensures thrown <==> filter.aggregate.None? && chunk != [] && !old(Begins(filter.IntervalOf(chunk[0].time)))
      ensures thrown ==> unchanged(this)
      ensures filter.aggregate.None? && chunk != [] ==> aggregatorInterval == Some(filter.IntervalOf(chunk[0].time))
      ensures Valid() && (!thrown ==> chunks == old(chunks) + [chunk])
      ensures filter.aggregate.Some? ==> groups == Absorb(filter, old(groups), chunk)
      ensures aggregator == old(aggregator) || fresh(aggregator)
    {
      hide Stands, Join, Leading, GetAggregateInterval, Stream, Fed;
      var raw := chunk;
      while raw != []
        invariant Stands() && AllInRange(filter, raw) && chunks == old(chunks)
        invariant (raw == chunk && unchanged(this)) || filter.aggregate.Some?
        invariant Absorb(filter, groups, raw) == Absorb(filter, old(groups), chunk)
        invariant aggregator == old(aggregator) || fresh(aggregator)
        decreases |raw|
      {
        LeadingCheck(filter, raw);
        var interval := filter.IntervalOf(raw[0].time);
        var count := Leading(filter, raw);
        assert raw[..count][0] == raw[0];
        NoAggregator();
        if !Begins(interval) && aggregator == null {
          return true;
        }
        var known := Advance(interval, raw[..count]);
        if !known {
          break;
        }
        raw := raw[count..];
      }
      if Stream(filter, chunks + [chunk]) {
        FedNext(filter, chunks, chunk);
      }
      chunks := chunks + [chunk];
      thrown := false;
    }

    lemma NoAggregator()
      requires Stands()
      ensures aggregator == null <==> filter.aggregate.None? || groups == []
      ensures filter.aggregate.Some? && groups == [] ==> aggregatorInterval.None?
    {
    }

    method Finish()
      requires Valid()
      modifies this`dataValues
      ensures filter.aggregate.None? ==> dataValues == []
      ensures filter.aggregate.Some? ==> dataValues == Summaries(filter.aggregate.value, filter.forward, groups)
      ensures filter.aggregate.Some? && (TakesOne(filter.aggregate.value) ==> Stream(filter, chunks)) ==>
        AllTell(filter.aggregate.value, dataValues, groups)
      ensures filter.aggregate.Some? && Stream(filter, chunks) ==> AllSamples(groups) == Flatten(chunks)
      ensures filter.aggregate.Some? && Stream(filter, chunks) && AllClean(filter, chunks) ==>
        && groups == Aligned(filter, Flatten(chunks)) && InOrder(filter, groups)
        && forall i :: 0 <= i < |groups| ==>
             groups[i].samples == Within(filter, groups[i].interval, Flatten(chunks))
    {
      hide Summary, Fed, Aligned, AllTell, AllClean, AllSamples, Within, Ordered, GetAggregateInterval;
      if filter.aggregate.Some? && Stream(filter, chunks) {
        ChunksDoNotMatter(filter, chunks);
        EachSampleOnce(filter, chunks);
        if AllClean(filter, chunks) {
          GroupsAreIntervals(filter, chunks);
        }
      }
      if filter.aggregate.Some? && (TakesOne(filter.aggregate.value) ==> Stream(filter, chunks)) {
        SummariesTell(filter.aggregate.value, filter.forward, groups);
      }
      if aggregatedValue.Some? {
        SummariesNext(filter.aggregate.value, filter.forward, groups);
        dataValues := dataValues + [aggregatedValue.value];
      }
    }
  }

  /** Two chunks of one sample each, of one interval, under an aggregate that is not known. */
  method UnknownAggregateThrows(a: Sample, b: Sample) returns (thrown: bool)
    requires 0 <= a.time < b.time < 10
    ensures thrown
  {
    hide GetAggregateInterval;
    FirstInterval(a.time);
    FirstInterval(b.time);
    var state := new AggregateState(Filter(None, 0, 10, true));
    thrown := state.Process([a]);
    thrown := state.Process([b]);
  }

  lemma FirstInterval(time: int)
    requires 0 <= time < 10
    ensures GetAggregateInterval(time, 0, 10) == Interval(0, 10)
  {
  }

  lemma SummariesNext(aggregate: Aggregate, forward: bool, groups: seq<Group>)
    requires groups != [] && forall i :: 0 <= i < |groups| ==> groups[i].samples != []
    ensures var n := |groups| - 1;
      Summaries(aggregate, forward, groups)
        == Summaries(aggregate, forward, groups[..n])
           + [Summary(aggregate, forward, groups[n].interval, groups[n].samples)]
  {
  }

  lemma JoinEnds(groups: seq<Group>, interval: Interval, part: seq<Sample>)
    ensures var joined := Join(groups, interval, part);
      && joined != [] && joined[|joined| - 1].interval == interval
      && joined[|joined| - 1].samples == Own(groups, interval) + part
      && joined[..|joined| - 1] == Others(groups, interval)
  {
  }

  lemma FedNext(f: Filter, chunks: seq<seq<Sample>>, chunk: seq<Sample>)
    requires Stream(f, chunks + [chunk])
    ensures Stream(f, chunks) && AllInRange(f, chunk) && Fed(f, chunks + [chunk]) == Absorb(f, Fed(f, chunks), chunk)
  {
    StreamParts(f, chunks + [chunk]);
    assert (chunks + [chunk])[..|chunks|] == chunks;
  }
}
