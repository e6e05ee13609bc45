/**
 The sliding-window frequency gauge. Clock readings are parameters in milliseconds; the
 results hold for every clock that does not run backwards.
 */
module FrequencyGauge {
  import opened Wrappers

  type Tag = string

  const AVERAGE_WINDOW := 5000
  const MIN_OPS_TIME := 1000

  datatype Op = Op(time: int, size: int)

  datatype Entry = Entry(ops: seq<Op>, lastOpsTime: int)

  type State = map<Tag, Entry>

  /** `time` is read before the entry is looked up, `logged` when the operation is stored. */
  function Added(s: State, tag: Tag, size: int, time: int, logged: int): State {
    if tag in s then s[tag := s[tag].(ops := s[tag].ops + [Op(logged, size)])]
    else s[tag := Entry([Op(logged, size)], time)]
  }

  function DropUntil(ops: seq<Op>, until: int): seq<Op> {
    if ops != [] && ops[0].time <= until then DropUntil(ops[1..], until) else ops
  }

  function Swept(e: Entry, time: int): Entry {
    Entry(DropUntil(e.ops, time - AVERAGE_WINDOW), time - AVERAGE_WINDOW)
  }

  /** Each tag is swept with its own reading of the clock. */
  function Cleaned(s: State, readings: Tag -> int): State {
    map tag | tag in s :: Swept(s[tag], readings(tag))
  }

  function Total(ops: seq<Op>): int {
    if ops == [] then 0 else Total(ops[..|ops| - 1]) + ops[|ops| - 1].size
  }

  class Gauge {
    var tags: State

    constructor ()
      ensures tags == map[]
    {
      tags := map[];
    }

    method Add(tag: Tag, size: int, time: int, logged: int)
      modifies this
      ensures tags == Added(old(tags), tag, size, time, logged)
    {
      if tag !in tags {
        tags := tags[tag := Entry([Op(logged, size)], time)];
      } else {
        var ex := tags[tag];
        tags := tags[tag := ex.(ops := ex.ops + [Op(logged, size)])];
      }
    }

    method Inc(tag: Tag, time: int, logged: int)
      modifies this
      ensures tags == Added(old(tags), tag, 1, time, logged)
    {
      Add(tag, 1, time, logged);
    }

    method Cleanup(readings: Tag -> int)
      modifies this
      ensures tags == Cleaned(old(tags), readings)
    {
      ghost var before := tags;
      var rest := tags.Keys;
      while rest != {}
        invariant rest <= before.Keys == tags.Keys
        invariant forall g | g in before ::
          tags[g] == if g in rest then before[g] else Swept(before[g], readings(g))
      {
        ghost var some := SomeElement(rest);
        var k :| k in rest;
        var v := tags[k];
        var cleanUntil := readings(k) - AVERAGE_WINDOW;
        v := v.(lastOpsTime := cleanUntil);
        while |v.ops| > 0 && v.ops[0].time <= cleanUntil
          invariant v.lastOpsTime == cleanUntil
          invariant DropUntil(v.ops, cleanUntil) == DropUntil(before[k].ops, cleanUntil)
        {
          v := v.(ops := v.ops[1..]);
        }
        tags := tags[k := v];
        rest := rest - {k};
      }
    }

    /** The values the periodic report sets. */
    method Report(readings: Tag -> int) returns (rates: map<Tag, int>)
      ensures forall g ::
        g in rates <==> g in tags && readings(g) - tags[g].lastOpsTime >= 1000
      ensures forall g | g in rates && g in tags && readings(g) > tags[g].lastOpsTime ::
        rates[g] == Total(tags[g].ops) * 1000 / (readings(g) - tags[g].lastOpsTime)
    {
      rates := map[];
      var rest := tags.Keys;
      while rest != {}
        invariant rest <= tags.Keys
        invariant forall g ::
          g in rates <==> g in tags && g !in rest && readings(g) - tags[g].lastOpsTime >= MIN_OPS_TIME
        invariant forall g | g in rates && g in tags && readings(g) > tags[g].lastOpsTime ::
          rates[g] == Total(tags[g].ops) * 1000 / (readings(g) - tags[g].lastOpsTime)
      {
        ghost var some := SomeElement(rest);
        var k :| k in rest;
        var v := tags[k];
        var time := readings(k);
        if time - v.lastOpsTime >= MIN_OPS_TIME {
          var sum := SumSizes(v.ops);
          rates := rates[k := sum * 1000 / (time - v.lastOpsTime)];
        }
        rest := rest - {k};
      }
    }
  }

  method SumSizes(ops: seq<Op>) returns (sum: int)
    ensures sum == Total(ops)
  {
    sum := 0;
    for i := 0 to |ops|
      invariant sum == Total(ops[..i])
    {
      assert ops[..i + 1][..i] == ops[..i];
      sum := sum + ops[i].size;
    }
    assert ops[..|ops|] == ops;
  }

  // ---------- runs ----------

  datatype Event = Logs(tag: Tag, size: int, time: int, logged: int) | Cleans(readings: Tag -> int)

  function Run(events: seq<Event>): State {
    if events == [] then map[]
    else
      var s := Run(events[..|events| - 1]);
      match events[|events| - 1]
      case Logs(tag, size, time, logged) => Added(s, tag, size, time, logged)
      case Cleans(readings) => Cleaned(s, readings)
  }

  /** Between `from` and `to` the clock gave the readings of this event. */
  ghost predicate Within(e: Event, from: int, to: int) {
    match e
    case Logs(_, _, time, logged) => from <= time <= logged <= to
    case Cleans(readings) => forall g :: from <= readings(g) <= to
  }

  /** `now` are readings of one clock, before the first event and after each. */
  ghost predicate Clocked(events: seq<Event>, now: seq<int>) {
    |now| == |events| + 1 && forall i | 0 <= i < |events| :: Within(events[i], now[i], now[i + 1])
  }

  /** Everything ever logged for a tag. */
  function Log(events: seq<Event>, tag: Tag): seq<Op> {
    if events == [] then []
    else
      var log := Log(events[..|events| - 1], tag);
      match events[|events| - 1]
      case Logs(g, size, _, logged) => if g == tag then log + [Op(logged, size)] else log
      case Cleans(_) => log
  }

  /** What the last cleanup since the tag was first logged cut at. */
  function Cutoff(events: seq<Event>, tag: Tag): Option<int> {
    if events == [] then None
    else
      var before := events[..|events| - 1];
      match events[|events| - 1]
      case Logs(_, _, _, _) => Cutoff(before, tag)
      case Cleans(readings) => if Log(before, tag) == [] then None else Some(readings(tag) - 5000)
  }

  /** The operations of a log that are newer than a cutoff. */
  function Newer(log: seq<Op>, cutoff: Option<int>): seq<Op> {
    if log == [] then []
    else
      var n := |log| - 1;
      Newer(log[..n], cutoff) + if cutoff.None? || log[n].time > cutoff.value then [log[n]] else []
  }

  ghost predicate TimeSorted(ops: seq<Op>, to: int) {
    && (forall i, j | 0 <= i < j < |ops| :: ops[i].time <= ops[j].time)
    && (forall i | 0 <= i < |ops| :: ops[i].time <= to)
  }

  lemma {:induction false} NewerPrepend(x: Op, log: seq<Op>, cutoff: Option<int>)
    ensures Newer([x] + log, cutoff) == (if cutoff.None? || x.time > cutoff.value then [x] else []) + Newer(log, cutoff)
  {
    if log == [] {
      assert [x] + log == [x] && [x][..0] == [];
    } else {
      var n := |log| - 1;
      assert ([x] + log)[..n + 1] == [x] + log[..n];
      NewerPrepend(x, log[..n], cutoff);
    }
  }

  lemma {:induction false} NewerKeepsAll(log: seq<Op>, cutoff: int)
    requires forall i | 0 <= i < |log| :: log[i].time > cutoff
    ensures Newer(log, Some(cutoff)) == log
  {
    if log != [] {
      NewerKeepsAll(log[..|log| - 1], cutoff);
    }
  }

  /** On a time-sorted queue, shifting from the front is filtering. */
  lemma {:induction false} DropIsFilter(ops: seq<Op>, until: int, to: int)
    requires TimeSorted(ops, to)
    ensures DropUntil(ops, until) == Newer(ops, Some(until))
  {
    if ops != [] {
      if ops[0].time <= until {
        DropIsFilter(ops[1..], until, to);
        NewerPrepend(ops[0], ops[1..], Some(until));
        assert [ops[0]] + ops[1..] == ops;
      } else {
        NewerKeepsAll(ops, until);
      }
    }
  }

  lemma {:induction false} NewerTwice(log: seq<Op>, first: Option<int>, second: int)
    requires first.Some? ==> first.value <= second
    ensures Newer(Newer(log, first), Some(second)) == Newer(log, Some(second))
  {
    if log != [] {
      var n := |log| - 1;
      NewerTwice(log[..n], first, second);
      var kept := Newer(log[..n], first);
      if first.None? || log[n].time > first.value {
        assert (kept + [log[n]])[..|kept|] == kept;
      } else {
        assert Newer(log, first) == kept;
      }
    }
  }

  lemma {:induction false} NewerIsSorted(log: seq<Op>, cutoff: Option<int>, to: int)
    requires TimeSorted(log, to)
    ensures TimeSorted(Newer(log, cutoff), to)
  {
    if log != [] {
      var n := |log| - 1;
      NewerIsSorted(log[..n], cutoff, log[n].time);
    }
  }

  lemma {:induction false} LogIsSorted(events: seq<Event>, now: seq<int>, tag: Tag)
    requires Clocked(events, now)
    ensures TimeSorted(Log(events, tag), now[|events|])
    ensures Cutoff(events, tag).Some? ==> Cutoff(events, tag).value <= now[|events|] - AVERAGE_WINDOW
  {
    if events != [] {
      var n := |events| - 1;
      LogIsSorted(events[..n], now[..n + 1], tag);
      assert Within(events[n], now[n], now[n + 1]);
      match events[n]
      case Logs(_, _, _, _) =>
      case Cleans(readings) =>
        assert readings(tag) <= now[n + 1];
        assert now[n] <= readings(tag);
    }
  }

  /** What the gauge should hold for a tag. */
  ghost predicate Holds(s: State, log: seq<Op>, cutoff: Option<int>, tag: Tag) {
    && (tag in s <==> log != [])
    && (tag in s ==> s[tag].ops == Newer(log, cutoff))
    && (tag in s && cutoff.Some? ==> s[tag].lastOpsTime == cutoff.value)
    && (tag in s && cutoff.None? ==> s[tag].lastOpsTime <= log[0].time)
  }

  lemma LogsHolds(s: State, log: seq<Op>, cutoff: Option<int>, tag: Tag, size: int, time: int, logged: int)
    requires Holds(s, log, cutoff, tag) && time <= logged && (cutoff.Some? ==> cutoff.value < logged && log != [])
    ensures Holds(Added(s, tag, size, time, logged), log + [Op(logged, size)], cutoff, tag)
  {
    assert (log + [Op(logged, size)])[..|log|] == log;
    if log == [] {
      assert Newer([], cutoff) == [];
    }
  }

  lemma CleansHolds(s: State, log: seq<Op>, cutoff: Option<int>, tag: Tag, readings: Tag -> int, to: int)
    requires Holds(s, log, cutoff, tag) && TimeSorted(log, to) && log != []
    requires cutoff.Some? ==> cutoff.value <= readings(tag) - AVERAGE_WINDOW
    ensures Holds(Cleaned(s, readings), log, Some(readings(tag) - AVERAGE_WINDOW), tag)
  {
    NewerIsSorted(log, cutoff, to);
    DropIsFilter(s[tag].ops, readings(tag) - AVERAGE_WINDOW, to);
    NewerTwice(log, cutoff, readings(tag) - AVERAGE_WINDOW);
  }

  /**
   On every clock that does not run backwards, the queue of a tag holds exactly the
   logged operations newer than the last cutoff, in time order, and the time the rate is
   divided by counts from that cutoff; before the first cleanup it holds everything logged.
   */
  lemma {:induction false} QueueIsTheWindow(events: seq<Event>, now: seq<int>, tag: Tag)
    requires Clocked(events, now)
    ensures Holds(Run(events), Log(events, tag), Cutoff(events, tag), tag)
    ensures tag in Run(events) ==> TimeSorted(Run(events)[tag].ops, now[|events|])
  {
    LogIsSorted(events, now, tag);
    NewerIsSorted(Log(events, tag), Cutoff(events, tag), now[|events|]);
    if events != [] {
      hide Newer, TimeSorted, DropUntil;
      var n := |events| - 1;
      var before := events[..n];
      QueueIsTheWindow(before, now[..n + 1], tag);
      LogIsSorted(before, now[..n + 1], tag);
      CutoffNeedsLog(before, tag);
      assert Within(events[n], now[n], now[n + 1]);
      match events[n]
      case Logs(g, size, time, logged) =>
        if g == tag {
          LogsHolds(Run(before), Log(before, tag), Cutoff(before, tag), tag, size, time, logged);
        }
      case Cleans(readings) =>
        assert now[n] <= readings(tag);
        if Log(before, tag) != [] {
          CleansHolds(Run(before), Log(before, tag), Cutoff(before, tag), tag, readings, now[n]);
        }
    }
  }

  /** The sizes logged for a tag after the cutoff, added up over the events. */
  function SizeSince(events: seq<Event>, tag: Tag, cutoff: Option<int>): int {
    if events == [] then 0
    else
      var before := SizeSince(events[..|events| - 1], tag, cutoff);
      match events[|events| - 1]
      case Logs(g, size, _, logged) =>
        if g == tag && (cutoff.Some? ==> logged > cutoff.value) then before + size else before
      case Cleans(_) => before
  }

  lemma {:induction false} TotalConcat(a: seq<Op>, b: seq<Op>)
    ensures Total(a + b) == Total(a) + Total(b)
    decreases |b|
  {
    if b == [] {
      assert a + b == a;
    } else {
      assert (a + b)[..|a + b| - 1] == a + b[..|b| - 1];
      TotalConcat(a, b[..|b| - 1]);
    }
  }

  lemma TotalOfOneMore(log: seq<Op>, op: Op, cutoff: Option<int>)
    ensures Total(Newer(log + [op], cutoff)) ==
      Total(Newer(log, cutoff)) + if cutoff.None? || op.time > cutoff.value then op.size else 0
  {
    assert (log + [op])[..|log|] == log;
    TotalConcat(Newer(log, cutoff), [op]);
    assert [op][..0] == [];
    assert Newer(log, cutoff) + [] == Newer(log, cutoff);
  }

  lemma {:induction false} TotalOfNewer(events: seq<Event>, tag: Tag, cutoff: Option<int>)
    ensures Total(Newer(Log(events, tag), cutoff)) == SizeSince(events, tag, cutoff)
  {
    if events == [] {
      assert Newer([], cutoff) == [];
    } else {
      var before, last := events[..|events| - 1], events[|events| - 1];
      TotalOfNewer(before, tag, cutoff);
      if last.Cleans? {
        assert Log(events, tag) == Log(before, tag);
        assert SizeSince(events, tag, cutoff) == SizeSince(before, tag, cutoff);
      } else if last.tag != tag {
        assert Log(events, tag) == Log(before, tag);
        assert SizeSince(events, tag, cutoff) == SizeSince(before, tag, cutoff);
      } else {
        assert Log(events, tag) == Log(before, tag) + [Op(last.logged, last.size)];
        TotalOfOneMore(Log(before, tag), Op(last.logged, last.size), cutoff);
      }
    }
  }

  /** The time read when a tag was first logged. */
  function FirstRead(events: seq<Event>, tag: Tag): Option<int> {
    if events == [] then None
    else
      var before, last := FirstRead(events[..|events| - 1], tag), events[|events| - 1];
      if before == None && last.Logs? && last.tag == tag then Some(last.time) else before
  }

  lemma {:induction false} StartsAtFirstRead(events: seq<Event>, tag: Tag)
    ensures tag in Run(events) <==> FirstRead(events, tag).Some?
    ensures tag in Run(events) <==> Log(events, tag) != []
    ensures tag in Run(events) && Cutoff(events, tag).None? ==>
      Run(events)[tag].lastOpsTime == FirstRead(events, tag).value
  {
    if events != [] {
      StartsAtFirstRead(events[..|events| - 1], tag);
    }
  }

  /**
   What the rate is made of: what was logged since the last cutoff, five seconds before
   the last cleanup, over the time since that cutoff; before any cleanup, all that was
   logged, over the time since the first of it.
   */
  lemma RateCountsTheWindow(events: seq<Event>, now: seq<int>, tag: Tag)
    requires Clocked(events, now)
    ensures tag in Run(events) <==> FirstRead(events, tag).Some?
    ensures tag in Run(events) ==>
      var e, cutoff := Run(events)[tag], Cutoff(events, tag);
      && Total(e.ops) == SizeSince(events, tag, cutoff)
      && e.lastOpsTime == (if cutoff.Some? then cutoff else FirstRead(events, tag)).value
  {
    QueueIsTheWindow(events, now, tag);
    TotalOfNewer(events, tag, Cutoff(events, tag));
    StartsAtFirstRead(events, tag);
  }

  lemma {:induction false} CutoffNeedsLog(events: seq<Event>, tag: Tag)
    ensures Cutoff(events, tag).Some? ==> Log(events, tag) != []
  {
    if events != [] {
      CutoffNeedsLog(events[..|events| - 1], tag);
    }
  }

  /** The clock must not run backwards: on one that does, an operation older than the cutoff can stay. */
  lemma BackwardClockKeepsOldOps(tag: Tag)
    ensures var events := [Logs(tag, 1, 20000, 20000), Logs(tag, 1, 0, 0), Cleans(_ => 20000)];
      && tag in Run(events) && Op(0, 1) in Run(events)[tag].ops
      && Op(0, 1) !in Newer(Log(events, tag), Cutoff(events, tag))
  {
    var events := [Logs(tag, 1, 20000, 20000), Logs(tag, 1, 0, 0), Cleans(_ => 20000)];
    var two := [Logs(tag, 1, 20000, 20000), Logs(tag, 1, 0, 0)];
    var one := [Logs(tag, 1, 20000, 20000)];
    assert events[..2] == two && two[..1] == one && one[..0] == [];
    var log := [Op(20000, 1), Op(0, 1)];
    assert Log(one, tag) == [Op(20000, 1)] && Log(two, tag) == log;
    assert Run(one) == map[tag := Entry([Op(20000, 1)], 20000)];
    assert Run(two) == map[tag := Entry(log, 20000)];
    assert log[..1] == [Op(20000, 1)] && log[..1][..0] == [];
    assert Newer(log[..1], Some(15000)) == [Op(20000, 1)];
    assert Newer(log, Some(15000)) == [Op(20000, 1)];
    assert log[1] == Op(0, 1);
  }
}
