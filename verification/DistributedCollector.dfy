/**
 The metric collectors. Gauges keep the latest report of every key until its timer
 fires; summaries keep every observation for its time. `Date.now()` is a parameter,
 and a timer may fire at any moment after it was started.
 */
module DistributedCollector {
  import opened Wrappers
  import opened ExpiringMaps

  type Key = string

  /** A live gauge entry, with the handle of its own timer. */
  datatype Reading = Reading(value: int, time: int, timer: TimerId)

  datatype Report = Report(key: Key, value: int, timeout: int, time: int)

  type Gauge = Flat<Key, Reading>

  predicate TimedOut(r: Report, now: int) {
    r.time + r.timeout <= now
  }

  predicate TooOld(values: map<Key, Reading>, r: Report) {
    r.key in values && values[r.key].time >= r.time
  }

  function OldTimer(values: map<Key, Reading>, key: Key): Option<TimerId> {
    if key in values then Some(values[key].timer) else None
  }

  function Reported(f: Gauge, r: Report, now: int, id: TimerId): Gauge {
    if TimedOut(r, now) || TooOld(f.values, r) then f
    else Put(f, r.key, Reading(r.value, r.time, id), OldTimer(f.values, r.key), id)
  }

  type TaggedGauge = Tagged<Key, Reading>

  function ReportedTagged(t: TaggedGauge, tag: Tag, r: Report, now: int, id: TimerId): TaggedGauge
    requires Located(t)
  {
    if TimedOut(r, now) then t
    else
      var u := EnsureTag(t, tag);
      var values := u.inners[u.tags[tag]];
      if TooOld(values, r) then u
      else PutTagged(u, tag, r.key, Reading(r.value, r.time, id), OldTimer(values, r.key), id)
  }

  /** The report is neither expired nor older than what its key shows under the tag. */
  predicate IsStored(t: TaggedGauge, tag: Tag, r: Report, now: int)
    requires Located(t)
  {
    !TimedOut(r, now) && !TooOld(Of(t, tag).values, r)
  }

  // ---------- sums ----------

  function Values(m: map<Key, Reading>): map<Key, int> {
    map k | k in m :: m[k].value
  }

  ghost function Sum(m: map<Key, int>): int {
    if m == map[] then 0
    else
      var k :| k in m;
      m[k] + Sum(m - {k})
  }

  lemma {:induction false} SumWithout(m: map<Key, int>, k: Key)
    requires k in m
    ensures Sum(m) == m[k] + Sum(m - {k})
    decreases |m|
  {
    var j :| j in m && Sum(m) == m[j] + Sum(m - {j});
    if j != k {
      SumWithout(m - {j}, k);
      SumWithout(m - {k}, j);
      assert m - {j} - {k} == m - {k} - {j};
    }
  }

  /** Adding up the values shown, in the given order of the keys. */
  function SumAlong(m: map<Key, Reading>, keys: seq<Key>): int
    requires forall k | k in keys :: k in m
  {
    if keys == [] then 0 else SumAlong(m, keys[..|keys| - 1]) + m[keys[|keys| - 1]].value
  }

  lemma SumLess(m: map<Key, Reading>, k: Key)
    requires k in m
    ensures Sum(Values(m)) == Sum(Values(m - {k})) + m[k].value
  {
    SumWithout(Values(m), k);
    assert Values(m) - {k} == Values(m - {k});
  }

  lemma NothingToSum(m: map<Key, Reading>)
    requires m.Keys == {}
    ensures Sum(Values(m)) == 0
  {
    assert Values(m) == map[];
  }

  /** The sum is that of the values in any order. */
  lemma {:induction false} SumInAnyOrder(m: map<Key, Reading>, keys: seq<Key>)
    requires Enumerates(keys, m.Keys)
    ensures Sum(Values(m)) == SumAlong(m, keys)
    decreases |keys|
  {
    hide Sum, Values;
    if keys == [] {
      assert m.Keys == {};
      NothingToSum(m);
    } else {
      var k, front := keys[|keys| - 1], keys[..|keys| - 1];
      EnumeratesLess(keys, m.Keys);
      assert (m - {k}).Keys == m.Keys - {k};
      SumInAnyOrder(m - {k}, front);
      SumAlongLess(m, k, front);
      SumLess(m, k);
    }
  }

  lemma AnyOrder(m: map<Key, Reading>)
    ensures forall keys | Enumerates(keys, m.Keys) :: Sum(Values(m)) == SumAlong(m, keys)
  {
    forall keys | Enumerates(keys, m.Keys)
      ensures Sum(Values(m)) == SumAlong(m, keys)
    {
      SumInAnyOrder(m, keys);
    }
  }

  lemma {:induction false} SumAlongLess(m: map<Key, Reading>, k: Key, keys: seq<Key>)
    requires forall j | j in keys :: j in m && j != k
    ensures SumAlong(m - {k}, keys) == SumAlong(m, keys)
    decreases |keys|
  {
    if keys != [] {
      assert keys[|keys| - 1] in keys;
      SumAlongLess(m, k, keys[..|keys| - 1]);
    }
  }

  /** `reduce` over the values of a map. */
  method SumValues(m: map<Key, Reading>) returns (sum: int)
    ensures sum == Sum(Values(m))
    ensures forall keys | Enumerates(keys, m.Keys) :: sum == SumAlong(m, keys)
  {
    AnyOrder(m);
    hide Enumerates, SumAlong;
    sum := 0;
    var keys := m.Keys;
    while keys != {}
      invariant keys <= m.Keys
      invariant sum + Sum(map k | k in keys :: m[k].value) == Sum(Values(m))
    {
      ghost var some := SomeElement(keys);
      var k :| k in keys;
      ghost var rest := map j | j in keys :: m[j].value;
      SumWithout(rest, k);
      assert rest - {k} == map j | j in keys - {k} :: m[j].value;
      sum := sum + m[k].value;
      keys := keys - {k};
    }
  }

  // ---------- a tagged gauge is one gauge per tag ----------

  /** A report comes with the handle that the timer it may start will have. */
  datatype GaugeStep = Reports(tag: Tag, report: Report, now: int, handle: TimerId) | Fires(id: TimerId)

  /** Every live entry knows its own pending timer. */
  ghost predicate GaugeOk(f: Gauge) {
    && OneTimerEach(f)
    && forall k | k in f.values :: f.values[k].timer in f.timers && f.timers[f.values[k].timer] == k
  }

  lemma ReportedKeepsOk(f: Gauge, r: Report, now: int, id: TimerId)
    requires GaugeOk(f) && id !in f.timers
    ensures GaugeOk(Reported(f, r, now, id))
  {
    if !TimedOut(r, now) && !TooOld(f.values, r) {
      PutKeepsTimers(f, r.key, Reading(r.value, r.time, id), OldTimer(f.values, r.key), id);
    }
  }

  lemma ExpireKeepsOk(f: Gauge, id: TimerId)
    requires GaugeOk(f)
    ensures GaugeOk(Expire(f, id))
  {
    ExpireKeepsTimers(f, id);
  }

  function UntaggedStep(f: Gauge, step: GaugeStep, g: Tag): Gauge {
    match step
    case Reports(tag, r, now, handle) => if tag == g then Reported(f, r, now, handle) else f
    case Fires(fired) => Expire(f, fired)
  }

  function TaggedStep(t: TaggedGauge, step: GaugeStep): (u: TaggedGauge)
    requires Located(t)
    ensures Located(u)
  {
    match step
    case Reports(tag, r, now, handle) => ReportedTagged(t, tag, r, now, handle)
    case Fires(fired) => ExpireTagged(t, fired)
  }

  /** The gauge that gets only the reports of tag `g`. */
  function UntaggedRun(steps: seq<GaugeStep>, g: Tag): Gauge {
    if steps == [] then Empty() else UntaggedStep(UntaggedRun(steps[..|steps| - 1], g), steps[|steps| - 1], g)
  }

  function TaggedRun(steps: seq<GaugeStep>): (t: TaggedGauge)
    ensures Located(t)
  {
    if steps == [] then Tagged(map[], [], map[]) else TaggedStep(TaggedRun(steps[..|steps| - 1]), steps[|steps| - 1])
  }

  /** No report comes with the handle of a timer that is pending then. */
  predicate NewHandles(steps: seq<GaugeStep>) {
    steps != [] ==>
      var before, step := steps[..|steps| - 1], steps[|steps| - 1];
      NewHandles(before) && (step.Reports? ==> step.handle !in TaggedRun(before).timers)
  }

  lemma OneStepMore(steps: seq<GaugeStep>, step: GaugeStep)
    ensures TaggedRun(steps + [step]) == TaggedStep(TaggedRun(steps), step)
    ensures NewHandles(steps) && (step.Reports? ==> step.handle !in TaggedRun(steps).timers) ==>
      NewHandles(steps + [step])
  {
    assert (steps + [step])[..|steps|] == steps;
  }

  lemma ReportedTaggedRefines(t: TaggedGauge, tag: Tag, r: Report, now: int, id: TimerId)
    requires TaggedOk(t) && id !in t.timers && GaugeOk(Of(t, tag))
    ensures TaggedOk(ReportedTagged(t, tag, r, now, id))
    ensures forall g ::
      Of(ReportedTagged(t, tag, r, now, id), g) == (if g == tag then Reported(Of(t, tag), r, now, id) else Of(t, g))
  {
    if !TimedOut(r, now) && !TooOld(Of(t, tag).values, r) {
      var u := EnsureTag(t, tag);
      var values := u.inners[u.tags[tag]];
      assert values == Of(t, tag).values;
      assert PutTagged(u, tag, r.key, Reading(r.value, r.time, id), OldTimer(values, r.key), id) ==
        PutTagged(t, tag, r.key, Reading(r.value, r.time, id), OldTimer(values, r.key), id);
      PutTaggedRefines(t, tag, r.key, Reading(r.value, r.time, id), OldTimer(values, r.key), id);
    }
  }

  lemma TaggedStepRefines(t: TaggedGauge, step: GaugeStep)
    requires Located(t) && TaggedOk(t) && (step.Reports? ==> step.handle !in t.timers) && forall g :: GaugeOk(Of(t, g))
    ensures TaggedOk(TaggedStep(t, step))
    ensures forall g ::
      Of(TaggedStep(t, step), g) == UntaggedStep(Of(t, g), step, g) &&
      GaugeOk(UntaggedStep(Of(t, g), step, g))
  {
    hide TaggedOk, GaugeOk, Reported, ReportedTagged, Expire, ExpireTagged;
    match step
    case Reports(tag, r, now, handle) =>
      ReportedTaggedRefines(t, tag, r, now, handle);
      OnlyPending(t, tag, handle);
      ReportedKeepsOk(Of(t, tag), r, now, handle);
    case Fires(fired) =>
      ExpireTaggedRefines(t, fired);
      forall g
        ensures GaugeOk(Expire(Of(t, g), fired))
      {
        ExpireKeepsOk(Of(t, g), fired);
      }
  }

  lemma NothingTagged(g: Tag)
    ensures var none: TaggedGauge := Tagged(map[], [], map[]);
      TaggedOk(none) && Of(none, g) == Empty() && GaugeOk(Empty())
  {
    var none: TaggedGauge := Tagged(map[], [], map[]);
    forall h
      ensures Of(none, h) == Empty()
    {
      assert Of(none, h).timers == map[];
    }
  }

  /**
   After any reports and timer firings, a tagged collector is, tag by tag, the
   untagged collector of that tag's reports; no tag is left with an empty inner map,
   and live entries and pending timers correspond one to one.
   */
  lemma {:induction false} TaggedIsAFamily(steps: seq<GaugeStep>)
    requires NewHandles(steps)
    ensures TaggedOk(TaggedRun(steps))
    ensures forall g :: Of(TaggedRun(steps), g) == UntaggedRun(steps, g) && GaugeOk(UntaggedRun(steps, g))
  {
    hide TaggedOk, GaugeOk, Of, TaggedStep, UntaggedStep;
    if steps == [] {
      NothingTagged("");
      forall g
        ensures Of(TaggedRun(steps), g) == UntaggedRun(steps, g) && GaugeOk(UntaggedRun(steps, g))
      {
        NothingTagged(g);
      }
    } else {
      var n := |steps| - 1;
      TaggedIsAFamily(steps[..n]);
      TaggedStepRefines(TaggedRun(steps[..n]), steps[n]);
    }
  }

  // ---------- what is current ----------

  /**
   What tag `g` shows, by the reports alone: a report that comes before its timeout and is
   newer than what its key shows replaces it, and the firing of its own timer removes it.
   */
  function Current(steps: seq<GaugeStep>, g: Tag): map<Key, Reading> {
    if steps == [] then map[]
    else
      var before := Current(steps[..|steps| - 1], g);
      match steps[|steps| - 1]
      case Reports(tag, r, now, handle) =>
        if tag == g && now < r.time + r.timeout && (r.key in before ==> before[r.key].time < r.time)
        then before[r.key := Reading(r.value, r.time, handle)]
        else before
      case Fires(id) => map k | k in before && before[k].timer != id :: before[k]
  }

  lemma ExpireIsOwn(f: Gauge, id: TimerId)
    requires GaugeOk(f)
    ensures Expire(f, id).values == map k | k in f.values && f.values[k].timer != id :: f.values[k]
  {
    if id in f.timers {
      assert f.timers[id] in f.timers.Values;
    }
  }

  /** In every run each tag shows exactly what is current. */
  lemma {:induction false} TagShowsWhatIsCurrent(steps: seq<GaugeStep>, g: Tag)
    requires NewHandles(steps)
    ensures UntaggedRun(steps, g).values == Current(steps, g)
    ensures Of(TaggedRun(steps), g).values == Current(steps, g)
    ensures g in TaggedRun(steps).tags <==> Current(steps, g) != map[]
  {
    TaggedIsAFamily(steps);
    UntaggedIsCurrent(steps, g);
    hide GaugeOk, TaggedRun, UntaggedRun, Current;
    assert Of(TaggedRun(steps), g) == UntaggedRun(steps, g);
  }

  lemma {:induction false} UntaggedIsCurrent(steps: seq<GaugeStep>, g: Tag)
    requires NewHandles(steps)
    ensures UntaggedRun(steps, g).values == Current(steps, g)
  {
    if steps != [] {
      var n := |steps| - 1;
      UntaggedIsCurrent(steps[..n], g);
      TaggedIsAFamily(steps[..n]);
      hide GaugeOk, TaggedOk, TaggedRun, Of;
      if steps[n].Fires? {
        ExpireIsOwn(UntaggedRun(steps[..n], g), steps[n].id);
      }
    }
  }

  lemma ReportedTags(t: TaggedGauge, tag: Tag, r: Report, now: int, id: TimerId)
    requires Located(t)
    ensures ReportedTagged(t, tag, r, now, id).tags == if TimedOut(r, now) then t.tags else EnsureTag(t, tag).tags
    ensures forall x | x in ReportedTagged(t, tag, r, now, id).timers ::
      x in t.timers || (x == id && IsStored(t, tag, r, now))
  {
    hide TimersOf;
  }

  lemma ReportedTaggedLists(t: TaggedGauge, order: seq<Tag>, tag: Tag, r: Report, now: int, id: TimerId)
    requires Located(t) && Lists(order, t.tags)
    ensures var u := ReportedTagged(t, tag, r, now, id);
      && Lists(Inserted(order, tag, TimedOut(r, now)), u.tags)
      && (forall x | x in u.timers :: x in t.timers || (x == id && IsStored(t, tag, r, now)))
  {
    hide Lists, ReportedTagged, TimedOut, EnsureTag;
    ReportedTags(t, tag, r, now, id);
    InsertedLists(t, order, tag);
  }

  /** The state is where a run with new timer handles leads, and timer handles to come are new. */
  ghost predicate Reached(t: TaggedGauge, order: seq<Tag>, nextTimer: TimerId, steps: seq<GaugeStep>) {
    && NewHandles(steps) && t == TaggedRun(steps)
    && (forall id | id in t.timers :: id < nextTimer)
    && Lists(order, t.tags)
  }

  lemma ReportReaches(t: TaggedGauge, order: seq<Tag>, next: TimerId, steps: seq<GaugeStep>, tag: Tag, r: Report,
                      now: int)
    requires Reached(t, order, next, steps) && Located(t)
    ensures Reached(ReportedTagged(t, tag, r, now, next), Inserted(order, tag, TimedOut(r, now)),
                    next + if IsStored(t, tag, r, now) then 1 else 0, steps + [Reports(tag, r, now, next)])
  {
    hide TaggedRun, NewHandles, Lists, ReportedTagged, Inserted, IsStored, Located;
    OneStepMore(steps, Reports(tag, r, now, next));
    ReportedTaggedLists(t, order, tag, r, now, next);
  }

  lemma FireReaches(t: TaggedGauge, order: seq<Tag>, next: TimerId, steps: seq<GaugeStep>, id: TimerId)
    requires Reached(t, order, next, steps) && Located(t)
    ensures Reached(ExpireTagged(t, id), OrderAfter(t, order, id), next, steps + [Fires(id)])
  {
    hide TaggedRun, NewHandles, Lists, ExpireTagged, OrderAfter, Located;
    OneStepMore(steps, Fires(id));
    ExpireTaggedLists(t, order, id);
  }

  lemma ReachedLocated(t: TaggedGauge, order: seq<Tag>, next: TimerId, steps: seq<GaugeStep>)
    requires Reached(t, order, next, steps)
    ensures Located(t) && Lists(order, t.tags)
  {
  }

  // ---------- the collectors ----------

  class GaugeCollector {
    var values: map<Key, Reading>
    var timers: map<TimerId, Key>
    var nextTimer: TimerId

    ghost function Model(): Gauge
      reads this
    {
      Flat(values, timers)
    }

    /** Entries and pending timers match, and timer handles to come are new. */
    ghost predicate Valid()
      reads this
    {
      GaugeOk(Model()) && forall id | id in timers :: id < nextTimer
    }

    constructor ()
      ensures Valid() && Model() == Empty()
    {
      values, timers, nextTimer := map[], map[], 0;
    }

    method ReceiveReport(r: Report, now: int)
      requires Valid()
      modifies this
      ensures Valid() && Model() == Reported(old(Model()), r, now, old(nextTimer))
      ensures nextTimer == old(nextTimer) + if TimedOut(r, now) || TooOld(old(values), r) then 0 else 1
    {
      ReportedKeepsOk(Model(), r, now, nextTimer);
      hide GaugeOk;
      if r.time + r.timeout <= now {
        return;
      }
      if r.key in values && values[r.key].time >= r.time {
        return;
      }
      if r.key in values {
        timers := timers - {values[r.key].timer};
      }
      timers := timers[nextTimer := r.key];
      values := values[r.key := Reading(r.value, r.time, nextTimer)];
      nextTimer := nextTimer + 1;
      assert Model() == Reported(old(Model()), r, now, old(nextTimer));
    }

    method TimerFires(id: TimerId)
      requires Valid()
      modifies this`values, this`timers
      ensures Valid() && Model() == Expire(old(Model()), id)
    {
      ExpireKeepsOk(Model(), id);
      hide GaugeOk;
      if id in timers {
        values := values - {timers[id]};
        timers := timers - {id};
      }
    }

    method Resolve() returns (sum: int, count: nat)
      ensures sum == Sum(Values(values)) && count == |values|
      ensures forall keys | Enumerates(keys, values.Keys) :: sum == SumAlong(values, keys)
    {
      sum := SumValues(values);
      count := |values|;
    }
  }

  class GaugeTaggedCollector {
    var tags: map<Tag, nat>
    var order: seq<Tag>
    var inners: seq<map<Key, Reading>>
    var timers: map<TimerId, Timer<Key>>
    var nextTimer: TimerId
    ghost var steps: seq<GaugeStep>

    ghost function Model(): TaggedGauge
      reads this
    {
      Tagged(tags, inners, timers)
    }

    ghost predicate Valid()
      reads this
      ensures Valid() ==> Located(Model())
    {
      Reached(Model(), order, nextTimer, steps)
    }

    constructor ()
      ensures Valid() && steps == [] && Model() == Tagged(map[], [], map[]) && order == []
    {
      tags, order, inners, timers, nextTimer, steps := map[], [], [], map[], 0, [];
    }

    /** The body of `report`. */
    method TakeIn(tag: Tag, r: Report, now: int)
      requires Located(Model()) && Lists(order, tags)
      modifies this`tags, this`order, this`inners, this`timers, this`nextTimer
      ensures Model() == ReportedTagged(old(Model()), tag, r, now, old(nextTimer))
      ensures order == Inserted(old(order), tag, TimedOut(r, now))
      ensures nextTimer == old(nextTimer) + if IsStored(old(Model()), tag, r, now) then 1 else 0
    {
      assert tag in order <==> tag in tags;
      hide Lists, TimersOf;
      if r.time + r.timeout <= now {
        return;
      }
      if tag !in tags {
        tags := tags[tag := |inners|];
        inners := inners + [map[]];
        order := order + [tag];
      }
      assert Model() == EnsureTag(old(Model()), tag);
      var inner := tags[tag];
      var values := inners[inner];
      if r.key in values && values[r.key].time >= r.time {
        return;
      }
      if r.key in values {
        timers := timers - {values[r.key].timer};
      }
      timers := timers[nextTimer := Timer(inner, tag, r.key)];
      inners := inners[inner := values[r.key := Reading(r.value, r.time, nextTimer)]];
      nextTimer := nextTimer + 1;
    }

    method ReceiveReport(tag: Tag, r: Report, now: int)
      requires Valid()
      modifies this
      ensures Valid() && steps == old(steps) + [Reports(tag, r, now, old(nextTimer))]
      ensures Model() == ReportedTagged(old(Model()), tag, r, now, old(nextTimer))
      ensures order == Inserted(old(order), tag, TimedOut(r, now))
      ensures nextTimer == old(nextTimer) + if IsStored(old(Model()), tag, r, now) then 1 else 0
    {
      hide Reached, Lists, ReportedTagged, Inserted, IsStored, Located, TimedOut;
      ReachedLocated(Model(), order, nextTimer, steps);
      ReportReaches(Model(), order, nextTimer, steps, tag, r, now);
      TakeIn(tag, r, now);
      steps := steps + [Reports(tag, r, now, old(nextTimer))];
    }

    /** The body of a timer. */
    method Fire(id: TimerId)
      requires Located(Model())
      modifies this`tags, this`order, this`inners, this`timers
      ensures Model() == ExpireTagged(old(Model()), id)
      ensures order == OrderAfter(old(Model()), old(order), id)
    {
      if id in timers {
        var x := timers[id];
        inners := inners[x.inner := inners[x.inner] - {x.key}];
        if inners[x.inner] == map[] {
          if x.tag in tags {
            order := Deleted(order, x.tag);
          }
          tags := tags - {x.tag};
        }
        timers := timers - {id};
      }
    }

    method TimerFires(id: TimerId)
      requires Valid()
      modifies this
      ensures Valid() && steps == old(steps) + [Fires(id)] && nextTimer == old(nextTimer)
      ensures Model() == ExpireTagged(old(Model()), id)
      ensures order == OrderAfter(old(Model()), old(order), id)
    {
      hide Reached, Lists, ExpireTagged, OrderAfter, Located;
      ReachedLocated(Model(), order, nextTimer, steps);
      FireReaches(Model(), order, nextTimer, steps, id);
      Fire(id);
      steps := steps + [Fires(id)];
    }

    /** One sum and count per tag, in the order the tags were inserted. */
    method Resolve() returns (r: seq<(Tag, int, nat)>)
      requires Valid()
      ensures |r| == |order|
      ensures forall i | 0 <= i < |order| ::
        var values := Of(TaggedRun(steps), order[i]).values;
        r[i] == (order[i], Sum(Values(values)), |values|)
      ensures forall i | 0 <= i < |order| ::
        var current := Current(steps, order[i]);
        && r[i].0 == order[i] && r[i].2 == |current|
        && forall keys | Enumerates(keys, current.Keys) :: r[i].1 == SumAlong(current, keys)
    {
      hide Sum, Values, TaggedRun, Current, SumAlong;
      r := [];
      for n := 0 to |order|
        invariant |r| == n
        invariant forall i | 0 <= i < n ::
          var values := Of(Model(), order[i]).values;
          r[i] == (order[i], Sum(Values(values)), |values|)
      {
        var k := order[n];
        assert k in order;
        var values := inners[tags[k]];
        var sum := SumValues(values);
        r := r + [(k, sum, |values|)];
      }
      forall i | 0 <= i < |order|
        ensures Of(Model(), order[i]).values == Current(steps, order[i])
        ensures forall keys | Enumerates(keys, Current(steps, order[i]).Keys) ::
          Sum(Values(Current(steps, order[i]))) == SumAlong(Current(steps, order[i]), keys)
      {
        TagShowsWhatIsCurrent(steps, order[i]);
        AnyOrder(Current(steps, order[i]));
      }
    }
  }

  // ---------- reports converge ----------

  /** A report, the moment it is taken in, and the handle of the timer it may start. */
  datatype Arrival = Arrival(report: Report, now: int, handle: TimerId)

  function ReportRun(f: Gauge, arrivals: seq<Arrival>): Gauge {
    if arrivals == [] then f
    else
      var n := |arrivals| - 1;
      Reported(ReportRun(f, arrivals[..n]), arrivals[n].report, arrivals[n].now, arrivals[n].handle)
  }

  /** A value with its time, as one candidate for what a key shows. */
  datatype Dated = Dated(value: int, time: int)

  function Shown(f: Gauge): map<Key, Dated> {
    map k | k in f.values :: Dated(f.values[k].value, f.values[k].time)
  }

  /** Something that was there for `key`, or that a report offers. */
  ghost predicate IsCandidate(f: Gauge, reports: multiset<Report>, key: Key, d: Dated) {
    || (key in Shown(f) && Shown(f)[key] == d)
    || exists r | r in reports :: r.key == key && d == Dated(r.value, r.time)
  }

  ghost function Candidates(f: Gauge, reports: multiset<Report>, key: Key): iset<Dated> {
    iset d: Dated | IsCandidate(f, reports, key, d)
  }

  ghost predicate Latest(candidates: iset<Dated>, d: Dated) {
    d in candidates && forall e | e in candidates :: e.time <= d.time
  }

  ghost function Taken(arrivals: seq<Arrival>): multiset<Report> {
    if arrivals == [] then multiset{}
    else Taken(arrivals[..|arrivals| - 1]) + multiset{arrivals[|arrivals| - 1].report}
  }

  ghost predicate AllFresh(arrivals: seq<Arrival>) {
    forall i | 0 <= i < |arrivals| :: arrivals[i].now < arrivals[i].report.time + arrivals[i].report.timeout
  }

  /** `shown` is what the candidates call for: a latest one, or nothing if there are none. */
  ghost predicate Reflects(shown: Option<Dated>, candidates: iset<Dated>) {
    match shown
    case Some(d) => Latest(candidates, d)
    case None => candidates == iset{}
  }

  function ShownAt(f: Gauge, key: Key): Option<Dated> {
    if key in f.values then Some(Dated(f.values[key].value, f.values[key].time)) else None
  }

  lemma OneMoreCandidate(f: Gauge, reports: multiset<Report>, r: Report, key: Key)
    ensures Candidates(f, reports + multiset{r}, key) ==
      Candidates(f, reports, key) + if r.key == key then iset{Dated(r.value, r.time)} else iset{}
  {
    var before, after := Candidates(f, reports, key), Candidates(f, reports + multiset{r}, key);
    forall d: Dated
      ensures d in after <==> d in before || (r.key == key && d == Dated(r.value, r.time))
    {
      assert r in reports + multiset{r};
    }
  }

  lemma ReportedReflects(f: Gauge, r: Report, now: int, id: TimerId, key: Key, candidates: iset<Dated>)
    requires !TimedOut(r, now) && Reflects(ShownAt(f, key), candidates)
    ensures Reflects(ShownAt(Reported(f, r, now, id), key),
                     candidates + if r.key == key then iset{Dated(r.value, r.time)} else iset{})
  {
  }

  /** Each key ends up showing a latest candidate, and a key without candidates shows nothing. */
  lemma {:induction false} ShowsLatest(f: Gauge, arrivals: seq<Arrival>, key: Key)
    requires AllFresh(arrivals)
    ensures Reflects(ShownAt(ReportRun(f, arrivals), key), Candidates(f, Taken(arrivals), key))
  {
    if arrivals != [] {
      hide Reflects, Candidates, Reported, ShownAt;
      var n := |arrivals| - 1;
      var r := arrivals[n].report;
      ShowsLatest(f, arrivals[..n], key);
      OneMoreCandidate(f, Taken(arrivals[..n]), r, key);
      ReportedReflects(ReportRun(f, arrivals[..n]), r, arrivals[n].now, arrivals[n].handle, key,
                       Candidates(f, Taken(arrivals[..n]), key));
    }
  }

  /** No two candidates of a key carry the same time. */
  ghost predicate DistinctTimes(f: Gauge, reports: multiset<Report>) {
    forall key :: OnePerTime(Candidates(f, reports, key))
  }

  ghost predicate OnePerTime(candidates: iset<Dated>) {
    forall d, e | d in candidates && e in candidates && d.time == e.time :: d == e
  }

  /**
   Fresh reports with distinct times per key converge: taken in any order, at any
   moments while they are fresh, they leave the same contents, hence the same sum
   and count.
   */
  lemma ReportsConverge(f: Gauge, a: seq<Arrival>, b: seq<Arrival>)
    requires AllFresh(a) && AllFresh(b) && Taken(a) == Taken(b) && DistinctTimes(f, Taken(a))
    ensures var x, y := ReportRun(f, a), ReportRun(f, b);
      Shown(x) == Shown(y) && Sum(Values(x.values)) == Sum(Values(y.values)) && |x.values| == |y.values|
  {
    var x, y := ReportRun(f, a), ReportRun(f, b);
    forall key
      ensures key in Shown(x) <==> key in Shown(y)
      ensures key in Shown(x) ==> Shown(x)[key] == Shown(y)[key]
    {
      ShowsLatest(f, a, key);
      ShowsLatest(f, b, key);
      assert OnePerTime(Candidates(f, Taken(a), key));
    }
    assert Shown(x) == Shown(y);
    assert forall k | k in x.values :: k in Shown(x) && Shown(x)[k].value == x.values[k].value;
    assert forall k | k in y.values :: k in Shown(y) && Shown(y)[k].value == y.values[k].value;
    assert Values(x.values) == Values(y.values);
    assert x.values.Keys == Shown(x).Keys && y.values.Keys == Shown(y).Keys;
    assert |x.values| == |x.values.Keys| && |y.values| == |y.values.Keys|;
  }

}
