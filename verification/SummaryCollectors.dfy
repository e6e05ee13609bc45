/**
 Summaries keep every observation for five seconds and report its quantiles. A tagged
 summary numbers its observations across all tags, so it is compared with the untagged
 summaries of its tags by the observations whose timers are pending, not by their
 numbers.
 */
module SummaryCollectors {
  import opened Wrappers
  import opened ExpiringMaps
  import opened Quantiles
  import opened SummaryResolve

  const WINDOW := 5000

  datatype Summary = Summary(flat: Flat<nat, int>, lastObservation: nat)

  datatype TaggedSummary = TaggedSummary(tagged: Tagged<nat, int>, lastObservation: nat)

  datatype Observation = Observation(value: int, time: int, now: int)

  predicate TimedOut(o: Observation) {
    o.time + WINDOW <= o.now
  }

  function Observed(s: Summary, o: Observation, id: TimerId): Summary {
    if TimedOut(o) then s
    else Summary(Put(s.flat, s.lastObservation, o.value, None, id), s.lastObservation + 1)
  }

  function ObservedTagged(s: TaggedSummary, tag: Tag, o: Observation, id: TimerId): TaggedSummary
    requires Located(s.tagged)
  {
    if TimedOut(o) then s
    else TaggedSummary(PutTagged(s.tagged, tag, s.lastObservation, o.value, None, id), s.lastObservation + 1)
  }

  // ---------- a tagged summary is one summary per tag ----------

  /** A report comes with the handle that the timer it may start will have. */
  datatype SummaryStep = Reports(tag: Tag, observation: Observation, handle: TimerId) | Fires(id: TimerId)

  function UntaggedStep(s: Summary, step: SummaryStep, g: Tag): Summary {
    match step
    case Reports(tag, o, handle) => if tag == g then Observed(s, o, handle) else s
    case Fires(fired) => s.(flat := Expire(s.flat, fired))
  }

  function TaggedStep(s: TaggedSummary, step: SummaryStep): (u: TaggedSummary)
    requires Located(s.tagged)
    ensures Located(u.tagged)
  {
    match step
    case Reports(tag, o, handle) => ObservedTagged(s, tag, o, handle)
    case Fires(fired) => s.(tagged := ExpireTagged(s.tagged, fired))
  }

  /** The summary that gets only the reports of tag `g`. */
  function UntaggedRun(steps: seq<SummaryStep>, g: Tag): Summary {
    if steps == [] then Summary(Empty(), 0)
    else UntaggedStep(UntaggedRun(steps[..|steps| - 1], g), steps[|steps| - 1], g)
  }

  function TaggedRun(steps: seq<SummaryStep>): (s: TaggedSummary)
    ensures Located(s.tagged)
  {
    if steps == [] then TaggedSummary(Tagged(map[], [], map[]), 0)
    else TaggedStep(TaggedRun(steps[..|steps| - 1]), steps[|steps| - 1])
  }

  /** No report comes with the handle of a timer that is pending then. */
  predicate NewHandles(steps: seq<SummaryStep>) {
    steps != [] ==>
      var before, step := steps[..|steps| - 1], steps[|steps| - 1];
      NewHandles(before) && (step.Reports? ==> step.handle !in TaggedRun(before).tagged.timers)
  }

  lemma OneStepMore(steps: seq<SummaryStep>, step: SummaryStep)
    ensures TaggedRun(steps + [step]) == TaggedStep(TaggedRun(steps), step)
    ensures NewHandles(steps) && (step.Reports? ==> step.handle !in TaggedRun(steps).tagged.timers) ==>
      NewHandles(steps + [step])
  {
    assert (steps + [step])[..|steps|] == steps;
  }

  /** The observations that will still expire, by their timers. */
  function Live(f: Flat<nat, int>): map<TimerId, int> {
    map id | id in f.timers && f.timers[id] in f.values :: f.values[f.timers[id]]
  }

  /** Entries and timers match, and no observation number is ahead of the counter. */
  ghost predicate SummaryOk(f: Flat<nat, int>, lastObservation: nat) {
    OneTimerEach(f) && forall k | k in f.values :: k < lastObservation
  }

  lemma PutLive(f: Flat<nat, int>, last: nat, v: int, id: TimerId)
    requires SummaryOk(f, last) && id !in f.timers
    ensures SummaryOk(Put(f, last, v, None, id), last + 1)
    ensures Live(Put(f, last, v, None, id)) == Live(f)[id := v]
  {
    PutKeepsTimers(f, last, v, None, id);
    forall a | a in f.timers
      ensures f.timers[a] != last
    {
      assert f.timers[a] in f.timers.Values;
    }
  }

  lemma ExpireLive(f: Flat<nat, int>, last: nat, id: TimerId)
    requires SummaryOk(f, last)
    ensures SummaryOk(Expire(f, id), last)
    ensures Live(Expire(f, id)) == Live(f) - {id}
  {
    ExpireKeepsTimers(f, id);
  }

  lemma TimerOf(f: Flat<nat, int>, k: nat) returns (a: TimerId)
    requires OneTimerEach(f) && k in f.values
    ensures a in f.timers && f.timers[a] == k
  {
    assert k in f.timers.Values;
    a :| a in f.timers && f.timers[a] == k;
  }

  /** The samples of a summary are those of its live observations, however they are numbered. */
  lemma {:induction false} SamplesAreLive(f: Flat<nat, int>, last: nat)
    requires SummaryOk(f, last)
    ensures Samples(f.values) == Samples(Live(f))
    decreases |f.values|
  {
    if f.values == map[] {
      assert Live(f) == map[];
    } else {
      var k := SomeElement(f.values.Keys);
      var a := TimerOf(f, k);
      ExpireLive(f, last, a);
      SamplesAreLive(Expire(f, a), last);
      hide Insert, Samples;
      SamplesWithout(f.values, k);
      SamplesWithout(Live(f), a);
    }
  }

  /** The tagged state `s` and the untagged state `u` of tag `g` hold the same observations. */
  ghost predicate SameAt(s: TaggedSummary, u: Summary, g: Tag)
    requires Located(s.tagged)
  {
    && SummaryOk(Of(s.tagged, g), s.lastObservation)
    && SummaryOk(u.flat, u.lastObservation)
    && Live(Of(s.tagged, g)) == Live(u.flat)
  }

  lemma LiveTimers(f: Flat<nat, int>, last: nat)
    requires SummaryOk(f, last)
    ensures f.timers.Keys == Live(f).Keys
  {
    assert forall a | a in f.timers :: f.timers[a] in f.timers.Values;
  }

  lemma StepSameAt(s: TaggedSummary, u: Summary, step: SummaryStep, g: Tag)
    requires TaggedOk(s.tagged) && SameAt(s, u, g) && (step.Reports? ==> step.handle !in s.tagged.timers)
    requires step.Reports? ==> SummaryOk(Of(s.tagged, step.tag), s.lastObservation)
    ensures SameAt(TaggedStep(s, step), UntaggedStep(u, step, g), g)
  {
    hide TagsOk, Live, OneTimerEach, Put, PutTagged, Expire, ExpireTagged;
    match step
    case Reports(tag, o, id) =>
      if !TimedOut(o) {
        PutTaggedRefines(s.tagged, tag, s.lastObservation, o.value, None, id);
        OnlyPending(s.tagged, g, id);
        LiveTimers(Of(s.tagged, g), s.lastObservation);
        LiveTimers(u.flat, u.lastObservation);
        if tag == g {
          PutLive(Of(s.tagged, g), s.lastObservation, o.value, id);
          PutLive(u.flat, u.lastObservation, o.value, id);
        }
      }
    case Fires(fired) =>
      ExpireTaggedRefines(s.tagged, fired);
      ExpireLive(Of(s.tagged, g), s.lastObservation, fired);
      ExpireLive(u.flat, u.lastObservation, fired);
  }

  lemma StepTaggedOk(s: TaggedSummary, step: SummaryStep)
    requires TaggedOk(s.tagged) && (step.Reports? ==> step.handle !in s.tagged.timers)
    requires step.Reports? ==> SummaryOk(Of(s.tagged, step.tag), s.lastObservation)
    ensures TaggedOk(TaggedStep(s, step).tagged)
  {
    hide TaggedOk, Of, OneTimerEach, PutTagged, ExpireTagged;
    match step
    case Reports(tag, o, id) =>
      if !TimedOut(o) {
        PutTaggedRefines(s.tagged, tag, s.lastObservation, o.value, None, id);
      }
    case Fires(fired) => ExpireTaggedRefines(s.tagged, fired);
  }

  lemma NothingTagged(g: Tag)
    ensures var none := TaggedRun([]);
      TaggedOk(none.tagged) && SameAt(none, UntaggedRun([], g), g)
  {
    var none := TaggedRun([]).tagged;
    forall h
      ensures Of(none, h) == Empty()
    {
      assert Of(none, h).timers == map[];
    }
  }

  /**
   After any reports and timer firings, a tagged summary holds under each tag exactly the
   observations that an untagged summary of that tag's reports holds, one pending timer
   each, and no tag is left with an empty inner map.
   */
  lemma {:induction false} TaggedSummaryIsAFamily(steps: seq<SummaryStep>)
    requires NewHandles(steps)
    ensures TaggedOk(TaggedRun(steps).tagged)
    ensures forall g :: SameAt(TaggedRun(steps), UntaggedRun(steps, g), g)
  {
    hide TaggedOk, SummaryOk, Live, Of, TaggedStep, UntaggedStep;
    if steps == [] {
      NothingTagged("");
      forall g
        ensures SameAt(TaggedRun(steps), UntaggedRun(steps, g), g)
      {
        NothingTagged(g);
      }
    } else {
      var n := |steps| - 1;
      TaggedSummaryIsAFamily(steps[..n]);
      var before := TaggedRun(steps[..n]);
      if steps[n].Reports? {
        assert SameAt(before, UntaggedRun(steps[..n], steps[n].tag), steps[n].tag);
      }
      StepTaggedOk(before, steps[n]);
      forall g
        ensures SameAt(TaggedRun(steps), UntaggedRun(steps, g), g)
      {
        StepSameAt(before, UntaggedRun(steps[..n], g), steps[n], g);
      }
    }
  }

  /** So a tag shows what its own summary would show, and a tag is listed iff that summary has samples. */
  lemma TagShowsItsOwnSummary(steps: seq<SummaryStep>, g: Tag, quantiles: seq<Ratio>)
    requires NewHandles(steps)
    requires forall q | q in quantiles :: IsQuantile(q)
    ensures var tagged, own := TaggedRun(steps).tagged, UntaggedRun(steps, g).flat.values;
      && Shown(Samples(Of(tagged, g).values), quantiles) == Shown(Samples(own), quantiles)
      && (g in tagged.tags <==> Samples(own) != [])
  {
    TaggedSummaryIsAFamily(steps);
    hide Shown, Live, OneTimerEach;
    var s, u := TaggedRun(steps), UntaggedRun(steps, g);
    assert SameAt(s, u, g);
    SamplesAreLive(Of(s.tagged, g), s.lastObservation);
    SamplesAreLive(u.flat, u.lastObservation);
    SamplesAscend(u.flat.values);
    SamplesAscend(Of(s.tagged, g).values);
  }

  // ---------- what remains of the reports ----------

  /**
   The observations reported for `g` less than five seconds after their time, whose timers
   have not fired, by the handles of those timers.
   */
  function Remaining(steps: seq<SummaryStep>, g: Tag): map<TimerId, int> {
    if steps == [] then map[]
    else
      var before := Remaining(steps[..|steps| - 1], g);
      match steps[|steps| - 1]
      case Reports(tag, o, handle) => if tag == g && o.now < o.time + 5000 then before[handle := o.value] else before
      case Fires(id) => before - {id}
  }

  lemma StepRemains(u: Summary, step: SummaryStep, g: Tag)
    requires SummaryOk(u.flat, u.lastObservation) && (step.Reports? ==> step.handle !in u.flat.timers)
    ensures Live(UntaggedStep(u, step, g).flat) ==
      match step
      case Reports(tag, o, handle) =>
        if tag == g && o.now < o.time + 5000 then Live(u.flat)[handle := o.value] else Live(u.flat)
      case Fires(id) => Live(u.flat) - {id}
  {
    match step
    case Reports(tag, o, handle) =>
      if tag == g && !TimedOut(o) {
        PutLive(u.flat, u.lastObservation, o.value, handle);
      }
    case Fires(id) => ExpireLive(u.flat, u.lastObservation, id);
  }

  /** An untagged summary holds exactly what remains of the reports it got. */
  lemma {:induction false} UntaggedIsRemaining(steps: seq<SummaryStep>, g: Tag)
    requires NewHandles(steps)
    ensures Live(UntaggedRun(steps, g).flat) == Remaining(steps, g)
  {
    if steps == [] {
      assert Live(Empty()) == map[];
    } else {
      hide SummaryOk, Live, Of, TaggedStep, UntaggedStep;
      var n := |steps| - 1;
      UntaggedIsRemaining(steps[..n], g);
      TaggedSummaryIsAFamily(steps[..n]);
      var s, u := TaggedRun(steps[..n]), UntaggedRun(steps[..n], g);
      assert SameAt(s, u, g);
      LiveTimers(Of(s.tagged, g), s.lastObservation);
      LiveTimers(u.flat, u.lastObservation);
      if steps[n].Reports? {
        OnlyPending(s.tagged, g, steps[n].handle);
      }
      StepRemains(u, steps[n], g);
    }
  }

  /**
   In every run a tag shows a summary of exactly the observations that remain of its
   reports, and is listed iff there are any.
   */
  lemma TagSummarizesWhatRemains(steps: seq<SummaryStep>, g: Tag, quantiles: seq<Ratio>)
    requires NewHandles(steps)
    requires forall q | q in quantiles :: IsQuantile(q)
    ensures var tagged := TaggedRun(steps).tagged;
      && Summarizes(Remaining(steps, g), quantiles, Shown(Samples(Of(tagged, g).values), quantiles))
      && (g in tagged.tags <==> Remaining(steps, g) != map[])
  {
    TaggedSummaryIsAFamily(steps);
    UntaggedIsRemaining(steps, g);
    TagShowsItsOwnSummary(steps, g, quantiles);
    hide Shown, Live, OneTimerEach, Summarizes, Samples;
    var u := UntaggedRun(steps, g);
    assert SameAt(TaggedRun(steps), u, g);
    SamplesAreLive(u.flat, u.lastObservation);
    SamplesAscend(Remaining(steps, g));
    ShownSummarizes(Remaining(steps, g), quantiles);
  }

  lemma ObservedTaggedLists(s: TaggedSummary, order: seq<Tag>, tag: Tag, o: Observation, id: TimerId)
    requires Located(s.tagged) && Lists(order, s.tagged.tags)
    ensures var u := ObservedTagged(s, tag, o, id).tagged;
      && Lists(Inserted(order, tag, TimedOut(o)), u.tags)
      && (forall x | x in u.timers :: x in s.tagged.timers || (x == id && !TimedOut(o)))
  {
    InsertedLists(s.tagged, order, tag);
    hide Lists;
    assert !TimedOut(o) ==> ObservedTagged(s, tag, o, id).tagged.tags == EnsureTag(s.tagged, tag).tags;
  }

  /** The state is where a run with new timer handles leads, and timer handles to come are new. */
  ghost predicate Reached(s: TaggedSummary, order: seq<Tag>, nextTimer: TimerId, steps: seq<SummaryStep>) {
    && NewHandles(steps) && s == TaggedRun(steps)
    && (forall id | id in s.tagged.timers :: id < nextTimer)
    && Lists(order, s.tagged.tags)
  }

  lemma ReportReaches(s: TaggedSummary, order: seq<Tag>, next: TimerId, steps: seq<SummaryStep>, tag: Tag,
                      o: Observation)
    requires Reached(s, order, next, steps) && Located(s.tagged)
    ensures Reached(ObservedTagged(s, tag, o, next), Inserted(order, tag, TimedOut(o)),
                    next + if TimedOut(o) then 0 else 1, steps + [Reports(tag, o, next)])
  {
    hide TaggedRun, NewHandles, Lists, ObservedTagged, Inserted, TimedOut, Located;
    OneStepMore(steps, Reports(tag, o, next));
    ObservedTaggedLists(s, order, tag, o, next);
  }

  lemma FireReaches(s: TaggedSummary, order: seq<Tag>, next: TimerId, steps: seq<SummaryStep>, id: TimerId)
    requires Reached(s, order, next, steps) && Located(s.tagged)
    ensures Reached(s.(tagged := ExpireTagged(s.tagged, id)), OrderAfter(s.tagged, order, id), next,
                    steps + [Fires(id)])
  {
    hide TaggedRun, NewHandles, Lists, ExpireTagged, OrderAfter, Located;
    OneStepMore(steps, Fires(id));
    ExpireTaggedLists(s.tagged, order, id);
  }

  lemma ReachedLocated(s: TaggedSummary, order: seq<Tag>, next: TimerId, steps: seq<SummaryStep>)
    requires Reached(s, order, next, steps)
    ensures Located(s.tagged) && Lists(order, s.tagged.tags)
  {
  }

  // ---------- the collectors ----------

  class SummaryCollector {
    var values: map<nat, int>
    var timers: map<TimerId, nat>
    var lastObservation: nat
    var nextTimer: TimerId

    ghost function Model(): Summary
      reads this
    {
      Summary(Flat(values, timers), lastObservation)
    }

    /** Entries and pending timers match, and numbers and timer handles to come are new. */
    ghost predicate Valid()
      reads this
    {
      SummaryOk(Model().flat, lastObservation) && forall id | id in timers :: id < nextTimer
    }

    constructor ()
      ensures Valid() && Model() == Summary(Empty(), 0)
    {
      values, timers, lastObservation, nextTimer := map[], map[], 0, 0;
    }

    method ReceiveReport(o: Observation)
      requires Valid()
      modifies this
      ensures Valid() && Model() == Observed(old(Model()), o, old(nextTimer))
      ensures nextTimer == old(nextTimer) + if TimedOut(o) then 0 else 1
    {
      PutLive(Flat(values, timers), lastObservation, o.value, nextTimer);
      hide SummaryOk, Live;
      if o.time + WINDOW <= o.now {
        return;
      }
      var id := lastObservation;
      lastObservation := lastObservation + 1;
      values := values[id := o.value];
      timers := timers[nextTimer := id];
      nextTimer := nextTimer + 1;
      assert Model() == Observed(old(Model()), o, old(nextTimer));
    }

    method TimerFires(id: TimerId)
      requires Valid()
      modifies this`values, this`timers
      ensures Valid() && Model() == Summary(Expire(old(Model()).flat, id), lastObservation)
    {
      ExpireLive(Flat(values, timers), lastObservation, id);
      hide SummaryOk, Live;
      if id in timers {
        values := values - {timers[id]};
        timers := timers - {id};
      }
    }

    method Resolve(quantiles: seq<Ratio>) returns (r: Resolved)
      requires forall q | q in quantiles :: IsQuantile(q)
      ensures r == Shown(Samples(values), quantiles) && Summarizes(values, quantiles, r)
    {
      r := ResolveValues(values, quantiles);
    }
  }

  class SummaryTaggedCollector {
    var tags: map<Tag, nat>
    var order: seq<Tag>
    var inners: seq<map<nat, int>>
    var timers: map<TimerId, Timer<nat>>
    var lastObservation: nat
    var nextTimer: TimerId
    ghost var steps: seq<SummaryStep>

    ghost function Model(): TaggedSummary
      reads this
    {
      TaggedSummary(Tagged(tags, inners, timers), lastObservation)
    }

    ghost predicate Valid()
      reads this
      ensures Valid() ==> Located(Model().tagged)
    {
      Reached(Model(), order, nextTimer, steps)
    }

    constructor ()
      ensures Valid() && steps == [] && Model() == TaggedSummary(Tagged(map[], [], map[]), 0) && order == []
    {
      tags, order, inners, timers := map[], [], [], map[];
      lastObservation, nextTimer, steps := 0, 0, [];
    }

    /** The body of `report`. */
    method TakeIn(tag: Tag, o: Observation)
      requires Located(Model().tagged) && Lists(order, tags)
      modifies this`tags, this`order, this`inners, this`timers, this`lastObservation, this`nextTimer
      ensures Model() == ObservedTagged(old(Model()), tag, o, old(nextTimer))
      ensures order == Inserted(old(order), tag, TimedOut(o))
      ensures nextTimer == old(nextTimer) + if TimedOut(o) then 0 else 1
    {
      assert tag in order <==> tag in tags;
      hide Lists;
      if o.time + WINDOW <= o.now {
        return;
      }
      var id := lastObservation;
      lastObservation := lastObservation + 1;
      if tag !in tags {
        tags := tags[tag := |inners|];
        inners := inners + [map[]];
        order := order + [tag];
      }
      assert Tagged(tags, inners, timers) == EnsureTag(old(Model().tagged), tag);
      var ex := tags[tag];
      inners := inners[ex := inners[ex][id := o.value]];
      timers := timers[nextTimer := Timer(ex, tag, id)];
      nextTimer := nextTimer + 1;
    }

    method ReceiveReport(tag: Tag, o: Observation)
      requires Valid()
      modifies this
      ensures Valid() && steps == old(steps) + [Reports(tag, o, old(nextTimer))]
      ensures Model() == ObservedTagged(old(Model()), tag, o, old(nextTimer))
      ensures order == Inserted(old(order), tag, TimedOut(o))
      ensures nextTimer == old(nextTimer) + if TimedOut(o) then 0 else 1
    {
      hide Reached, Lists, ObservedTagged, Inserted, TimedOut, Located;
      ReachedLocated(Model(), order, nextTimer, steps);
      ReportReaches(Model(), order, nextTimer, steps, tag, o);
      TakeIn(tag, o);
      steps := steps + [Reports(tag, o, old(nextTimer))];
    }

    /** The body of a timer. */
    method Fire(id: TimerId)
      requires Located(Model().tagged)
      modifies this`tags, this`order, this`inners, this`timers
      ensures Model() == TaggedSummary(ExpireTagged(old(Model()).tagged, id), lastObservation)
      ensures order == OrderAfter(old(Model().tagged), old(order), id)
    {
      if id in timers {
        var x := timers[id];
        inners := inners[x.inner := inners[x.inner] - {x.key}];
        if inners[x.inner] == map[] {
          if x.tag in tags {
            order := Deleted(order, x.tag);
          }
          tags := tags - {x.tag};
        }
        timers := timers - {id};
      }
    }

    method TimerFires(id: TimerId)
      requires Valid()
      modifies this
      ensures Valid() && steps == old(steps) + [Fires(id)] && nextTimer == old(nextTimer)
      ensures Model() == TaggedSummary(ExpireTagged(old(Model()).tagged, id), old(lastObservation))
      ensures order == OrderAfter(old(Model().tagged), old(order), id)
    {
      hide Reached, Lists, ExpireTagged, OrderAfter, Located;
      ReachedLocated(Model(), order, nextTimer, steps);
      FireReaches(Model(), order, nextTimer, steps, id);
      Fire(id);
      steps := steps + [Fires(id)];
    }

    /** One entry per tag, in the order the tags were inserted. */
    method Resolve(quantiles: seq<Ratio>) returns (r: seq<(Tag, Resolved)>)
      requires Valid()
      requires forall q | q in quantiles :: IsQuantile(q)
      ensures |r| == |order|
      ensures forall i | 0 <= i < |order| ::
        r[i] == (order[i], Shown(Samples(Of(TaggedRun(steps).tagged, order[i]).values), quantiles))
      ensures forall i | 0 <= i < |order| ::
        r[i].0 == order[i] && Summarizes(Remaining(steps, order[i]), quantiles, r[i].1)
    {
      hide Shown, Samples, TaggedRun, Summarizes;
      r := [];
      for n := 0 to |order|
        invariant |r| == n
        invariant forall i | 0 <= i < n ::
          r[i] == (order[i], Shown(Samples(Of(Model().tagged, order[i]).values), quantiles))
      {
        var k := order[n];
        assert k in order;
        var resolved := ResolveValues(inners[tags[k]], quantiles);
        r := r + [(k, resolved)];
      }
      forall i | 0 <= i < |order|
        ensures Summarizes(Remaining(steps, order[i]), quantiles, r[i].1)
      {
        TagSummarizesWhatRemains(steps, order[i], quantiles);
      }
    }
  }
}
