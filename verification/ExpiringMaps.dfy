/**
 Maps whose entries are removed by timers, alone and grouped by tag. A tagged
 collector is shown to be a family of untagged ones, one per tag: inner map objects
 are told apart by index, because timers keep referring to the object they were
 started for.
 */
module ExpiringMaps {
  import opened Wrappers

  type TimerId = nat

  /** Live entries, and the pending timers with the key each will delete. */
  datatype Flat<K, V> = Flat(values: map<K, V>, timers: map<TimerId, K>)

  function Empty<K, V>(): Flat<K, V> {
    Flat(map[], map[])
  }

  /** Clears the timer of a replaced entry, stores the entry, and starts its timer. */
  function Put<K, V>(f: Flat<K, V>, key: K, v: V, clear: Option<TimerId>, id: TimerId): Flat<K, V> {
    Flat(f.values[key := v], (f.timers - if clear.Some? then {clear.value} else {})[id := key])
  }

  function Expire<K, V>(f: Flat<K, V>, id: TimerId): Flat<K, V> {
    if id in f.timers then Flat(f.values - {f.timers[id]}, f.timers - {id}) else f
  }

  /** Live entries and pending timers correspond one to one. */
  ghost predicate OneTimerEach<K, V>(f: Flat<K, V>) {
    && f.timers.Values == f.values.Keys
    && forall a, b | a in f.timers && b in f.timers && f.timers[a] == f.timers[b] :: a == b
  }

  /** The timer to clear when `key` is stored: that of the entry it replaces, if any. */
  ghost predicate Clears<K, V>(f: Flat<K, V>, key: K, clear: Option<TimerId>) {
    if key in f.values then clear.Some? && clear.value in f.timers && f.timers[clear.value] == key
    else clear == None
  }

  lemma PutKeepsTimers<K, V>(f: Flat<K, V>, key: K, v: V, clear: Option<TimerId>, id: TimerId)
    requires OneTimerEach(f) && Clears(f, key, clear) && id !in f.timers
    ensures OneTimerEach(Put(f, key, v, clear, id))
  {
    var g := Put(f, key, v, clear, id);
    forall k | k in g.values.Keys
      ensures k in g.timers.Values
    {
      if k == key {
        assert g.timers[id] == key;
      } else {
        var a :| a in f.timers && f.timers[a] == k;
        assert g.timers[a] == k;
      }
    }
    forall a | a in g.timers
      ensures g.timers[a] in g.values
    {
      if a != id {
        assert f.timers[a] in f.timers.Values;
      }
    }
  }

  lemma ExpireKeepsTimers<K, V>(f: Flat<K, V>, id: TimerId)
    requires OneTimerEach(f)
    ensures OneTimerEach(Expire(f, id))
  {
    if id in f.timers {
      var g := Expire(f, id);
      forall k | k in g.values.Keys
        ensures k in g.timers.Values
      {
        var a :| a in f.timers && f.timers[a] == k;
        assert g.timers[a] == k;
      }
      forall a | a in g.timers
        ensures g.timers[a] in g.values
      {
        assert f.timers[a] in f.timers.Values;
      }
    }
  }

  // ---------- grouped by tag ----------

  type Tag = string

  /** What a timer's closure holds: the inner map object, the tag, and the key. */
  datatype Timer<K> = Timer(inner: nat, tag: Tag, key: K)

  /** `inners` are all inner maps ever made; `tags` says which of them a tag has now. */
  datatype Tagged<K, V> = Tagged(tags: map<Tag, nat>, inners: seq<map<K, V>>, timers: map<TimerId, Timer<K>>)

  predicate Located<K, V>(t: Tagged<K, V>) {
    && (forall g | g in t.tags :: t.tags[g] < |t.inners|)
    && (forall id | id in t.timers :: t.timers[id].inner < |t.inners|)
  }

  function EnsureTag<K, V>(t: Tagged<K, V>, tag: Tag): Tagged<K, V> {
    if tag in t.tags then t
    else t.(tags := t.tags[tag := |t.inners|], inners := t.inners + [map[]])
  }

  function PutTagged<K, V>(t: Tagged<K, V>, tag: Tag, key: K, v: V, clear: Option<TimerId>, id: TimerId): Tagged<K, V>
    requires Located(t)
  {
    var u := EnsureTag(t, tag);
    var inner := u.tags[tag];
    u.(inners := u.inners[inner := u.inners[inner][key := v]],
       timers := (u.timers - if clear.Some? then {clear.value} else {})[id := Timer(inner, tag, key)])
  }

  /** A timer deletes its key from its own inner map, and the tag if that map is empty then. */
  function ExpireTagged<K, V>(t: Tagged<K, V>, id: TimerId): Tagged<K, V>
    requires Located(t)
  {
    if id !in t.timers then t
    else
      var x := t.timers[id];
      var rest := t.inners[x.inner] - {x.key};
      Tagged(if rest == map[] then t.tags - {x.tag} else t.tags, t.inners[x.inner := rest], t.timers - {id})
  }

  /** The untagged collector a tag amounts to. */
  function Of<K, V>(t: Tagged<K, V>, tag: Tag): Flat<K, V>
    requires Located(t)
  {
    Flat(if tag in t.tags then t.inners[t.tags[tag]] else map[],
         TimersOf(t.timers, tag))
  }

  /** No tag has an empty inner map, and timers refer to the current inner map of their tag. */
  ghost predicate TagsOk<K, V>(t: Tagged<K, V>)
    requires Located(t)
  {
    && (forall g | g in t.tags :: t.inners[t.tags[g]] != map[])
    && (forall g, h | g in t.tags && h in t.tags && t.tags[g] == t.tags[h] :: g == h)
    && (forall id | id in t.timers ::
          t.timers[id].tag in t.tags && t.tags[t.timers[id].tag] == t.timers[id].inner)
  }

  /** Besides, per tag entries and timers correspond one to one. */
  ghost predicate TaggedOk<K, V>(t: Tagged<K, V>) {
    && Located(t) && TagsOk(t)
    && (forall g :: OneTimerEach(Of(t, g)))
  }

  function TimersOf<K>(timers: map<TimerId, Timer<K>>, tag: Tag): map<TimerId, K> {
    map id | id in timers && timers[id].tag == tag :: timers[id].key
  }

  lemma TimersOfChanged<K>(timers: map<TimerId, Timer<K>>, clear: set<TimerId>, id: TimerId, x: Timer<K>, g: Tag)
    requires forall c | c in clear :: c in timers && timers[c].tag == x.tag
    requires id !in timers
    ensures TimersOf((timers - clear)[id := x], g) ==
      if g == x.tag then (TimersOf(timers, g) - clear)[id := x.key] else TimersOf(timers, g)
  {
    var all := TimersOf((timers - clear)[id := x], g);
    if g == x.tag {
      assert all == (TimersOf(timers, g) - clear)[id := x.key];
    } else {
      assert all == TimersOf(timers, g);
    }
  }

  /** Where a key stored under `tag` goes: its inner map, which no other tag has. */
  lemma PutValues<K, V>(t: Tagged<K, V>, tag: Tag, key: K, v: V, clear: Option<TimerId>, id: TimerId, g: Tag)
    requires Located(t) && TagsOk(t)
    ensures var u := PutTagged(t, tag, key, v, clear, id);
      && (g in u.tags <==> g in t.tags || g == tag)
      && (g in u.tags ==> u.tags[g] < |u.inners|)
      && (g != tag && g in t.tags ==>
            u.tags[g] == t.tags[g] != u.tags[tag] && u.inners[u.tags[g]] == t.inners[t.tags[g]])
      && u.inners[u.tags[tag]] == (if tag in t.tags then t.inners[t.tags[tag]] else map[])[key := v]
  {
  }

  lemma PutLocated<K, V>(t: Tagged<K, V>, tag: Tag, key: K, v: V, clear: Option<TimerId>, id: TimerId)
    requires Located(t)
    ensures Located(PutTagged(t, tag, key, v, clear, id))
  {
    var u := PutTagged(t, tag, key, v, clear, id);
    assert forall a | a in u.timers && a != id :: u.timers[a] == t.timers[a];
  }

  lemma OfPut<K, V>(t: Tagged<K, V>, tag: Tag, key: K, v: V, clear: Option<TimerId>, id: TimerId, g: Tag)
    requires TaggedOk(t) && Clears(Of(t, tag), key, clear) && id !in t.timers
    ensures Located(PutTagged(t, tag, key, v, clear, id))
    ensures Of(PutTagged(t, tag, key, v, clear, id), g) ==
      if g == tag then Put(Of(t, tag), key, v, clear, id) else Of(t, g)
  {
    assert clear.Some? ==> clear.value in t.timers && t.timers[clear.value].tag == tag;
    PutLocated(t, tag, key, v, clear, id);
    PutValues(t, tag, key, v, clear, id, g);
    hide OneTimerEach, TimersOf, TagsOk;
    var x := Timer(EnsureTag(t, tag).tags[tag], tag, key);
    TimersOfChanged(t.timers, if clear.Some? then {clear.value} else {}, id, x, g);
  }

  lemma PutTimers<K, V>(t: Tagged<K, V>, tag: Tag, key: K, v: V, clear: Option<TimerId>, id: TimerId, a: TimerId)
    requires Located(t)
    ensures var u := PutTagged(t, tag, key, v, clear, id);
      && (a in u.timers && a != id ==> a in t.timers && u.timers[a] == t.timers[a])
      && u.timers[id] == Timer(u.tags[tag], tag, key)
      && (tag in t.tags ==> u.tags[tag] == t.tags[tag])
  {
  }

  lemma PutTagsOk<K, V>(t: Tagged<K, V>, tag: Tag, key: K, v: V, clear: Option<TimerId>, id: TimerId)
    requires Located(t) && TagsOk(t)
    ensures Located(PutTagged(t, tag, key, v, clear, id)) && TagsOk(PutTagged(t, tag, key, v, clear, id))
  {
    hide PutTagged;
    var u := PutTagged(t, tag, key, v, clear, id);
    PutLocated(t, tag, key, v, clear, id);
    PutValues(t, tag, key, v, clear, id, tag);
    forall g | g in u.tags
      ensures u.inners[u.tags[g]] != map[]
      ensures g != tag ==> g in t.tags && u.tags[g] == t.tags[g] && u.tags[g] != u.tags[tag]
    {
      PutValues(t, tag, key, v, clear, id, g);
      assert key in u.inners[u.tags[tag]];
    }
    forall a | a in u.timers
      ensures u.timers[a].tag in u.tags && u.tags[u.timers[a].tag] == u.timers[a].inner
    {
      PutTimers(t, tag, key, v, clear, id, a);
      PutValues(t, tag, key, v, clear, id, u.timers[a].tag);
    }
  }

  lemma TimersExpired<K>(timers: map<TimerId, Timer<K>>, id: TimerId, g: Tag)
    ensures TimersOf(timers - {id}, g) == TimersOf(timers, g) - {id}
    ensures id in TimersOf(timers, g) <==> id in timers && timers[id].tag == g
    ensures id in TimersOf(timers, g) ==> TimersOf(timers, g)[id] == timers[id].key
  {
  }

  lemma OfExpire<K, V>(t: Tagged<K, V>, id: TimerId, g: Tag)
    requires TaggedOk(t)
    ensures Located(ExpireTagged(t, id))
    ensures Of(ExpireTagged(t, id), g) == Expire(Of(t, g), id)
  {
    hide OneTimerEach, TimersOf;
    TimersExpired(t.timers, id, g);
    if id in t.timers {
      assert Of(ExpireTagged(t, id), g).values == Expire(Of(t, g), id).values;
    }
  }

  /** Storing under a tag is storing in that tag's untagged collector, and nowhere else. */
  lemma PutTaggedRefines<K, V>(t: Tagged<K, V>, tag: Tag, key: K, v: V, clear: Option<TimerId>, id: TimerId)
    requires TaggedOk(t) && Clears(Of(t, tag), key, clear) && id !in t.timers
    ensures TaggedOk(PutTagged(t, tag, key, v, clear, id))
    ensures forall g ::
      Of(PutTagged(t, tag, key, v, clear, id), g) ==
      (if g == tag then Put(Of(t, tag), key, v, clear, id) else Of(t, g))
  {
    hide Located, TagsOk, Of, PutTagged, Put, OneTimerEach, Clears;
    var u := PutTagged(t, tag, key, v, clear, id);
    PutTagsOk(t, tag, key, v, clear, id);
    assert id !in Of(t, tag).timers by { OnlyPending(t, tag, id); }
    PutKeepsTimers(Of(t, tag), key, v, clear, id);
    forall g
      ensures Of(u, g) == (if g == tag then Put(Of(t, tag), key, v, clear, id) else Of(t, g)) && OneTimerEach(Of(u, g))
    {
      OfPut(t, tag, key, v, clear, id, g);
    }
  }

  lemma OnlyPending<K, V>(t: Tagged<K, V>, tag: Tag, id: TimerId)
    requires Located(t) && id !in t.timers
    ensures id !in Of(t, tag).timers
  {
  }

  /** A timer of a tagged collector does to every tag what it does to the untagged collector there. */
  lemma ExpireTaggedRefines<K, V>(t: Tagged<K, V>, id: TimerId)
    requires TaggedOk(t)
    ensures TaggedOk(ExpireTagged(t, id))
    ensures forall g :: Of(ExpireTagged(t, id), g) == Expire(Of(t, g), id)
  {
    var u := ExpireTagged(t, id);
    forall g
      ensures Of(u, g) == Expire(Of(t, g), id) && OneTimerEach(Of(u, g))
    {
      OfExpire(t, id, g);
      ExpireKeepsTimers(Of(t, g), id);
    }
    if id in t.timers {
      var x := t.timers[id];
      forall a | a in u.timers
        ensures u.timers[a].tag in u.tags && u.tags[u.timers[a].tag] == u.timers[a].inner
      {
        if t.timers[a].tag == x.tag {
          assert Of(u, x.tag).timers[a] in Of(u, x.tag).timers.Values;
        }
      }
    }
  }

  // ---------- the order of the tags ----------

  /** `order` lists the tags, those whose inner map was made earlier first. */
  ghost predicate Lists(order: seq<Tag>, tags: map<Tag, nat>) {
    && (forall g :: g in order <==> g in tags)
    && (forall i, j | 0 <= i < j < |order| :: tags[order[i]] < tags[order[j]])
  }

  /** A tag that is not there yet is inserted last, unless its report has expired. */
  function Inserted(order: seq<Tag>, tag: Tag, expired: bool): seq<Tag> {
    if expired || tag in order then order else order + [tag]
  }

  /** A deleted tag leaves the others in their order. */
  function Deleted(order: seq<Tag>, tag: Tag): seq<Tag> {
    if order == [] then []
    else
      var n := |order| - 1;
      Deleted(order[..n], tag) + if order[n] == tag then [] else [order[n]]
  }

  lemma InsertedLists<K, V>(t: Tagged<K, V>, order: seq<Tag>, tag: Tag)
    requires Located(t) && Lists(order, t.tags)
    ensures Lists(Inserted(order, tag, true), t.tags) && Lists(Inserted(order, tag, false), EnsureTag(t, tag).tags)
  {
  }

  lemma {:induction false} DeletedLists(order: seq<Tag>, tags: map<Tag, nat>, tag: Tag)
    requires Lists(order, tags)
    ensures Lists(Deleted(order, tag), tags - {tag})
    decreases |order|
  {
    if order != [] {
      var n := |order| - 1;
      var last := order[n];
      assert order == order[..n] + [last] && last in order;
      FrontLists(order, tags);
      DeletedLists(order[..n], tags - {last}, tag);
      if last == tag {
        assert tags - {last} - {tag} == tags - {tag};
      } else {
        assert last in tags - {tag};
        assert (tags - {tag}) - {last} == tags - {last} - {tag};
        assert forall g | g in Deleted(order[..n], tag) :: g in order[..n];
        AppendLists(Deleted(order[..n], tag), tags - {tag}, last);
      }
    }
  }

  lemma FrontLists(order: seq<Tag>, tags: map<Tag, nat>)
    requires Lists(order, tags) && order != []
    ensures var last := order[|order| - 1];
      Lists(order[..|order| - 1], tags - {last}) && forall g | g in tags && g != last :: tags[g] < tags[last]
  {
    var n := |order| - 1;
    assert order[n] in order;
    forall g | g in tags && g != order[n]
      ensures g in order[..n] && tags[g] < tags[order[n]]
    {
      assert g in order;
      var i :| 0 <= i < |order| && order[i] == g;
      assert order[..n][i] == g;
    }
    forall g | g in order[..n]
      ensures g in tags && g != order[n]
    {
      var i :| 0 <= i < n && order[..n][i] == g;
      assert order[i] in order;
      assert tags[order[i]] < tags[order[n]];
    }
  }

  lemma AppendLists(order: seq<Tag>, tags: map<Tag, nat>, last: Tag)
    requires last in tags && Lists(order, tags - {last})
    requires forall g | g in tags && g != last :: tags[g] < tags[last]
    ensures Lists(order + [last], tags)
  {
    forall i, j | 0 <= i < j < |order + [last]|
      ensures (order + [last])[i] in tags && (order + [last])[j] in tags
      ensures tags[(order + [last])[i]] < tags[(order + [last])[j]]
    {
      assert order[i] in order;
      if j < |order| {
        assert order[j] in order;
      }
    }
  }

  /** The order of the tags once timer `id` has fired. */
  function OrderAfter<K, V>(t: Tagged<K, V>, order: seq<Tag>, id: TimerId): seq<Tag>
    requires Located(t)
  {
    if id in t.timers && t.timers[id].tag in t.tags && t.timers[id].tag !in ExpireTagged(t, id).tags
    then Deleted(order, t.timers[id].tag)
    else order
  }

  /** A timer leaves the tags that remain in their order. */
  lemma ExpireTaggedLists<K, V>(t: Tagged<K, V>, order: seq<Tag>, id: TimerId)
    requires Located(t) && Lists(order, t.tags)
    ensures Lists(OrderAfter(t, order, id), ExpireTagged(t, id).tags)
    ensures ExpireTagged(t, id).timers.Keys <= t.timers.Keys
  {
    hide Lists;
    if id in t.timers && t.timers[id].tag !in t.tags {
      assert t.tags - {t.timers[id].tag} == t.tags;
    }
    if id in t.timers {
      DeletedLists(order, t.tags, t.timers[id].tag);
    }
  }

}
