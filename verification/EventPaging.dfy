/**
 Event paging: one range read of `limit + 1` rows makes a page of `limit`, a cursor, and
 whether more follow. Keys are compared as numbers; a cursor names the key it was made
 from, and an empty cursor string counts as none.
 */
module EventPaging {
  import opened Wrappers

  type Key = int

  datatype Event = Event(key: Key, value: seq<int>)

  datatype Cursor = Blank | At(key: Key)

  datatype Options = Options(
    limit: Option<nat>, reverse: Option<bool>, after: Option<Key>, afterCursor: Option<Cursor>)

  datatype Page = Page(items: seq<Event>, cursor: Option<Key>, haveMore: bool)

  // ---------- the store ----------

  predicate Ordered(line: seq<Event>, reverse: bool) {
    forall i, j | 0 <= i < j < |line| ::
      if reverse then line[i].key > line[j].key else line[i].key < line[j].key
  }

  function Line(rows: seq<Event>, reverse: bool): (line: seq<Event>)
    ensures |line| == |rows|
  {
    if !reverse || rows == [] then rows else Line(rows[1..], reverse) + [rows[0]]
  }

  predicate Past(key: Key, reverse: bool, after: Option<Key>) {
    after.Some? ==> if reverse then key < after.value else key > after.value
  }

  /** What is left of a line once everything up to `after` is dropped from its front. */
  function Later(line: seq<Event>, reverse: bool, after: Option<Key>): seq<Event> {
    if line == [] || Past(line[0].key, reverse, after) then line else Later(line[1..], reverse, after)
  }

  function Range(rows: seq<Event>, limit: Option<nat>, reverse: bool, after: Option<Key>): seq<Event> {
    var later := Later(Line(rows, reverse), reverse, after);
    if limit.Some? && limit.value < |later| then later[..limit.value] else later
  }

  lemma {:induction false} LineAt(rows: seq<Event>, reverse: bool, i: nat)
    requires i < |rows|
    ensures Line(rows, reverse)[i] == if reverse then rows[|rows| - 1 - i] else rows[i]
  {
    if reverse && i < |rows| - 1 {
      LineAt(rows[1..], reverse, i);
    }
  }

  lemma LineIsOrdered(rows: seq<Event>, reverse: bool)
    requires Ordered(rows, false)
    ensures Ordered(Line(rows, reverse), reverse)
  {
    var line := Line(rows, reverse);
    forall i, j | 0 <= i < j < |line|
      ensures if reverse then line[i].key > line[j].key else line[i].key < line[j].key
    {
      LineAt(rows, reverse, i);
      LineAt(rows, reverse, j);
    }
  }

  /** `Later` is the end of the line that holds exactly the events past the key. */
  lemma {:induction false} LaterIsTheRest(line: seq<Event>, reverse: bool, after: Option<Key>)
    requires Ordered(line, reverse)
    ensures var later := Later(line, reverse, after);
      |later| <= |line| && later == line[|line| - |later|..] &&
      forall i | 0 <= i < |line| :: i >= |line| - |later| <==> Past(line[i].key, reverse, after)
  {
    if line != [] && !Past(line[0].key, reverse, after) {
      var rest := line[1..];
      LaterIsTheRest(rest, reverse, after);
      var later := Later(rest, reverse, after);
      forall i | 0 <= i < |line|
        ensures i >= |line| - |later| <==> Past(line[i].key, reverse, after)
      {
        if i > 0 {
          assert line[i] == rest[i - 1];
        }
      }
    } else {
      forall i | 0 <= i < |line|
        ensures Past(line[i].key, reverse, after)
      {
        assert i > 0 ==> line[0] != line[i];
      }
    }
  }

  /** Reading on from any event met leaves exactly the events behind it. */
  lemma LaterFrom(line: seq<Event>, reverse: bool, after: Option<Key>, i: nat)
    requires Ordered(line, reverse) && i < |Later(line, reverse, after)|
    ensures var later := Later(line, reverse, after);
      Later(line, reverse, Some(later[i].key)) == later[i + 1..]
  {
    hide Later;
    var later := Later(line, reverse, after);
    LaterIsTheRest(line, reverse, after);
    var k := |line| - |later| + i;
    assert later[i] == line[k];
    var from := Later(line, reverse, Some(line[k].key));
    LaterIsTheRest(line, reverse, Some(line[k].key));
    assert !Past(line[k].key, reverse, Some(line[k].key));
    assert k < |line| - |from|;
    if k + 1 < |line| {
      assert Past(line[k + 1].key, reverse, Some(line[k].key));
    }
    assert |from| == |line| - k - 1;
  }

  // ---------- one page ----------

  function AfterOf(o: Option<Options>): Option<Key> {
    if o.None? then None
    else if o.value.afterCursor.Some? && o.value.afterCursor.value.At? then Some(o.value.afterCursor.value.key)
    else o.value.after
  }

  function ReverseOf(o: Option<Options>): bool {
    o.Some? && o.value.reverse == Some(true)
  }

  /** A missing limit and a limit of zero both read everything. */
  function LimitOf(o: Option<Options>): Option<nat> {
    if o.Some? && o.value.limit.Some? && o.value.limit.value > 0 then o.value.limit else None
  }

  /** The events still to be read under the given options. */
  function Pending(rows: seq<Event>, o: Option<Options>): seq<Event> {
    Later(Line(rows, ReverseOf(o)), ReverseOf(o), AfterOf(o))
  }

  /** The page is the front of what is pending, cut at the limit. */
  function PageOf(rows: seq<Event>, o: Option<Options>): Page {
    var pending := Pending(rows, o);
    var n := if LimitOf(o).Some? && LimitOf(o).value < |pending| then LimitOf(o).value else |pending|;
    Page(pending[..n], if n > 0 then Some(pending[n - 1].key) else None, n < |pending|)
  }

  function LastKey(res: seq<Event>, back: nat): Option<Key> {
    if back <= |res| && back > 0 then Some(res[|res| - back].key) else None
  }

  // ---------- what was asked for, in the fields of the options ----------

  predicate AsksReverse(o: Option<Options>) {
    o.Some? && o.value.reverse.Some? && o.value.reverse.value
  }

  /** The event is read before the other in the asked direction. */
  predicate Before(o: Option<Options>, e: Event, f: Event) {
    if AsksReverse(o) then e.key > f.key else e.key < f.key
  }

  /** The event lies past the cursor if a cursor is given, else past `after` if that is given. */
  predicate AskedFor(o: Option<Options>, e: Event) {
    match o
    case None => true
    case Some(Options(_, _, after, Some(At(cursor)))) => if AsksReverse(o) then e.key < cursor else e.key > cursor
    case Some(Options(_, _, Some(key), _)) => if AsksReverse(o) then e.key < key else e.key > key
    case _ => true
  }

  /**
   The page a caller is promised: the first asked-for events of the store, in the asked
   direction; with a limit no more than that many, and exactly that many if others are
   left; without a limit, or with a limit of zero, all of them. The cursor is the key of
   the last one.
   */
  ghost predicate IsPage(rows: seq<Event>, o: Option<Options>, page: Page) {
    && (forall i, j | 0 <= i < j < |page.items| :: Before(o, page.items[i], page.items[j]))
    && (forall e | e in page.items :: e in rows && AskedFor(o, e))
    && (forall e, f | e in rows && AskedFor(o, e) && e !in page.items && f in page.items :: Before(o, f, e))
    && (page.haveMore <==> exists e | e in rows :: AskedFor(o, e) && e !in page.items)
    && (o.Some? && o.value.limit.Some? && o.value.limit.value > 0 ==>
          |page.items| <= o.value.limit.value && (page.haveMore ==> |page.items| == o.value.limit.value))
    && (o.None? || o.value.limit.None? || o.value.limit.value == 0 ==> !page.haveMore)
    && page.cursor == if page.items == [] then None else Some(page.items[|page.items| - 1].key)
  }

  lemma PastIsAskedFor(o: Option<Options>, e: Event)
    ensures Past(e.key, ReverseOf(o), AfterOf(o)) <==> AskedFor(o, e)
  {
  }

  /** In the line read, the asked-for events come last, in order, each once. */
  lemma PendingIsAskedFor(rows: seq<Event>, o: Option<Options>)
    requires Ordered(rows, false)
    ensures var pending := Pending(rows, o);
      && (forall e :: e in pending <==> e in rows && AskedFor(o, e))
      && (forall i, j | 0 <= i < j < |pending| :: Before(o, pending[i], pending[j]))
  {
    hide Later, Line;
    var line, pending := Line(rows, ReverseOf(o)), Pending(rows, o);
    LineIsOrdered(rows, ReverseOf(o));
    LaterIsTheRest(line, ReverseOf(o), AfterOf(o));
    var from := |line| - |pending|;
    assert forall i | 0 <= i < |pending| :: pending[i] == line[from + i];
    forall e
      ensures e in pending <==> e in rows && AskedFor(o, e)
    {
      OnTheLine(rows, ReverseOf(o), e);
      PastIsAskedFor(o, e);
      if e in line && AskedFor(o, e) {
        var i :| 0 <= i < |line| && line[i] == e;
        assert pending[i - from] == e;
      }
    }
  }

  lemma FrontAndRest(o: Option<Options>, pending: seq<Event>, n: nat)
    requires n <= |pending| && forall i, j | 0 <= i < j < |pending| :: Before(o, pending[i], pending[j])
    ensures forall e | e in pending :: e in pending[..n] || e in pending[n..]
    ensures forall e, f | e in pending[n..] && f in pending[..n] :: Before(o, f, e) && e != f
  {
    forall e | e in pending
      ensures e in pending[..n] || e in pending[n..]
    {
      var i :| 0 <= i < |pending| && pending[i] == e;
      if i < n {
        assert pending[..n][i] == e;
      } else {
        assert pending[n..][i - n] == e;
      }
    }
  }

  /** The front of the pending events, cut at the limit, is the page the caller is promised. */
  lemma PageOfIsPage(rows: seq<Event>, o: Option<Options>)
    requires Ordered(rows, false)
    ensures IsPage(rows, o, PageOf(rows, o))
  {
    PendingIsAskedFor(rows, o);
    hide Pending, AskedFor, Ordered, Before, IsPage;
    CutIsPage(rows, o, Pending(rows, o), |PageOf(rows, o).items|);
  }

  /** Cutting the asked-for events, which come in order, after the first `n`. */
  lemma CutIsPage(rows: seq<Event>, o: Option<Options>, pending: seq<Event>, n: nat)
    requires forall e :: e in pending <==> e in rows && AskedFor(o, e)
    requires forall i, j | 0 <= i < j < |pending| :: Before(o, pending[i], pending[j])
    requires n <= |pending|
    requires if o.None? || o.value.limit.None? || o.value.limit.value == 0 then n == |pending|
             else n <= o.value.limit.value && (n < |pending| ==> n == o.value.limit.value)
    ensures IsPage(rows, o, Page(pending[..n], if n > 0 then Some(pending[n - 1].key) else None, n < |pending|))
  {
    FrontAndRest(o, pending, n);
    hide AskedFor, Before;
    forall e | e in pending[..n] || e in pending[n..]
      ensures e in rows && AskedFor(o, e)
    {
      assert e in pending;
    }
    forall e, f | e in rows && AskedFor(o, e) && e !in pending[..n] && f in pending[..n]
      ensures Before(o, f, e)
    {
      assert e in pending;
    }
    if n < |pending| {
      assert pending[n] in pending[n..];
    } else {
      assert pending[..n] == pending;
    }
  }

  lemma PageOfIsPageIfOrdered(rows: seq<Event>, o: Option<Options>)
    ensures Ordered(rows, false) ==> IsPage(rows, o, PageOf(rows, o))
  {
    hide IsPage, PageOf, Ordered;
    if Ordered(rows, false) {
      PageOfIsPage(rows, o);
    }
  }

  /** Reads one row more than asked for, and so knows whether any is left. */
  method EventsFind(rows: seq<Event>, o: Option<Options>) returns (page: Page)
    ensures page == PageOf(rows, o)
    ensures Ordered(rows, false) ==> IsPage(rows, o, page)
  {
    PageOfIsPageIfOrdered(rows, o);
    hide IsPage, Ordered;
    hide Later, Line;
    var after: Option<Key> := None;
    if o.Some? && o.value.afterCursor.Some? && o.value.afterCursor.value != Blank {
      after := Some(o.value.afterCursor.value.key);
    } else if o.Some? && o.value.after.Some? {
      after := o.value.after;
    }
    var limited := o.Some? && o.value.limit.Some? && o.value.limit.value != 0;
    var res := Range(rows, if limited then Some(o.value.limit.value + 1) else None,
                     o.Some? && o.value.reverse.Some? && o.value.reverse.value, after);
    var items := res;
    if limited {
      var haveMore := |items| > o.value.limit.value;
      if haveMore {
        items := items[..|items| - 1];
        return Page(items, LastKey(res, 2), haveMore);
      } else {
        return Page(items, LastKey(res, 1), haveMore);
      }
    }
    return Page(items, LastKey(res, 1), false);
  }

  function Following(o: Option<Options>, cursor: Key): Option<Options> {
    if o.Some? then Some(o.value.(afterCursor := Some(At(cursor))))
    else Some(Options(None, None, None, Some(At(cursor))))
  }

  /** A page and what is pending after its cursor are together what was pending before it. */
  lemma PageSplitsPending(rows: seq<Event>, o: Option<Options>)
    requires Ordered(rows, false)
    ensures var page := PageOf(rows, o);
      && page.cursor.Some? == (page.items != [])
      && (page.cursor.Some? ==> Pending(rows, o) == page.items + Pending(rows, Following(o, page.cursor.value)))
      && (page.cursor.None? ==> Pending(rows, o) == [])
  {
    hide Later, Line;
    LineIsOrdered(rows, ReverseOf(o));
    var page, pending := PageOf(rows, o), Pending(rows, o);
    if page.items != [] {
      LaterFrom(Line(rows, ReverseOf(o)), ReverseOf(o), AfterOf(o), |page.items| - 1);
      assert pending == pending[..|page.items|] + pending[|page.items|..];
    }
  }

  /** `haveMore` holds iff some event lies past the cursor. */
  lemma HaveMoreIffEventsRemain(rows: seq<Event>, o: Option<Options>)
    requires Ordered(rows, false)
    ensures var page := PageOf(rows, o);
      page.haveMore <==> page.cursor.Some? && exists e :: e in rows && Past(e.key, ReverseOf(o), page.cursor)
  {
    hide Later, Line, PageOf;
    PageSplitsPending(rows, o);
    var page := PageOf(rows, o);
    assert page.haveMore <==> |page.items| < |Pending(rows, o)| by {
      HaveMoreIsLonger(rows, o);
    }
    if page.cursor.Some? {
      var line := Line(rows, ReverseOf(o));
      LineIsOrdered(rows, ReverseOf(o));
      LaterIsTheRest(line, ReverseOf(o), page.cursor);
      var rest := Pending(rows, Following(o, page.cursor.value));
      if rest != [] {
        var first := line[|line| - |rest|];
        OnTheLine(rows, ReverseOf(o), first);
        assert first in rows && Past(first.key, ReverseOf(o), page.cursor);
      }
      forall e | e in rows && rest == []
        ensures !Past(e.key, ReverseOf(o), page.cursor)
      {
        OnTheLine(rows, ReverseOf(o), e);
        var i :| 0 <= i < |line| && line[i] == e;
      }
    }
  }

  lemma HaveMoreIsLonger(rows: seq<Event>, o: Option<Options>)
    ensures PageOf(rows, o).haveMore <==> |PageOf(rows, o).items| < |Pending(rows, o)|
  {
  }

  lemma OnTheLine(rows: seq<Event>, reverse: bool, e: Event)
    ensures e in Line(rows, reverse) <==> e in rows
  {
    var line := Line(rows, reverse);
    if e in line {
      var i :| 0 <= i < |line| && line[i] == e;
      LineAt(rows, reverse, i);
    }
    if e in rows {
      var i :| 0 <= i < |rows| && rows[i] == e;
      LineAt(rows, reverse, if reverse then |rows| - 1 - i else i);
    }
  }

  // ---------- following the cursors ----------

  /** The pages met by following cursors for as long as more is reported. */
  function Walk(rows: seq<Event>, o: Option<Options>): (pages: seq<Page>)
    requires Ordered(rows, false)
    decreases |Pending(rows, o)|
  {
    PageSplitsPending(rows, o);
    HaveMoreIsLonger(rows, o);
    var page := PageOf(rows, o);
    if page.haveMore && page.cursor.Some? then [page] + Walk(rows, Following(o, page.cursor.value)) else [page]
  }

  function Visited(pages: seq<Page>): seq<Event> {
    if pages == [] then [] else pages[0].items + Visited(pages[1..])
  }

  /**
   Following the cursors, from any start and with any limit, visits every later event
   exactly once and in order; every page but the last is full, and only the last says
   that nothing is left.
   */
  lemma {:induction false} WalkVisitsAll(rows: seq<Event>, o: Option<Options>)
    requires Ordered(rows, false)
    ensures var pages := Walk(rows, o);
      && Visited(pages) == Pending(rows, o)
      && pages != []
      && (forall i | 0 <= i < |pages| :: pages[i].haveMore <==> i < |pages| - 1)
      && (forall i | 0 <= i < |pages| - 1 :: LimitOf(o) == Some(|pages[i].items|))
    decreases |Pending(rows, o)|
  {
    var page := PageOf(rows, o);
    PageSplitsPending(rows, o);
    HaveMoreIsLonger(rows, o);
    MoreMeansFull(rows, o);
    hide PageOf, Pending, Ordered;
    var pages := Walk(rows, o);
    if page.haveMore {
      var next := Following(o, page.cursor.value);
      var rest := Walk(rows, next);
      WalkVisitsAll(rows, next);
      assert pages[1..] == rest;
      forall i | 0 < i < |pages|
        ensures pages[i] == rest[i - 1]
      {
      }
    } else {
      assert pages[1..] == [];
    }
  }

  /**
   In the fields of the options: the walk visits exactly the asked-for events, each once
   and in the asked direction, and all its pages but the last have as many as the limit.
   */
  lemma WalkIsComplete(rows: seq<Event>, o: Option<Options>)
    requires Ordered(rows, false)
    ensures var pages := Walk(rows, o);
      && (forall e :: e in Visited(pages) <==> e in rows && AskedFor(o, e))
      && (forall i, j | 0 <= i < j < |Visited(pages)| :: Before(o, Visited(pages)[i], Visited(pages)[j]))
      && (forall i | 0 <= i < |pages| - 1 ::
            o.Some? && o.value.limit == Some(|pages[i].items|) && |pages[i].items| > 0)
  {
    WalkVisitsAll(rows, o);
    PendingIsAskedFor(rows, o);
    hide Walk, Pending, Visited, Ordered;
  }

  lemma MoreMeansFull(rows: seq<Event>, o: Option<Options>)
    ensures var page := PageOf(rows, o);
      page.haveMore ==> page.items != [] && LimitOf(o) == Some(|page.items|)
  {
  }

  // ---------- following the cursors of a growing store ----------

  /** One read of a consumer: what the store holds then, and the limit it asks for. */
  datatype Visit = Visit(rows: seq<Event>, limit: Option<nat>)

  /** The store is ordered and only grows at its end. */
  ghost predicate Grows(visits: seq<Visit>) {
    && (forall i | 0 <= i < |visits| :: Ordered(visits[i].rows, false))
    && (forall i, j | 0 <= i <= j < |visits| :: visits[i].rows <= visits[j].rows)
  }

  function Asking(limit: Option<nat>, at: Option<Key>): Option<Options> {
    Some(Options(limit, None, None, if at.Some? then Some(At(at.value)) else None))
  }

  /** A consumer keeps the cursor of its last page that had one. */
  function Consume(visits: seq<Visit>, start: Option<Key>): (seq<Event>, Option<Key>) {
    if visits == [] then ([], start)
    else
      var n := |visits| - 1;
      var (seen, at) := Consume(visits[..n], start);
      var page := PageOf(visits[n].rows, Asking(visits[n].limit, at));
      (seen + page.items, if page.cursor.Some? then page.cursor else at)
  }

  lemma LaterOfMore(more: seq<Event>, after: Option<Key>)
    requires after.Some? ==> forall e | e in more :: e.key > after.value
    ensures Later(more, false, after) == more
  {
    if more != [] {
      assert more[0] in more;
    }
  }

  lemma {:induction false} LaterGrows(rows: seq<Event>, more: seq<Event>, after: Option<Key>)
    requires after.Some? ==> forall e | e in more :: e.key > after.value
    ensures Later(rows + more, false, after) == Later(rows, false, after) + more
    decreases |rows|
  {
    hide Past;
    if rows == [] {
      assert rows + more == more && [] + more == more;
      LaterOfMore(more, after);
    } else {
      assert (rows + more)[0] == rows[0] && (rows + more)[1..] == rows[1..] + more;
      LaterGrows(rows[1..], more, after);
    }
  }

  /** The cursor is not ahead of anything the store can still gain. */
  ghost predicate WithinRows(rows: seq<Event>, at: Option<Key>) {
    at.Some? ==> exists e :: e in rows && e.key >= at.value
  }

  lemma GrowsPast(rows: seq<Event>, more: seq<Event>, at: Option<Key>)
    requires Ordered(rows + more, false) && WithinRows(rows, at)
    ensures Later(rows + more, false, at) == Later(rows, false, at) + more
  {
    if at.Some? {
      var e :| e in rows && e.key >= at.value;
      var i :| 0 <= i < |rows| && rows[i] == e;
      forall m | m in more
        ensures m.key > at.value
      {
        var j :| 0 <= j < |more| && more[j] == m;
        assert (rows + more)[i] == e && (rows + more)[|rows| + j] == m;
      }
    }
    LaterGrows(rows, more, at);
  }

  /** One read of a store moves a page from what is pending to what was seen. */
  lemma ReadOn(rows: seq<Event>, limit: Option<nat>, at: Option<Key>)
    requires Ordered(rows, false) && WithinRows(rows, at)
    ensures var page := PageOf(rows, Asking(limit, at));
      var next := if page.cursor.Some? then page.cursor else at;
      Later(rows, false, at) == page.items + Later(rows, false, next) && WithinRows(rows, next)
  {
    hide Later, Ordered, WithinRows;
    PageSplitsPending(rows, Asking(limit, at));
    PageWithin(rows, Asking(limit, at));
  }

  /** An append goes to the end of what is pending, and to nothing else. */
  lemma GrowTo(earlier: seq<Event>, rows: seq<Event>, start: Option<Key>, seen: seq<Event>, at: Option<Key>)
    requires Ordered(rows, false) && earlier <= rows && WithinRows(earlier, start) && WithinRows(earlier, at)
    requires Later(earlier, false, start) == seen + Later(earlier, false, at)
    ensures Later(rows, false, start) == seen + Later(rows, false, at) && WithinRows(rows, at)
  {
    hide Later, Ordered;
    var more := rows[|earlier|..];
    assert rows == earlier + more;
    GrowsPast(earlier, more, at);
    GrowsPast(earlier, more, start);
    StaysWithin(earlier, rows, at);
  }

  lemma GrewBefore(visits: seq<Visit>)
    requires Grows(visits) && visits != []
    ensures Ordered(visits[|visits| - 1].rows, false)
    ensures var n := |visits| - 1;
      n > 0 ==>
        Grows(visits[..n]) && visits[..n][n - 1] == visits[n - 1] && visits[..n][0] == visits[0] &&
        visits[0].rows <= visits[n - 1].rows <= visits[n].rows
  {
  }

  lemma OneMoreVisit(visits: seq<Visit>, start: Option<Key>)
    requires visits != []
    ensures var n := |visits| - 1;
      var (before, at) := Consume(visits[..n], start);
      var page := PageOf(visits[n].rows, Asking(visits[n].limit, at));
      Consume(visits, start) == (before + page.items, if page.cursor.Some? then page.cursor else at) &&
      (n == 0 ==> before == [] && at == start)
  {
  }

  /**
   Reads of a store that is appended to between them neither lose nor repeat an event:
   what was seen and what is still pending are together everything past the start.
   */
  lemma {:induction false} ConsumerMissesNothing(visits: seq<Visit>, start: Option<Key>)
    requires Grows(visits) && visits != [] && WithinRows(visits[0].rows, start)
    ensures var (seen, at) := Consume(visits, start);
      var rows := visits[|visits| - 1].rows;
      Later(rows, false, start) == seen + Later(rows, false, at) && WithinRows(rows, at)
  {
    GrewBefore(visits);
    OneMoreVisit(visits, start);
    hide Later, Ordered, WithinRows, PageOf, Grows, Consume, Asking;
    var n := |visits| - 1;
    var rows := visits[n].rows;
    var (before, at) := Consume(visits[..n], start);
    if n > 0 {
      ConsumerMissesNothing(visits[..n], start);
      StaysWithin(visits[0].rows, visits[n - 1].rows, start);
      GrowTo(visits[n - 1].rows, rows, start, before, at);
    }
    assert Later(rows, false, start) == before + Later(rows, false, at);
    ReadOn(rows, visits[n].limit, at);
    var page := PageOf(rows, Asking(visits[n].limit, at));
    var next := if page.cursor.Some? then page.cursor else at;
    Regroup(before, page.items, Later(rows, false, next));
  }

  lemma StaysWithin(rows: seq<Event>, longer: seq<Event>, at: Option<Key>)
    requires rows <= longer && WithinRows(rows, at)
    ensures WithinRows(longer, at)
  {
    if at.Some? {
      var e :| e in rows && e.key >= at.value;
      var i :| 0 <= i < |rows| && rows[i] == e;
      assert longer[i] == e;
    }
  }

  lemma PageWithin(rows: seq<Event>, o: Option<Options>)
    requires Ordered(rows, false) && !ReverseOf(o)
    ensures WithinRows(rows, PageOf(rows, o).cursor)
  {
    var page, pending := PageOf(rows, o), Pending(rows, o);
    LaterIsTheRest(rows, false, AfterOf(o));
    if page.cursor.Some? {
      var last := pending[|page.items| - 1];
      assert last == rows[|rows| - |pending| + |page.items| - 1];
      assert last in rows;
    }
  }
}
