// Does a list of slice rectangles cover the raster exactly?  A sweep line over the columns
// with an ordered map of the active row intervals, and the cell-by-cell meaning it has.

module SliceRaster {
  import opened Basics

  datatype Rect = Rect(x: nat, y: nat, width: nat, height: nat)

  predicate Inside(r: Rect, columns: nat, rows: nat) {
    0 < r.width && 0 < r.height && r.x + r.width <= columns && r.y + r.height <= rows
  }

  /** Cell (column, row) lies in the rectangle. */
  predicate Holds(r: Rect, column: nat, row: nat) {
    r.x <= column < r.x + r.width && r.y <= row < r.y + r.height
  }

  predicate RowsMeet(a: Rect, b: Rect) {
    a.y < b.y + b.height && b.y < a.y + a.height
  }

  predicate ColumnsMeet(a: Rect, b: Rect) {
    a.x < b.x + b.width && b.x < a.x + a.width
  }

  predicate Overlap(a: Rect, b: Rect) {
    ColumnsMeet(a, b) && RowsMeet(a, b)
  }

  predicate AllInside(rects: seq<Rect>, columns: nat, rows: nat) {
    forall i :: 0 <= i < |rects| ==> Inside(rects[i], columns, rows)
  }

  ghost predicate Disjoint(rects: seq<Rect>) {
    forall i, j :: 0 <= i < j < |rects| ==> !Overlap(rects[i], rects[j])
  }

  /** A slice starts or ends at column x. */
  datatype Event = Event(x: nat, position: nat, starts: bool)

  /** The order of the sweep: by column, ends before starts, then by position. */
  predicate Before(a: Event, b: Event) {
    if a.x != b.x then a.x < b.x
    else if a.starts != b.starts then !a.starts
    else a.position < b.position
  }

  predicate Ordered(events: seq<Event>) {
    forall i, j :: 0 <= i < j < |events| ==> !Before(events[j], events[i])
  }

  function Insert(events: seq<Event>, e: Event): (r: seq<Event>)
    ensures multiset(r) == multiset(events) + multiset{e}
  {
    if events == [] then [e]
    else
      var last := events[|events| - 1];
      var front := events[..|events| - 1];
      assert events == front + [last];
      if Before(e, last) then Insert(front, e) + [last] else events + [e]
  }

  lemma {:induction false} InsertOrdered(events: seq<Event>, e: Event)
    requires Ordered(events)
    ensures Ordered(Insert(events, e))
    decreases |events|
  {
    if events != [] {
      var last := events[|events| - 1];
      var front := events[..|events| - 1];
      if Before(e, last) {
        InsertOrdered(front, e);
        var r := Insert(front, e);
        forall x | x in r
          ensures !Before(last, x)
        {
          assert x in multiset(r);
          assert x == e || x in front;
        }
      }
    }
  }

  function Sort(events: seq<Event>): (r: seq<Event>)
    ensures multiset(r) == multiset(events)
  {
    if events == [] then []
    else
      assert events == events[..|events| - 1] + [events[|events| - 1]];
      Insert(Sort(events[..|events| - 1]), events[|events| - 1])
  }

  lemma {:induction false} SortOrdered(events: seq<Event>)
    ensures Ordered(Sort(events))
    decreases |events|
  {
    if events != [] {
      SortOrdered(events[..|events| - 1]);
      InsertOrdered(Sort(events[..|events| - 1]), events[|events| - 1]);
    }
  }

  function StartOf(rects: seq<Rect>, p: nat): Event
    requires p < |rects|
  {
    Event(rects[p].x, p, true)
  }

  function EndOf(rects: seq<Rect>, p: nat): Event
    requires p < |rects|
  {
    Event(rects[p].x + rects[p].width, p, false)
  }

  /** Two events for each of the first n rectangles. */
  function EventsOf(rects: seq<Rect>, n: nat): (events: seq<Event>)
    requires n <= |rects|
  {
    if n == 0 then [] else EventsOf(rects, n - 1) + [StartOf(rects, n - 1), EndOf(rects, n - 1)]
  }

  /** The rows an active rectangle occupies. */
  datatype Interval = Interval(start: nat, end: nat)

  /** The active intervals, ordered like the map that holds them: by their first row. */
  function LowerBound(active: seq<Interval>, row: nat): (i: nat)
    ensures i <= |active|
    ensures forall k :: 0 <= k < i ==> active[k].start < row
    ensures i < |active| ==> row <= active[i].start
  {
    if active == [] || row <= active[0].start then 0
    else
      var i := 1 + LowerBound(active[1..], row);
      assert forall k :: 1 <= k < i ==> active[k] == active[1..][k - 1];
      i
  }

  function Erase(active: seq<Interval>, row: nat): seq<Interval> {
    var i := LowerBound(active, row);
    if i < |active| && active[i].start == row then active[..i] + active[i + 1..] else active
  }

  /** Only the neighbours in the map are looked at. */
  predicate Blocked(active: seq<Interval>, start: nat, end: nat) {
    var i := LowerBound(active, start);
    (i < |active| && active[i].start < end) || (0 < i && start < active[i - 1].end)
  }

  function Place(active: seq<Interval>, start: nat, end: nat): seq<Interval> {
    var i := LowerBound(active, start);
    active[..i] + [Interval(start, end)] + active[i..]
  }

  /** The sweep from event k on. */
  predicate Sweep(rects: seq<Rect>, events: seq<Event>, k: nat, active: seq<Interval>)
    requires k <= |events| && forall i :: 0 <= i < |events| ==> events[i].position < |rects|
    decreases |events| - k
  {
    if k == |events| then true
    else
      var r := rects[events[k].position];
      if !events[k].starts then Sweep(rects, events, k + 1, Erase(active, r.y))
      else if Blocked(active, r.y, r.y + r.height) then false
      else Sweep(rects, events, k + 1, Place(active, r.y, r.y + r.height))
  }

  lemma {:induction false} EventsMembers(rects: seq<Rect>, n: nat)
    requires n <= |rects|
    ensures forall e <- EventsOf(rects, n) :: e.position < n && (e == StartOf(rects, e.position) || e == EndOf(rects, e.position))
    ensures forall p :: 0 <= p < n ==> StartOf(rects, p) in EventsOf(rects, n) && EndOf(rects, p) in EventsOf(rects, n)
    ensures forall i, j :: 0 <= i < j < |EventsOf(rects, n)| ==> EventsOf(rects, n)[i] != EventsOf(rects, n)[j]
  {
    if n > 0 {
      EventsMembers(rects, n - 1);
      var before := EventsOf(rects, n - 1);
      assert StartOf(rects, n - 1) !in before && EndOf(rects, n - 1) !in before;
    }
  }

  /** What the sweep relies on: the events of all rectangles, each once, in order. */
  ghost predicate Complete(rects: seq<Rect>, events: seq<Event>) {
    && (forall e <- events :: e.position < |rects| && (e == StartOf(rects, e.position) || e == EndOf(rects, e.position)))
    && (forall p :: 0 <= p < |rects| ==> StartOf(rects, p) in events && EndOf(rects, p) in events)
    && (forall i, j :: 0 <= i < j < |events| ==> Before(events[i], events[j]))
  }

  lemma BeforeTotal(a: Event, b: Event)
    ensures a == b || Before(a, b) || Before(b, a)
    ensures !(Before(a, b) && Before(b, a))
  {
  }

  lemma DistinctKept(a: seq<Event>, b: seq<Event>)
    requires multiset(a) == multiset(b)
    requires forall i, j :: 0 <= i < j < |a| ==> a[i] != a[j]
    ensures forall i, j :: 0 <= i < j < |b| ==> b[i] != b[j]
  {
    AtMostOnce(a);
    forall i, j | 0 <= i < j < |b|
      ensures b[i] != b[j]
    {
      if b[i] == b[j] {
        Repeated(b, i, j);
      }
    }
  }

  lemma Repeated(b: seq<Event>, i: nat, j: nat)
    requires i < j < |b| && b[i] == b[j]
    ensures 2 <= multiset(b)[b[i]]
  {
    assert b == b[..j] + [b[j]] + b[j + 1..];
    assert b[i] == b[..j][i];
  }

  lemma {:induction false} AtMostOnce(a: seq<Event>)
    requires forall i, j :: 0 <= i < j < |a| ==> a[i] != a[j]
    ensures forall e :: multiset(a)[e] <= 1
    decreases |a|
  {
    if a != [] {
      var n := |a| - 1;
      AtMostOnce(a[..n]);
      assert a == a[..n] + [a[n]];
      assert a[n] !in a[..n];
    }
  }

  lemma SortedComplete(rects: seq<Rect>)
    ensures Complete(rects, Sort(EventsOf(rects, |rects|)))
  {
    var raw := EventsOf(rects, |rects|);
    var events := Sort(raw);
    EventsMembers(rects, |rects|);
    SortOrdered(raw);
    DistinctKept(raw, events);
    forall e | e in events
      ensures e in raw
    {
      assert e in multiset(events);
    }
    forall p | 0 <= p < |rects|
      ensures StartOf(rects, p) in events && EndOf(rects, p) in events
    {
      assert StartOf(rects, p) in multiset(raw) && EndOf(rects, p) in multiset(raw);
    }
    forall i, j | 0 <= i < j < |events|
      ensures Before(events[i], events[j])
    {
      BeforeTotal(events[i], events[j]);
    }
  }

  /** Active rectangles, in the order of their intervals. */
  function Intervals(rects: seq<Rect>, ids: seq<nat>): (s: seq<Interval>)
    requires forall i :: 0 <= i < |ids| ==> ids[i] < |rects|
    ensures |s| == |ids|
  {
    seq(|ids|, i requires 0 <= i < |ids| => Interval(rects[ids[i]].y, rects[ids[i]].y + rects[ids[i]].height))
  }

  function RowEnd(r: Rect): nat {
    r.y + r.height
  }

  ghost predicate Proper(rects: seq<Rect>) {
    forall i :: 0 <= i < |rects| ==> 0 < rects[i].width && 0 < rects[i].height
  }

  /** The rectangles lie above one another, in this order. */
  ghost predicate Stacked(rects: seq<Rect>, ids: seq<nat>) {
    && (forall i :: 0 <= i < |ids| ==> ids[i] < |rects|)
    && (forall i, j :: 0 <= i < j < |ids| ==> RowEnd(rects[ids[i]]) <= rects[ids[j]].y)
  }

  /** Between two events: the active rectangles are those whose start is behind and whose end is
      ahead, they lie above one another, and nothing seen so far overlaps. */
  ghost predicate Swept(rects: seq<Rect>, events: seq<Event>, k: nat, ids: seq<nat>)
    requires k <= |events|
  {
    && Stacked(rects, ids)
    && (forall p :: 0 <= p < |rects| ==> (p in ids <==> StartOf(rects, p) in events[..k] && EndOf(rects, p) !in events[..k]))
    && (forall p: nat, q: nat :: Seen(rects, events, k, p) && Seen(rects, events, k, q) && p != q ==> !Overlap(rects[p], rects[q]))
  }

  predicate Seen(rects: seq<Rect>, events: seq<Event>, k: nat, p: nat)
    requires k <= |events|
  {
    p < |rects| && StartOf(rects, p) in events[..k]
  }

  lemma InPrefix(events: seq<Event>, k: nat, e: Event)
    requires k < |events| && forall i, j :: 0 <= i < j < |events| ==> Before(events[i], events[j])
    requires e in events
    ensures e in events[..k] <==> Before(e, events[k])
  {
    var i :| 0 <= i < |events| && events[i] == e;
    if i < k {
      assert events[..k][i] == e;
    } else if i > k {
      BeforeTotal(e, events[k]);
    } else {
      BeforeTotal(e, e);
    }
    if e in events[..k] {
      var j :| 0 <= j < k && events[..k][j] == e;
    }
  }

  /** When p starts, the active rectangles are exactly the seen ones whose columns meet p's. */
  lemma ActiveMeet(rects: seq<Rect>, events: seq<Event>, k: nat, ids: seq<nat>, p: nat, q: nat)
    requires Complete(rects, events) && k < |events| && Swept(rects, events, k, ids)
    requires p < |rects| && q < |rects| && events[k] == StartOf(rects, p) && 0 < rects[p].width
    requires StartOf(rects, q) in events[..k]
    ensures q != p
    ensures q in ids <==> ColumnsMeet(rects[p], rects[q])
  {
    InPrefix(events, k, StartOf(rects, q));
    InPrefix(events, k, EndOf(rects, q));
  }

  /** Looking at the two neighbours finds every active interval in the way. */
  lemma NeighboursSuffice(rects: seq<Rect>, ids: seq<nat>, r: Rect)
    requires Stacked(rects, ids) && Proper(rects)
    requires 0 < r.height
    ensures Blocked(Intervals(rects, ids), r.y, RowEnd(r)) <==> exists i :: 0 <= i < |ids| && RowsMeet(r, rects[ids[i]])
  {
    var active := Intervals(rects, ids);
    var n := LowerBound(active, r.y);
    if Blocked(active, r.y, RowEnd(r)) {
      if n < |active| && active[n].start < r.y + r.height {
        assert RowsMeet(r, rects[ids[n]]);
      } else {
        assert RowsMeet(r, rects[ids[n - 1]]);
      }
    } else {
      forall i | 0 <= i < |ids|
        ensures !RowsMeet(r, rects[ids[i]])
      {
        assert active[i] == Interval(rects[ids[i]].y, rects[ids[i]].y + rects[ids[i]].height);
        if i < n {
          assert i < n - 1 ==> RowEnd(rects[ids[i]]) <= rects[ids[n - 1]].y;
        } else {
          assert n < i ==> RowEnd(rects[ids[n]]) <= rects[ids[i]].y;
        }
      }
    }
  }

  lemma PrefixGrows(events: seq<Event>, k: nat, e: Event)
    requires k < |events|
    ensures e in events[..k + 1] <==> e in events[..k] || e == events[k]
  {
    assert events[..k + 1] == events[..k] + [events[k]];
  }

  lemma StackedInsert(rects: seq<Rect>, ids: seq<nat>, p: nat, n: nat)
    requires Stacked(rects, ids) && p < |rects| && n <= |ids|
    requires forall i :: 0 <= i < n ==> RowEnd(rects[ids[i]]) <= rects[p].y
    requires forall i :: n <= i < |ids| ==> RowEnd(rects[p]) <= rects[ids[i]].y
    ensures Stacked(rects, ids[..n] + [p] + ids[n..])
  {
    hide RowEnd;
    var more := ids[..n] + [p] + ids[n..];
    forall i, j | 0 <= i < j < |more|
      ensures RowEnd(rects[more[i]]) <= rects[more[j]].y
    {
      var i' := if i < n then i else i - 1;
      var j' := if j < n then j else j - 1;
      assert i != n ==> more[i] == ids[i'];
      assert j != n ==> more[j] == ids[j'];
    }
  }

  lemma PlaceAt(rects: seq<Rect>, ids: seq<nat>, p: nat, n: nat)
    requires Stacked(rects, ids) && p < |rects| && n == LowerBound(Intervals(rects, ids), rects[p].y)
    ensures Stacked(rects, ids[..n] + [p] + ids[n..]) ==>
              Intervals(rects, ids[..n] + [p] + ids[n..]) == Place(Intervals(rects, ids), rects[p].y, RowEnd(rects[p]))
  {
    hide LowerBound;
  }

  lemma StartKeepsOrder(rects: seq<Rect>, ids: seq<nat>, p: nat, n: nat)
    requires Proper(rects) && p < |rects| && n <= |ids| && Stacked(rects, ids)
    requires forall i :: 0 <= i < |ids| ==> !RowsMeet(rects[p], rects[ids[i]])
    requires n == LowerBound(Intervals(rects, ids), rects[p].y)
    ensures Stacked(rects, ids[..n] + [p] + ids[n..])
    ensures Intervals(rects, ids[..n] + [p] + ids[n..]) == Place(Intervals(rects, ids), rects[p].y, RowEnd(rects[p]))
  {
    hide Place;
    var active := Intervals(rects, ids);
    forall i | 0 <= i < |ids|
      ensures if i < n then RowEnd(rects[ids[i]]) <= rects[p].y else RowEnd(rects[p]) <= rects[ids[i]].y
    {
      assert active[i].start == rects[ids[i]].y;
      if n < i {
        assert RowEnd(rects[ids[n]]) <= rects[ids[i]].y;
      }
      assert !RowsMeet(rects[p], rects[ids[i]]);
    }
    StackedInsert(rects, ids, p, n);
    PlaceAt(rects, ids, p, n);
  }

  lemma AddedMember(ids: seq<nat>, n: nat, p: nat, q: nat)
    requires n <= |ids|
    ensures q in ids[..n] + [p] + ids[n..] <==> q in ids || q == p
  {
    assert ids == ids[..n] + ids[n..];
  }

  /** A start that is not blocked keeps the sweep's invariant. */
  lemma StartSwept(rects: seq<Rect>, events: seq<Event>, k: nat, ids: seq<nat>, p: nat) returns (more: seq<nat>)
    requires Complete(rects, events) && Proper(rects) && k < |events| && Swept(rects, events, k, ids)
    requires p < |rects| && events[k] == StartOf(rects, p)
    requires forall i :: 0 <= i < |ids| ==> !RowsMeet(rects[p], rects[ids[i]])
    ensures Swept(rects, events, k + 1, more)
    ensures Intervals(rects, more) == Place(Intervals(rects, ids), rects[p].y, RowEnd(rects[p]))
  {
    hide Place, LowerBound, RowsMeet, Overlap, RowEnd, Intervals;
    var n := LowerBound(Intervals(rects, ids), rects[p].y);
    more := ids[..n] + [p] + ids[n..];
    StartKeepsOrder(rects, ids, p, n);
    InPrefix(events, k, EndOf(rects, p));
    forall q | 0 <= q < |rects|
      ensures q in more <==> StartOf(rects, q) in events[..k + 1] && EndOf(rects, q) !in events[..k + 1]
    {
      PrefixGrows(events, k, StartOf(rects, q));
      PrefixGrows(events, k, EndOf(rects, q));
      AddedMember(ids, n, p, q);
    }
    forall a: nat, b: nat | Seen(rects, events, k + 1, a) && Seen(rects, events, k + 1, b) && a != b
      ensures !Overlap(rects[a], rects[b])
    {
      StartFree(rects, events, k, ids, p, a, b);
    }
  }

  lemma StartFree(rects: seq<Rect>, events: seq<Event>, k: nat, ids: seq<nat>, p: nat, a: nat, b: nat)
    requires Complete(rects, events) && Proper(rects) && k < |events| && Swept(rects, events, k, ids)
    requires p < |rects| && events[k] == StartOf(rects, p)
    requires forall i :: 0 <= i < |ids| ==> !RowsMeet(rects[p], rects[ids[i]])
    requires Seen(rects, events, k + 1, a) && Seen(rects, events, k + 1, b) && a != b
    ensures !Overlap(rects[a], rects[b])
  {
    PrefixGrows(events, k, StartOf(rects, a));
    PrefixGrows(events, k, StartOf(rects, b));
    if a == p {
      ActiveMeet(rects, events, k, ids, p, b);
    } else if b == p {
      ActiveMeet(rects, events, k, ids, p, a);
    } else {
      assert Seen(rects, events, k, a) && Seen(rects, events, k, b);
    }
  }

  lemma {:induction false} LowerBoundAt(active: seq<Interval>, i: nat)
    requires i < |active|
    requires forall j :: 0 <= j < i ==> active[j].start < active[i].start
    ensures LowerBound(active, active[i].start) == i
    decreases i
  {
    if i > 0 {
      LowerBoundAt(active[1..], i - 1);
    }
  }

  lemma EraseAt(rects: seq<Rect>, ids: seq<nat>, i: nat)
    requires Proper(rects) && Stacked(rects, ids) && i < |ids|
    ensures Stacked(rects, ids[..i] + ids[i + 1..])
    ensures Intervals(rects, ids[..i] + ids[i + 1..]) == Erase(Intervals(rects, ids), rects[ids[i]].y)
  {
    hide LowerBound;
    var active := Intervals(rects, ids);
    var fewer := ids[..i] + ids[i + 1..];
    forall a, b | 0 <= a < b < |fewer|
      ensures RowEnd(rects[fewer[a]]) <= rects[fewer[b]].y
    {
      assert fewer[a] == ids[if a < i then a else a + 1] && fewer[b] == ids[if b < i then b else b + 1];
    }
    forall j | 0 <= j < i
      ensures active[j].start < active[i].start
    {
      assert RowEnd(rects[ids[j]]) <= rects[ids[i]].y;
    }
    LowerBoundAt(active, i);
    assert Intervals(rects, fewer) == active[..i] + active[i + 1..];
  }

  /** An end removes exactly its own interval. */
  lemma EndSwept(rects: seq<Rect>, events: seq<Event>, k: nat, ids: seq<nat>, p: nat) returns (fewer: seq<nat>)
    requires Complete(rects, events) && Proper(rects) && k < |events| && Swept(rects, events, k, ids)
    requires p < |rects| && events[k] == EndOf(rects, p)
    ensures Swept(rects, events, k + 1, fewer)
    ensures Intervals(rects, fewer) == Erase(Intervals(rects, ids), rects[p].y)
  {
    InPrefix(events, k, StartOf(rects, p));
    InPrefix(events, k, EndOf(rects, p));
    BeforeTotal(EndOf(rects, p), EndOf(rects, p));
    var i :| 0 <= i < |ids| && ids[i] == p;
    fewer := ids[..i] + ids[i + 1..];
    EraseAt(rects, ids, i);
    forall q | 0 <= q < |rects|
      ensures q in fewer <==> StartOf(rects, q) in events[..k + 1] && EndOf(rects, q) !in events[..k + 1]
    {
      PrefixGrows(events, k, StartOf(rects, q));
      PrefixGrows(events, k, EndOf(rects, q));
      RemovedMember(rects, ids, i, q);
    }
    forall a: nat, b: nat | Seen(rects, events, k + 1, a) && Seen(rects, events, k + 1, b) && a != b
      ensures !Overlap(rects[a], rects[b])
    {
      PrefixGrows(events, k, StartOf(rects, a));
      PrefixGrows(events, k, StartOf(rects, b));
      assert Seen(rects, events, k, a) && Seen(rects, events, k, b);
    }
  }

  lemma RemovedMember(rects: seq<Rect>, ids: seq<nat>, i: nat, q: nat)
    requires Proper(rects) && Stacked(rects, ids) && i < |ids|
    ensures q in ids[..i] + ids[i + 1..] <==> q in ids && q != ids[i]
  {
    assert ids == ids[..i] + [ids[i]] + ids[i + 1..];
    forall j | 0 <= j < |ids| && j != i
      ensures ids[j] != ids[i]
    {
      assert RowEnd(rects[ids[Min(i, j)]]) <= rects[ids[Max(i, j)]].y;
    }
  }

  /** From any reachable point of the sweep: it gets through exactly if no two rectangles overlap. */
  lemma {:induction false} SweepExact(rects: seq<Rect>, events: seq<Event>, k: nat, ids: seq<nat>)
    requires Complete(rects, events) && Proper(rects) && k <= |events| && Swept(rects, events, k, ids)
    ensures Sweep(rects, events, k, Intervals(rects, ids)) <==> Disjoint(rects)
    decreases |events| - k
  {
    hide Blocked, Place, Erase, Intervals, Swept;
    if k == |events| {
      AllSeen(rects, events, ids);
    } else {
      var p := events[k].position;
      assert events[k] in events;
      if !events[k].starts {
        var fewer := EndSwept(rects, events, k, ids, p);
        SweepExact(rects, events, k + 1, fewer);
      } else {
        NextStart(rects, events, k, ids, p);
        if !Blocked(Intervals(rects, ids), rects[p].y, RowEnd(rects[p])) {
          var more := StartSwept(rects, events, k, ids, p);
          SweepExact(rects, events, k + 1, more);
        }
      }
    }
  }

  lemma AllSeen(rects: seq<Rect>, events: seq<Event>, ids: seq<nat>)
    requires Complete(rects, events) && Swept(rects, events, |events|, ids)
    ensures Disjoint(rects)
  {
    assert events[..|events|] == events;
    forall i, j | 0 <= i < j < |rects|
      ensures !Overlap(rects[i], rects[j])
    {
      assert Seen(rects, events, |events|, i) && Seen(rects, events, |events|, j);
    }
  }

  /** A blocked start proves an overlap; a free one meets no active rectangle. */
  lemma NextStart(rects: seq<Rect>, events: seq<Event>, k: nat, ids: seq<nat>, p: nat)
    requires Complete(rects, events) && Proper(rects) && k < |events| && Swept(rects, events, k, ids)
    requires p < |rects| && events[k] == StartOf(rects, p)
    ensures forall i :: 0 <= i < |ids| ==> ids[i] < |rects|
    ensures if Blocked(Intervals(rects, ids), rects[p].y, RowEnd(rects[p])) then !Disjoint(rects)
            else forall i :: 0 <= i < |ids| ==> !RowsMeet(rects[p], rects[ids[i]])
  {
    hide Blocked, Intervals;
    NeighboursSuffice(rects, ids, rects[p]);
    if Blocked(Intervals(rects, ids), rects[p].y, RowEnd(rects[p])) {
      var i :| 0 <= i < |ids| && RowsMeet(rects[p], rects[ids[i]]);
      var q := ids[i];
      ActiveMeet(rects, events, k, ids, p, q);
      assert Overlap(rects[p], rects[q]) && Overlap(rects[q], rects[p]);
      assert p < q || q < p;
    }
  }
}
