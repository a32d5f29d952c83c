// Which reference state each slice of a non-keyframe continues: slices are matched by their
// place on the raster, not by their order in the frame.

module ReferenceStates {
  import opened Basics
  import opened SliceRaster

  /** Lexicographic order of slice layouts. */
  predicate Less(a: Rect, b: Rect) {
    if a.x != b.x then a.x < b.x
    else if a.y != b.y then a.y < b.y
    else if a.width != b.width then a.width < b.width
    else a.height < b.height
  }

  lemma LessIsOrder(a: Rect, b: Rect, c: Rect)
    ensures !(Less(a, b) && Less(b, a))
    ensures a == b || Less(a, b) || Less(b, a)
    ensures Less(a, b) && Less(b, c) ==> Less(a, c)
  {
  }

  predicate AreIndexes(order: seq<nat>, n: nat) {
    forall k :: 0 <= k < |order| ==> order[k] < n
  }

  /** The layouts, read in the given order. */
  function Picked(layouts: seq<Rect>, order: seq<nat>): (r: seq<Rect>)
    requires AreIndexes(order, |layouts|)
    ensures |r| == |order|
  {
    seq(|order|, k requires 0 <= k < |order| => layouts[order[k]])
  }

  function InsertIndex(layouts: seq<Rect>, order: seq<nat>, p: nat): (r: seq<nat>)
    requires AreIndexes(order, |layouts|) && p < |layouts|
    ensures AreIndexes(r, |layouts|) && multiset(r) == multiset(order) + multiset{p}
  {
    if order == [] then [p]
    else
      var last := order[|order| - 1];
      var front := order[..|order| - 1];
      assert order == front + [last];
      if Less(layouts[p], layouts[last]) then InsertIndex(layouts, front, p) + [last] else order + [p]
  }

  /** The indexes of the first n layouts, ordered by layout. */
  function SortedOrder(layouts: seq<Rect>, n: nat): (r: seq<nat>)
    requires n <= |layouts|
    ensures AreIndexes(r, |layouts|) && |r| == n
  {
    if n == 0 then []
    else
      var before := SortedOrder(layouts, n - 1);
      var r := InsertIndex(layouts, before, n - 1);
      assert |multiset(r)| == |multiset(before)| + 1;
      r
  }

  ghost predicate Distinct(layouts: seq<Rect>) {
    forall i, j :: 0 <= i < j < |layouts| ==> layouts[i] != layouts[j]
  }

  ghost predicate Ascending(layouts: seq<Rect>, order: seq<nat>)
    requires AreIndexes(order, |layouts|)
  {
    forall i, j :: 0 <= i < j < |order| ==> Less(layouts[order[i]], layouts[order[j]])
  }

  lemma {:induction false} InsertAscending(layouts: seq<Rect>, order: seq<nat>, p: nat)
    requires AreIndexes(order, |layouts|) && p < |layouts| && Ascending(layouts, order)
    requires forall k :: 0 <= k < |order| ==> layouts[order[k]] != layouts[p]
    ensures Ascending(layouts, InsertIndex(layouts, order, p))
    decreases |order|
  {
    if order != [] {
      var last := order[|order| - 1];
      var front := order[..|order| - 1];
      if Less(layouts[p], layouts[last]) {
        InsertAscending(layouts, front, p);
        var r := InsertIndex(layouts, front, p);
        forall k | 0 <= k < |r|
          ensures Less(layouts[r[k]], layouts[last])
        {
          assert r[k] in multiset(r);
          assert r[k] == p || r[k] in front;
        }
      } else {
        forall k | 0 <= k < |order|
          ensures Less(layouts[order[k]], layouts[p])
        {
          LessIsOrder(layouts[last], layouts[p], layouts[p]);
          LessIsOrder(layouts[order[k]], layouts[last], layouts[p]);
        }
      }
    }
  }

  lemma InsertMember(layouts: seq<Rect>, order: seq<nat>, p: nat, k: nat)
    requires AreIndexes(order, |layouts|) && p < |layouts|
    ensures k in InsertIndex(layouts, order, p) <==> k in order || k == p
  {
    var r := InsertIndex(layouts, order, p);
    assert k in multiset(r) <==> k in multiset(order) + multiset{p};
  }

  lemma {:induction false} SortedMembers(layouts: seq<Rect>, n: nat)
    requires n <= |layouts|
    ensures forall k: nat :: k in SortedOrder(layouts, n) <==> k < n
  {
    hide InsertIndex;
    if n > 0 {
      SortedMembers(layouts, n - 1);
      forall k: nat
        ensures k in SortedOrder(layouts, n) <==> k < n
      {
        InsertMember(layouts, SortedOrder(layouts, n - 1), n - 1, k);
      }
    }
  }

  lemma {:induction false} SortedAscending(layouts: seq<Rect>, n: nat)
    requires n <= |layouts| && Distinct(layouts)
    ensures Ascending(layouts, SortedOrder(layouts, n))
  {
    if n > 0 {
      SortedAscending(layouts, n - 1);
      SortedMembers(layouts, n - 1);
      var before := SortedOrder(layouts, n - 1);
      forall k | 0 <= k < |before|
        ensures layouts[before[k]] != layouts[n - 1]
      {
        assert before[k] in before;
      }
      InsertAscending(layouts, before, n - 1);
    }
  }

  /** Pairs slices with references rank by rank; None when a pair disagrees. */
  function Paired<S>(references: seq<Rect>, states: seq<S>, current: seq<Rect>, ranks: nat, start: seq<S>): (r: Option<seq<S>>)
    requires |references| == |states| == |current| == |start| && ranks <= |current|
    ensures r.Some? ==> |r.value| == |current|
  {
    if ranks == 0 then Some(start)
    else
      match Paired(references, states, current, ranks - 1, start)
      case None => None
      case Some(got) =>
        var reference := SortedOrder(references, |references|)[ranks - 1];
        var slice := SortedOrder(current, |current|)[ranks - 1];
        if current[slice] != references[reference] then None
        else Some(got[slice := states[reference]])
  }

  function Blanks<S>(n: nat, blank: S): (r: seq<S>)
    ensures |r| == n
  {
    seq(n, _ => blank)
  }

  /** The states a non-keyframe starts from. */
  function Continued<S>(references: seq<Rect>, states: seq<S>, current: seq<Rect>, blank: S): (r: Result<seq<S>>)
    ensures r.Ok? ==> |r.value| == |current|
  {
    if states == [] then Err(InvalidState)
    else if |states| != |current| then Err(SyntaxError)
    else if |references| != |states| then Err(InvalidState)
    else
      match Paired(references, states, current, |current|, Blanks(|current|, blank))
      case None => Err(SyntaxError)
      case Some(r) => Ok(r)
  }

  method MatchReferences<S>(references: seq<Rect>, states: seq<S>, current: seq<Rect>, blank: S) returns (r: Result<seq<S>>)
    ensures r == Continued(references, states, current, blank)
  {
    if |states| == 0 {
      return Err(InvalidState);
    }
    if |states| != |current| {
      return Err(SyntaxError);
    }
    if |references| != |states| {
      return Err(InvalidState);
    }
    var referenceOrder := SortedOrder(references, |references|);
    var currentOrder := SortedOrder(current, |current|);
    var working := Blanks(|current|, blank);
    ghost var start := working;
    for rank := 0 to |current|
      invariant |working| == |current|
      invariant Paired(references, states, current, rank, start) == Some(working)
    {
      var slice, reference := currentOrder[rank], referenceOrder[rank];
      if current[slice] != references[reference] {
        StaysUnpaired(references, states, current, rank + 1, |current|, start);
        return Err(SyntaxError);
      }
      working := working[slice := states[reference]];
    }
    r := Ok(working);
  }

  lemma {:induction false} StaysUnpaired<S>(references: seq<Rect>, states: seq<S>, current: seq<Rect>, ranks: nat, more: nat, start: seq<S>)
    requires |references| == |states| == |current| == |start| && ranks <= more <= |current|
    requires Paired(references, states, current, ranks, start) == None
    ensures Paired(references, states, current, more, start) == None
    decreases more
  {
    if ranks < more {
      StaysUnpaired(references, states, current, ranks, more - 1, start);
    }
  }

  /** Where every rank agrees, each slice seen so far got the state of the reference with its layout. */
  lemma {:induction false} PairedStates<S>(references: seq<Rect>, states: seq<S>, current: seq<Rect>, ranks: nat, start: seq<S>)
    requires |references| == |states| == |current| == |start| && ranks <= |current|
    requires Distinct(references) && Distinct(current)
    ensures Paired(references, states, current, ranks, start).Some? <==>
            forall k :: 0 <= k < ranks ==>
              current[SortedOrder(current, |current|)[k]] == references[SortedOrder(references, |references|)[k]]
    ensures Paired(references, states, current, ranks, start).Some? ==>
            forall k :: 0 <= k < ranks ==>
              Paired(references, states, current, ranks, start).value[SortedOrder(current, |current|)[k]]
              == states[SortedOrder(references, |references|)[k]]
    decreases ranks
  {
    hide SortedOrder, Less;
    if ranks > 0 {
      PairedStates(references, states, current, ranks - 1, start);
      SortedAscending(current, |current|);
      var order := SortedOrder(current, |current|);
      forall k | 0 <= k < ranks - 1
        ensures order[k] != order[ranks - 1]
      {
        LessIsOrder(current[order[k]], current[order[ranks - 1]], current[order[k]]);
        assert Less(current[order[k]], current[order[ranks - 1]]);
      }
    }
  }

  lemma PairedAt<S>(references: seq<Rect>, states: seq<S>, current: seq<Rect>, start: seq<S>, k: nat)
    requires |references| == |states| == |current| == |start| && k < |current|
    requires Distinct(references) && Distinct(current)
    requires Paired(references, states, current, |current|, start).Some?
    ensures var slice, reference := SortedOrder(current, |current|)[k], SortedOrder(references, |references|)[k];
            && current[slice] == references[reference]
            && Paired(references, states, current, |current|, start).value[slice] == states[reference]
  {
    hide SortedOrder, Paired;
    PairedStates(references, states, current, |current|, start);
  }

  /** With the same layouts in any order, every slice continues the reference with its own layout. */
  lemma SameLayoutsContinue<S>(references: seq<Rect>, states: seq<S>, current: seq<Rect>, blank: S, i: nat, j: nat)
    requires Distinct(references) && Distinct(current) && |references| == |states|
    requires Continued(references, states, current, blank).Ok?
    requires i < |current| && j < |references| && current[i] == references[j]
    ensures i < |Continued(references, states, current, blank).value|
    ensures Continued(references, states, current, blank).value[i] == states[j]
  {
    hide SortedOrder, Less;
    var start := Blanks(|current|, blank);
    SortedMembers(current, |current|);
    var order := SortedOrder(current, |current|);
    assert i in order;
    var k :| 0 <= k < |order| && order[k] == i;
    PairedAt(references, states, current, start, k);
    assert SortedOrder(references, |references|)[k] == j;
  }

  /** Ascending lists of the same layouts are the same list. */
  lemma {:induction false} AscendingUnique(a: seq<Rect>, b: seq<Rect>)
    requires forall i, j :: 0 <= i < j < |a| ==> Less(a[i], a[j])
    requires forall i, j :: 0 <= i < j < |b| ==> Less(b[i], b[j])
    requires |a| == |b| && forall r <- a :: r in b
    ensures a == b
    decreases |a|
  {
    if a != [] {
      var n := |a| - 1;
      LastIsLast(a, b);
      forall r | r in a[..n]
        ensures r in b[..n]
      {
        var i :| 0 <= i < n && a[i] == r;
        assert Less(a[i], a[n]);
        LessIsOrder(a[i], a[n], a[n]);
        assert r in a && r in b;
        var k :| 0 <= k < |b| && b[k] == r;
      }
      AscendingUnique(a[..n], b[..n]);
      assert a == a[..n] + [a[n]] && b == b[..n] + [b[n]];
    }
  }

  lemma {:induction false} LastIsLast(a: seq<Rect>, b: seq<Rect>)
    requires forall i, j :: 0 <= i < j < |a| ==> Less(a[i], a[j])
    requires forall i, j :: 0 <= i < j < |b| ==> Less(b[i], b[j])
    requires 0 < |a| == |b| && forall r <- a :: r in b
    ensures a[|a| - 1] == b[|b| - 1]
  {
    var n := |a| - 1;
    assert a[n] in a;
    var k :| 0 <= k < |b| && b[k] == a[n];
    if k < n {
      PlaceGrows(a, b, n, k);
    }
  }

  lemma StandsEarlier(b: seq<Rect>, m: nat, k: nat)
    requires forall x, y :: 0 <= x < y < |b| ==> Less(b[x], b[y])
    requires m < |b| && k < |b| && Less(b[m], b[k])
    ensures m < k
  {
    LessIsOrder(b[m], b[k], b[m]);
  }

  /** In an ascending list every element stands at least as far as elements before it allow. */
  lemma {:induction false} PlaceGrows(a: seq<Rect>, b: seq<Rect>, i: nat, k: nat)
    requires forall x, y :: 0 <= x < y < |a| ==> Less(a[x], a[y])
    requires forall x, y :: 0 <= x < y < |b| ==> Less(b[x], b[y])
    requires i < |a| && k < |b| && b[k] == a[i] && forall r <- a :: r in b
    ensures i <= k
    decreases i
  {
    if i > 0 {
      assert a[i - 1] in a;
      var m :| 0 <= m < |b| && b[m] == a[i - 1];
      assert Less(a[i - 1], a[i]);
      StandsEarlier(b, m, k);
      PlaceGrows(a, b, i - 1, m);
    }
  }

  /** A non-keyframe is accepted exactly when its slices stand where the reference's stood. */
  lemma ContinuedExactly<S>(references: seq<Rect>, states: seq<S>, current: seq<Rect>, blank: S)
    requires Distinct(references) && Distinct(current)
    requires |references| == |states| == |current| && states != []
    ensures Continued(references, states, current, blank).Ok? <==> forall r <- current :: r in references
  {
    hide SortedOrder, Less;
    var start := Blanks(|current|, blank);
    PairedStates(references, states, current, |current|, start);
    SortedMembers(current, |current|);
    SortedMembers(references, |references|);
    SortedAscending(current, |current|);
    SortedAscending(references, |references|);
    var a := Picked(current, SortedOrder(current, |current|));
    var b := Picked(references, SortedOrder(references, |references|));
    if forall r <- current :: r in references {
      forall r | r in a
        ensures r in b
      {
        var i :| 0 <= i < |a| && a[i] == r;
        assert r in current;
        var j :| 0 <= j < |references| && references[j] == r;
        assert j in SortedOrder(references, |references|);
        var k :| 0 <= k < |b| && SortedOrder(references, |references|)[k] == j;
        assert b[k] == r;
      }
      AscendingUnique(a, b);
      forall k | 0 <= k < |current|
        ensures current[SortedOrder(current, |current|)[k]] == references[SortedOrder(references, |references|)[k]]
      {
        assert a[k] == b[k];
      }
    }
    if Continued(references, states, current, blank).Ok? {
      forall r | r in current
        ensures r in references
      {
        var i :| 0 <= i < |current| && current[i] == r;
        assert i in SortedOrder(current, |current|);
      }
    }
  }
}
