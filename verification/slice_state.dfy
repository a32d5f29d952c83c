// The state of a slice that outlives its coding: line buffers, adaptive contexts, run states.

module SliceStates {
  import opened Basics
  import opened GolombRice
  import opened GolombRun
  import opened SampleModel
  import opened StreamModel
  import opened SliceSchedule
  import opened GolombSlice
  import opened GolombContent

  /** The line being coded and the two above it. */
  datatype LineState = LineState(above: Above, current: seq<int>)

  function Swapped(line: LineState): LineState {
    LineState(Above(line.above.previous, line.current), BorderRow(|line.current|))
  }

  class SliceState {
    var lines: seq<LineState>
    var golombBanks: seq<seq<ContextState>>
    var golombRuns: seq<RunState>

    constructor ()
      ensures lines == [] && golombBanks == [] && golombRuns == []
    {
      lines, golombBanks, golombRuns := [], [], [];
    }

    function Aboves(): (a: seq<Above>)
      reads this
      ensures |a| == |lines|
    {
      seq(|lines|, p requires 0 <= p < |lines| reads this => lines[p].above)
    }

    function Golomb(): GolombState
      reads this
    {
      GolombState(Aboves(), golombBanks, golombRuns)
    }

    /** The line buffers have the widths of the window. */
    ghost predicate Fits(l: Layout)
      requires IsLayout(l)
      reads this
    {
      && |lines| == |l.widths|
      && forall p :: 0 <= p < |lines| ==> IsAbove(lines[p].above, l.widths[p]) && |lines[p].current| == l.widths[p]
    }

    method Reset(widths: seq<nat>) returns (status: Status)
      modifies this`lines
      ensures status.Ok? <==> forall p :: 0 <= p < |widths| ==> 0 < widths[p]
      ensures status.Ok? ==> |lines| == |widths|
      ensures status.Ok? ==> forall p :: 0 <= p < |widths| ==>
                lines[p] == LineState(Above(BorderRow(widths[p]), BorderRow(widths[p])), BorderRow(widths[p]))
    {
      lines := [];
      for p := 0 to |widths|
        invariant forall k :: 0 <= k < p ==> 0 < widths[k]
        invariant |lines| == p
        invariant forall k :: 0 <= k < p ==>
            lines[k] == LineState(Above(BorderRow(widths[k]), BorderRow(widths[k])), BorderRow(widths[k]))
      {
        if widths[p] == 0 {
          return Err(InvalidArgument);
        }
        var border := BorderRow(widths[p]);
        lines := lines + [LineState(Above(border, border), border)];
      }
      status := Ok(());
    }

    /** Creates the adaptive state, or checks that the one kept from before fits. */
    method PrepareGolombRice(l: Layout) returns (status: Status)
      requires IsLayout(l) && Fits(l)
      requires Aboves() == FreshLines(l)
      modifies this`golombBanks, this`golombRuns
      ensures match Prepared(l, old(golombBanks), old(golombRuns))
              case Err(error) => status == Err(error) && unchanged(this)
              case Ok(st) => status == Ok(()) && Golomb() == st
    {
      for b := 0 to |l.tables|
        invariant unchanged(this)
        invariant forall k :: 0 <= k < b ==> l.tables[k].contextCount != 0
      {
        if l.tables[b].contextCount == 0 {
          return Err(InvalidState);
        }
      }
      if |golombBanks| == 0 && |golombRuns| == 0 {
        golombBanks, golombRuns := FreshBanks(l), FreshRuns(l);
        return Ok(());
      }
      if |golombBanks| != |l.tables| || |golombRuns| != |l.widths| {
        return Err(InvalidState);
      }
      for b := 0 to |golombBanks|
        invariant unchanged(this)
        invariant forall k :: 0 <= k < b ==> |golombBanks[k]| == l.tables[k].contextCount
      {
        if |golombBanks[b]| != l.tables[b].contextCount {
          return Err(InvalidState);
        }
      }
      golombRuns := FreshRuns(l);
      status := Ok(());
    }

    /** The rows above once the lines of the planes `first` .. `done` - 1 will have been swapped. */
    ghost function Viewed(first: nat, done: nat): (a: seq<Above>)
      reads this
      ensures |a| == |lines|
    {
      seq(|lines|, p requires 0 <= p < |lines| reads this =>
        if first <= p < done then Swapped(lines[p]).above else lines[p].above)
    }

    lemma NothingSwapped(first: nat)
      ensures Viewed(first, first) == Aboves()
    {
    }

    /** All lines at once, as after the last plane of an interleaved row. */
    method SwapAll()
      modifies this`lines
      ensures |lines| == |old(lines)| && forall p :: 0 <= p < |lines| ==> lines[p] == Swapped(old(lines)[p])
      ensures Aboves() == old(Viewed(0, |lines|))
    {
      var before := lines;
      ghost var viewed := Viewed(0, |lines|);
      for plane := 0 to |lines|
        invariant |lines| == |before|
        invariant forall p :: 0 <= p < |lines| ==> lines[p] == if p < plane then Swapped(before[p]) else before[p]
      {
        SwapLines(plane);
      }
      assert Aboves() == viewed;
    }

    method SwapLines(plane: nat)
      requires plane < |lines|
      modifies this`lines
      ensures lines == old(lines)[plane := Swapped(old(lines[plane]))]
    {
      lines := lines[plane := Swapped(lines[plane])];
    }
  }
}
