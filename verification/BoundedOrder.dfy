/**
 What class BoundedOrder of src/core/bounded_order.h does, on values: a bottom-up merge sort
 that can pause after any element write. `CooperativeSort` holds the class.
 */
module BoundedOrder {
  import opened StableOrder

  function Min(a: nat, b: nat): nat { if a < b then a else b }

  /** a * b, as repeated addition: it counts blocks and passes. */
  ghost function Times(a: nat, b: nat): nat {
    if a == 0 then 0 else Times(a - 1, b) + b
  }

  lemma {:induction false} TimesIsProduct(a: nat, b: nat)
    ensures Times(a, b) == a * b
  {
    if a > 0 {
      TimesIsProduct(a - 1, b);
    }
  }

  lemma {:induction false} TimesMonotonic(a: nat, c: nat, b: nat)
    requires a <= c
    ensures Times(a, b) <= Times(c, b)
    decreases c
  {
    if a < c {
      TimesMonotonic(a, c - 1, b);
    }
  }

  /** Positions lo..hi hold the numbers lo..hi-1 in stable order. */
  ghost predicate SortedBlock(less: Less, s: seq<nat>, lo: nat, hi: nat)
    requires lo <= hi <= |s|
  {
    && (forall i | lo <= i < hi :: lo <= s[i] < hi)
    && (forall i, j | lo <= i < j < hi :: Before(less, s[i], s[j]))
  }

  /** Positions lo..hi are cut into sorted blocks of `width`, the last one perhaps shorter. */
  ghost predicate Runs(less: Less, s: seq<nat>, lo: nat, hi: nat, width: nat)
    requires hi <= |s| && width > 0
    decreases hi - lo
  {
    lo >= hi
    || (SortedBlock(less, s, lo, Min(lo + width, hi)) && Runs(less, s, lo + width, hi, width))
  }

  /** One more block extends the runs when what is there is a whole number of blocks. */
  lemma {:induction false} RunsAppend(less: Less, s: seq<nat>, lo: nat, blocks: nat, hi: nat, width: nat)
    requires width > 0 && lo + Times(blocks, width) <= hi <= |s| && hi <= lo + Times(blocks + 1, width)
    requires Runs(less, s, lo, lo + Times(blocks, width), width)
    requires SortedBlock(less, s, lo + Times(blocks, width), hi)
    ensures Runs(less, s, lo, hi, width)
    decreases blocks
  {
    if blocks == 0 {
      assert Min(lo + width, hi) == hi;
    } else {
      RunsAppend(less, s, lo + width, blocks - 1, hi, width);
    }
  }

  /** Runs depend only on the positions they cover. */
  lemma {:induction false} RunsFrame(less: Less, s: seq<nat>, t: seq<nat>, lo: nat, hi: nat, width: nat)
    requires width > 0 && hi <= |s| && hi <= |t|
    requires forall i | lo <= i < hi :: s[i] == t[i]
    requires Runs(less, s, lo, hi, width)
    ensures Runs(less, t, lo, hi, width)
    decreases hi - lo
  {
    if lo < hi {
      RunsFrame(less, s, t, lo + width, hi, width);
    }
  }

  lemma {:induction false} IdentityRuns(less: Less, s: seq<nat>, lo: nat)
    requires forall i | 0 <= i < |s| :: s[i] == i
    ensures Runs(less, s, lo, |s|, 1)
    decreases |s| - lo
  {
    if lo < |s| {
      IdentityRuns(less, s, lo + 1);
    }
  }

  /** The fields of the class. The last three count what has been done and are in no branch:
      passes completed, blocks of two runs completed in this pass, and element writes. */
  datatype State = State(
    order: seq<nat>, scratch: seq<nat>, width: nat, begin: nat, left: nat, middle: nat, right: nat,
    end: nat, out: nat, passes: nat, blocks: nat, writes: nat)

  /** run(): place the cursors on the block that starts at begin. */
  function Placed(s: State): State {
    var middle := Min(s.begin + s.width, |s.order|);
    s.(left := s.begin, middle := middle, right := middle, end := Min(middle + s.width, |s.order|), out := s.begin)
  }

  /** start(): the numbers in their own order; whatever the scratch array holds stays there. */
  function Started(count: nat, scratch: seq<nat>): State {
    Placed(State(seq(count, i => i), scratch, 1, 0, 0, 0, 0, 0, 0, 0, 0, 0))
  }

  predicate TakesLeft(less: Less, s: State)
    requires s.left < s.middle <= |s.order| && s.right <= s.end <= |s.order|
  {
    s.right == s.end || !less(s.order[s.right], s.order[s.left])
  }

  /** One element write. */
  function WriteOne(less: Less, s: State): State
    requires Shape(s) && s.out < s.end
  {
    if s.left < s.middle && TakesLeft(less, s) then
      s.(scratch := s.scratch[s.out := s.order[s.left]], left := s.left + 1, out := s.out + 1, writes := s.writes + 1)
    else
      s.(scratch := s.scratch[s.out := s.order[s.right]], right := s.right + 1, out := s.out + 1,
         writes := s.writes + 1)
  }

  /** A finished block: the next one of this pass, or of the next pass, or the end of the sort. */
  function NextBlock(s: State): (State, bool) {
    if s.end < |s.order| then (Placed(s.(begin := s.end, blocks := s.blocks + 1)), false)
    else
      var swapped := s.(order := s.scratch, scratch := s.order, width := s.width * 2, begin := 0,
                        blocks := 0, passes := s.passes + 1);
      if s.width * 2 >= |s.order| then (swapped, true) else (Placed(swapped), false)
  }

  /** The block to write to next; true when there is none. */
  function Ready(s: State): (State, bool) {
    if s.out < s.end then (s, false) else NextBlock(s)
  }

  /** step(): at most `budget` writes, and whether the order is final. */
  function Step(budget: nat, less: Less, s: State): (State, bool)
    requires |s.order| >= 2 ==> Shape(s)
  {
    if |s.order| < 2 then (s, true)
    else if budget == 0 then (s, false)
    else
      var (ready, done) := Ready(s);
      if done then (ready, true)
      else
        ReadyShape(s);
        WriteOneShape(less, ready);
        Step(budget - 1, less, WriteOne(less, ready))
  }

  // ----- The state between writes

  ghost predicate InPass(s: State) {
    && |s.scratch| == |s.order|
    && 1 <= s.width < |s.order| && s.width == Pow2(s.passes)
    && s.begin == Times(s.blocks, 2 * s.width) && s.begin < |s.order|
  }

  /** The cursors as run() leaves them, moved on by the writes since. */
  ghost predicate Shape(s: State) {
    && InPass(s)
    && s.middle == Min(s.begin + s.width, |s.order|) && s.end == Min(s.middle + s.width, |s.order|)
    && s.begin <= s.left <= s.middle <= s.right <= s.end
    && s.out == s.left + (s.right - s.middle)
    && s.writes == Times(s.passes, |s.order|) + s.out
  }

  /** One turn of the loop in step(). */
  lemma StepOnce(budget: nat, less: Less, s: State)
    requires |s.order| >= 2 && Shape(s) && budget > 0
    ensures var (ready, done) := Ready(s);
      && (done ==> Step(budget, less, s) == (ready, true))
      && (!done ==> Shape(ready) && ready.out < ready.end && Shape(WriteOne(less, ready)))
      && (!done ==> Step(budget, less, s) == Step(budget - 1, less, WriteOne(less, ready)))
  {
    ReadyShape(s);
    if !Ready(s).1 {
      WriteOneShape(less, Ready(s).0);
    }
  }

  lemma PlacedShape(s: State)
    requires InPass(s) && s.writes == Times(s.passes, |s.order|) + s.begin
    ensures Shape(Placed(s)) && Placed(s).out < Placed(s).end
  {
  }

  lemma NextInPass(s: State)
    requires Shape(s) && s.out == s.end < |s.order|
    ensures InPass(s.(begin := s.end, blocks := s.blocks + 1))
  {
    assert s.end == s.begin + 2 * s.width;
    assert Times(s.blocks + 1, 2 * s.width) == Times(s.blocks, 2 * s.width) + 2 * s.width;
  }

  lemma NextPass(s: State)
    requires Shape(s) && s.out == s.end == |s.order|
    ensures s.writes == Times(s.passes + 1, |s.order|)
    ensures var swapped := s.(order := s.scratch, scratch := s.order, width := s.width * 2, begin := 0,
                              blocks := 0, passes := s.passes + 1);
      |swapped.order| == |s.order| && (s.width * 2 < |s.order| ==> InPass(swapped))
  {
  }

  lemma ReadyShape(s: State)
    requires Shape(s)
    ensures !Ready(s).1 ==> Shape(Ready(s).0) && Ready(s).0.out < Ready(s).0.end
    ensures Ready(s).0.writes == s.writes && |Ready(s).0.order| == |s.order|
  {
    if s.out == s.end {
      if s.end < |s.order| {
        NextInPass(s);
        hide InPass, Times;
        PlacedShape(s.(begin := s.end, blocks := s.blocks + 1));
      } else {
        NextPass(s);
        if s.width * 2 < |s.order| {
          hide InPass, Times;
          PlacedShape(s.(order := s.scratch, scratch := s.order, width := s.width * 2, begin := 0,
                         blocks := 0, passes := s.passes + 1));
        }
      }
    }
  }

  lemma WriteOneShape(less: Less, s: State)
    requires Shape(s) && s.out < s.end
    ensures Shape(WriteOne(less, s)) && WriteOne(less, s).writes == s.writes + 1
    ensures |WriteOne(less, s).order| == |s.order|
  {
  }

  /** The merged part is sorted, and everything in it comes before everything still to merge. */
  ghost predicate Merging(less: Less, s: State)
    requires Shape(s)
  {
    && (forall i | s.begin <= i < s.out :: s.begin <= s.scratch[i] < s.end)
    && (forall i, j | s.begin <= i < j < s.out :: Before(less, s.scratch[i], s.scratch[j]))
    && (forall i, j | s.begin <= i < s.out && s.left <= j < s.middle :: Before(less, s.scratch[i], s.order[j]))
    && (forall i, j | s.begin <= i < s.out && s.right <= j < s.end :: Before(less, s.scratch[i], s.order[j]))
  }

  /** A sort that has been started and has not reported its end. */
  ghost predicate Active(less: Less, s: State) {
    && Shape(s)
    && Runs(less, s.order, s.begin, |s.order|, s.width)
    && Runs(less, s.scratch, 0, s.begin, 2 * s.width)
    && Merging(less, s)
  }

  /** The numbers are in stable order, after one write per number and pass. */
  ghost predicate Sorted(less: Less, s: State) {
    && IsStableOrder(less, s.order, |s.order|)
    && IsCeilLog2(s.passes, |s.order|)
    && s.writes == s.passes * |s.order|
  }

  lemma StartedActive(less: Less, count: nat, scratch: seq<nat>)
    requires count >= 2 && |scratch| == count
    ensures Active(less, Started(count, scratch)) && Started(count, scratch).writes == 0
  {
    IdentityRuns(less, Started(count, scratch).order, 0);
  }

  /** The two runs being merged are sorted blocks. */
  lemma TwoBlocks(less: Less, s: State)
    requires Active(less, s)
    ensures SortedBlock(less, s.order, s.begin, s.middle) && SortedBlock(less, s.order, s.middle, s.end)
    ensures Runs(less, s.order, s.end, |s.order|, s.width)
  {
    assert s.middle < |s.order| ==> s.middle == s.begin + s.width;
    assert Runs(less, s.order, s.middle, |s.order|, s.width);
  }

  /** An element that comes before everything still to merge, and after everything merged. */
  ghost predicate Next(less: Less, s: State, element: nat, left: nat, right: nat)
    requires Shape(s)
  {
    && s.begin <= element < s.end
    && (forall j | s.left <= left <= j < s.middle :: Before(less, element, s.order[j]))
    && (forall j | s.right <= right <= j < s.end :: Before(less, element, s.order[j]))
    && (forall i | s.begin <= i < s.out :: Before(less, s.scratch[i], element))
  }

  lemma LeftFirst(less: Less, s: State)
    requires StrictWeakOrder(less, |s.order|) && Active(less, s)
    requires s.left < s.middle && TakesLeft(less, s)
    ensures Next(less, s, s.order[s.left], s.left + 1, s.right)
  {
    TwoBlocks(less, s);
    forall j | s.right <= j < s.end ensures Before(less, s.order[s.left], s.order[j]) {
      if j > s.right {
        BeforeTransitive(less, |s.order|, s.order[s.left], s.order[s.right], s.order[j]);
      }
    }
  }

  lemma RightFirst(less: Less, s: State)
    requires StrictWeakOrder(less, |s.order|) && Active(less, s) && s.right < s.end
    requires s.left == s.middle || less(s.order[s.right], s.order[s.left])
    ensures Next(less, s, s.order[s.right], s.left, s.right + 1)
  {
    TwoBlocks(less, s);
    forall j | s.left <= j < s.middle ensures Before(less, s.order[s.right], s.order[j]) {
      if j > s.left {
        BeforeTransitive(less, |s.order|, s.order[s.right], s.order[s.left], s.order[j]);
      }
    }
  }

  lemma WrittenMerging(less: Less, s: State, next: State, element: nat)
    requires Shape(s) && Merging(less, s) && Shape(next)
    requires next.order == s.order && next.begin == s.begin && next.middle == s.middle && next.end == s.end
    requires next.left >= s.left && next.right >= s.right && next.out == s.out + 1
    requires next.scratch == s.scratch[s.out := element]
    requires Next(less, s, element, next.left, next.right)
    ensures Merging(less, next)
  {
    forall i | s.begin <= i < next.out
      ensures i < s.out ==> next.scratch[i] == s.scratch[i]
      ensures i == s.out ==> next.scratch[i] == element
    {
    }
  }

  lemma WriteOneMerging(less: Less, s: State)
    requires StrictWeakOrder(less, |s.order|) && Active(less, s) && s.out < s.end
    ensures Shape(WriteOne(less, s)) && Merging(less, WriteOne(less, s))
  {
    var next := WriteOne(less, s);
    WriteOneShape(less, s);
    if s.left < s.middle && TakesLeft(less, s) {
      LeftFirst(less, s);
      WrittenMerging(less, s, next, s.order[s.left]);
    } else {
      RightFirst(less, s);
      WrittenMerging(less, s, next, s.order[s.right]);
    }
  }

  lemma WriteOneActive(less: Less, s: State)
    requires StrictWeakOrder(less, |s.order|) && Active(less, s) && s.out < s.end
    ensures Active(less, WriteOne(less, s))
  {
    WriteOneMerging(less, s);
    RunsFrame(less, s.scratch, WriteOne(less, s).scratch, 0, s.begin, 2 * s.width);
  }

  /** A merged block is sorted, so the runs of the next pass grow by it. */
  lemma BlockRuns(less: Less, s: State)
    requires Active(less, s) && s.out == s.end
    ensures Runs(less, s.scratch, 0, s.end, 2 * s.width)
  {
    assert SortedBlock(less, s.scratch, s.begin, s.end);
    RunsAppend(less, s.scratch, 0, s.blocks, s.end, 2 * s.width);
  }

  /** Runs as wide as the whole sequence are one sorted block. */
  lemma WholeRun(less: Less, s: seq<nat>, width: nat)
    requires width >= |s| > 0 && Runs(less, s, 0, |s|, width)
    ensures IsStableOrder(less, s, |s|)
  {
    assert SortedBlock(less, s, 0, Min(0 + width, |s|));
  }

  lemma NextBlockActive(less: Less, s: State)
    requires Active(less, s) && s.out == s.end
    ensures NextBlock(s).1 ==> Sorted(less, NextBlock(s).0)
    ensures !NextBlock(s).1 ==> Active(less, NextBlock(s).0) && NextBlock(s).0.out < NextBlock(s).0.end
  {
    TwoBlocks(less, s);
    BlockRuns(less, s);
    ReadyShape(s);
    if NextBlock(s).1 {
      WholeRun(less, s.scratch, 2 * s.width);
      TimesIsProduct(s.passes + 1, |s.order|);
    }
  }

  /** One turn of the loop keeps the sort active, or ends it with the final order. */
  lemma TurnActive(less: Less, s: State)
    requires StrictWeakOrder(less, |s.order|) && Active(less, s)
    ensures Shape(s) && |s.order| >= 2
    ensures Ready(s).1 ==> Sorted(less, Ready(s).0)
    ensures |Ready(s).0.order| == |s.order| && Ready(s).0.writes == s.writes
    ensures !Ready(s).1 ==> Shape(Ready(s).0) && Ready(s).0.out < Ready(s).0.end
    ensures !Ready(s).1 ==> var next := WriteOne(less, Ready(s).0);
      Active(less, next) && |next.order| == |s.order| && next.writes == s.writes + 1
  {
    if s.out == s.end {
      NextBlockActive(less, s);
    }
    ReadyShape(s);
    if !Ready(s).1 {
      WriteOneActive(less, Ready(s).0);
      WriteOneShape(less, Ready(s).0);
    }
  }

  /** step() keeps the sort active until it reports the end, and then the order is final. */
  lemma {:induction false} StepActive(budget: nat, less: Less, s: State)
    requires StrictWeakOrder(less, |s.order|) && Active(less, s)
    ensures var (next, done) := Step(budget, less, s);
      && |next.order| == |s.order|
      && (done ==> Sorted(less, next) && s.writes <= next.writes < s.writes + budget)
      && (!done ==> Active(less, next) && next.writes == s.writes + budget)
    decreases budget
  {
    hide Active, Sorted, Ready, WriteOne, StrictWeakOrder, Shape;
    TurnActive(less, s);
    if budget > 0 {
      StepOnce(budget, less, s);
      if !Ready(s).1 {
        StepActive(budget - 1, less, WriteOne(less, Ready(s).0));
      }
    }
  }

  // ----- Whole sorts

  /** step() called with each budget in turn, until it reports the end or the budgets run out. */
  function Steps(budgets: seq<nat>, less: Less, s: State): (State, bool)
    requires |s.order| >= 2 ==> Shape(s)
    decreases |budgets|
  {
    if budgets == [] then (s, false)
    else
      var (next, done) := Step(budgets[0], less, s);
      if done then (next, true)
      else
        StepShape(budgets[0], less, s);
        Steps(budgets[1..], less, next)
  }

  lemma {:induction false} StepShape(budget: nat, less: Less, s: State)
    requires |s.order| >= 2 ==> Shape(s)
    ensures !Step(budget, less, s).1 ==> Shape(Step(budget, less, s).0)
    decreases budget
  {
    hide Shape, WriteOne, Ready;
    if |s.order| >= 2 && budget > 0 {
      StepOnce(budget, less, s);
      if !Ready(s).1 {
        StepShape(budget - 1, less, WriteOne(less, Ready(s).0));
      }
    }
  }

  function Sum(budgets: seq<nat>): nat {
    if budgets == [] then 0 else budgets[0] + Sum(budgets[1..])
  }

  lemma {:induction false} StepsActive(budgets: seq<nat>, less: Less, s: State)
    requires StrictWeakOrder(less, |s.order|) && Active(less, s)
    ensures var (next, done) := Steps(budgets, less, s);
      && |next.order| == |s.order|
      && (done ==> Sorted(less, next))
      && (!done ==> Active(less, next) && next.writes == s.writes + Sum(budgets))
    decreases |budgets|
  {
    if budgets != [] {
      StepActive(budgets[0], less, s);
      var (next, done) := Step(budgets[0], less, s);
      if !done {
        StepsActive(budgets[1..], less, next);
      }
    }
  }

  /** An unfinished sort has made at most n writes for each of the passes it needs. */
  lemma WritesBounded(less: Less, s: State, passes: nat)
    requires Active(less, s) && IsCeilLog2(passes, |s.order|)
    ensures s.writes <= passes * |s.order|
  {
    if passes <= s.passes {
      Pow2Monotonic(passes, s.passes);
    }
    TimesMonotonic(s.passes + 1, passes, |s.order|);
    TimesIsProduct(passes, |s.order|);
  }

  /** Whatever the budgets, the first `true` leaves the unique stable order of 0..n-1, after
      exactly n * ceil(log2 n) element writes; it comes as soon as the budgets exceed that. */
  lemma AnyBudgets(count: nat, scratch: seq<nat>, budgets: seq<nat>, less: Less, passes: nat)
    requires StrictWeakOrder(less, count) && count >= 2 && |scratch| == count && IsCeilLog2(passes, count)
    ensures Shape(Started(count, scratch))
    ensures var (final, done) := Steps(budgets, less, Started(count, scratch));
      && (done ==> IsStableOrder(less, final.order, count) && final.writes == count * passes)
      && (Sum(budgets) > count * passes ==> done)
  {
    var start := Started(count, scratch);
    StartedActive(less, count, scratch);
    StepsActive(budgets, less, start);
    var (final, done) := Steps(budgets, less, start);
    if done {
      CeilLog2Unique(passes, final.passes, count);
    } else {
      WritesBounded(less, final, passes);
    }
    assert count * passes == passes * count;
  }
}
