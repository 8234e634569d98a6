/** class BoundedOrder of src/core/bounded_order.h, on its arrays and cursors. */
module CooperativeSort {
  import opened Options
  import opened StableOrder
  import opened BoundedOrder

  class Sorter {
    var order: array<nat>
    var scratch: array<nat>
    var width: nat
    var begin: nat
    var left: nat
    var middle: nat
    var right: nat
    var end: nat
    var out: nat
    ghost var passes: nat
    ghost var blocks: nat
    ghost var writes: nat

    ghost function Contents(): State
      reads this, order, scratch
    {
      State(order[..], scratch[..], width, begin, left, middle, right, end, out, passes, blocks, writes)
    }

    ghost predicate Valid()
      reads this
    {
      order != scratch && order.Length == scratch.Length
    }

    constructor ()
      ensures Valid() && order.Length == 0 && fresh(order) && fresh(scratch)
    {
      order, scratch := new nat[0], new nat[0];
      width, begin, left, middle, right, end, out := 1, 0, 0, 0, 0, 0, 0;
      passes, blocks, writes := 0, 0, 0;
    }

    method Run()
      requires Valid()
      modifies this`left, this`middle, this`right, this`end, this`out
      ensures Valid() && Contents() == Placed(old(Contents()))
    {
      left := begin;
      middle := Min(begin + width, order.Length);
      right := middle;
      end := Min(middle + width, order.Length);
      out := begin;
    }

    method Start(count: nat)
      modifies this
      ensures Valid() && fresh(order) && fresh(scratch)
      ensures |Contents().scratch| == count && Contents() == Started(count, Contents().scratch)
    {
      order := new nat[count](i => i);
      scratch := new nat[count];
      width, begin := 1, 0;
      passes, blocks, writes := 0, 0, 0;
      Run();
    }

    /** The branch of step() taken at the end of a block. */
    method Advance() returns (done: bool)
      requires Valid() && Shape(Contents()) && out == end
      modifies this
      ensures Valid() && {order, scratch} == old({order, scratch})
      ensures (Contents(), done) == NextBlock(old(Contents()))
    {
      begin := end;
      blocks := blocks + 1;
      if begin == order.Length {
        order, scratch := scratch, order;
        width := width * 2;
        begin := 0;
        blocks := 0;
        passes := passes + 1;
        if width >= order.Length {
          return true;
        }
      }
      Run();
      return false;
    }

    /** The assignment inside the loop of step(). */
    method Write(less: Less)
      requires Valid() && Shape(Contents()) && out < end
      modifies this`left, this`right, this`out, this`writes, scratch
      ensures Valid() && Contents() == WriteOne(less, old(Contents()))
    {
      if left < middle && (right == end || !less(order[right], order[left])) {
        scratch[out] := order[left];
        left := left + 1;
      } else {
        scratch[out] := order[right];
        right := right + 1;
      }
      out := out + 1;
      writes := writes + 1;
    }

    /** One turn of the loop in step(): on to the next block if this one is done, then one write.
        `target` is where the call to step() must end. */
    method Turn(less: Less, ghost budget: nat, ghost target: (State, bool)) returns (done: bool)
      requires Valid() && order.Length >= 2 && budget > 0 && Leads(less, budget, Contents(), target)
      modifies this, order, scratch
      ensures Valid() && {order, scratch} == old({order, scratch}) && order.Length == old(order.Length)
      ensures done ==> (Contents(), true) == target
      ensures !done ==> Leads(less, budget - 1, Contents(), target)
    {
      ReadyShape(Contents());
      LeadsOn(less, budget, Contents(), target);
      if out == end {
        done := Advance();
        if done { return true; }
      }
      Write(less);
      return false;
    }

    method Step(budget: nat, less: Less) returns (done: bool)
      requires Valid() && (order.Length >= 2 ==> Shape(Contents()))
      modifies this, order, scratch
      ensures Valid() && {order, scratch} == old({order, scratch})
      ensures (Contents(), done) == BoundedOrder.Step(budget, less, old(Contents()))
    {
      if order.Length < 2 { return true; }
      var remaining: nat := budget;
      ghost var target := BoundedOrder.Step(budget, less, Contents());
      while remaining != 0
        invariant Valid() && {order, scratch} == old({order, scratch}) && order.Length >= 2
        invariant Leads(less, remaining, Contents(), target)
        decreases remaining
      {
        done := Turn(less, remaining, target);
        if done { return true; }
        remaining := remaining - 1;
      }
      return false;
    }

    /** Sorting to the end with any positive budgets: the call returns with the stable order. */
    method Finish(budgets: nat -> nat, less: Less, ghost needed: nat)
      requires Valid() && StrictWeakOrder(less, order.Length) && forall k :: budgets(k) > 0
      requires order.Length >= 2 ==> Active(less, Contents()) && IsCeilLog2(needed, order.Length)
      modifies this, order, scratch
      ensures Valid() && {order, scratch} == old({order, scratch})
      ensures order.Length >= 2 ==>
        IsStableOrder(less, order[..], order.Length) && writes == order.Length * needed
      ensures order.Length < 2 ==> Contents() == old(Contents())
    {
      var k := 0;
      var done := false;
      ghost var n := order.Length;
      while !done
        invariant Valid() && {order, scratch} == old({order, scratch}) && order.Length == n
        invariant n < 2 ==> Contents() == old(Contents())
        invariant n >= 2 && !done ==> Active(less, Contents())
        invariant n >= 2 && done ==> Sorted(less, Contents())
        decreases !done, needed * n - writes
      {
        if n >= 2 { StepActive(budgets(k), less, Contents()); }
        ghost var before := writes;
        done := Step(budgets(k), less);
        if n >= 2 && !done { WritesBounded(less, Contents(), needed); }
        k := k + 1;
      }
      if n >= 2 {
        CeilLog2Unique(needed, passes, n);
      }
    }

    /** std::move of a row: it leaves an empty place behind, which must not be read again. */
    static method MoveOut<T>(rows: array<Option<T>>, i: nat) returns (row: T)
      requires i < rows.Length && rows[i].Some?
      modifies rows
      ensures old(rows[i]) == Some(row) && rows[..] == old(rows[..])[i := None]
    {
      row := rows[i].value;
      rows[i] := None;
    }

    /** A row that has reached its place. */
    method Put<T>(rows: array<Option<T>>, target: nat, row: T)
      requires rows.Length == order.Length && rows as object != order && target < order.Length
      modifies rows, order
      ensures order[..] == old(order[..])[target := target] && rows[..] == old(rows[..])[target := Some(row)]
    {
      rows[target] := Some(row);
      order[target] := target;
    }

    /** One turn of the inner loop of apply(), with one move. */
    method FillNext<T>(
      rows: array<Option<T>>, target: nat, ghost from: seq<nat>, ghost was: seq<T>, ghost done: set<nat>,
      ghost trail: seq<nat>, ghost index: nat)
      returns (source: nat)
      requires rows.Length == order.Length && rows as object != order
      requires OnTrail(from, done, trail, index) && target == Last(trail) && from[target] != index
      requires Moving(from, was, order[..], rows[..], done, trail)
      modifies rows, order
      ensures OnTrail(from, done, trail + [source], index) && Last(trail + [source]) == source
      ensures Moving(from, was, order[..], rows[..], done, trail + [source])
      ensures |trail| < |from|
    {
      TrailGrows(from, was, order[..], rows[..], done, trail, index);
      hide Moving, OnTrail;
      source := order[target];
      var row := MoveOut(rows, source);
      Put(rows, target, row);
    }

    /** The inner loop of apply(): follow the cycle through `index`, then close it. Every row of the cycle is
        moved once, and the one set aside twice. */
    method FollowCycle<T>(
      rows: array<Option<T>>, index: nat, ghost from: seq<nat>, ghost was: seq<T>, ghost done: set<nat>)
      returns (ghost cycle: seq<nat>, ghost moves: nat)
      requires rows.Length == order.Length && rows as object != order
      requires Applied(from, was, order[..], rows[..], done)
      requires index < |from| && index !in done && from[index] != index
      modifies rows, order
      ensures IsCycle(from, cycle) && index in Elements(cycle)
      ensures forall k | 0 <= k < |cycle| :: cycle[k] !in done
      ensures Applied(from, was, order[..], rows[..], done + Elements(cycle))
      ensures moves == |cycle| + 1
    {
      cycle := [index];
      CycleStarts(from, was, order[..], rows[..], done, index);
      hide Applied, Moving, OnTrail, IsCycle, IsPermutation;
      var saved := MoveOut(rows, index);
      moves := 1;
      var target := index;
      InMotion(from, was, order[..], rows[..], done, cycle, index);
      while order[target] != index
        invariant OnTrail(from, done, cycle, index) && cycle != [] && target == Last(cycle)
        invariant target < |from| == order.Length && order[target] == from[target]
        invariant Moving(from, was, order[..], rows[..], done, cycle) && moves == |cycle|
        decreases |from| - |cycle|
      {
        target := FillNext(rows, target, from, was, done, cycle, index);
        cycle, moves := cycle + [target], moves + 1;
        InMotion(from, was, order[..], rows[..], done, cycle, index);
      }
      CycleCloses(from, was, order[..], rows[..], done, cycle, index, saved);
      Put(rows, target, saved);
      moves := moves + 1;
    }

    /** apply(): permute the rows in place by following the cycles of the order. No row is read after it was
        moved out, and there is one move to each displaced row and one more to each cycle. */
    method Apply<T>(rows: array<Option<T>>) returns (ghost cycles: seq<seq<nat>>, ghost moves: nat)
      requires rows.Length == order.Length && rows as object != order
      requires IsPermutation(order[..]) && forall i | 0 <= i < rows.Length :: rows[i].Some?
      modifies rows, order
      ensures forall i | 0 <= i < rows.Length :: rows[i] == old(rows[order[i]])
      ensures forall i | 0 <= i < order.Length :: order[i] == i
      ensures Traced(old(order[..]), Displaced(old(order[..])), cycles)
      ensures moves == |Displaced(old(order[..]))| + |cycles|
    {
      ghost var from, was := order[..], Values(rows[..]);
      ghost var done: set<nat> := {};
      cycles, moves := [], 0;
      NothingApplied(from, was, order[..], rows[..]);
      hide Applied, Progress, Traced, Displaced, IsCycle, IsPermutation, Elements, Values;
      for index := 0 to order.Length
        invariant order.Length == rows.Length == |from|
        invariant Progress(from, was, order[..], rows[..], done, cycles, moves, index)
      {
        PlaceOf(from, was, order[..], rows[..], done, cycles, moves, index);
        if order[index] == index { continue; }
        ghost var cycle, more := FollowCycle(rows, index, from, was, done);
        CycleDone(from, was, order[..], rows[..], done, cycles, moves, index, cycle);
        done, cycles, moves := done + Elements(cycle), cycles + [cycle], moves + more;
      }
      AllApplied(from, was, order[..], rows[..], done, cycles, moves);
    }
  }

  /** How the managed list uses the class: start, step with any positive budgets, apply. The rows
      end up stably sorted, by n * ceil(log2 n) element writes. */
  method SortRows<T>(sorter: Sorter, rows: array<Option<T>>, budgets: nat -> nat, less: Less, ghost passes: nat)
    returns (ghost order: seq<nat>)
    requires sorter.Valid() && rows as object != sorter && forall i | 0 <= i < rows.Length :: rows[i].Some?
    requires StrictWeakOrder(less, rows.Length) && (forall k :: budgets(k) > 0) && IsCeilLog2(passes, rows.Length)
    modifies sorter, rows
    ensures IsStableOrder(less, order, rows.Length)
    ensures forall i | 0 <= i < rows.Length :: rows[i] == old(rows[..])[order[i]]
    ensures rows.Length >= 2 ==> sorter.writes == rows.Length * passes
  {
    hide StrictWeakOrder, IsStableOrder, Active, Displaced, Traced, Shape, IsPermutation, IsCeilLog2;
    sorter.Start(rows.Length);
    ghost var scratch := sorter.Contents().scratch;
    if rows.Length >= 2 { StartedActive(less, rows.Length, scratch); } else { ShortOrder(less, sorter.order[..]); }
    sorter.Finish(budgets, less, passes);
    order := sorter.order[..];
    StableOrderPermutes(less, order);
    var _, _ := sorter.Apply(rows);
  }

  lemma StableOrderPermutes(less: Less, order: seq<nat>)
    requires StrictWeakOrder(less, |order|) && IsStableOrder(less, order, |order|)
    ensures IsPermutation(order)
  {
    StableIsPermutation(less, order, |order|);
  }

  lemma ShortOrder(less: Less, order: seq<nat>)
    requires |order| < 2 && forall i | 0 <= i < |order| :: order[i] == i
    ensures IsStableOrder(less, order, |order|)
  {
  }

  /** What remains of a call to step() leads to `target`. */
  ghost predicate Leads(less: Less, budget: nat, s: State, target: (State, bool)) {
    Shape(s) && BoundedOrder.Step(budget, less, s) == target
  }

  lemma LeadsOn(less: Less, budget: nat, s: State, target: (State, bool))
    requires |s.order| >= 2 && budget > 0 && Leads(less, budget, s, target)
    ensures Ready(s).1 ==> target == Ready(s)
    ensures !Ready(s).1 ==> Shape(Ready(s).0) && Ready(s).0.out < Ready(s).0.end
    ensures !Ready(s).1 ==> Leads(less, budget - 1, WriteOne(less, Ready(s).0), target)
  {
    StepOnce(budget, less, s);
  }

  ghost predicate IsPermutation(order: seq<nat>) {
    && (forall i | 0 <= i < |order| :: order[i] < |order|)
    && (forall i, j | 0 <= i < j < |order| :: order[i] != order[j])
  }

  /** Finished positions make whole cycles, hold their row and are marked; all others are untouched. */
  ghost predicate Applied<T>(from: seq<nat>, was: seq<T>, order: seq<nat>, rows: seq<Option<T>>, done: set<nat>) {
    && IsPermutation(from) && |from| == |was| == |order| == |rows|
    && (forall i {:trigger from[i]} | 0 <= i < |from| :: i in done <==> from[i] in done)
    && (forall i {:trigger order[i]} {:trigger rows[i]} | 0 <= i < |from| ::
          if i in done then order[i] == i && rows[i] == Some(was[from[i]])
          else order[i] == from[i] && rows[i] == Some(was[i]))
  }

  /** The rows, none of which has been moved out. */
  ghost function Values<T>(rows: seq<Option<T>>): (values: seq<T>)
    requires forall i | 0 <= i < |rows| :: rows[i].Some?
    ensures |values| == |rows| && forall i | 0 <= i < |rows| :: rows[i] == Some(values[i])
  {
    seq(|rows|, i requires 0 <= i < |rows| => rows[i].value)
  }

  /** The positions whose row comes from elsewhere. */
  ghost function Displaced(from: seq<nat>): set<nat> {
    set i: nat | i < |from| && from[i] != i
  }

  /** Each position of a cycle takes its row from the next one, and the last from the first. */
  ghost predicate IsCycle(from: seq<nat>, cycle: seq<nat>) {
    && |cycle| >= 2 && OnTrail(from, {}, cycle, cycle[0]) && from[Last(cycle)] == cycle[0]
  }

  /** `done` falls apart into these cycles. */
  ghost predicate Traced(from: seq<nat>, done: set<nat>, cycles: seq<seq<nat>>)
    decreases |cycles|
  {
    if cycles == [] then done == {}
    else
      var last := cycles[|cycles| - 1];
      && IsCycle(from, last) && Elements(last) <= done
      && Traced(from, done - Elements(last), cycles[..|cycles| - 1])
  }

  lemma TracedMore(from: seq<nat>, done: set<nat>, cycles: seq<seq<nat>>, cycle: seq<nat>)
    requires Traced(from, done, cycles) && IsCycle(from, cycle)
    requires forall k | 0 <= k < |cycle| :: cycle[k] !in done
    ensures Traced(from, done + Elements(cycle), cycles + [cycle])
    ensures |done + Elements(cycle)| == |done| + |cycle|
  {
    DistinctSize(cycle);
    assert done !! Elements(cycle);
    assert done + Elements(cycle) - Elements(cycle) == done;
    assert (cycles + [cycle])[..|cycles|] == cycles;
  }

  lemma {:induction false} TracedDisplaced(from: seq<nat>, done: set<nat>, cycles: seq<seq<nat>>, i: nat)
    requires Traced(from, done, cycles) && i in done
    ensures i < |from| && from[i] != i
    decreases |cycles|
  {
    var last := cycles[|cycles| - 1];
    if i in last {
      var k :| 0 <= k < |last| && last[k] == i;
      CycleDisplaced(from, last, k);
    } else {
      TracedDisplaced(from, done - Elements(last), cycles[..|cycles| - 1], i);
    }
  }

  /** Every position of a cycle is displaced. */
  lemma CycleDisplaced(from: seq<nat>, cycle: seq<nat>, k: nat)
    requires IsCycle(from, cycle) && k < |cycle|
    ensures cycle[k] < |from| && from[cycle[k]] != cycle[k]
  {
    if k + 1 < |cycle| {
      assert from[cycle[k]] == cycle[k + 1];
    } else {
      assert cycle[0] != cycle[k];
    }
  }

  /** How far apply() has come before it looks at position `index`. */
  ghost predicate Progress<T>(from: seq<nat>, was: seq<T>, order: seq<nat>, rows: seq<Option<T>>, done: set<nat>,
                              cycles: seq<seq<nat>>, moves: nat, index: nat)
  {
    && Applied(from, was, order, rows, done) && Traced(from, done, cycles) && moves == |done| + |cycles|
    && index <= |from| && forall i | 0 <= i < index :: i in done || from[i] == i
  }

  lemma NothingApplied<T>(from: seq<nat>, was: seq<T>, order: seq<nat>, rows: seq<Option<T>>)
    requires IsPermutation(from) && order == from && |was| == |from| == |rows|
    requires forall i | 0 <= i < |rows| :: rows[i] == Some(was[i])
    ensures Progress(from, was, order, rows, {}, [], 0, 0)
  {
    hide IsPermutation;
  }

  /** A position is either finished or in its place, or it starts a cycle that is still to be followed. */
  lemma PlaceOf<T>(from: seq<nat>, was: seq<T>, order: seq<nat>, rows: seq<Option<T>>, done: set<nat>,
                   cycles: seq<seq<nat>>, moves: nat, index: nat)
    requires Progress(from, was, order, rows, done, cycles, moves, index) && index < |from|
    ensures |order| == |from|
    ensures if order[index] == index then Progress(from, was, order, rows, done, cycles, moves, index + 1)
            else Applied(from, was, order, rows, done) && index !in done && from[index] != index
  {
    hide IsPermutation, Traced;
  }

  lemma CycleDone<T>(from: seq<nat>, was: seq<T>, order: seq<nat>, rows: seq<Option<T>>, done: set<nat>,
                     cycles: seq<seq<nat>>, moves: nat, index: nat, cycle: seq<nat>)
    requires index < |from| && Applied(from, was, order, rows, done + Elements(cycle))
    requires Traced(from, done, cycles) && moves == |done| + |cycles|
    requires forall i | 0 <= i < index :: i in done || from[i] == i
    requires IsCycle(from, cycle) && index in Elements(cycle) && forall k | 0 <= k < |cycle| :: cycle[k] !in done
    ensures Progress(from, was, order, rows, done + Elements(cycle), cycles + [cycle], moves + |cycle| + 1, index + 1)
  {
    hide Applied, Traced, IsCycle, Elements;
    TracedMore(from, done, cycles, cycle);
  }

  /** When all positions have been looked at, the finished ones are the displaced ones. */
  lemma AllApplied<T>(from: seq<nat>, was: seq<T>, order: seq<nat>, rows: seq<Option<T>>, done: set<nat>,
                      cycles: seq<seq<nat>>, moves: nat)
    requires Progress(from, was, order, rows, done, cycles, moves, |from|)
    ensures Traced(from, Displaced(from), cycles) && moves == |Displaced(from)| + |cycles|
    ensures |was| == |order| == |rows| == |from|
    ensures forall i | 0 <= i < |from| :: from[i] < |from| && order[i] == i && rows[i] == Some(was[from[i]])
  {
    forall i | 0 <= i < |from| ensures from[i] < |from| {}
    hide IsPermutation, Traced;
    forall i: nat | i in done ensures i in Displaced(from) {
      TracedDisplaced(from, done, cycles, i);
    }
    assert done == Displaced(from);
  }

  ghost function Last(trail: seq<nat>): nat
    requires trail != []
  {
    trail[|trail| - 1]
  }

  /** The cycle from `index` on, as far as it has been followed; its last position is filled next. */
  ghost predicate OnTrail(from: seq<nat>, done: set<nat>, trail: seq<nat>, index: nat) {
    && trail != [] && trail[0] == index
    && (forall k | 0 <= k < |trail| :: trail[k] < |from| && trail[k] !in done)
    && (forall k | 0 < k < |trail| :: from[trail[k - 1]] == trail[k])
    && (forall j, k | 0 <= j < k < |trail| :: trail[j] != trail[k])
  }

  /** While a cycle is followed: finished and filled positions are right, the others are untouched but for
      the last one, whose row was moved out. */
  ghost predicate Moving<T>(
    from: seq<nat>, was: seq<T>, order: seq<nat>, rows: seq<Option<T>>, done: set<nat>, trail: seq<nat>)
    requires trail != []
  {
    && IsPermutation(from) && |from| == |was| == |order| == |rows|
    && (forall i {:trigger from[i]} | 0 <= i < |from| :: i in done <==> from[i] in done)
    && (forall i {:trigger order[i]} {:trigger rows[i]} | 0 <= i < |from| ::
          if Filled(done, trail, i) then order[i] == i && rows[i] == Some(was[from[i]])
          else order[i] == from[i] && rows[i] == if i == Last(trail) then None else Some(was[i]))
  }

  lemma CycleStarts<T>(from: seq<nat>, was: seq<T>, order: seq<nat>, rows: seq<Option<T>>, done: set<nat>, index: nat)
    requires Applied(from, was, order, rows, done) && index < |from| && index !in done
    ensures |rows| == |order| == |from| && rows[index] == Some(was[index])
    ensures OnTrail(from, done, [index], index)
    ensures Moving(from, was, order, rows[index := None], done, [index])
  {
    assert Last([index]) == index;
    forall i: nat ensures Filled(done, [index], i) <==> i in done {}
    hide Filled, IsPermutation, Last;
  }

  /** The position to be filled next still says where its row comes from. */
  lemma InMotion<T>(
    from: seq<nat>, was: seq<T>, order: seq<nat>, rows: seq<Option<T>>, done: set<nat>, trail: seq<nat>, index: nat)
    requires OnTrail(from, done, trail, index) && Moving(from, was, order, rows, done, trail)
    ensures trail != [] && Last(trail) < |from| == |order| && order[Last(trail)] == from[Last(trail)]
  {
  }

  ghost predicate Filled(done: set<nat>, trail: seq<nat>, i: nat)
    requires trail != []
  {
    i in done || (i in trail && i != Last(trail))
  }

  /** Only one position takes its row from a given one, so a cycle cannot run into its own middle. */
  lemma SourceIsNew(from: seq<nat>, done: set<nat>, trail: seq<nat>, index: nat)
    requires IsPermutation(from) && OnTrail(from, done, trail, index)
    requires forall i {:trigger from[i]} | 0 <= i < |from| :: i in done <==> from[i] in done
    requires from[Last(trail)] != index
    ensures OnTrail(from, done, trail + [from[Last(trail)]], index)
    ensures |trail| < |from| && from[Last(trail)] !in trail
  {
    var source := from[Last(trail)];
    forall k | 0 <= k < |trail| ensures trail[k] != source {
      if k > 0 {
        assert from[trail[k - 1]] == trail[k] && trail[k - 1] != Last(trail);
      }
    }
    var longer := trail + [source];
    DistinctSize(longer);
    BelowSize(|from|);
    assert Elements(longer) <= Below(|from|);
    SmallerSet(Elements(longer), Below(|from|));
  }

  lemma SmallerSet(a: set<nat>, b: set<nat>)
    requires a <= b
    ensures |a| <= |b|
  {
    assert |b - a| == |b| - |a|;
  }

  /** Filling one position: its row comes from the next one on the cycle, which has not been moved yet. */
  lemma TrailGrows<T>(
    from: seq<nat>, was: seq<T>, order: seq<nat>, rows: seq<Option<T>>, done: set<nat>, trail: seq<nat>, index: nat)
    requires OnTrail(from, done, trail, index) && Moving(from, was, order, rows, done, trail)
    requires from[Last(trail)] != index
    ensures var (target, source) := (Last(trail), from[Last(trail)]);
      && target < |from| && source < |from| == |rows| == |order| && |trail| < |from| && source != target
      && order[target] == source && rows[source].Some?
      && OnTrail(from, done, trail + [source], index)
      && Moving(from, was, order[target := target], rows[source := None][target := rows[source]], done,
                trail + [source])
  {
    SourceIsNew(from, done, trail, index);
    var target, source := Last(trail), from[Last(trail)];
    var longer := trail + [source];
    assert longer[|trail|] == source && longer[|trail| - 1] == target;
    forall i | 0 <= i < |from| ensures Filled(done, longer, i) <==> Filled(done, trail, i) || i == target {
      FilledGrows(done, trail, source, i);
    }
    assert !Filled(done, trail, source);
    hide OnTrail, IsPermutation, Filled;
  }

  lemma FilledGrows(done: set<nat>, trail: seq<nat>, source: nat, i: nat)
    requires trail != [] && source !in trail
    ensures Filled(done, trail + [source], i) <==> Filled(done, trail, i) || i == Last(trail)
  {
    var longer := trail + [source];
    assert longer[|longer| - 1] == source;
    if i == Last(trail) {
      assert longer[|trail| - 1] == i;
    }
    assert i in longer <==> i in trail || i == source;
  }

  /** A completed cycle is closed: nothing outside takes its row from inside, nor the other way. */
  lemma WholeCycle(from: seq<nat>, done: set<nat>, trail: seq<nat>, index: nat)
    requires IsPermutation(from) && OnTrail(from, done, trail, index) && from[Last(trail)] == index
    ensures forall i {:trigger from[i]} | 0 <= i < |from| :: i in trail <==> from[i] in trail
  {
    forall k | 0 <= k < |trail| ensures from[trail[k]] in trail {
      assert k + 1 < |trail| ==> from[trail[k]] == trail[k + 1];
    }
    forall i, k | 0 <= i < |from| && 0 <= k < |trail| && from[i] == trail[k] ensures i in trail {
      if k > 0 {
        assert from[trail[k - 1]] == trail[k];
      }
    }
  }

  /** The row moved out at the start belongs at the last position, and the cycle is complete. */
  lemma CycleCloses<T>(
    from: seq<nat>, was: seq<T>, order: seq<nat>, rows: seq<Option<T>>, done: set<nat>, trail: seq<nat>, index: nat,
    saved: T)
    requires OnTrail(from, done, trail, index) && Moving(from, was, order, rows, done, trail)
    requires from[Last(trail)] == index && from[index] != index && saved == was[index]
    ensures var target := Last(trail);
      && target < |from|
      && Applied(from, was, order[target := target], rows[target := Some(saved)], done + Elements(trail))
    ensures IsCycle(from, trail) && index in Elements(trail)
    ensures forall k | 0 <= k < |trail| :: trail[k] !in done
  {
    var target, all := Last(trail), done + Elements(trail);
    ClosedCycle(from, done, trail, index);
    AllFilled(done, trail);
    var order1, rows1 := order[target := target], rows[target := Some(saved)];
    hide OnTrail, IsPermutation, Filled, Elements, Last, IsCycle;
    forall i | 0 <= i < |from|
      ensures if i in all then order1[i] == i && rows1[i] == Some(was[from[i]])
              else order1[i] == from[i] && rows1[i] == Some(was[i])
    {
    }
  }

  lemma ClosedCycle(from: seq<nat>, done: set<nat>, trail: seq<nat>, index: nat)
    requires IsPermutation(from) && OnTrail(from, done, trail, index)
    requires from[Last(trail)] == index && from[index] != index
    ensures IsCycle(from, trail) && index in Elements(trail) && Last(trail) < |from|
    ensures forall k | 0 <= k < |trail| :: trail[k] !in done
    ensures forall i {:trigger from[i]} | 0 <= i < |from| :: i in Elements(trail) <==> from[i] in Elements(trail)
  {
    WholeCycle(from, done, trail, index);
    assert trail[0] in trail && |trail| > 1;
    hide IsPermutation;
  }

  lemma AllFilled(done: set<nat>, trail: seq<nat>)
    requires trail != []
    ensures forall i: nat :: i in done + Elements(trail) <==> i == Last(trail) || Filled(done, trail, i)
  {
    assert Last(trail) in trail;
  }
}
