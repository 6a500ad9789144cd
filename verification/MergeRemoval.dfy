/**
 adjustMergeCells deletes from the slice of areas it ranges over. On a removal: the loop in closed
 form, and exactly when it leaves what it is for, the areas of several cells, each moved once.
 */
module MergeRemoval {
  import opened Wrappers
  import opened CellNames
  import opened SheetModel
  import opened AdjustSpec
  import opened CellSpec
  import opened Areas
  import opened References

  // ---------- one step

  /** A reference in canonical spelling, of an area or of a cell that an area has shrunk to. */
  predicate Spelled(ref: string) {
    && AreaOf(ref).Placed() && AreaOf(ref).c1 <= AreaOf(ref).c2 && AreaOf(ref).r1 <= AreaOf(ref).r2
    && ref == AreaOf(ref).Ref()
  }

  ghost predicate AllSpelled(refs: seq<string>) {
    forall k :: 0 <= k < |refs| ==> Spelled(refs[k])
  }

  /** A reference after one step of the loop on a removal. */
  function Once(ref: string, dir: Direction, n: int): (ref': string) {
    match MoveArea(ref, dir, n, -1)
    case Moved(ref', _) => ref'
    case _ => ref
  }

  /** The area shrinks to a single cell. */
  predicate Shrinks(ref: string, dir: Direction, n: int) {
    Collapsed(MovedArea(AreaOf(ref), dir, n, -1))
  }

  lemma StepMeans(ref: string, dir: Direction, n: int)
    requires Spelled(ref) && n >= 1
    ensures MoveArea(ref, dir, n, -1) == Moved(Once(ref, dir, n), Shrinks(ref, dir, n))
    ensures Spelled(Once(ref, dir, n)) && AreaOf(Once(ref, dir, n)) == MovedArea(AreaOf(ref), dir, n, -1)
    ensures Shrinks(ref, dir, n) ==> Shrinks(Once(ref, dir, n), dir, n)
    ensures Once(ref, dir, n) == ref <==> MovedArea(AreaOf(ref), dir, n, -1) == AreaOf(ref)
  {
    hide CellName, CellNameToCoordinates;
    var a := AreaOf(ref);
    var b := MovedArea(a, dir, n, -1);
    assert b.Placed() && b.c1 <= b.c2 && b.r1 <= b.r2;
    RefParses(a);
    RefParses(b);
  }

  lemma StepMoves(ref: string, dir: Direction, n: int)
    requires Spelled(ref) && n >= 1
    ensures MoveArea(ref, dir, n, -1) == Moved(Once(ref, dir, n), Shrinks(ref, dir, n))
  {
    StepMeans(ref, dir, n);
  }

  lemma StepSafe(ref: string, dir: Direction, n: int)
    requires Spelled(ref) && n >= 1
    ensures Spelled(Once(ref, dir, n)) && (Shrinks(ref, dir, n) ==> Shrinks(Once(ref, dir, n), dir, n))
  {
    StepMeans(ref, dir, n);
  }

  lemma CanonicalSpelled(refs: seq<string>)
    requires CanonicalRefs(refs)
    ensures AllSpelled(refs)
  {
    hide AreaOf, CellName;
  }

  // ---------- what the loop makes of the areas from some iteration on

  /** After a deletion the loop steps over the pointer that moved into the gap. */
  function Kept(rest: seq<string>, dir: Direction, n: int): (kept: seq<string>) {
    if rest == [] then []
    else if !Shrinks(rest[0], dir, n) then [Once(rest[0], dir, n)] + Kept(rest[1..], dir, n)
    else if |rest| == 1 then []
    else [rest[1]] + Kept(rest[2..], dir, n)
  }

  /** The number of pointers stepped over; each leaves one stale slot that still holds the last pointer. */
  function Skips(rest: seq<string>, dir: Direction, n: int): (skips: nat) {
    if rest == [] then 0
    else if !Shrinks(rest[0], dir, n) then Skips(rest[1..], dir, n)
    else if |rest| == 1 then 0
    else 1 + Skips(rest[2..], dir, n)
  }

  /** The last pointer is still in the slice when the loop comes to the stale slots. */
  predicate LastStays(rest: seq<string>, dir: Direction, n: int) {
    if rest == [] then true
    else if !Shrinks(rest[0], dir, n) then LastStays(rest[1..], dir, n)
    else if |rest| == 1 then false
    else LastStays(rest[2..], dir, n)
  }

  /** What the last pointer points to by then. */
  function LastValue(rest: seq<string>, dir: Direction, n: int): (last: string)
    requires rest != []
  {
    if |rest| == 1 then Once(rest[0], dir, n)
    else if !Shrinks(rest[0], dir, n) then LastValue(rest[1..], dir, n)
    else if |rest| == 2 then rest[1]
    else LastValue(rest[2..], dir, n)
  }

  /** The areas shown when the last pointer, if still there, has come to point to last. */
  function Show(kept: seq<string>, stays: bool, last: string): (shown: seq<string>) {
    if stays && kept != [] then kept[|kept| - 1 := last] else kept
  }

  /** The stale slots: the last pointer is moved once for each, and a shrinking one is fatal sooner or later. */
  function Finish(kept: seq<string>, stays: bool, last: string, stale: nat, dir: Direction, n: int)
    : (r: (Option<seq<string>>, Outcome))
    decreases stale
  {
    hide Once, Shrinks, Show;
    if stale == 0 then (Some(Show(kept, stays, last)), Done)
    else if !Shrinks(last, dir, n) then Finish(kept, stays, Once(last, dir, n), stale - 1, dir, n)
    else if |kept| > 1 then (Some(Show(kept, stays, last)), Panicked)
    else (None, if stale == 1 then Done else Panicked)
  }

  // ---------- the loop in closed form

  /** The first len pointers ascend, and every later slot holds the last pointer. */
  ghost predicate Backing(order: seq<nat>, len: nat, m: nat) {
    && len <= |order| == m && m >= 1
    && (forall k :: 0 <= k < m ==> order[k] < m)
    && (forall j, k :: 0 <= j < k < len ==> order[j] < order[k])
    && (forall k :: len <= k < m ==> order[k] == m - 1)
  }

  /** The last pointer is among the first len. */
  predicate InSlice(order: seq<nat>, len: nat, m: nat)
    requires len <= |order|
  {
    len > 0 && order[len - 1] == m - 1
  }

  /** The loop from iteration i on. */
  function Loop(refs: seq<string>, order: seq<nat>, len: nat, gone: bool, i: nat, dir: Direction, n: int)
    : (r: (Option<seq<string>>, Outcome))
    requires Backing(order, len, |refs|) && i <= |refs|
  {
    MoveAreas(refs, order, len, gone, i, dir, n, -1)
  }

  /** The areas that the first len pointers show. */
  function Slice(refs: seq<string>, order: seq<nat>, len: nat): (shown: seq<string>)
    requires Backing(order, len, |refs|)
    ensures |shown| == len
  {
    Visible(refs, order, len)
  }

  lemma Slot(refs: seq<string>, order: seq<nat>, len: nat, i: nat)
    requires Backing(order, len, |refs|) && i < |refs|
    ensures i < |order| && order[i] < |refs|
    ensures len <= i ==> order[i] == |refs| - 1
    ensures i < len ==> Slice(refs, order, len)[i] == refs[order[i]]
  {
  }

  lemma Shorter(order: seq<nat>, len: nat, m: nat, i: nat)
    requires Backing(order, len, m) && i < len && InSlice(order, len, m)
    ensures Backing(Delete(order, len, i), len - 1, m)
    ensures InSlice(Delete(order, len, i), len - 1, m) <==> i + 1 < len
  {
  }

  /** One iteration on an area in canonical spelling. */
  lemma OneIteration(refs: seq<string>, order: seq<nat>, len: nat, gone: bool, i: nat, p: nat, dir: Direction, n: int)
    requires Backing(order, len, |refs|) && i < |refs| && n >= 1
    requires p < |refs| && order[i] == p && Spelled(refs[p]) && (i < len ==> InSlice(order, len, |refs|))
    ensures var refs' := refs[p := Once(refs[p], dir, n)];
            if !Shrinks(refs[p], dir, n) then Loop(refs, order, len, gone, i, dir, n) == Loop(refs', order, len, gone, i + 1, dir, n)
            else if gone then Loop(refs, order, len, gone, i, dir, n) == (None, Panicked)
            else if len <= 1 then Loop(refs, order, len, gone, i, dir, n) == Loop(refs', order, len, true, i + 1, dir, n)
            else if i >= len then Loop(refs, order, len, gone, i, dir, n) == (Some(Slice(refs, order, len)), Panicked)
            else && Backing(Delete(order, len, i), len - 1, |refs|)
                 && Loop(refs, order, len, gone, i, dir, n) == Loop(refs', Delete(order, len, i), len - 1, false, i + 1, dir, n)
  {
    hide Once, MoveArea, Shrinks, Spelled, Visible, Delete;
    StepMoves(refs[p], dir, n);
    if i < len { Shorter(order, len, |refs|, i); }
  }

  lemma Through(refs: seq<string>, order: seq<nat>, len: nat, gone: bool, dir: Direction, n: int)
    requires Backing(order, len, |refs|)
    ensures Loop(refs, order, len, gone, |refs|, dir, n) == (if gone then None else Some(Slice(refs, order, len)), Done)
  {
    hide Visible;
  }

  /** Every area is gone: the next stale slot is fatal. */
  lemma RunGone(refs: seq<string>, order: seq<nat>, len: nat, i: nat, dir: Direction, n: int)
    requires Backing(order, len, |refs|) && len <= i <= |refs| && |refs| >= 1 && n >= 1
    requires Spelled(refs[|refs| - 1]) && Shrinks(refs[|refs| - 1], dir, n)
    ensures Loop(refs, order, len, true, i, dir, n) == (None, if i == |refs| then Done else Panicked)
  {
    hide Once, Loop, Shrinks, Spelled, Backing;
    if i < |refs| {
      Slot(refs, order, len, i);
      OneIteration(refs, order, len, true, i, |refs| - 1, dir, n);
    } else {
      Through(refs, order, len, true, dir, n);
    }
  }

  lemma FinishShown(kept: seq<string>, stays: bool, x: string, last: string, stale: nat, dir: Direction, n: int)
    ensures Finish(Show(kept, stays, x), stays, last, stale, dir, n) == Finish(kept, stays, last, stale, dir, n)
    decreases stale
  {
    hide Once, Shrinks;
    if stale > 0 && !Shrinks(last, dir, n) { FinishShown(kept, stays, x, Once(last, dir, n), stale - 1, dir, n); }
    assert Show(Show(kept, stays, x), stays, last) == Show(kept, stays, last);
  }

  lemma ShownAfter(refs: seq<string>, order: seq<nat>, len: nat, x: string)
    requires Backing(order, len, |refs|) && |refs| >= 1
    ensures Slice(refs[|refs| - 1 := x], order, len) == Show(Slice(refs, order, len), InSlice(order, len, |refs|), x)
  {
    var a, b := Slice(refs[|refs| - 1 := x], order, len), Slice(refs, order, len);
    forall k | 0 <= k < len
      ensures a[k] == if order[k] == |refs| - 1 then x else b[k]
    {
    }
    assert forall k :: 0 <= k < len - 1 ==> order[k] < order[len - 1];
  }

  /** The stale slots, with the slice of areas at length len. */
  lemma {:induction false} RunStale(refs: seq<string>, order: seq<nat>, len: nat, i: nat, stays: bool, dir: Direction, n: int)
    requires Backing(order, len, |refs|) && len <= i <= |refs| && |refs| >= 1 && n >= 1 && Spelled(refs[|refs| - 1])
    requires stays == InSlice(order, len, |refs|)
    ensures Loop(refs, order, len, false, i, dir, n) ==
            Finish(Slice(refs, order, len), stays, refs[|refs| - 1], |refs| - i, dir, n)
    decreases |refs| - i
  {
    hide Once, Loop, Shrinks, Spelled, Show, Slice, InSlice, Backing;
    var m, last := |refs|, refs[|refs| - 1];
    ShownAfter(refs, order, len, last);
    assert refs[m - 1 := last] == refs;
    if i == m {
      Through(refs, order, len, false, dir, n);
    } else {
      Slot(refs, order, len, i);
      OneIteration(refs, order, len, false, i, m - 1, dir, n);
      StepSafe(last, dir, n);
      var next := Once(last, dir, n);
      var refs' := refs[m - 1 := next];
      if !Shrinks(last, dir, n) {
        RunStale(refs', order, len, i + 1, stays, dir, n);
        ShownAfter(refs, order, len, next);
        FinishShown(Slice(refs, order, len), stays, next, next, m - i - 1, dir, n);
      } else if len <= 1 {
        RunGone(refs', order, len, i + 1, dir, n);
      }
    }
  }

  /** The state before iteration i, the slice at length len and not yet passed. */
  ghost predicate Running(refs: seq<string>, order: seq<nat>, len: nat, i: nat) {
    && Backing(order, len, |refs|) && |refs| >= 2 && |refs| - len <= i < len
    && InSlice(order, len, |refs|)
    && (forall k :: i <= k < len ==> Spelled(refs[order[k]]))
  }

  lemma RunningSlot(refs: seq<string>, order: seq<nat>, len: nat, i: nat)
    requires Running(refs, order, len, i)
    ensures Backing(order, len, |refs|) && i < len <= |order| == |refs| && order[i] < |refs|
    ensures |refs| >= 2 && |refs| - len <= i && len >= 2 && InSlice(order, len, |refs|)
    ensures Spelled(refs[order[i]]) && Slice(refs, order, len)[i] == refs[order[i]]
  {
  }

  /** What the loop comes to: front is done, rest is still to be visited, and stale slots follow. */
  function Outlook(front: seq<string>, rest: seq<string>, stale: nat, dir: Direction, n: int)
    : (r: (Option<seq<string>>, Outcome))
    requires rest != []
  {
    Finish(front + Kept(rest, dir, n), LastStays(rest, dir, n), LastValue(rest, dir, n), stale + Skips(rest, dir, n), dir, n)
  }

  lemma OutlookStep(front: seq<string>, rest: seq<string>, stale: nat, dir: Direction, n: int)
    requires rest != []
    ensures var x := rest[0];
            var next := Once(x, dir, n);
            Outlook(front, rest, stale, dir, n) ==
            if !Shrinks(x, dir, n) then
              (if |rest| == 1 then Finish(front + [next], true, next, stale, dir, n)
               else Outlook(front + [next], rest[1..], stale, dir, n))
            else if |rest| == 1 then Finish(front, false, next, stale, dir, n)
            else if |rest| == 2 then Finish(front + [rest[1]], true, rest[1], stale + 1, dir, n)
            else Outlook(front + [rest[1]], rest[2..], stale + 1, dir, n)
  {
    hide Once, Shrinks, Finish;
    assert Kept([], dir, n) == [] && Skips([], dir, n) == 0 && LastStays([], dir, n);
    if |rest| == 1 { assert rest[1..] == []; }
    if |rest| == 2 { assert rest[2..] == []; }
    if !Shrinks(rest[0], dir, n) {
      Joined(front, Once(rest[0], dir, n), Kept(rest[1..], dir, n));
    } else if |rest| == 1 {
      assert front + [] == front;
    } else {
      Joined(front, rest[1], Kept(rest[2..], dir, n));
    }
  }

  lemma Joined(front: seq<string>, x: string, back: seq<string>)
    ensures front + [x] + back == front + ([x] + back)
    ensures back == [] ==> front + ([x] + back) == front + [x]
  {
  }

  /** The loop from iteration i, in closed form. */
  lemma {:induction false} RunLoop(refs: seq<string>, order: seq<nat>, len: nat, i: nat, dir: Direction, n: int)
    requires Running(refs, order, len, i) && n >= 1
    ensures var shown := Slice(refs, order, len);
            Loop(refs, order, len, false, i, dir, n) == Outlook(shown[..i], shown[i..], |refs| - len, dir, n)
    decreases |refs| - i
  {
    hide Once, Loop, Shrinks, Spelled, Finish, Outlook, Running, Backing, Slice, Delete, InSlice;
    RunningSlot(refs, order, len, i);
    var m, shown := |refs|, Slice(refs, order, len);
    var p := order[i];
    var x, rest := refs[p], shown[i..];
    OneIteration(refs, order, len, false, i, p, dir, n);
    StepSafe(x, dir, n);
    OutlookStep(shown[..i], rest, m - len, dir, n);
    var next := Once(x, dir, n);
    var refs' := refs[p := next];
    if !Shrinks(x, dir, n) {
      Moves(refs, order, len, i, next);
      if i + 1 < len {
        RunLoop(refs', order, len, i + 1, dir, n);
      } else {
        RunStale(refs', order, len, i + 1, true, dir, n);
      }
    } else {
      var order' := Delete(order, len, i);
      Shorter(order, len, m, i);
      GapCloses(refs, order, len, i, refs', order', next);
      LastAfter(refs, order, len, i, next);
      Halves(shown, i);
      if i + 2 < len {
        StillRunning(refs, order, len, i, refs', order', next);
        RunLoop(refs', order', len - 1, i + 1, dir, n);
      } else {
        RunStale(refs', order', len - 1, i + 1, i + 1 < len, dir, n);
      }
    }
  }

  /** A step that moves the area shows it moved, and nothing else. */
  lemma Moves(refs: seq<string>, order: seq<nat>, len: nat, i: nat, next: string)
    requires Running(refs, order, len, i) && Spelled(next)
    ensures var refs', shown := refs[order[i] := next], Slice(refs, order, len);
            var shown' := Slice(refs', order, len);
            && (i + 1 < len ==> Running(refs', order, len, i + 1))
            && Spelled(refs'[|refs| - 1]) && InSlice(order, len, |refs|)
            && (i + 1 == len ==> shown' == shown[..i] + [next] && refs'[|refs| - 1] == next)
            && shown'[..i + 1] == shown[..i] + [next]
            && shown'[i + 1..] == shown[i..][1..]
  {
    hide Spelled;
  }

  /** A step that deletes the area closes the gap in what is shown. */
  lemma GapCloses(refs: seq<string>, order: seq<nat>, len: nat, i: nat, refs': seq<string>, order': seq<nat>, next: string)
    requires Backing(order, len, |refs|) && i < len && |refs| == |refs'| && refs' == refs[order[i] := next]
    requires Backing(order', len - 1, |refs|) && order' == Delete(order, len, i)
    ensures Slice(refs', order', len - 1) == Slice(refs, order, len)[..i] + Slice(refs, order, len)[i + 1..]
  {
    var shown, shown' := Slice(refs, order, len), Slice(refs', order', len - 1);
    forall k | 0 <= k < len - 1
      ensures shown'[k] == if k < i then shown[k] else shown[k + 1]
    {
      var j := if k < i then k else k + 1;
      assert order'[k] == order[j] && j != i && order[j] != order[i];
    }
  }

  lemma StillRunning(refs: seq<string>, order: seq<nat>, len: nat, i: nat, refs': seq<string>, order': seq<nat>, next: string)
    requires Running(refs, order, len, i) && Spelled(next) && i + 2 < len
    requires |refs| == |refs'| && refs' == refs[order[i] := next]
    requires order' == Delete(order, len, i) && Backing(order', len - 1, |refs|) && InSlice(order', len - 1, |refs|)
    ensures Running(refs', order', len - 1, i + 1)
  {
    hide Spelled;
    forall k | i + 1 <= k < len - 1
      ensures Spelled(refs'[order'[k]])
    {
      assert order'[k] == order[k + 1] && order[k + 1] != order[i];
    }
  }

  /** What the last pointer points to after a step that deletes. */
  lemma LastAfter(refs: seq<string>, order: seq<nat>, len: nat, i: nat, next: string)
    requires Running(refs, order, len, i) && Spelled(next)
    ensures var last := refs[order[i] := next][|refs| - 1];
            Spelled(last) && last == if i + 1 == len then next else Slice(refs, order, len)[len - 1]
  {
    hide Spelled;
    if i + 1 < len { assert order[i] < order[len - 1]; }
  }

  lemma Halves(shown: seq<string>, i: nat)
    requires i < |shown|
    ensures shown[i..][1..] == shown[i + 1..]
    ensures i + 1 == |shown| ==> shown[..i] + shown[i + 1..] == shown[..i]
    ensures i + 1 < |shown| ==> shown[i + 1] == shown[i..][1] && shown[i..][2..] == shown[i + 2..]
    ensures i + 2 == |shown| ==> shown[..i] + shown[i + 1..] == shown[..i] + [shown[i + 1]]
    ensures i + 2 < |shown| ==> (shown[..i] + shown[i + 1..])[..i + 1] == shown[..i] + [shown[i + 1]]
    ensures i + 2 < |shown| ==> (shown[..i] + shown[i + 1..])[i + 1..] == shown[i + 2..]
  {
  }

  /** The whole loop in closed form. */
  lemma RunAll(refs: seq<string>, dir: Direction, n: int)
    requires AllSpelled(refs) && n >= 1
    ensures AdjustMerges(Some(refs), dir, n, -1) ==
            if |refs| == 1 && Shrinks(refs[0], dir, n) then (None, Done)
            else if |refs| <= 1 then (Some(Kept(refs, dir, n)), Done)
            else Finish(Kept(refs, dir, n), LastStays(refs, dir, n), LastValue(refs, dir, n), Skips(refs, dir, n), dir, n)
  {
    hide Once, MoveAreas, Shrinks, Spelled, Finish, Kept, Skips, LastStays, LastValue;
    var m, order: seq<nat> := |refs|, Identity(|refs|);
    if m >= 2 {
      assert Slice(refs, order, m) == refs;
      RunLoop(refs, order, m, 0, dir, n);
      assert refs[..0] + Kept(refs[0..], dir, n) == Kept(refs, dir, n) && refs[0..] == refs;
    } else if m == 1 {
      OneAlone(refs, dir, n);
    } else {
      assert refs == [];
      Nothing(dir, n);
    }
  }

  lemma OneAlone(refs: seq<string>, dir: Direction, n: int)
    requires |refs| == 1 && Spelled(refs[0]) && n >= 1
    ensures AdjustMerges(Some(refs), dir, n, -1) ==
            if Shrinks(refs[0], dir, n) then (None, Done) else (Some(Kept(refs, dir, n)), Done)
  {
    hide Once, MoveAreas, Shrinks, Spelled;
    var order: seq<nat> := Identity(1);
    var refs' := refs[0 := Once(refs[0], dir, n)];
    OneIteration(refs, order, 1, false, 0, 0, dir, n);
    Through(refs', order, 1, Shrinks(refs[0], dir, n), dir, n);
    assert Slice(refs', order, 1) == [Once(refs[0], dir, n)] == [Once(refs[0], dir, n)] + [];
  }

  lemma Nothing(dir: Direction, n: int)
    ensures AdjustMerges(Some([]), dir, n, -1) == (Some([]), Done) && Kept([], dir, n) == []
  {
    assert Visible([], [], 0) == [];
  }

  // ---------- what the loop is for

  /** The areas that still have several cells, each moved once. */
  function Survivors(refs: seq<string>, dir: Direction, n: int): (left: seq<string>) {
    if refs == [] then []
    else (if Shrinks(refs[0], dir, n) then [] else [Once(refs[0], dir, n)]) + Survivors(refs[1..], dir, n)
  }

  function CountShrinking(refs: seq<string>, dir: Direction, n: int): (c: nat)
    ensures c <= |refs|
  {
    if refs == [] then 0
    else (if Shrinks(refs[0], dir, n) then 1 else 0) + CountShrinking(refs[1..], dir, n)
  }

  /** The removal leaves the area where it is. */
  predicate Unmoved(ref: string, dir: Direction, n: int) {
    MovedArea(AreaOf(ref), dir, n, -1) == AreaOf(ref)
  }

  /** A second removal of the same line would move the area no further. */
  predicate Settled(ref: string, dir: Direction, n: int) {
    var b := MovedArea(AreaOf(ref), dir, n, -1);
    MovedArea(b, dir, n, -1) == b
  }

  predicate NoNeighbours(refs: seq<string>, dir: Direction, n: int) {
    forall k :: 0 <= k < |refs| - 1 ==> !(Shrinks(refs[k], dir, n) && Shrinks(refs[k + 1], dir, n))
  }

  /** Whatever stands behind a shrinking area, the last one apart, is not moved by the removal. */
  predicate SkippedUnmoved(refs: seq<string>, dir: Direction, n: int) {
    forall k :: 0 <= k < |refs| - 2 && Shrinks(refs[k], dir, n) ==> Unmoved(refs[k + 1], dir, n)
  }

  /**
   No area shrinks to a cell; or there are at most three and all do; or no two in a row do, what
   stands behind one does not move, and the last area comes through: if it shrinks it is the only
   one, otherwise a second move would leave it in place or, behind the only shrinking one, it gets
   no second move.
   */
  predicate Reducible(refs: seq<string>, dir: Direction, n: int) {
    var m, c := |refs|, CountShrinking(refs, dir, n);
    || c == 0
    || (c == m && m <= 3)
    || (&& NoNeighbours(refs, dir, n) && SkippedUnmoved(refs, dir, n)
        && if Shrinks(refs[m - 1], dir, n) then c == 1
           else Settled(refs[m - 1], dir, n) || (c == 1 && m >= 2 && Shrinks(refs[m - 2], dir, n)))
  }

  /** The loop ended normally and left exactly the areas of several cells, each moved once. */
  predicate ReducedExactly(refs: seq<string>, dir: Direction, n: int) {
    var (left, o) := AdjustMerges(Some(refs), dir, n, -1);
    o == Done && StoredRefs(left) == Survivors(refs, dir, n)
  }

  // ---------- the stale slots

  function Repeated(ref: string, times: nat, dir: Direction, n: int): (ref': string)
    decreases times
  {
    hide Once;
    if times == 0 then ref else Repeated(Once(ref, dir, n), times - 1, dir, n)
  }

  /** No step shrinks the area. */
  predicate Calm(ref: string, times: nat, dir: Direction, n: int)
    decreases times
  {
    hide Once, Shrinks;
    times == 0 || (!Shrinks(ref, dir, n) && Calm(Once(ref, dir, n), times - 1, dir, n))
  }

  lemma {:induction false} FinishMeans(kept: seq<string>, stays: bool, last: string, stale: nat, dir: Direction, n: int)
    ensures var (left, o) := Finish(kept, stays, last, stale, dir, n);
            && (Calm(last, stale, dir, n) ==> o == Done && left == Some(Show(kept, stays, Repeated(last, stale, dir, n))))
            && (!Calm(last, stale, dir, n) ==> left == None || o == Panicked)
    decreases stale
  {
    hide Once, Shrinks, Show;
    if stale > 0 && !Shrinks(last, dir, n) { FinishMeans(kept, stays, Once(last, dir, n), stale - 1, dir, n); }
  }

  function Extent(a: Area): (e: int) { a.c1 + a.r1 + a.c2 + a.r2 }

  lemma MovesBack(ref: string, dir: Direction, n: int)
    requires Spelled(ref) && n >= 1
    ensures Extent(AreaOf(Once(ref, dir, n))) <= Extent(AreaOf(ref))
    ensures Extent(AreaOf(Once(ref, dir, n))) == Extent(AreaOf(ref)) ==> Once(ref, dir, n) == ref
  {
    hide AreaOf, Once, Spelled;
    StepMeans(ref, dir, n);
    SpelledPlaced(ref);
  }

  lemma SpelledPlaced(ref: string)
    requires Spelled(ref)
    ensures AreaOf(ref).Placed()
  {
  }

  lemma {:induction false} RepeatedBack(ref: string, times: nat, dir: Direction, n: int)
    requires Spelled(ref) && n >= 1
    ensures Extent(AreaOf(Repeated(ref, times, dir, n))) <= Extent(AreaOf(ref))
    decreases times
  {
    hide AreaOf, Once, Spelled, Extent, Shrinks;
    if times > 0 {
      MovesBack(ref, dir, n);
      StepSafe(ref, dir, n);
      RepeatedBack(Once(ref, dir, n), times - 1, dir, n);
    }
  }

  /** An area that does not shrink keeps its place over further steps if and only if it has settled. */
  lemma Settles(ref: string, times: nat, dir: Direction, n: int)
    requires Spelled(ref) && n >= 1 && !Shrinks(ref, dir, n)
    ensures var next := Once(ref, dir, n);
            Calm(next, times, dir, n) && Repeated(next, times, dir, n) == next <==> times == 0 || Settled(ref, dir, n)
  {
    hide AreaOf, Once, Spelled, Extent, Shrinks, Settled;
    var next := Once(ref, dir, n);
    StepSafe(ref, dir, n);
    SettledMeans(ref, dir, n);
    if times > 0 {
      MovesBack(next, dir, n);
      StepSafe(next, dir, n);
      RepeatedBack(Once(next, dir, n), times - 1, dir, n);
      if Settled(ref, dir, n) { Rests(next, times, dir, n); }
    }
  }

  lemma SettledMeans(ref: string, dir: Direction, n: int)
    requires Spelled(ref) && n >= 1
    ensures Settled(ref, dir, n) <==> Once(Once(ref, dir, n), dir, n) == Once(ref, dir, n)
    ensures Settled(ref, dir, n) && !Shrinks(ref, dir, n) ==> !Shrinks(Once(ref, dir, n), dir, n)
    ensures Unmoved(ref, dir, n) <==> Once(ref, dir, n) == ref
  {
    hide AreaOf, Once, Spelled, MovedArea, MoveArea;
    StepMeans(ref, dir, n);
    StepMeans(Once(ref, dir, n), dir, n);
  }

  lemma {:induction false} Rests(ref: string, times: nat, dir: Direction, n: int)
    requires Once(ref, dir, n) == ref && !Shrinks(ref, dir, n)
    ensures Calm(ref, times, dir, n) && Repeated(ref, times, dir, n) == ref
    decreases times
  {
    hide Once, Shrinks;
    if times > 0 { Rests(ref, times - 1, dir, n); }
  }

  // ---------- the areas shown

  lemma {:induction false} KeepsAtLeast(rest: seq<string>, dir: Direction, n: int)
    ensures |Kept(rest, dir, n)| >= |Survivors(rest, dir, n)|
    ensures rest != [] && LastStays(rest, dir, n) ==> Kept(rest, dir, n) != []
  {
    hide Once, Shrinks;
    if rest != [] {
      KeepsAtLeast(rest[1..], dir, n);
      if |rest| > 1 {
        KeepsAtLeast(rest[2..], dir, n);
        assert rest[1..][1..] == rest[2..];
      }
    }
  }

  lemma ConditionsStep(rest: seq<string>, dir: Direction, n: int)
    requires |rest| >= 2
    ensures NoNeighbours(rest, dir, n) <==>
            !(Shrinks(rest[0], dir, n) && Shrinks(rest[1], dir, n)) && NoNeighbours(rest[1..], dir, n)
    ensures SkippedUnmoved(rest, dir, n) <==>
            (|rest| > 2 && Shrinks(rest[0], dir, n) ==> Unmoved(rest[1], dir, n)) && SkippedUnmoved(rest[1..], dir, n)
  {
    hide Shrinks, Unmoved;
    var tail := rest[1..];
    if NoNeighbours(rest, dir, n) {
      forall k | 0 <= k < |tail| - 1
        ensures !(Shrinks(tail[k], dir, n) && Shrinks(tail[k + 1], dir, n))
      {
        assert tail[k] == rest[k + 1] && tail[k + 1] == rest[k + 1 + 1];
      }
    }
    if SkippedUnmoved(rest, dir, n) {
      forall k | 0 <= k < |tail| - 2 && Shrinks(tail[k], dir, n)
        ensures Unmoved(tail[k + 1], dir, n)
      {
        assert tail[k] == rest[k + 1] && tail[k + 1] == rest[k + 1 + 1];
      }
    }
    assert forall k :: 1 <= k < |rest| ==> rest[k] == tail[k - 1];
  }

  lemma ConditionsShort(rest: seq<string>, dir: Direction, n: int)
    requires |rest| <= 1
    ensures NoNeighbours(rest, dir, n) && SkippedUnmoved(rest, dir, n)
  {
  }

  lemma ShowHead(a: string, kept: seq<string>, stays: bool, x: string)
    requires stays ==> kept != []
    ensures Show([a] + kept, stays, x) == [a] + Show(kept, stays, x)
    ensures |Show(kept, stays, x)| == |kept|
  {
  }

  lemma HeadsAgree(a: string, b: string, s: seq<string>, t: seq<string>)
    ensures [a] + s == [b] + t <==> a == b && s == t
  {
    if [a] + s == [b] + t {
      assert ([a] + s)[0] == a && ([b] + t)[0] == b && ([a] + s)[1..] == s && ([b] + t)[1..] == t;
    }
  }

  /** Show of what is kept, compared with the survivors. */
  predicate ShowsSurvivors(rest: seq<string>, x: string, dir: Direction, n: int) {
    Show(Kept(rest, dir, n), LastStays(rest, dir, n), x) == Survivors(rest, dir, n)
  }

  lemma ShowsStep(rest: seq<string>, x: string, dir: Direction, n: int)
    requires rest != []
    ensures !Shrinks(rest[0], dir, n) ==>
              if |rest| == 1 then ShowsSurvivors(rest, x, dir, n) <==> x == Once(rest[0], dir, n)
              else ShowsSurvivors(rest, x, dir, n) <==> ShowsSurvivors(rest[1..], x, dir, n)
    ensures Shrinks(rest[0], dir, n) ==>
              if |rest| == 1 then ShowsSurvivors(rest, x, dir, n) && !LastStays(rest, dir, n)
              else if |rest| == 2 then
                ShowsSurvivors(rest, x, dir, n) <==> !Shrinks(rest[1], dir, n) && x == Once(rest[1], dir, n)
              else
                ShowsSurvivors(rest, x, dir, n) <==>
                !Shrinks(rest[1], dir, n) && Once(rest[1], dir, n) == rest[1] && ShowsSurvivors(rest[2..], x, dir, n)
    ensures LastStays(rest, dir, n) ==
            if !Shrinks(rest[0], dir, n) then |rest| == 1 || LastStays(rest[1..], dir, n)
            else |rest| == 2 || (|rest| > 2 && LastStays(rest[2..], dir, n))
  {
    hide Once, Shrinks, Show;
    Ends(dir, n);
    var stays := LastStays(rest, dir, n);
    if |rest| == 1 {
      assert rest[1..] == [];
      ShowEnds(Once(rest[0], dir, n), x);
      HeadsAgree(x, Once(rest[0], dir, n), [], []);
    } else if !Shrinks(rest[0], dir, n) {
      KeepsAtLeast(rest[1..], dir, n);
      ShowHead(Once(rest[0], dir, n), Kept(rest[1..], dir, n), stays, x);
      HeadsAgree(Once(rest[0], dir, n), Once(rest[0], dir, n), Show(Kept(rest[1..], dir, n), stays, x), Survivors(rest[1..], dir, n));
    } else {
      ShowsSkip(rest, x, dir, n);
    }
  }

  lemma ShowsSkip(rest: seq<string>, x: string, dir: Direction, n: int)
    requires |rest| >= 2 && Shrinks(rest[0], dir, n)
    ensures LastStays(rest, dir, n) == (|rest| == 2 || LastStays(rest[2..], dir, n))
    ensures ShowsSurvivors(rest, x, dir, n) <==>
            && !Shrinks(rest[1], dir, n)
            && if |rest| == 2 then x == Once(rest[1], dir, n)
               else Once(rest[1], dir, n) == rest[1] && ShowsSurvivors(rest[2..], x, dir, n)
  {
    hide Once, Shrinks, Show;
    Ends(dir, n);
    assert rest[1..][1..] == rest[2..];
    var stays := LastStays(rest, dir, n);
    assert Survivors(rest, dir, n) == Survivors(rest[1..], dir, n);
    if Shrinks(rest[1], dir, n) { assert Survivors(rest[1..], dir, n) == Survivors(rest[2..], dir, n); }
    if |rest| == 2 {
      assert rest[2..] == [];
      ShowEnds(rest[1], x);
      HeadsAgree(x, Once(rest[1], dir, n), [], []);
    } else {
      KeepsAtLeast(rest[2..], dir, n);
      ShowHead(rest[1], Kept(rest[2..], dir, n), stays, x);
      assert |Show(Kept(rest, dir, n), stays, x)| == 1 + |Kept(rest[2..], dir, n)|;
      HeadsAgree(rest[1], Once(rest[1], dir, n), Show(Kept(rest[2..], dir, n), stays, x), Survivors(rest[2..], dir, n));
    }
  }

  lemma Ends(dir: Direction, n: int)
    ensures Kept([], dir, n) == [] && Survivors([], dir, n) == [] && LastStays([], dir, n) && Skips([], dir, n) == 0
  {
  }

  lemma ShowEnds(a: string, x: string)
    ensures Show([a], true, x) == [x] && Show([], false, x) == [] && Show([], true, x) == []
    ensures [a] + [] == [a]
  {
  }

  /** The areas shown at the end, with the last one at x, are the survivors exactly under these conditions. */
  lemma {:induction false} ShownExactly(rest: seq<string>, x: string, dir: Direction, n: int)
    requires AllSpelled(rest) && rest != [] && n >= 1
    ensures ShowsSurvivors(rest, x, dir, n) <==>
            && NoNeighbours(rest, dir, n) && SkippedUnmoved(rest, dir, n)
            && (LastStays(rest, dir, n) ==> x == Once(rest[|rest| - 1], dir, n))
  {
    hide Once, Shrinks, Unmoved, Spelled, NoNeighbours, SkippedUnmoved, ShowsSurvivors, LastStays;
    ShowsStep(rest, x, dir, n);
    if |rest| == 1 {
      ConditionsShort(rest, dir, n);
    } else {
      ConditionsStep(rest, dir, n);
      SettledMeans(rest[1], dir, n);
      assert rest[1..][|rest| - 2] == rest[|rest| - 1];
      if !Shrinks(rest[0], dir, n) {
        ShownExactly(rest[1..], x, dir, n);
      } else if |rest| == 2 {
        ConditionsShort(rest[1..], dir, n);
      } else {
        ConditionsStep(rest[1..], dir, n);
        assert rest[1..][1..] == rest[2..] && rest[1..][0] == rest[1] && rest[1..][1] == rest[2];
        assert rest[2..][|rest| - 3] == rest[|rest| - 1];
        ShownExactly(rest[2..], x, dir, n);
      }
    }
  }

  // ---------- when the result is right

  /** With no two in a row, every shrinking area but the last one leaves a stale slot. */
  lemma {:induction false} SkipsCounted(rest: seq<string>, dir: Direction, n: int)
    requires rest != [] && NoNeighbours(rest, dir, n)
    ensures var m, last := |rest|, rest[|rest| - 1];
            && Skips(rest, dir, n) == CountShrinking(rest, dir, n) - (if Shrinks(last, dir, n) then 1 else 0)
            && LastStays(rest, dir, n) == !Shrinks(last, dir, n)
            && LastValue(rest, dir, n) == (if m >= 2 && Shrinks(rest[m - 2], dir, n) then last else Once(last, dir, n))
  {
    hide Once, Shrinks, NoNeighbours, SkippedUnmoved;
    Ends(dir, n);
    var m := |rest|;
    if m == 1 {
      assert rest[1..] == [];
    } else {
      ConditionsStep(rest, dir, n);
      assert rest[1..][1..] == rest[2..];
      assert rest[1..][m - 2] == rest[m - 1] && (m >= 3 ==> rest[1..][m - 3] == rest[m - 2]);
      if !Shrinks(rest[0], dir, n) {
        SkipsCounted(rest[1..], dir, n);
      } else if m == 2 {
        assert rest[2..] == [];
      } else {
        ConditionsStep(rest[1..], dir, n);
        assert rest[2..][m - 3] == rest[m - 1] && (m >= 4 ==> rest[2..][m - 4] == rest[m - 2]);
        SkipsCounted(rest[2..], dir, n);
      }
    }
  }

  lemma {:induction false} CountMeans(rest: seq<string>, dir: Direction, n: int)
    ensures CountShrinking(rest, dir, n) == 0 <==> forall k :: 0 <= k < |rest| ==> !Shrinks(rest[k], dir, n)
    ensures CountShrinking(rest, dir, n) == |rest| <==> forall k :: 0 <= k < |rest| ==> Shrinks(rest[k], dir, n)
    ensures CountShrinking(rest, dir, n) + |Survivors(rest, dir, n)| == |rest|
  {
    hide Once, Shrinks;
    if rest != [] {
      CountMeans(rest[1..], dir, n);
      assert forall k :: 1 <= k < |rest| ==> rest[k] == rest[1..][k - 1];
    }
  }

  /** When all areas shrink, every other one is stepped over, and the first stale slot shrinks too. */
  lemma {:induction false} AllShrink(rest: seq<string>, dir: Direction, n: int)
    requires rest != [] && AllSpelled(rest) && n >= 1 && forall k :: 0 <= k < |rest| ==> Shrinks(rest[k], dir, n)
    ensures |Kept(rest, dir, n)| == Skips(rest, dir, n) == |rest| / 2
    ensures Shrinks(LastValue(rest, dir, n), dir, n)
  {
    hide Once, Shrinks, Spelled;
    Ends(dir, n);
    if |rest| == 1 {
      StepSafe(rest[0], dir, n);
    } else if |rest| == 2 {
      assert rest[2..] == [];
    } else {
      AllShrink(rest[2..], dir, n);
    }
  }

  lemma FewShrink(refs: seq<string>, dir: Direction, n: int)
    requires AllSpelled(refs) && n >= 1 && |refs| >= 2 && CountShrinking(refs, dir, n) == |refs|
    ensures ReducedExactly(refs, dir, n) <==> |refs| <= 3
    ensures |refs| >= 4 ==> AdjustMerges(Some(refs), dir, n, -1).1 == Panicked
  {
    hide Once, Shrinks, Spelled, AdjustMerges, Kept, Skips, LastStays, LastValue, Show;
    RunAll(refs, dir, n);
    CountMeans(refs, dir, n);
    AllShrink(refs, dir, n);
  }

  lemma MostSurvive(refs: seq<string>, dir: Direction, n: int)
    requires AllSpelled(refs) && n >= 1 && |refs| >= 2 && CountShrinking(refs, dir, n) < |refs|
    ensures var last, stale := LastValue(refs, dir, n), Skips(refs, dir, n);
            ReducedExactly(refs, dir, n) <==>
            && Calm(last, stale, dir, n) && NoNeighbours(refs, dir, n) && SkippedUnmoved(refs, dir, n)
            && (LastStays(refs, dir, n) ==> Repeated(last, stale, dir, n) == Once(refs[|refs| - 1], dir, n))
  {
    hide Once, Shrinks, Spelled, AdjustMerges, Kept, Skips, LastStays, LastValue, Show, Finish, Calm, NoNeighbours,
         SkippedUnmoved, Survivors, Repeated;
    RunAll(refs, dir, n);
    CountMeans(refs, dir, n);
    var last, stale := LastValue(refs, dir, n), Skips(refs, dir, n);
    FinishMeans(Kept(refs, dir, n), LastStays(refs, dir, n), last, stale, dir, n);
    ShownExactly(refs, Repeated(last, stale, dir, n), dir, n);
  }

  lemma LastComesThrough(refs: seq<string>, dir: Direction, n: int)
    requires AllSpelled(refs) && n >= 1 && |refs| >= 2 && NoNeighbours(refs, dir, n)
    ensures var last, value, stale, c := refs[|refs| - 1], LastValue(refs, dir, n), Skips(refs, dir, n), CountShrinking(refs, dir, n);
            (Calm(value, stale, dir, n) && (LastStays(refs, dir, n) ==> Repeated(value, stale, dir, n) == Once(last, dir, n))) <==>
            if Shrinks(last, dir, n) then c == 1
            else c == 0 || Settled(last, dir, n) || (c == 1 && Shrinks(refs[|refs| - 2], dir, n))
  {
    hide Once, Shrinks, Spelled, Skips, LastStays, LastValue, NoNeighbours, CountShrinking, Settled;
    var last, value, stale, c := refs[|refs| - 1], LastValue(refs, dir, n), Skips(refs, dir, n), CountShrinking(refs, dir, n);
    SkipsCounted(refs, dir, n);
    StepSafe(last, dir, n);
    CountMeans(refs, dir, n);
    LastTwo(refs, dir, n);
    if !Shrinks(last, dir, n) {
      if Shrinks(refs[|refs| - 2], dir, n) {
        Settles(last, c - 1, dir, n);
      } else {
        Settles(last, c, dir, n);
      }
    }
  }

  lemma LastTwo(refs: seq<string>, dir: Direction, n: int)
    requires |refs| >= 2 && NoNeighbours(refs, dir, n)
    ensures !(Shrinks(refs[|refs| - 2], dir, n) && Shrinks(refs[|refs| - 1], dir, n))
  {
    hide Shrinks;
    assert refs[|refs| - 2 + 1] == refs[|refs| - 1];
  }

  /**
   On a removal the loop ends normally with exactly the areas of several cells, each moved once, if
   and only if the areas are reducible.
   */
  lemma RemovalExact(refs: seq<string>, dir: Direction, n: int)
    requires AllSpelled(refs) && n >= 1
    ensures ReducedExactly(refs, dir, n) <==> Reducible(refs, dir, n)
  {
    hide Once, Shrinks, Spelled, Skips, LastStays, LastValue, Settled, Calm, Repeated, ReducedExactly, Unmoved;
    var m, c := |refs|, CountShrinking(refs, dir, n);
    CountMeans(refs, dir, n);
    if m <= 1 {
      Short(refs, dir, n);
    } else if c == m {
      FewShrink(refs, dir, n);
      assert Shrinks(refs[0], dir, n) && Shrinks(refs[0 + 1], dir, n);
    } else {
      MostSurvive(refs, dir, n);
      if NoNeighbours(refs, dir, n) { LastComesThrough(refs, dir, n); }
    }
  }

  lemma Short(refs: seq<string>, dir: Direction, n: int)
    requires AllSpelled(refs) && n >= 1 && |refs| <= 1
    ensures ReducedExactly(refs, dir, n) && Reducible(refs, dir, n)
  {
    hide Once, Shrinks, Spelled, AdjustMerges, Settled;
    RunAll(refs, dir, n);
    Ends(dir, n);
    if refs == [] { assert Kept(refs, dir, n) == []; } else { assert refs[1..] == []; }
  }

  // ---------- in coordinates, and in examples

  /** What the conditions come to for an area of several cells, by its first and last line along the removal. */
  lemma InCoordinates(ref: string, dir: Direction, n: int)
    requires CanonicalRef(ref) && n >= 1
    ensures var a := AreaOf(ref);
            var (first, last) := (Start(a, dir), End(a, dir));
            && (Shrinks(ref, dir, n) <==>
                  && (if dir.Rows? then a.c1 == a.c2 else a.r1 == a.r2)
                  && last == Max(n, 2) && first == last - 1)
            && (Unmoved(ref, dir, n) <==> last <= Max(n - 1, 1))
            && (Settled(ref, dir, n) <==> last <= Max(n, 2))
  {
    hide AreaOf, CanonicalRef;
    ResolveCanonical(ref);
  }

  /** A pair of cells across the removed line and the line before it. */
  lemma PairShrinks(c: int)
    requires c >= 1
    ensures CanonicalRef(Area(c, 1, c, 2).Ref()) && Shrinks(Area(c, 1, c, 2).Ref(), Rows, 2)
    ensures AreaOf(Area(c, 1, c, 2).Ref()) == Area(c, 1, c, 2)
  {
    hide CellName, CellNameToCoordinates, AreaOf;
    RefParses(Area(c, 1, c, 2));
  }

  function Pair(c: nat): (ref: string)
    requires c >= 1
  {
    Area(c, 1, c, 2).Ref()
  }

  /** A1:A2, B1:B2, C1:C2 and so on. */
  function Pairs(m: nat): (refs: seq<string>)
    ensures |refs| == m && forall k :: 0 <= k < m ==> refs[k] == Pair(k + 1)
  {
    hide Pair;
    seq(m, k requires 0 <= k < m => Pair(k + 1))
  }

  lemma PairsMerged(m: nat)
    ensures WellMerged(Pairs(m))
  {
    hide CellName, CanonicalRef, AreaOf, Shrinks, Pair;
    var refs := Pairs(m);
    forall k | 0 <= k < m
      ensures CanonicalRef(refs[k]) && AreaOf(refs[k]) == Area(k + 1, 1, k + 1, 2)
    {
      PairIs(k + 1);
    }
  }

  lemma PairIs(c: nat)
    requires c >= 1
    ensures CanonicalRef(Pair(c)) && AreaOf(Pair(c)) == Area(c, 1, c, 2) && Shrinks(Pair(c), Rows, 2)
  {
    hide CellName, CanonicalRef, AreaOf, Shrinks;
    PairShrinks(c);
  }

  /** Areas that all shrink can be stored together in any number; removing line 2 panics from four of them on. */
  lemma PairsPanic(m: nat)
    ensures WellMerged(Pairs(m)) && CountShrinking(Pairs(m), Rows, 2) == m
    ensures m >= 4 ==> AdjustMerges(Some(Pairs(m)), Rows, 2, -1).1 == Panicked
  {
    hide CellName, CanonicalRef, AreaOf, AdjustMerges, Spelled, Shrinks, WellMerged, Pair, CountShrinking, Survivors, ReducedExactly;
    var refs := Pairs(m);
    forall k | 0 <= k < m
      ensures CanonicalRef(refs[k]) && Shrinks(refs[k], Rows, 2)
    {
      PairIs(k + 1);
    }
    PairsMerged(m);
    CountMeans(refs, Rows, 2);
    CanonicalSpelled(refs);
    if m >= 4 { FewShrink(refs, Rows, 2); }
  }

  // ---------- when the loop panics

  /** The number of steps that the area stands before one shrinks it, at most times. */
  function Stands(ref: string, times: nat, dir: Direction, n: int): (k: nat)
    ensures k <= times
    decreases times
  {
    hide Once, Shrinks;
    if times == 0 || Shrinks(ref, dir, n) then 0 else 1 + Stands(Once(ref, dir, n), times - 1, dir, n)
  }

  lemma {:induction false} FinishPanics(kept: seq<string>, stays: bool, last: string, stale: nat, dir: Direction, n: int)
    ensures var k := Stands(last, stale, dir, n);
            Finish(kept, stays, last, stale, dir, n).1 == Panicked <==> k < stale && (|kept| > 1 || k + 1 < stale)
    decreases stale
  {
    hide Once, Shrinks, Show;
    if stale > 0 && !Shrinks(last, dir, n) { FinishPanics(kept, stays, Once(last, dir, n), stale - 1, dir, n); }
  }

  /**
   The loop panics exactly when a stale slot shrinks the last area, with more than one area left or
   another stale slot to come.
   */
  lemma PanicsExactly(refs: seq<string>, dir: Direction, n: int)
    requires AllSpelled(refs) && n >= 1
    ensures AdjustMerges(Some(refs), dir, n, -1).1 == Panicked <==>
            && |refs| >= 2
            && var stale := Skips(refs, dir, n);
               var k := Stands(LastValue(refs, dir, n), stale, dir, n);
               k < stale && (|Kept(refs, dir, n)| > 1 || k + 1 < stale)
  {
    hide Once, Shrinks, Spelled, AdjustMerges, Kept, Skips, LastStays, LastValue, Finish, Stands;
    RunAll(refs, dir, n);
    if |refs| >= 2 {
      FinishPanics(Kept(refs, dir, n), LastStays(refs, dir, n), LastValue(refs, dir, n), Skips(refs, dir, n), dir, n);
    }
  }

  /** A single shrinking area is enough for a panic, if the last one shrinks when it is moved again. */
  lemma SecondMovePanics(refs: seq<string>, dir: Direction, n: int)
    requires AllSpelled(refs) && n >= 1 && |refs| == 3
    requires Shrinks(refs[0], dir, n) && !Shrinks(refs[1], dir, n) && !Shrinks(refs[2], dir, n)
    requires Shrinks(Once(refs[2], dir, n), dir, n)
    ensures CountShrinking(refs, dir, n) == 1 && AdjustMerges(Some(refs), dir, n, -1).1 == Panicked
  {
    hide Once, Shrinks, Spelled, AdjustMerges;
    RunAll(refs, dir, n);
    Ends(dir, n);
    var a, b, c := refs[0], refs[1], refs[2];
    assert refs == [a, b, c] && refs[1..] == [b, c] && refs[2..] == [c] && [b, c][1..] == [c] && [c][1..] == [];
    assert CountShrinking([c], dir, n) == 0 && CountShrinking([b, c], dir, n) == 0;
    assert Kept([c], dir, n) == [Once(c, dir, n)] && Kept(refs, dir, n) == [b, Once(c, dir, n)];
  }

  lemma ThreeMerged(a: Area, b: Area, c: Area)
    requires a.Valid() && b.Valid() && c.Valid() && CornersApart(a, b) && CornersApart(a, c) && CornersApart(b, c)
    ensures WellMerged([a.Ref(), b.Ref(), c.Ref()])
    ensures AreaOf(a.Ref()) == a && AreaOf(b.Ref()) == b && AreaOf(c.Ref()) == c
  {
    hide CellName, CellNameToCoordinates, AreaOf, CornersApart, CanonicalRef;
    RefParses(a);
    RefParses(b);
    RefParses(c);
  }

  /** Such are A1:A2, C1:D5 and B1:B3, apart from each other, when line 2 goes. */
  lemma OneShrinksAndPanics()
    ensures var a, b, c := Area(1, 1, 1, 2), Area(3, 1, 4, 5), Area(2, 1, 2, 3);
            && WellMerged([a.Ref(), b.Ref(), c.Ref()])
            && CountShrinking([a.Ref(), b.Ref(), c.Ref()], Rows, 2) == 1
            && AdjustMerges(Some([a.Ref(), b.Ref(), c.Ref()]), Rows, 2, -1).1 == Panicked
  {
    hide CellName, AreaOf, AdjustMerges, Once, Spelled, MoveArea, CountShrinking, WellMerged;
    var a, b, c := Area(1, 1, 1, 2), Area(3, 1, 4, 5), Area(2, 1, 2, 3);
    ThreeMerged(a, b, c);
    var refs := [a.Ref(), b.Ref(), c.Ref()];
    MergedSpelled(refs);
    assert Spelled(refs[2]);
    StepMeans(refs[2], Rows, 2);
    SecondMovePanics(refs, Rows, 2);
  }

  lemma MergedSpelled(refs: seq<string>)
    requires WellMerged(refs)
    ensures AllSpelled(refs)
  {
    hide CanonicalRef, Spelled;
    CanonicalSpelled(refs);
  }
}
