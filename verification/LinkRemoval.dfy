/**
 The removal loop of adjustHyperlinks deletes from the slice it ranges over. What it computes in
 closed form, and exactly when that is what it is for: dropping the links on the removed line.
 */
module LinkRemoval {
  import opened Wrappers
  import opened SheetModel
  import opened AdjustSpec

  predicate On(link: Hyperlink, dir: Direction, num: int) { OnLine(link.Ref, dir, num) }

  /** What is wanted: the links that are not on the line, in order. */
  function OffLine(links: seq<Hyperlink>, dir: Direction, num: int): (off: seq<Hyperlink>)
    ensures forall k :: 0 <= k < |off| ==> !On(off[k], dir, num)
  {
    if links == [] then []
    else if On(links[0], dir, num) then OffLine(links[1..], dir, num)
    else [links[0]] + OffLine(links[1..], dir, num)
  }

  /** What the loop keeps: after each deletion it steps over the link that moved into the gap. */
  function Kept(links: seq<Hyperlink>, dir: Direction, num: int): (kept: seq<Hyperlink>) {
    if links == [] then []
    else if !On(links[0], dir, num) then [links[0]] + Kept(links[1..], dir, num)
    else if |links| == 1 then []
    else [links[1]] + Kept(links[2..], dir, num)
  }

  /** The number of iterations until the loop has seen or stepped over every link. */
  function Steps(links: seq<Hyperlink>, dir: Direction, num: int): (n: nat)
    ensures n <= |links|
  {
    if links == [] then 0
    else if !On(links[0], dir, num) then 1 + Steps(links[1..], dir, num)
    else if |links| == 1 then 1
    else 1 + Steps(links[2..], dir, num)
  }

  /**
   The rest of the loop after j of n iterations, with the slice shortened to kept and every later
   slot of the backing array still holding the last link.
   */
  function Finish(kept: seq<Hyperlink>, j: nat, n: nat, last: Hyperlink, dir: Direction, num: int)
    : (result: (Option<seq<Hyperlink>>, Outcome))
  {
    if j >= n || !On(last, dir, num) then (Some(kept), Done)
    else if |kept| > 1 then (Some(kept), Panicked)
    else if j + 1 == n then (None, Done)
    else (None, Panicked)
  }

  lemma {:induction false} RunStale(store: seq<Hyperlink>, len: nat, gone: bool, i: nat, last: Hyperlink,
                                    dir: Direction, num: int)
    requires len <= i <= |store| && forall k :: i <= k < |store| ==> store[k] == last
    ensures !gone ==> RemoveLinks(store, len, gone, i, dir, num) == Finish(store[..len], i, |store|, last, dir, num)
    ensures gone ==> RemoveLinks(store, len, gone, i, dir, num) ==
                     (None, if i < |store| && On(last, dir, num) then Panicked else Done)
    decreases |store| - i
  {
    hide On, OnLine;
    if i < |store| {
      assert store[i] == last;
      assert On(last, dir, num) == OnLine(last.Ref, dir, num) by { OnMeans(last, dir, num); }
      if !On(last, dir, num) {
        RunStale(store, len, gone, i + 1, last, dir, num);
      } else if !gone && len <= 1 {
        RunStale(store, len, true, i + 1, last, dir, num);
      }
    }
  }

  lemma OnMeans(link: Hyperlink, dir: Direction, num: int)
    ensures On(link, dir, num) == OnLine(link.Ref, dir, num)
  {
  }

  lemma KeptStep(store: seq<Hyperlink>, len: nat, i: nat, dir: Direction, num: int)
    requires i < len <= |store|
    ensures var on := OnLine(store[i].Ref, dir, num);
            && (!on ==> Kept(store[i..len], dir, num) == [store[i]] + Kept(store[i + 1..len], dir, num))
            && (!on ==> Steps(store[i..len], dir, num) == 1 + Steps(store[i + 1..len], dir, num))
            && (on && i + 1 == len ==> Kept(store[i..len], dir, num) == [] && Steps(store[i..len], dir, num) == 1)
            && (on && i + 1 < len ==> Kept(store[i..len], dir, num) == [store[i + 1]] + Kept(store[i + 2..len], dir, num))
            && (on && i + 1 < len ==> Steps(store[i..len], dir, num) == 1 + Steps(store[i + 2..len], dir, num))
  {
    hide OnLine;
    var rest := store[i..len];
    assert rest[1..] == store[i + 1..len];
    if i + 1 < len { assert rest[2..] == store[i + 2..len]; }
  }

  lemma DeleteInside(store: seq<Hyperlink>, len: nat, i: nat, last: Hyperlink)
    requires i + 1 < len <= |store| && store[len - 1] == last && forall k :: len <= k < |store| ==> store[k] == last
    ensures var store' := Delete(store, len, i);
            && |store'| == |store| && store'[len - 2] == last
            && (forall k :: len - 1 <= k < |store'| ==> store'[k] == last)
            && store'[i + 1..len - 1] == store[i + 2..len]
            && store'[..i + 1] == store[..i] + [store[i + 1]]
  {
  }

  lemma DeleteLast(store: seq<Hyperlink>, len: nat, last: Hyperlink)
    requires 1 <= len <= |store| && store[len - 1] == last && forall k :: len <= k < |store| ==> store[k] == last
    ensures var store' := Delete(store, len, len - 1);
            && |store'| == |store|
            && (forall k :: len - 1 <= k < |store'| ==> store'[k] == last)
            && store'[..len - 1] == store[..len - 1]
  {
  }

  lemma Joined(front: seq<Hyperlink>, x: Hyperlink, back: seq<Hyperlink>)
    ensures (front + [x]) + back == front + ([x] + back)
  {
  }

  /** The loop from iteration i, in closed form. */
  lemma {:induction false} RunLoop(store: seq<Hyperlink>, len: nat, i: nat, last: Hyperlink, dir: Direction, num: int)
    requires i <= len <= |store| && |store| >= 2 && |store| - len <= i
    requires forall k :: len <= k < |store| ==> store[k] == last
    requires i < len ==> store[len - 1] == last
    ensures RemoveLinks(store, len, false, i, dir, num) ==
            Finish(store[..i] + Kept(store[i..len], dir, num), i + Steps(store[i..len], dir, num), |store|, last, dir, num)
    decreases |store| - i
  {
    hide On, OnLine, Finish, Kept, Steps, Delete;
    if i == len {
      RunStale(store, len, false, i, last, dir, num);
      NothingLeft(store, len, dir, num);
    } else {
      KeptStep(store, len, i, dir, num);
      if !OnLine(store[i].Ref, dir, num) {
        RunLoop(store, len, i + 1, last, dir, num);
        assert store[..i + 1] == store[..i] + [store[i]];
        Joined(store[..i], store[i], Kept(store[i + 1..len], dir, num));
      } else if i == len - 1 {
        DeleteLast(store, len, last);
        RunStale(Delete(store, len, i), len - 1, false, i + 1, last, dir, num);
        assert store[..i] + [] == store[..i];
      } else {
        DeleteInside(store, len, i, last);
        RunLoop(Delete(store, len, i), len - 1, i + 1, last, dir, num);
        Joined(store[..i], store[i + 1], Kept(store[i + 2..len], dir, num));
      }
    }
  }

  lemma NothingLeft(store: seq<Hyperlink>, len: nat, dir: Direction, num: int)
    requires len <= |store|
    ensures store[..len] + Kept(store[len..len], dir, num) == store[..len]
    ensures Steps(store[len..len], dir, num) == 0
  {
    assert store[len..len] == [];
  }

  /** The whole loop in closed form. */
  lemma RunAll(links: seq<Hyperlink>, dir: Direction, num: int)
    requires links != []
    ensures RemoveLinks(links, |links|, false, 0, dir, num) ==
            if |links| == 1 then (if On(links[0], dir, num) then None else Some(links), Done)
            else Finish(Kept(links, dir, num), Steps(links, dir, num), |links|, links[|links| - 1], dir, num)
  {
    hide OnLine, Finish, Kept, Steps;
    var n := |links|;
    OnMeans(links[0], dir, num);
    assert links[..n] == links;
    if n > 1 {
      RunLoop(links, n, 0, links[n - 1], dir, num);
      assert links[0..n] == links;
      assert links[..0] + Kept(links, dir, num) == Kept(links, dir, num);
    }
  }

  // ---------- when it is right

  function CountOn(links: seq<Hyperlink>, dir: Direction, num: int): (c: nat) {
    if links == [] then 0
    else (if On(links[0], dir, num) then 1 else 0) + CountOn(links[1..], dir, num)
  }

  predicate NoNeighbours(links: seq<Hyperlink>, dir: Direction, num: int) {
    forall k :: 0 <= k < |links| - 1 ==> !(On(links[k], dir, num) && On(links[k + 1], dir, num))
  }

  /**
   At most one link on the line; or never two in a row and the last one off the line; or two or
   three links, all of them on the line.
   */
  predicate Removable(links: seq<Hyperlink>, dir: Direction, num: int) {
    var n := |links|;
    || CountOn(links, dir, num) <= 1
    || (NoNeighbours(links, dir, num) && !On(links[n - 1], dir, num))
    || (n <= 3 && CountOn(links, dir, num) == n)
  }

  /** The loop ended normally and left exactly the links that are off the line. */
  predicate RemovedExactly(links: seq<Hyperlink>, dir: Direction, num: int) {
    var (kept, o) := RemoveLinks(links, |links|, false, 0, dir, num);
    o == Done && OffLine(links, dir, num) == if kept.None? then [] else kept.value
  }

  lemma {:induction false} CountBounds(links: seq<Hyperlink>, dir: Direction, num: int)
    ensures CountOn(links, dir, num) <= |links|
    ensures CountOn(links, dir, num) + |OffLine(links, dir, num)| == |links|
    ensures CountOn(links, dir, num) == 0 <==> forall k :: 0 <= k < |links| ==> !On(links[k], dir, num)
    ensures CountOn(links, dir, num) == |links| <==> forall k :: 0 <= k < |links| ==> On(links[k], dir, num)
  {
    hide On;
    if links != [] {
      CountBounds(links[1..], dir, num);
      assert links == [links[0]] + links[1..];
    }
  }

  lemma {:induction false} KeptIsOffLine(links: seq<Hyperlink>, dir: Direction, num: int)
    ensures Kept(links, dir, num) == OffLine(links, dir, num) <==> NoNeighbours(links, dir, num)
  {
    hide On;
    if |links| >= 2 {
      var first, rest := links[0], links[1..];
      if !On(first, dir, num) {
        KeptIsOffLine(rest, dir, num);
        TailNeighbours(links, dir, num);
        HeadsAgree(first, Kept(rest, dir, num), OffLine(rest, dir, num));
      } else if On(rest[0], dir, num) {
        assert Kept(links, dir, num)[0] == rest[0];
      } else {
        assert links[2..] == rest[1..];
        KeptIsOffLine(rest[1..], dir, num);
        TailNeighbours(links, dir, num);
        if |rest| >= 2 { TailNeighbours(rest, dir, num); }
        HeadsAgree(rest[0], Kept(rest[1..], dir, num), OffLine(rest[1..], dir, num));
      }
    }
  }

  lemma HeadsAgree(x: Hyperlink, a: seq<Hyperlink>, b: seq<Hyperlink>)
    ensures [x] + a == [x] + b <==> a == b
  {
    assert ([x] + a)[1..] == a && ([x] + b)[1..] == b;
  }

  lemma TailNeighbours(links: seq<Hyperlink>, dir: Direction, num: int)
    requires |links| >= 2
    ensures NoNeighbours(links, dir, num) <==>
            !(On(links[0], dir, num) && On(links[1], dir, num)) && NoNeighbours(links[1..], dir, num)
  {
    hide On;
    var rest := links[1..];
    if NoNeighbours(rest, dir, num) {
      forall k | 1 <= k < |links| - 1
        ensures !(On(links[k], dir, num) && On(links[k + 1], dir, num))
      {
        assert rest[k - 1] == links[k] && rest[k - 1 + 1] == links[k + 1];
      }
    }
    if NoNeighbours(links, dir, num) {
      forall k | 0 <= k < |rest| - 1
        ensures !(On(rest[k], dir, num) && On(rest[k + 1], dir, num))
      {
        assert rest[k] == links[k + 1] && rest[k + 1] == links[k + 1 + 1];
      }
    }
  }

  lemma {:induction false} KeptIsLong(links: seq<Hyperlink>, dir: Direction, num: int)
    ensures 2 * |Kept(links, dir, num)| + 1 >= |links|
  {
    hide On;
    if links == [] {
    } else if !On(links[0], dir, num) {
      KeptIsLong(links[1..], dir, num);
    } else if |links| > 1 {
      KeptIsLong(links[2..], dir, num);
    }
  }

  /** With two links on the line, one is deleted before the end, and the loop falls behind. */
  lemma {:induction false} FallsBehind(links: seq<Hyperlink>, dir: Direction, num: int)
    requires CountOn(links, dir, num) >= 2
    ensures Steps(links, dir, num) < |links|
  {
    hide On;
    if !On(links[0], dir, num) {
      FallsBehind(links[1..], dir, num);
    } else {
      CountBounds(links[1..], dir, num);
    }
  }

  lemma {:induction false} OneAtTheEnd(links: seq<Hyperlink>, dir: Direction, num: int)
    requires links != [] && CountOn(links, dir, num) == 1 && On(links[|links| - 1], dir, num)
    ensures Steps(links, dir, num) == |links| && NoNeighbours(links, dir, num)
  {
    hide On;
    var rest := links[1..];
    CountBounds(rest, dir, num);
    if |links| > 1 {
      assert rest[|rest| - 1] == links[|links| - 1];
      if !On(links[0], dir, num) {
        OneAtTheEnd(rest, dir, num);
        TailNeighbours(links, dir, num);
      }
    }
  }

  lemma {:induction false} FewAreApart(links: seq<Hyperlink>, dir: Direction, num: int)
    requires CountOn(links, dir, num) <= 1
    ensures NoNeighbours(links, dir, num)
  {
    hide On;
    if |links| >= 2 {
      FewAreApart(links[1..], dir, num);
      CountBounds(links[1..], dir, num);
      TailNeighbours(links, dir, num);
    }
  }

  /** The loop removes exactly the links on the line, without a panic, if and only if they are removable. */
  lemma RemovalExact(links: seq<Hyperlink>, dir: Direction, num: int)
    requires links != []
    ensures RemovedExactly(links, dir, num) <==> Removable(links, dir, num)
  {
    hide On, OnLine, RemoveLinks, Kept, Steps, OffLine, NoNeighbours, CountOn;
    RunAll(links, dir, num);
    CountBounds(links, dir, num);
    KeptIsOffLine(links, dir, num);
    if CountOn(links, dir, num) <= 1 { FewAreApart(links, dir, num); }
    var n, last := |links|, links[|links| - 1];
    if n == 1 {
      OneLink(links, dir, num);
    } else if On(last, dir, num) {
      LastOnLine(links, dir, num);
    }
  }

  lemma OneLink(links: seq<Hyperlink>, dir: Direction, num: int)
    requires |links| == 1
    ensures CountOn(links, dir, num) <= 1
    ensures OffLine(links, dir, num) == if On(links[0], dir, num) then [] else links
  {
    hide On;
    assert links == [links[0]];
  }

  lemma LastOnLine(links: seq<Hyperlink>, dir: Direction, num: int)
    requires |links| >= 2 && On(links[|links| - 1], dir, num)
    ensures var (kept, o) := Finish(Kept(links, dir, num), Steps(links, dir, num), |links|, links[|links| - 1], dir, num);
            (o == Done && OffLine(links, dir, num) == if kept.None? then [] else kept.value) <==>
            CountOn(links, dir, num) <= 1 || (|links| <= 3 && CountOn(links, dir, num) == |links|)
  {
    hide On, Kept, Steps, OffLine, NoNeighbours, CountOn;
    CountBounds(links, dir, num);
    KeptIsOffLine(links, dir, num);
    KeptIsLong(links, dir, num);
    if CountOn(links, dir, num) >= 2 {
      FallsBehind(links, dir, num);
      if |links| <= 3 { ShortLists(links, dir, num); }
    } else {
      assert CountOn(links, dir, num) == 1;
      OneAtTheEnd(links, dir, num);
    }
  }

  lemma PairOfLinks(links: seq<Hyperlink>, dir: Direction, num: int)
    requires |links| == 2 && On(links[0], dir, num)
    ensures Steps(links, dir, num) == 1 && Kept(links, dir, num) == [links[1]]
  {
    hide On;
    assert links[2..] == [];
  }

  lemma ShortLists(links: seq<Hyperlink>, dir: Direction, num: int)
    requires 2 <= |links| <= 3 && On(links[|links| - 1], dir, num) && CountOn(links, dir, num) >= 2
    ensures On(links[0], dir, num) ==>
              Steps(links, dir, num) == |links| - 1 && |Kept(links, dir, num)| == 1
    ensures !On(links[0], dir, num) ==>
              |links| == 3 && |Kept(links, dir, num)| == 2 && CountOn(links, dir, num) == 2
  {
    hide On;
    var rest := links[1..];
    CountBounds(rest, dir, num);
    if On(links[0], dir, num) {
      if |links| == 2 {
        PairOfLinks(links, dir, num);
      } else {
        assert links[2..] == [links[2]];
        assert Kept([links[2]], dir, num) == [] && Steps([links[2]], dir, num) == 1;
      }
    } else {
      assert rest[0] == links[1] && rest[1] == links[2];
      PairOfLinks(rest, dir, num);
    }
  }

  lemma {:induction false} KeptFront(front: seq<Hyperlink>, rest: seq<Hyperlink>, dir: Direction, num: int)
    requires forall k :: 0 <= k < |front| ==> !On(front[k], dir, num)
    ensures Kept(front + rest, dir, num) == front + Kept(rest, dir, num)
  {
    hide On;
    if front == [] {
      assert front + rest == rest && front + Kept(rest, dir, num) == Kept(rest, dir, num);
    } else {
      assert (front + rest)[1..] == front[1..] + rest && (front + rest)[0] == front[0];
      KeptFront(front[1..], rest, dir, num);
      assert [front[0]] + (front[1..] + Kept(rest, dir, num)) == front + Kept(rest, dir, num);
    }
  }

  /** Of the first two neighbours on the line, in a list that ends off it, the second one survives. */
  lemma NeighbourSurvives(front: seq<Hyperlink>, a: Hyperlink, b: Hyperlink, back: seq<Hyperlink>, dir: Direction, num: int)
    requires forall k :: 0 <= k < |front| ==> !On(front[k], dir, num)
    requires On(a, dir, num) && On(b, dir, num) && back != [] && !On(back[|back| - 1], dir, num)
    ensures var links := front + ([a, b] + back);
            RemoveLinks(links, |links|, false, 0, dir, num) == (Some(front + ([b] + Kept(back, dir, num))), Done)
  {
    hide On, OnLine, RemoveLinks;
    var links := front + ([a, b] + back);
    RunAll(links, dir, num);
    KeptFront(front, [a, b] + back, dir, num);
    assert ([a, b] + back)[2..] == back;
    assert links[|links| - 1] == back[|back| - 1];
  }

  /**
   The loop panics exactly when the last link and another one are on the line, except for two links
   and for three of which the first is on it.
   */
  lemma PanicsExactly(links: seq<Hyperlink>, dir: Direction, num: int)
    requires links != []
    ensures RemoveLinks(links, |links|, false, 0, dir, num).1 == Panicked <==>
            && On(links[|links| - 1], dir, num) && CountOn(links, dir, num) >= 2
            && |links| != 2 && (|links| == 3 ==> !On(links[0], dir, num))
  {
    hide On, OnLine, RemoveLinks, Kept, Steps, NoNeighbours, CountOn;
    RunAll(links, dir, num);
    var n := |links|;
    if n == 1 {
      OneLink(links, dir, num);
    } else if On(links[n - 1], dir, num) {
      KeptIsLong(links, dir, num);
      CountBounds(links, dir, num);
      if CountOn(links, dir, num) >= 2 {
        FallsBehind(links, dir, num);
        if n <= 3 { ShortLists(links, dir, num); }
        if n == 2 { BothOn(links, dir, num); }
      } else {
        OneAtTheEnd(links, dir, num);
      }
    }
  }

  lemma BothOn(links: seq<Hyperlink>, dir: Direction, num: int)
    requires |links| == 2 && CountOn(links, dir, num) >= 2
    ensures On(links[0], dir, num)
  {
    hide On;
    CountBounds(links, dir, num);
  }
}
