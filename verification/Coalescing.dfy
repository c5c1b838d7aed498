/** What it means for applied input to be sent input with some events merged:
    a pure relation between the two streams, and what it guarantees. */
module Coalescing {
  import opened Basics

  /** A host input event.  Other stands for every discrete one (button, key,
      focus, navigation, ...), each with its own identity. */
  datatype Ev =
    | Wheel(x: real, y: real, dx: real, dy: real, mods: int)
    | Move(x: real, y: real, mods: int)
    | Other(id: nat)

  /** What the engine applies: a wheel batch, a move batch or a discrete event. */
  datatype Item =
    | WheelBatch(x: real, y: real, dx: real, dy: real, mods: int, events: nat)
    | MoveBatch(x: real, y: real, mods: int)
    | Discrete(id: nat)

  function Abs(r: real): real { if r < 0.0 then -r else r }

  /** The direction-reversal test, a negative product. */
  predicate Reverses(a: real, b: real) { (a < 0.0 && b > 0.0) || (a > 0.0 && b < 0.0) }

  lemma ReversesIsNegativeProduct(a: real, b: real)
    ensures Reverses(a, b) <==> a * b < 0.0
  {
    if a > 0.0 && b > 0.0 {
    } else if a < 0.0 && b < 0.0 {
      assert a * b == (-a) * (-b);
    } else if a > 0.0 && b < 0.0 {
      assert a * b == -(a * (-b));
    }
  }

  /** bibWheelMergeable and the modifier test of bib_mouse_move, without the
      consumed flag, which can only refuse more. */
  predicate Mergeable(open: Item, e: Ev) {
    match e
    case Wheel(_, _, dx, dy, mods) =>
      && open.WheelBatch? && open.mods == mods
      && !Reverses(open.dx, dx) && !Reverses(open.dy, dy)
      && ((Abs(open.dx) > Abs(open.dy)) == (Abs(dx) > Abs(dy)))
    case Move(_, _, mods) => open.MoveBatch? && open.mods == mods
    case Other(_) => false
  }

  function Single(e: Ev): Item {
    match e
    case Wheel(x, y, dx, dy, mods) => WheelBatch(x, y, dx, dy, mods, 1)
    case Move(x, y, mods) => MoveBatch(x, y, mods)
    case Other(id) => Discrete(id)
  }

  /** Sum the deltas, keep the latest position. */
  function Absorb(open: Item, e: Ev): Item
    requires Mergeable(open, e)
  {
    match e
    case Wheel(x, y, dx, dy, _) => open.(x := x, y := y, dx := open.dx + dx, dy := open.dy + dy, events := open.events + 1)
    case Move(x, y, _) => open.(x := x, y := y)
  }

  /** The batch a run of events makes, if each event could join the ones before. */
  function Merge(run: seq<Ev>): Option<Item>
    requires run != []
    decreases |run|
  {
    if |run| == 1 then Some(Single(run[0]))
    else
      match Merge(run[..|run| - 1])
      case None => None
      case Some(open) =>
        if Mergeable(open, run[|run| - 1]) then Some(Absorb(open, run[|run| - 1])) else None
  }

  /** sent splits, in order, into one run per item, each merging to its item. */
  ghost predicate Coalesces(sent: seq<Ev>, items: seq<Item>)
    decreases |items|
  {
    if items == [] then sent == []
    else exists k :: LastRun(sent, items, k) && Coalesces(sent[..k], items[..|items| - 1])
  }

  ghost predicate LastRun(sent: seq<Ev>, items: seq<Item>, k: int)
    requires items != []
  {
    0 <= k < |sent| && Merge(sent[k..]) == Some(items[|items| - 1])
  }

  // ----- growing the streams -------------------------------------------------

  lemma {:induction false} AppendEvent(sent: seq<Ev>, items: seq<Item>, e: Ev)
    requires Coalesces(sent, items)
    ensures Coalesces(sent + [e], items + [Single(e)])
  {
    var sent', items' := sent + [e], items + [Single(e)];
    assert sent'[|sent|..] == [e] && sent'[..|sent|] == sent && items'[..|items|] == items;
    assert LastRun(sent', items', |sent|);
  }

  lemma {:induction false} AppendRun(sent: seq<Ev>, items: seq<Item>, run: seq<Ev>, item: Item)
    requires Coalesces(sent, items) && run != [] && Merge(run) == Some(item)
    ensures Coalesces(sent + run, items + [item])
  {
    var sent', items' := sent + run, items + [item];
    assert sent'[|sent|..] == run && sent'[..|sent|] == sent && items'[..|items|] == items;
    assert LastRun(sent', items', |sent|);
  }

  lemma {:induction false} Unsnoc(sent: seq<Ev>, items: seq<Item>) returns (front: seq<Ev>, run: seq<Ev>)
    requires Coalesces(sent, items) && items != []
    ensures sent == front + run
    ensures Coalesces(front, items[..|items| - 1]) && run != [] && Merge(run) == Some(items[|items| - 1])
  {
    var c :| LastRun(sent, items, c) && Coalesces(sent[..c], items[..|items| - 1]);
    front, run := sent[..c], sent[c..];
  }

  lemma {:induction false} MergeOneMore(run: seq<Ev>, e: Ev)
    requires run != [] && Merge(run).Some? && Mergeable(Merge(run).value, e)
    ensures Merge(run + [e]) == Some(Absorb(Merge(run).value, e))
  {
    assert (run + [e])[..|run|] == run;
  }

  lemma {:induction false} AbsorbEvent(sent: seq<Ev>, items: seq<Item>, e: Ev)
    requires Coalesces(sent, items) && items != [] && Mergeable(items[|items| - 1], e)
    ensures Coalesces(sent + [e], items[..|items| - 1] + [Absorb(items[|items| - 1], e)])
  {
    var front, run := Unsnoc(sent, items);
    MergeOneMore(run, e);
    AppendRun(front, items[..|items| - 1], run + [e], Absorb(items[|items| - 1], e));
    assert front + (run + [e]) == sent + [e];
  }

  // ----- what a coalesced stream guarantees -------------------------------------

  /** The streams split at any item: what was applied before it is what was sent
      before its run, and what is applied after is what was sent after. */
  lemma {:induction false} SplitAt(sent: seq<Ev>, items: seq<Item>, i: nat)
    returns (before: seq<Ev>, run: seq<Ev>, after: seq<Ev>)
    requires Coalesces(sent, items) && i < |items|
    ensures sent == before + run + after && run != [] && Merge(run) == Some(items[i])
    ensures Coalesces(before, items[..i]) && Coalesces(after, items[i + 1..])
    decreases |items|
  {
    var n := |items| - 1;
    var front, last := Unsnoc(sent, items);
    var early := items[..n];
    if i == n {
      before, run, after := front, last, [];
      NothingCoalesces(after, items[i + 1..]);
    } else {
      before, run, after := SplitAt(front, early, i);
      AppendRun(after, early[i + 1..], last, items[n]);
      Regroup(before + run, after, last);
      after := after + last;
      SplitLast(items, i);
    }
  }

  lemma {:induction false} NothingCoalesces(sent: seq<Ev>, items: seq<Item>)
    requires sent == [] && items == []
    ensures Coalesces(sent, items)
  {
  }

  /** Nothing merges past a discrete event: each is applied alone, once, after
      exactly what was sent before it and before exactly what was sent after. */
  lemma {:induction false} DiscreteIsABarrier(sent: seq<Ev>, items: seq<Item>, i: nat) returns (before: seq<Ev>, after: seq<Ev>)
    requires Coalesces(sent, items) && i < |items| && items[i].Discrete?
    ensures sent == before + [Other(items[i].id)] + after
    ensures Coalesces(before, items[..i]) && Coalesces(after, items[i + 1..])
  {
    var run;
    before, run, after := SplitAt(sent, items, i);
    MergedKind(run);
    assert run == [Other(items[i].id)];
  }

  lemma {:induction false} MergedKind(run: seq<Ev>)
    requires run != [] && Merge(run).Some?
    ensures Merge(run).value.Discrete? ==> |run| == 1 && run[0] == Other(Merge(run).value.id)
    ensures Merge(run).value.WheelBatch? ==>
              Merge(run).value.events == |run| &&
              forall j :: 0 <= j < |run| ==> run[j].Wheel? && run[j].mods == Merge(run).value.mods
    ensures Merge(run).value.MoveBatch? ==>
              forall j :: 0 <= j < |run| ==> run[j].Move? && run[j].mods == Merge(run).value.mods
    ensures !Merge(run).value.Discrete? ==>
              !run[|run| - 1].Other? && Merge(run).value.x == run[|run| - 1].x && Merge(run).value.y == run[|run| - 1].y
    decreases |run|
  {
    if |run| > 1 {
      var most := run[..|run| - 1];
      MergedKind(most);
      assert forall j :: 0 <= j < |most| ==> run[j] == most[j];
    }
  }

  function SumX(sent: seq<Ev>): real {
    if sent == [] then 0.0
    else SumX(sent[..|sent| - 1]) + if sent[|sent| - 1].Wheel? then sent[|sent| - 1].dx else 0.0
  }

  function SumY(sent: seq<Ev>): real {
    if sent == [] then 0.0
    else SumY(sent[..|sent| - 1]) + if sent[|sent| - 1].Wheel? then sent[|sent| - 1].dy else 0.0
  }

  function ItemsX(items: seq<Item>): real {
    if items == [] then 0.0
    else ItemsX(items[..|items| - 1]) + if items[|items| - 1].WheelBatch? then items[|items| - 1].dx else 0.0
  }

  function ItemsY(items: seq<Item>): real {
    if items == [] then 0.0
    else ItemsY(items[..|items| - 1]) + if items[|items| - 1].WheelBatch? then items[|items| - 1].dy else 0.0
  }

  lemma {:induction false} SumsAppend(a: seq<Ev>, b: seq<Ev>)
    ensures SumX(a + b) == SumX(a) + SumX(b) && SumY(a + b) == SumY(a) + SumY(b)
    decreases |b|
  {
    if b == [] {
      assert a + b == a;
    } else {
      SumsAppend(a, b[..|b| - 1]);
      assert (a + b)[..|a + b| - 1] == a + b[..|b| - 1];
    }
  }

  lemma {:induction false} MergeSums(run: seq<Ev>)
    requires run != [] && Merge(run).Some?
    ensures SumX(run) == ItemsX([Merge(run).value]) && SumY(run) == ItemsY([Merge(run).value])
    decreases |run|
  {
    var most := run[..|run| - 1];
    if |run| > 1 {
      MergeSums(most);
      assert [Merge(most).value][..0] == [];
    } else {
      assert most == [];
    }
    assert [Merge(run).value][..0] == [];
  }

  /** Scrolled distance is conserved on both axes. */
  lemma {:induction false} DistanceConserved(sent: seq<Ev>, items: seq<Item>)
    requires Coalesces(sent, items)
    ensures SumX(sent) == ItemsX(items) && SumY(sent) == ItemsY(items)
    decreases |items|
  {
    if items != [] {
      var n := |items| - 1;
      var k :| LastRun(sent, items, k) && Coalesces(sent[..k], items[..n]);
      DistanceConserved(sent[..k], items[..n]);
      MergeSums(sent[k..]);
      SumsAppend(sent[..k], sent[k..]);
      assert sent == sent[..k] + sent[k..] && [items[n]][..0] == [];
    }
  }

  function TravelX(run: seq<Ev>): real {
    if run == [] then 0.0
    else TravelX(run[..|run| - 1]) + if run[|run| - 1].Wheel? then Abs(run[|run| - 1].dx) else 0.0
  }

  function TravelY(run: seq<Ev>): real {
    if run == [] then 0.0
    else TravelY(run[..|run| - 1]) + if run[|run| - 1].Wheel? then Abs(run[|run| - 1].dy) else 0.0
  }

  /** A wheel batch never cancels: on each axis the distance applied is the whole
      distance travelled, and every event's dominant axis is the batch's axis at
      the moment it joined. */
  lemma {:induction false} WheelsNeverCancel(run: seq<Ev>)
    requires run != [] && Merge(run).Some? && Merge(run).value.WheelBatch?
    ensures Abs(Merge(run).value.dx) == TravelX(run) && Abs(Merge(run).value.dy) == TravelY(run)
    ensures forall j :: 0 < j < |run| ==>
              run[j].Wheel? && Merge(run[..j]).Some? && Merge(run[..j]).value.WheelBatch? &&
              ((Abs(Merge(run[..j]).value.dx) > Abs(Merge(run[..j]).value.dy)) == (Abs(run[j].dx) > Abs(run[j].dy)))
    decreases |run|
  {
    var most := run[..|run| - 1];
    if |run| > 1 {
      WheelsNeverCancel(most);
      forall j | 0 < j < |run| - 1 ensures run[..j] == most[..j] && run[j] == most[j] { }
    } else {
      assert most == [];
    }
  }
}
