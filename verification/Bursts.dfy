/** A burst of wheel input: calls in a row, with no engine step between them, end up
    in one task that holds their sums. */
module Bursts {
  import opened Basics
  import opened Coalescing
  import opened InputQueue
  import opened OpenBatches
  import opened Neighbours

  /** One call of an export: the host thread runs until it returns. */
  function CallOf(e: Ev): seq<Action> { [HostInput(e), HostProceeds, HostProceeds, HostProceeds] }

  function Burst(evs: seq<Ev>): seq<Action> {
    if evs == [] then [] else CallOf(evs[0]) + Burst(evs[1..])
  }

  /** The newest pending task is a wheel batch that holds item. */
  ghost predicate NewestIs(s: Queue, item: Item) {
    && Pending(s) != [] && item.WheelBatch?
    && var t := Pending(s)[|Pending(s)| - 1];
       t.TWheel? && t.p in s.heap && s.heap[t.p] == item
  }

  /** Between calls, with the engine up and the last wheel not consumed. */
  ghost predicate Ready(s: Queue) { s.host.HIdle? && s.ready && !s.consumed }

  // ----- one call -----------------------------------------------------------------

  function AfterCall(s: Queue, e: Ev): Queue { HostStep(HostStep(HostStep(Step(s, HostInput(e))))) }

  lemma RunAction(acts: seq<Action>, a: Action)
    ensures Run(acts + [a]) == Step(Run(acts), a)
  {
    assert (acts + [a])[..|acts|] == acts;
  }

  lemma {:induction false} CallRuns(acts: seq<Action>, e: Ev)
    ensures Run(acts + CallOf(e)) == AfterCall(Run(acts), e)
  {
    RunAction(acts, HostInput(e));
    RunAction(acts + [HostInput(e)], HostProceeds);
    RunAction(acts + [HostInput(e)] + [HostProceeds], HostProceeds);
    RunAction(acts + [HostInput(e)] + [HostProceeds] + [HostProceeds], HostProceeds);
    assert acts + CallOf(e) == acts + [HostInput(e)] + [HostProceeds] + [HostProceeds] + [HostProceeds];
  }

  /** A wheel that goes the way of the newest task is summed into it. */
  lemma CallExtends(s: Queue, e: Ev, item: Item)
    requires Shape(s) && OpenExact(s) && Ready(s) && e.Wheel? && NewestIs(s, item) && Alike(item, Single(e))
    ensures Mergeable(item, e)
    ensures var s' := AfterCall(s, e);
            && Ready(s') && Pending(s') == Pending(s) && NewestIs(s', Absorb(item, e))
            && Grows(Absorbs(e), s.sent, Output(s), s'.sent, Output(s'))
  {
    MergeableIsAlike(item, e);
    JoinsIsOutcome(s, e);
    InputOutcome(s, e);
    var p := Outcome(s, e).p;
    IdleHost(s);
    IdleOpen(s);
    Absorbed(s, e, p);
  }

  lemma ThreeSteps(s: Queue, e: Ev)
    requires Shape(s) && Ready(s) && e.Wheel? && TestAndMerge(s, e) == s.(host := HNew(e))
    ensures var t, published := TWheel(s.next), PublishWheel(s.(host := HNew(e)), e);
            && published.host == HPost(t)
            && AfterCall(s, e) == Enqueue(Accept(published, t), t)
  {
  }

  /** Any other wheel makes a task of its own. */
  lemma CallStarts(s: Queue, e: Ev)
    requires Shape(s) && OpenExact(s) && Ready(s) && e.Wheel? && !Joins(s, e)
    ensures var s' := AfterCall(s, e);
            && Ready(s') && Pending(s') == Pending(s) + [TWheel(s.next)] && NewestIs(s', Single(e))
            && Output(s') == Output(s) + [Single(e)] && s'.sent == s.sent + [e]
  {
    JoinsIsOutcome(s, e);
    InputOutcome(s, e);
    AllocateShape(s, e);
    ThreeSteps(s, e);
    var asked, t := s.(host := HNew(e)), TWheel(s.next);
    StartsTask(s, asked, e, t, PublishWheel(asked, e));
    assert AfterCall(s, e) == Enqueue(Accept(PublishWheel(asked, e), t), t);
  }

  lemma StartsTask(s: Queue, asked: Queue, e: Ev, t: Task, published: Queue)
    requires asked == s.(host := HNew(e)) && Shape(asked) && Ready(s) && e.Wheel? && Pending(asked) == Pending(s)
    requires t == TWheel(s.next) && published == PublishWheel(asked, e)
    ensures var s' := Enqueue(Accept(published, t), t);
            && Ready(s') && Pending(s') == Pending(s) + [t] && NewestIs(s', Single(e))
            && Output(s') == Output(s) + [Single(e)] && s'.sent == s.sent + [e]
  {
    Unmoved(s, asked);
    PublishWheelShape(asked, e);
    PublishGrows(asked, e);
    OfferTasks(asked, published, t);
    IdleHost(asked);
    AcceptShape(published, t);
    AcceptGrows(published, t);
    EnqueueShape(Accept(published, t), t);
    EnqueueGrows(Accept(published, t), t);
  }

  // ----- sums of a burst -----------------------------------------------------------

  /** item with a burst of wheels summed in. */
  function Extended(item: Item, evs: seq<Ev>): Item
    requires item.WheelBatch? && forall e :: e in evs ==> e.Wheel?
  {
    if evs == [] then item
    else item.(x := evs[|evs| - 1].x, y := evs[|evs| - 1].y, dx := item.dx + SumX(evs), dy := item.dy + SumY(evs),
               events := item.events + |evs|)
  }

  /** Wheels that all go one way: the same modifiers, each axis of one sign or zero,
      and the same test for the dominant axis. */
  ghost predicate OneWay(evs: seq<Ev>) {
    && (forall e :: e in evs ==> e.Wheel?)
    && (forall e, f :: e in evs && f in evs ==> Alike(Single(e), Single(f)))
  }

  /** Every one of them goes the way of item. */
  ghost predicate Follows(item: Item, evs: seq<Ev>) {
    item.WheelBatch? && forall e :: e in evs ==> Alike(item, Single(e))
  }

  /** What goes the way of all the rest still does with one of them summed in. */
  lemma StillFollows(item: Item, evs: seq<Ev>)
    requires evs != [] && OneWay(evs) && Follows(item, evs)
    ensures Mergeable(item, evs[0]) && Follows(Absorb(item, evs[0]), evs[1..]) && OneWay(evs[1..])
  {
    assert evs[0] in evs;
    MergeableIsAlike(item, evs[0]);
    forall e | e in evs[1..] ensures Alike(Absorb(item, evs[0]), Single(e)) {
      assert e in evs;
      SumGoesAlong(item, evs[0], e);
    }
    assert forall e :: e in evs[1..] ==> e in evs;
  }

  lemma SumGoesAlong(item: Item, e: Ev, f: Ev)
    requires e.Wheel? && f.Wheel? && item.WheelBatch? && Mergeable(item, e)
    requires Alike(item, Single(f)) && Alike(item, Single(e)) && Alike(Single(e), Single(f))
    ensures Alike(Absorb(item, e), Single(f))
  {
  }

  lemma {:induction false} ExtendedFront(item: Item, evs: seq<Ev>)
    requires evs != [] && item.WheelBatch? && (forall e :: e in evs ==> e.Wheel?) && Mergeable(item, evs[0])
    ensures Extended(item, evs) == Extended(Absorb(item, evs[0]), evs[1..])
  {
    assert evs == [evs[0]] + evs[1..];
    SumsAppend([evs[0]], evs[1..]);
    assert [evs[0]][..0] == [];
  }

  // ----- bursts -----------------------------------------------------------------------

  /** From s to s', the newest item of the output became `last` and nothing else
      changed, and the tasks are the same. */
  ghost predicate Grown(s: Queue, s': Queue, last: Item) {
    && Ready(s') && Pending(s') == Pending(s) && NewestIs(s', last)
    && Output(s) != [] && Output(s') == Output(s)[..|Output(s)| - 1] + [last]
  }

  lemma GrownTwice(s: Queue, s1: Queue, s2: Queue, a: Item, b: Item)
    requires Grown(s, s1, a) && Grown(s1, s2, b)
    ensures Grown(s, s2, b)
  {
  }

  lemma BurstFirst(acts: seq<Action>, evs: seq<Ev>)
    requires evs != []
    ensures acts + Burst(evs) == acts + CallOf(evs[0]) + Burst(evs[1..])
  {
    Regroup(acts, CallOf(evs[0]), Burst(evs[1..]));
  }

  /** The last item of the output is the newest task's. */
  lemma NewestIsLast(s: Queue, item: Item)
    requires NewestIs(s, item)
    ensures Output(s) != [] && Output(s)[|Output(s)| - 1] == item
  {
    var front, t := Pending(s)[..|Pending(s)| - 1], Pending(s)[|Pending(s)| - 1];
    LastApart(Pending(s));
    ContentsJoin(s.heap, front, t);
    LastOfOutput(s, front, t);
  }

  lemma LastOfOutput(s: Queue, front: seq<Task>, t: Task)
    requires Contents(s.heap, Pending(s)) == Contents(s.heap, front) + Content(s.heap, t) && Positional(t) && t.p in s.heap
    ensures Output(s) != [] && Output(s)[|Output(s)| - 1] == s.heap[t.p]
  {
    OutputIs(s, Contents(s.heap, front), [s.heap[t.p]]);
  }

  lemma {:induction false} FirstExtends(acts: seq<Action>, e: Ev, item: Item)
    requires Ready(Run(acts)) && e.Wheel? && NewestIs(Run(acts), item) && Alike(item, Single(e))
    ensures Mergeable(item, e) && Grown(Run(acts), Run(acts + CallOf(e)), Absorb(item, e))
  {
    RunKeeps(acts);
    RunOpen(acts);
    CallRuns(acts, e);
    CallExtends(Run(acts), e, item);
    NewestIsLast(Run(acts), item);
  }

  /** A burst that goes the way of the newest task makes no task: in any run, all of it
      is summed into that one. */
  lemma {:induction false} BurstExtends(acts: seq<Action>, evs: seq<Ev>, item: Item)
    requires Ready(Run(acts)) && NewestIs(Run(acts), item) && OneWay(evs) && Follows(item, evs)
    ensures Grown(Run(acts), Run(acts + Burst(evs)), Extended(item, evs))
    decreases |evs|
  {
    if evs == [] {
      assert acts + Burst(evs) == acts;
      RunKeeps(acts);
      NewestIsLast(Run(acts), item);
      LastApart(Output(Run(acts)));
    } else {
      var next := acts + CallOf(evs[0]);
      StillFollows(item, evs);
      FirstExtends(acts, evs[0], item);
      BurstExtends(next, evs[1..], Absorb(item, evs[0]));
      BurstFirst(acts, evs);
      ExtendedFront(item, evs);
      GrownTwice(Run(acts), Run(next), Run(acts + Burst(evs)), Absorb(item, evs[0]), Extended(item, evs));
    }
  }

  /** The newest task is no wheel batch that e could be one with. */
  ghost predicate Blocked(s: Queue, e: Ev) {
    forall item :: NewestIs(s, item) ==> !Alike(item, Single(e))
  }

  /** From s to s', one wheel task more, with `last`, and nothing else. */
  ghost predicate Added(s: Queue, s': Queue, last: Item) {
    && Ready(s') && Pending(s') == Pending(s) + [TWheel(s.next)] && NewestIs(s', last)
    && Output(s') == Output(s) + [last]
  }

  lemma BlockedStarts(s: Queue, e: Ev)
    requires Shape(s) && OpenExact(s) && Ready(s) && e.Wheel? && Blocked(s, e)
    ensures Added(s, AfterCall(s, e), Single(e))
  {
    if Joins(s, e) {
      var t := Pending(s)[|Pending(s)| - 1];
      IdleHost(s);
      NewestIsOwned(s, t);
      assert NewestIs(s, s.heap[t.p]);
      MergeableIsAlike(s.heap[t.p], e);
    }
    CallStarts(s, e);
  }

  lemma AddedThenGrown(s: Queue, s1: Queue, s2: Queue, a: Item, b: Item)
    requires Added(s, s1, a) && Grown(s1, s2, b)
    ensures Added(s, s2, b)
  {
    assert (Output(s) + [a])[..|Output(s)|] == Output(s);
  }

  /** Any burst that goes one way, of which the first call cannot join the newest task,
      makes exactly one task: in any run, it holds all the sums. */
  lemma {:induction false} BurstMakesOne(acts: seq<Action>, evs: seq<Ev>)
    requires Ready(Run(acts)) && evs != [] && OneWay(evs) && Blocked(Run(acts), evs[0])
    ensures Added(Run(acts), Run(acts + Burst(evs)), Extended(Single(evs[0]), evs[1..]))
  {
    var next := acts + CallOf(evs[0]);
    RunKeeps(acts);
    RunOpen(acts);
    CallRuns(acts, evs[0]);
    BlockedStarts(Run(acts), evs[0]);
    assert forall e :: e in evs[1..] ==> e in evs;
    BurstExtends(next, evs[1..], Single(evs[0]));
    BurstFirst(acts, evs);
    AddedThenGrown(Run(acts), Run(next), Run(acts + Burst(evs)), Single(evs[0]), Extended(Single(evs[0]), evs[1..]));
  }

  /** From s to s', the newest item of the output became `a` and one wheel task more
      came after it, with `b`. */
  ghost predicate GrownAndAdded(s: Queue, s': Queue, a: Item, b: Item) {
    && Ready(s') && |Pending(s')| == |Pending(s)| + 1 && NewestIs(s', b)
    && Output(s) != [] && Output(s') == Output(s)[..|Output(s)| - 1] + [a] + [b]
  }

  /** How a burst that goes one way ends, when its first k calls go the way of the newest
      task: those are summed into it, and the rest, if any, are one new task. */
  ghost predicate Ends(s: Queue, s': Queue, item: Item, evs: seq<Ev>, k: nat)
    requires k <= |evs| && item.WheelBatch? && forall e :: e in evs ==> e.Wheel?
  {
    assert forall e :: e in evs[..k] ==> e in evs;
    assert forall e :: e in evs[k..] ==> e in evs;
    if k == |evs| then Grown(s, s', Extended(item, evs))
    else if k == 0 then Added(s, s', Extended(Single(evs[0]), evs[1..]))
    else GrownAndAdded(s, s', Extended(item, evs[..k]), Extended(Single(evs[k]), evs[k + 1..]))
  }

  lemma {:induction false} OneMoreGrown(s: Queue, s1: Queue, s2: Queue, item: Item, evs: seq<Ev>, k: nat)
    requires evs != [] && item.WheelBatch? && (forall e :: e in evs ==> e.Wheel?) && Mergeable(item, evs[0])
    requires Grown(s, s1, Absorb(item, evs[0])) && k <= |evs| - 1
    requires (forall e :: e in evs[1..] ==> e in evs) && Ends(s1, s2, Absorb(item, evs[0]), evs[1..], k)
    ensures Ends(s, s2, item, evs, k + 1)
  {
    var a, rest := Absorb(item, evs[0]), evs[1..];
    assert forall e :: e in evs[..k + 1] ==> e in evs;
    assert evs[..k + 1][1..] == rest[..k] && evs[..k + 1][0] == evs[0];
    ExtendedFront(item, evs[..k + 1]);
    if k == |rest| {
      assert evs[..k + 1] == evs;
      GrownTwice(s, s1, s2, a, Extended(a, rest));
    } else {
      assert rest[k] == evs[k + 1] && rest[k + 1..] == evs[k + 2..];
      if k == 0 { assert rest[..0] == []; }
      assert (Output(s)[..|Output(s)| - 1] + [a])[..|Output(s)| - 1] == Output(s)[..|Output(s)| - 1];
    }
  }

  /** The first k calls, and no more, go the way of item with those before them. */
  ghost predicate Splits(item: Item, evs: seq<Ev>, k: nat)
    requires k <= |evs| && item.WheelBatch? && forall e :: e in evs ==> e.Wheel?
  {
    && (forall j :: 0 <= j < k ==> GoesOn(item, evs, j))
    && (k < |evs| ==> !GoesOn(item, evs, k))
  }

  predicate GoesOn(item: Item, evs: seq<Ev>, j: nat)
    requires j < |evs| && item.WheelBatch? && forall e :: e in evs ==> e.Wheel?
  {
    assert forall e :: e in evs[..j] ==> e in evs;
    Alike(Extended(item, evs[..j]), Single(evs[j]))
  }

  lemma {:induction false} GoesOnLater(item: Item, evs: seq<Ev>, j: nat)
    requires j + 1 < |evs| && item.WheelBatch? && (forall e :: e in evs ==> e.Wheel?) && Mergeable(item, evs[0])
    requires forall e :: e in evs[1..] ==> e in evs
    ensures GoesOn(item, evs, j + 1) <==> GoesOn(Absorb(item, evs[0]), evs[1..], j)
  {
    var first := evs[..j + 1];
    assert first[1..] == evs[1..][..j] && first[0] == evs[0];
    assert forall e :: e in first ==> e in evs;
    ExtendedFront(item, first);
  }

  lemma {:induction false} SplitsLater(item: Item, evs: seq<Ev>, k: nat)
    requires evs != [] && item.WheelBatch? && (forall e :: e in evs ==> e.Wheel?) && Mergeable(item, evs[0])
    requires (forall e :: e in evs[1..] ==> e in evs) && Alike(item, Single(evs[0]))
    requires k <= |evs| - 1 && Splits(Absorb(item, evs[0]), evs[1..], k)
    ensures Splits(item, evs, k + 1)
  {
    forall j | 0 <= j < k + 1 ensures GoesOn(item, evs, j) {
      if j > 0 { GoesOnLater(item, evs, j - 1); }
    }
    if k + 1 < |evs| { GoesOnLater(item, evs, k); }
  }

  /** Whatever wheel batch the newest task is, a burst that goes one way makes at most
      one task.  The first k calls, those that go the batch's way, are summed into it,
      and all the rest are one new task. */
  lemma {:induction false} BurstEnds(acts: seq<Action>, evs: seq<Ev>, item: Item) returns (k: nat)
    requires Ready(Run(acts)) && NewestIs(Run(acts), item) && OneWay(evs)
    ensures k <= |evs| && Splits(item, evs, k) && Ends(Run(acts), Run(acts + Burst(evs)), item, evs, k)
    decreases |evs|, 1
  {
    if evs == [] {
      k := 0;
      BurstExtends(acts, evs, item);
    } else if Alike(item, Single(evs[0])) {
      k := BurstGoesOn(acts, evs, item);
    } else {
      k := 0;
      NewestIsOne(Run(acts), item);
      BurstMakesOne(acts, evs);
    }
  }

  lemma NewestIsOne(s: Queue, item: Item)
    requires NewestIs(s, item)
    ensures forall other :: NewestIs(s, other) ==> other == item
  {
  }

  lemma {:induction false} BurstGoesOn(acts: seq<Action>, evs: seq<Ev>, item: Item) returns (k: nat)
    requires Ready(Run(acts)) && NewestIs(Run(acts), item) && OneWay(evs) && evs != [] && Alike(item, Single(evs[0]))
    ensures k <= |evs| && Splits(item, evs, k) && Ends(Run(acts), Run(acts + Burst(evs)), item, evs, k)
    decreases |evs|, 0
  {
    var next := acts + CallOf(evs[0]);
    assert forall e :: e in evs[1..] ==> e in evs;
    FirstExtends(acts, evs[0], item);
    var rest := BurstEnds(next, evs[1..], Absorb(item, evs[0]));
    BurstFirst(acts, evs);
    OneMoreGrown(Run(acts), Run(next), Run(acts + Burst(evs)), item, evs, rest);
    SplitsLater(item, evs, rest);
    k := rest + 1;
  }
}
