/** The proxy link's present buffers: the engine thread snapshots a band into one,
    the main thread reads it some time later, and a resize meanwhile retires it.
    Every step is one thread's atomic action; a run is any interleaving. */
module PresentBuffers {
  import opened Basics

  type Ptr = nat

  /** A posted bibFrame: the buffer it points at and the frame copied into it. */
  datatype Posted = Posted(p: Ptr, frame: int)

  /** Where bibPushFrameIfDirty stands on the engine thread. */
  datatype Pc =
    | PIdle
    | PFreeing              // the flag was clear: freeing what was retired
    | PRendering            // nothing retired is left
    | PCopied(frame: int)   // the band is in the present buffer
    | PArmed(frame: int)    // the flag is set, the call not posted yet

  datatype Link = Link(
    memory: map<Ptr, int>,    // allocated buffers and the frame each holds
    next: Ptr,                // buffers allocated so far
    freed: seq<Ptr>,          // every free, in order
    current: Ptr,             // g_presentPixels
    retired: seq<Ptr>,        // g_retiredPresentPixels
    inFlight: bool,           // g_presentInFlight
    pc: Pc,
    posted: seq<Posted>,      // proxied to the main thread
    reading: Option<Posted>)  // the present the host is carrying out

  datatype Step =
    | Resize(garbage: int)          // bib_set_viewport, between pushes
    | Gate                          // load the flag
    | FreeOne                       // the loop over the retired buffers
    | Render(frame: Option<int>)    // bib_render; None: nothing to push
    | Arm                           // store the flag
    | Post
    | Take                          // main thread: the call starts
    | Done                          // main thread: bib_present_done

  const BOOT: Link := Link(map[0 := 0], 1, [], 0, [], false, PIdle, [], None)

  function Next(s: Link, step: Step): Link {
    match step
    case Resize(garbage) =>
      if s.pc != PIdle then s
      else s.(memory := s.memory[s.next := garbage], next := s.next + 1, retired := s.retired + [s.current], current := s.next)
    case Gate => if s.pc != PIdle || s.inFlight then s else s.(pc := PFreeing)
    case FreeOne =>
      if s.pc != PFreeing then s
      else if s.retired == [] then s.(pc := PRendering)
      else s.(memory := s.memory - {s.retired[0]}, freed := s.freed + [s.retired[0]], retired := s.retired[1..])
    case Render(frame) =>
      if s.pc != PRendering then s
      else if frame.None? then s.(pc := PIdle)
      else s.(memory := s.memory[s.current := frame.value], pc := PCopied(frame.value))
    case Arm => if !s.pc.PCopied? then s else s.(inFlight := true, pc := PArmed(s.pc.frame))
    case Post => if !s.pc.PArmed? then s else s.(posted := s.posted + [Posted(s.current, s.pc.frame)], pc := PIdle)
    case Take =>
      if s.reading.Some? || s.posted == [] then s else s.(reading := Some(s.posted[0]), posted := s.posted[1..])
    case Done => if s.reading.None? then s else s.(reading := None, inFlight := false)
  }

  function Run(steps: seq<Step>): Link
    decreases |steps|
  {
    if steps == [] then BOOT else Next(Run(steps[..|steps| - 1]), steps[|steps| - 1])
  }

  /** The presents that still refer to a buffer. */
  function Presents(s: Link): seq<Posted> {
    (if s.reading.Some? then [s.reading.value] else []) + s.posted
  }

  /** Every buffer allocated so far is current, retired or freed, once and only one
      of these. */
  ghost predicate Accounted(current: Ptr, retired: seq<Ptr>, freed: seq<Ptr>, next: Ptr) {
    forall p: Ptr :: Count(current, retired, freed, p) == if p < next then 1 else 0
  }

  ghost function Count(current: Ptr, retired: seq<Ptr>, freed: seq<Ptr>, p: Ptr): nat {
    (if p == current then 1 else 0) + multiset(retired)[p] + multiset(freed)[p]
  }

  ghost predicate Inv(s: Link) {
    && Accounted(s.current, s.retired, s.freed, s.next)
    && (forall p :: p in s.memory <==> p == s.current || p in s.retired)
    && |Presents(s)| == (if s.inFlight && !s.pc.PArmed? then 1 else 0)
    && (s.pc.PArmed? ==> s.inFlight)
    && (s.pc.PFreeing? || s.pc.PRendering? || s.pc.PCopied? ==> !s.inFlight)
    && (s.pc.PRendering? || s.pc.PCopied? || s.pc.PArmed? ==> s.retired == [])
    && (s.pc.PCopied? || s.pc.PArmed? ==> s.memory[s.current] == s.pc.frame)
    && (forall k :: 0 <= k < |Presents(s)| ==>
          Presents(s)[k].p in s.memory && s.memory[Presents(s)[k].p] == Presents(s)[k].frame)
  }

  lemma NewAccounted(current: Ptr, retired: seq<Ptr>, freed: seq<Ptr>, next: Ptr)
    requires Accounted(current, retired, freed, next)
    ensures Accounted(next, retired + [current], freed, next + 1)
    ensures next != current && next !in retired
  {
    assert Count(current, retired, freed, next) == 0;
    forall p: Ptr ensures Count(next, retired + [current], freed, p) == if p < next + 1 then 1 else 0 {
      assert Count(current, retired, freed, p) == if p < next then 1 else 0;
    }
  }

  lemma FreedAccounted(current: Ptr, retired: seq<Ptr>, freed: seq<Ptr>, next: Ptr)
    requires Accounted(current, retired, freed, next) && retired != []
    ensures Accounted(current, retired[1..], freed + [retired[0]], next)
    ensures retired[0] != current && retired[0] !in retired[1..]
  {
    assert retired == [retired[0]] + retired[1..];
    assert Count(current, retired, freed, retired[0]) <= 1;
    forall p: Ptr ensures Count(current, retired[1..], freed + [retired[0]], p) == if p < next then 1 else 0 {
      assert Count(current, retired, freed, p) == if p < next then 1 else 0;
    }
  }

  lemma ResizeKeeps(s: Link, garbage: int)
    requires Inv(s) && s.pc == PIdle
    ensures Inv(Next(s, Resize(garbage)))
  {
    NewAccounted(s.current, s.retired, s.freed, s.next);
    assert Presents(Next(s, Resize(garbage))) == Presents(s);
  }

  lemma FreeKeeps(s: Link)
    requires Inv(s) && s.pc == PFreeing && s.retired != []
    ensures Inv(Next(s, FreeOne))
  {
    FreedAccounted(s.current, s.retired, s.freed, s.next);
    assert Presents(Next(s, FreeOne)) == Presents(s);
  }

  /** The snapshot, while nothing can be reading the buffer. */
  lemma RenderKeeps(s: Link, frame: int)
    requires Inv(s) && s.pc == PRendering
    ensures Inv(Next(s, Render(Some(frame))))
  {
    assert Presents(Next(s, Render(Some(frame)))) == Presents(s) == [];
  }

  lemma PostKeeps(s: Link)
    requires Inv(s) && s.pc.PArmed?
    ensures Inv(Next(s, Post))
  {
    assert Presents(s) == [] && Presents(Next(s, Post)) == [Posted(s.current, s.pc.frame)];
  }

  lemma TakeKeeps(s: Link)
    requires Inv(s) && s.reading.None? && s.posted != []
    ensures Inv(Next(s, Take))
  {
    assert Presents(Next(s, Take)) == Presents(s);
  }

  lemma DoneKeeps(s: Link)
    requires Inv(s) && s.reading.Some?
    ensures Inv(Next(s, Done))
  {
    assert Presents(s) == [s.reading.value] + s.posted && Presents(Next(s, Done)) == s.posted;
  }

  lemma StepKeeps(s: Link, step: Step)
    requires Inv(s)
    ensures Inv(Next(s, step))
  {
    match step
    case Resize(garbage) => if s.pc == PIdle { ResizeKeeps(s, garbage); }
    case FreeOne => if s.pc == PFreeing && s.retired != [] { FreeKeeps(s); }
    case Render(frame) => if s.pc == PRendering && frame.Some? { RenderKeeps(s, frame.value); }
    case Post => if s.pc.PArmed? { PostKeeps(s); }
    case Take => if s.reading.None? && s.posted != [] { TakeKeeps(s); }
    case Done => if s.reading.Some? { DoneKeeps(s); }
    case Gate =>
    case Arm =>
  }

  lemma {:induction false} RunKeeps(steps: seq<Step>)
    ensures Inv(Run(steps))
    decreases |steps|
  {
    if steps != [] {
      RunKeeps(steps[..|steps| - 1]);
      StepKeeps(Run(steps[..|steps| - 1]), steps[|steps| - 1]);
    }
  }

  /** Whatever the interleaving: at most one present is outstanding; the buffer it
      reads is allocated and still holds exactly the frame that was pushed, resizes
      notwithstanding; and no buffer is freed twice, or while it is current. */
  lemma {:induction false} PresentsAreSafe(steps: seq<Step>)
    ensures var s := Run(steps);
            && |Presents(s)| <= 1
            && (forall m :: m in Presents(s) ==> m.p in s.memory && s.memory[m.p] == m.frame)
            && (forall p: Ptr :: multiset(s.freed)[p] <= 1)
            && s.current !in s.freed
  {
    RunKeeps(steps);
    var s := Run(steps);
    forall p: Ptr ensures multiset(s.freed)[p] <= 1 && (p == s.current ==> p !in s.freed) {
      assert Count(s.current, s.retired, s.freed, p) <= 1;
    }
  }

  /** A push that gets past the gate and is let run frees every retired buffer,
      once each and in order, before it renders: retiring never leaks. */
  lemma {:induction false} GateFreesAll(s: Link)
    requires s.pc == PFreeing
    ensures var s' := Freed(s, |s.retired| + 1);
            s'.pc == PRendering && s'.retired == [] && s'.freed == s.freed + s.retired
    decreases |s.retired|
  {
    var s' := Next(s, FreeOne);
    if s.retired == [] {
      assert Freed(s, 1) == Freed(s', 0);
    } else {
      GateFreesAll(s');
      assert s'.freed + s'.retired == s.freed + s.retired;
    }
  }

  /** One push with a frame, let run on both threads up to where the host reads. */
  function Pushed(s: Link, frame: int): Link {
    Next(Next(Next(Next(Freed(Next(s, Gate), |s.retired| + 1), Render(Some(frame))), Arm), Post), Take)
  }

  /** A frame gets to the host: in any run, with the gate open and no push under way, a
      push let run hands the host a buffer that holds the frame, and when the host is
      done the gate is open again. */
  lemma {:induction false} FramesArrive(steps: seq<Step>, frame: int)
    requires Run(steps).pc == PIdle && !Run(steps).inFlight
    ensures var s' := Pushed(Run(steps), frame);
            && s'.reading == Some(Posted(s'.current, frame)) && s'.current in s'.memory && s'.memory[s'.current] == frame
            && s'.inFlight && s'.pc == PIdle && !Next(s', Done).inFlight && s'.retired == []
  {
    RunKeeps(steps);
    var s := Run(steps);
    assert Presents(s) == [];
    GateFreesAll(Next(s, Gate));
    FreedKeepsRest(Next(s, Gate), |s.retired| + 1);
  }

  lemma {:induction false} FreedKeepsRest(s: Link, n: nat)
    ensures var s' := Freed(s, n);
            s'.posted == s.posted && s'.reading == s.reading && s'.current == s.current && s'.inFlight == s.inFlight
    decreases n
  {
    if n > 0 { FreedKeepsRest(Next(s, FreeOne), n - 1); }
  }

  function Freed(s: Link, n: nat): Link
    decreases n
  {
    if n == 0 then s else Freed(Next(s, FreeOne), n - 1)
  }
}
