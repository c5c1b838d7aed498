/** The rendering-update throttle: passes are spaced by an interval derived from a
    moving average of what they cost.  Times and costs are in milliseconds, over
    the reals. */
module Throttle {

  const BUDGET: real := 0.33
  const MAX_INTERVAL: real := 33.0
  const ALPHA: real := 0.2

  /** One pass: when it started, what it cost, the average after it. */
  datatype Pass = Pass(start: real, cost: real, ema: real)

  /** The throttle's globals, with the passes run so far as history. */
  datatype State = State(dynamic: bool, fixedMs: real, emaMs: real, intervalMs: real, lastMs: real,
                         requested: bool, passes: seq<Pass>) {

    predicate Throttling() { dynamic || fixedMs > 0.0 }

    /** The interval in force. */
    function Interval(): real { if fixedMs > 0.0 then fixedMs else intervalMs }

    predicate RunsAt(now: real) { !Throttling() || Interval() <= 0.0 || now - lastMs >= Interval() }
  }

  /** WebCore asks for an update, or bib_tick runs: it reads the clock at `now`,
      a pass it runs ends at `end`, and may ask for another. */
  datatype Event = Request | Tick(now: real, end: real, again: bool)

  function NewEma(ema: real, cost: real): real {
    if ema > 0.0 then ema * (1.0 - ALPHA) + cost * ALPHA else cost
  }

  function Capped(ema: real): real {
    if ema / BUDGET > MAX_INTERVAL then MAX_INTERVAL else ema / BUDGET
  }

  function Step(s: State, e: Event): State {
    match e
    case Request => s.(requested := true)
    case Tick(now, end, again) =>
      if !s.requested || !s.RunsAt(now) then s
      else
        var ema := if s.dynamic then NewEma(s.emaMs, end - now) else s.emaMs;
        s.(requested := again,
           lastMs := if s.Throttling() then now else s.lastMs,
           emaMs := ema,
           intervalMs := if s.dynamic then Capped(ema) else s.intervalMs,
           passes := s.passes + [Pass(now, end - now, ema)])
  }

  function Boot(dynamic: bool, fixedMs: real): State { State(dynamic, fixedMs, 0.0, 0.0, 0.0, true, []) }

  function Run(s: State, es: seq<Event>): State
    decreases |es|
  {
    if es == [] then s else Step(Run(s, es[..|es| - 1]), es[|es| - 1])
  }

  /** The clock never goes back, within a tick or from one to a later one. */
  ghost predicate Clocked(es: seq<Event>) {
    && (forall i :: 0 <= i < |es| && es[i].Tick? ==> es[i].now <= es[i].end)
    && (forall i, j :: 0 <= i < j < |es| && es[i].Tick? && es[j].Tick? ==> es[i].end <= es[j].now)
  }

  function Cost(ps: seq<Pass>): real
    decreases |ps|
  {
    if ps == [] then 0.0 else Cost(ps[..|ps| - 1]) + ps[|ps| - 1].cost
  }

  /** By how much the capped interval falls short of the budget after a pass. */
  function Excess(ema: real): real {
    if ema > BUDGET * MAX_INTERVAL then ema - BUDGET * MAX_INTERVAL else 0.0
  }

  /** The shortfall after every pass but the last. */
  function Shortfall(ps: seq<Pass>): real
    decreases |ps|
  {
    if |ps| <= 1 then 0.0 else Shortfall(ps[..|ps| - 1]) + Excess(ps[|ps| - 2].ema)
  }

  /** The interval in force after a pass: the fixed one if there is one, else the one
      the pass left. */
  function InForce(fixedMs: real, p: Pass): real { if fixedMs > 0.0 then fixedMs else Capped(p.ema) }

  ghost predicate Spaced(ps: seq<Pass>, fixedMs: real) {
    forall i :: 0 < i < |ps| ==> ps[i].start - ps[i - 1].start >= InForce(fixedMs, ps[i - 1])
  }

  /** The throttle is on, and remembers its last pass. */
  ghost predicate Remembers(s: State) {
    && s.Throttling() && Spaced(s.passes, s.fixedMs) && s.emaMs >= 0.0 && s.intervalMs <= MAX_INTERVAL
    && (s.passes != [] ==>
          var last := s.passes[|s.passes| - 1];
          last.start == s.lastMs && last.ema == s.emaMs && s.Interval() == InForce(s.fixedMs, last))
  }

  ghost predicate EndedBy(es: seq<Event>, t: real) {
    forall i :: 0 <= i < |es| && es[i].Tick? ==> es[i].end <= t
  }

  lemma {:induction false} LastIsPast(s: State, es: seq<Event>, t: real)
    requires s.passes == [] && s.Throttling() && Clocked(es) && EndedBy(es, t)
    ensures Run(s, es).passes != [] ==> Run(s, es).lastMs <= t
    decreases |es|
  {
    if es != [] {
      ConfigKept(s, es[..|es| - 1]);
      LastIsPast(s, es[..|es| - 1], t);
    }
  }

  lemma {:induction false} ConfigKept(s: State, es: seq<Event>)
    ensures Run(s, es).dynamic == s.dynamic && Run(s, es).fixedMs == s.fixedMs
    decreases |es|
  {
    if es != [] { ConfigKept(s, es[..|es| - 1]); }
  }

  lemma SpacedPass(s: State, now: real, end: real, again: bool)
    requires Remembers(s) && s.requested && s.RunsAt(now) && now <= end && (s.passes != [] ==> s.lastMs <= now)
    ensures Remembers(Step(s, Tick(now, end, again)))
  {
    var ps, ps' := s.passes, Step(s, Tick(now, end, again)).passes;
    assert forall i :: 0 <= i < |ps| ==> ps'[i] == ps[i];
  }

  lemma {:induction false} AlwaysRemembers(dynamic: bool, fixedMs: real, es: seq<Event>)
    requires Clocked(es) && (dynamic || fixedMs > 0.0)
    ensures Remembers(Run(Boot(dynamic, fixedMs), es))
    decreases |es|
  {
    if es != [] {
      var most, e := es[..|es| - 1], es[|es| - 1];
      var s := Run(Boot(dynamic, fixedMs), most);
      AlwaysRemembers(dynamic, fixedMs, most);
      if e.Tick? && s.requested && s.RunsAt(e.now) {
        LastIsPast(Boot(dynamic, fixedMs), most, e.now);
        SpacedPass(s, e.now, e.end, e.again);
      }
    }
  }

  ghost predicate Bounded(ps: seq<Pass>) {
    ps != [] ==> Cost(ps) <= BUDGET * (ps[|ps| - 1].start - ps[0].start) + 5.0 * ps[|ps| - 1].ema + Shortfall(ps)
  }

  ghost predicate Inv(s: State) {
    && s.dynamic && s.fixedMs <= 0.0 && s.emaMs >= 0.0
    && (s.passes == [] ==> s.emaMs == 0.0 && s.intervalMs == 0.0)
    && (s.passes != [] ==> s.passes[|s.passes| - 1].ema == s.emaMs && s.passes[|s.passes| - 1].start == s.lastMs &&
                           s.intervalMs == Capped(s.emaMs))
    && Bounded(s.passes)
  }

  lemma PassKeeps(s: State, now: real, end: real, again: bool)
    requires Inv(s) && now <= end && s.requested && s.RunsAt(now) && (s.passes != [] ==> s.lastMs <= now)
    ensures Inv(Step(s, Tick(now, end, again)))
  {
    var ps, ps' := s.passes, Step(s, Tick(now, end, again)).passes;
    var cost, ema := end - now, NewEma(s.emaMs, end - now);
    assert ps'[..|ps'| - 1] == ps;
    if ps != [] {
      assert BUDGET * (now - s.lastMs) >= s.emaMs - Excess(s.emaMs);
      assert s.emaMs > 0.0 ==> cost == 5.0 * ema - 4.0 * s.emaMs;
      assert Shortfall(ps') == Shortfall(ps) + Excess(s.emaMs);
    }
  }

  lemma {:induction false} RunKeeps(es: seq<Event>)
    requires Clocked(es)
    ensures Inv(Run(Boot(true, 0.0), es))
    decreases |es|
  {
    if es != [] {
      var s, e := Run(Boot(true, 0.0), es[..|es| - 1]), es[|es| - 1];
      RunKeeps(es[..|es| - 1]);
      if e.Tick? && s.requested && s.RunsAt(e.now) {
        LastIsPast(Boot(true, 0.0), es[..|es| - 1], e.now);
        PassKeeps(s, e.now, e.end, e.again);
      }
    }
  }

  /** The amortised budget of the dynamic cap, over every run: what the passes
      cost is at most a third of the time from the first start to the last, plus
      five times the current average, plus what the 33 ms cap gave away. */
  lemma AmortisedBudget(es: seq<Event>)
    requires Clocked(es) && Run(Boot(true, 0.0), es).passes != []
    ensures var ps := Run(Boot(true, 0.0), es).passes;
            Cost(ps) <= BUDGET * (ps[|ps| - 1].start - ps[0].start) + 5.0 * ps[|ps| - 1].ema + Shortfall(ps)
  {
    RunKeeps(es);
  }

  lemma {:induction false} NoShortfall(ps: seq<Pass>)
    requires forall i :: 0 <= i < |ps| - 1 ==> ps[i].ema <= BUDGET * MAX_INTERVAL
    ensures Shortfall(ps) == 0.0
    decreases |ps|
  {
    if |ps| > 1 {
      NoShortfall(ps[..|ps| - 1]);
    }
  }

  /** While the average stays within what the cap can pay for, the cap gives
      nothing away. */
  lemma BudgetBelowCap(es: seq<Event>)
    requires Clocked(es) && Run(Boot(true, 0.0), es).passes != []
    requires var ps := Run(Boot(true, 0.0), es).passes; forall i :: 0 <= i < |ps| - 1 ==> ps[i].ema <= BUDGET * MAX_INTERVAL
    ensures var ps := Run(Boot(true, 0.0), es).passes;
            Cost(ps) <= BUDGET * (ps[|ps| - 1].start - ps[0].start) + 5.0 * ps[|ps| - 1].ema
  {
    AmortisedBudget(es);
    NoShortfall(Run(Boot(true, 0.0), es).passes);
  }

  /** The cap's price is really paid: passes of 100 ms, each starting as the one
      before it ends. */
  function BackToBack(k: nat): seq<Event> {
    if k == 0 then [] else BackToBack(k - 1) + [Tick(100.0 * (k - 1) as real, 100.0 * k as real, true)]
  }

  lemma {:induction false} BackToBackClocked(k: nat)
    ensures Clocked(BackToBack(k)) && |BackToBack(k)| == k
    ensures EndedBy(BackToBack(k), 100.0 * k as real)
  {
    if k > 0 { BackToBackClocked(k - 1); }
  }

  lemma {:induction false} BackToBackPasses(k: nat)
    requires k > 0
    ensures var s := Run(Boot(true, 0.0), BackToBack(k));
            && s.dynamic && s.fixedMs == 0.0 && s.requested && s.emaMs == 100.0 && s.intervalMs == MAX_INTERVAL
            && s.lastMs == 100.0 * (k - 1) as real && s.passes != [] && s.passes[0].start == 0.0
            && s.passes[|s.passes| - 1] == Pass(s.lastMs, 100.0, 100.0) && Cost(s.passes) == 100.0 * k as real
  {
    var es := BackToBack(k);
    BackToBackClocked(k);
    assert es[..|es| - 1] == BackToBack(k - 1);
    var before := Run(Boot(true, 0.0), BackToBack(k - 1));
    var s := Run(Boot(true, 0.0), es);
    if k > 1 {
      BackToBackPasses(k - 1);
    }
    assert s.passes[..|s.passes| - 1] == before.passes;
  }

  /** Without the shortfall the bound is false, for every k from 7 on: k passes of
      100 ms cost 100 k, against 33 (k - 1) + 500. */
  lemma {:induction false} ShortfallIsNeeded(k: nat)
    requires k >= 7
    ensures Clocked(BackToBack(k))
    ensures var ps := Run(Boot(true, 0.0), BackToBack(k)).passes;
            ps != [] && Cost(ps) > BUDGET * (ps[|ps| - 1].start - ps[0].start) + 5.0 * ps[|ps| - 1].ema
  {
    BackToBackClocked(k);
    BackToBackPasses(k);
  }

  /** Start-to-start spacing is never below the interval in force, fixed or dynamic. */
  lemma {:induction false} StartsAreSpaced(dynamic: bool, fixedMs: real, es: seq<Event>, i: nat)
    requires Clocked(es) && (dynamic || fixedMs > 0.0) && 0 < i < |Run(Boot(dynamic, fixedMs), es).passes|
    ensures var ps := Run(Boot(dynamic, fixedMs), es).passes;
            ps[i].start - ps[i - 1].start >= if fixedMs > 0.0 then fixedMs else Capped(ps[i - 1].ema)
  {
    AlwaysRemembers(dynamic, fixedMs, es);
    ConfigKept(Boot(dynamic, fixedMs), es);
  }

  /** Ticks that leave a pending request waiting. */
  predicate AllEarly(s: State, es: seq<Event>) {
    forall i :: 0 <= i < |es| && es[i].Tick? ==> !s.RunsAt(es[i].now)
  }

  /** Deferred, never dropped: a pending request stays pending through any number
      of early ticks, nothing else changing, and the first tick that is not early
      runs it. */
  lemma {:induction false} DeferredNotDropped(s: State, es: seq<Event>, now: real, end: real, again: bool)
    requires s.requested && AllEarly(s, es) && s.RunsAt(now)
    ensures Run(s, es) == s
    ensures var s' := Run(s, es + [Tick(now, end, again)]);
            |s'.passes| == |s.passes| + 1 && s'.passes[|s.passes|].start == now && s'.requested == again
    decreases |es|
  {
    assert (es + [Tick(now, end, again)])[..|es|] == es;
    if es != [] {
      DeferredNotDropped(s, es[..|es| - 1], now, end, again);
    }
  }

  /** No tick is early once the interval in force has passed, in dynamic mode at most
      33 ms after the last pass. */
  lemma {:induction false} WaitsAtMostTheCap(dynamic: bool, fixedMs: real, es: seq<Event>, now: real)
    requires Clocked(es) && (dynamic || fixedMs > 0.0)
    requires now - Run(Boot(dynamic, fixedMs), es).lastMs >= if fixedMs > 0.0 then fixedMs else MAX_INTERVAL
    ensures Run(Boot(dynamic, fixedMs), es).RunsAt(now)
  {
    ConfigKept(Boot(dynamic, fixedMs), es);
    AlwaysRemembers(dynamic, fixedMs, es);
  }

  // ----- the average ------------------------------------------------------------------

  /** The first pass sets the average to its cost; every later one moves it a fifth of
      the way to its own, or all the way from an average of zero. */
  ghost predicate MovesByFifths(ps: seq<Pass>) {
    && (ps != [] ==> ps[0].ema == ps[0].cost)
    && (forall i, j :: 0 <= i < |ps| && 0 <= j < |ps| && j == i + 1 ==>
          5.0 * (ps[j].ema - ps[i].ema) == (if ps[i].ema > 0.0 then 1.0 else 5.0) * (ps[j].cost - ps[i].ema))
  }

  lemma FifthMore(s: State, now: real, end: real, again: bool)
    requires s.dynamic && s.requested && s.RunsAt(now) && now <= end && MovesByFifths(s.passes) && s.emaMs >= 0.0
    requires if s.passes == [] then s.emaMs == 0.0 else s.passes[|s.passes| - 1].ema == s.emaMs
    ensures MovesByFifths(Step(s, Tick(now, end, again)).passes)
  {
    var ps, ps' := s.passes, Step(s, Tick(now, end, again)).passes;
    assert forall i :: 0 <= i < |ps| ==> ps'[i] == ps[i];
  }

  lemma {:induction false} NoneYet(s: State, es: seq<Event>)
    requires s.passes == [] && s.emaMs == 0.0
    ensures Run(s, es).passes == [] ==> Run(s, es).emaMs == 0.0
    decreases |es|
  {
    if es != [] { NoneYet(s, es[..|es| - 1]); }
  }

  /** In every dynamic run the average follows the costs by fifths. */
  lemma {:induction false} AverageMovesByFifths(fixedMs: real, es: seq<Event>)
    requires Clocked(es)
    ensures MovesByFifths(Run(Boot(true, fixedMs), es).passes)
    decreases |es|
  {
    if es != [] {
      var most, e := es[..|es| - 1], es[|es| - 1];
      var s := Run(Boot(true, fixedMs), most);
      AverageMovesByFifths(fixedMs, most);
      AlwaysRemembers(true, fixedMs, most);
      ConfigKept(Boot(true, fixedMs), most);
      NoneYet(Boot(true, fixedMs), most);
      if e.Tick? && s.requested && s.RunsAt(e.now) { FifthMore(s, e.now, e.end, e.again); }
    }
  }

  function Power(b: real, n: nat): real { if n == 0 then 1.0 else b * Power(b, n - 1) }

  /** On a page of steady cost the average closes in on it, by a factor of 4/5 a pass. */
  lemma {:induction false} SteadyCostConverges(ps: seq<Pass>, j: nat, n: nat, cost: real)
    requires MovesByFifths(ps) && j + n < |ps| && cost > 0.0 && ps[j].ema > 0.0
    requires forall i :: j < i <= j + n ==> ps[i].cost == cost
    ensures Power(5.0, n) * (ps[j + n].ema - cost) == Power(4.0, n) * (ps[j].ema - cost) && ps[j + n].ema > 0.0
  {
    if n > 0 {
      SteadyCostConverges(ps, j, n - 1, cost);
      var before, after := ps[j + n - 1].ema - cost, ps[j + n].ema - cost;
      assert ps[j + n].cost == cost;
      assert 5.0 * after == 4.0 * before;
      PowerStep(Power(5.0, n - 1), Power(4.0, n - 1), before, after, ps[j].ema - cost);
    }
  }

  lemma PowerStep(fives: real, fours: real, before: real, after: real, start: real)
    requires fives * before == fours * start && 5.0 * after == 4.0 * before
    ensures (5.0 * fives) * after == (4.0 * fours) * start
  {
    assert (5.0 * fives) * after == fives * (5.0 * after) == fives * (4.0 * before) == 4.0 * (fives * before);
    assert 4.0 * (fours * start) == (4.0 * fours) * start;
  }

  /** The code of bib_tick's throttle. */
  class RenderThrottle {
    const dynamic: bool
    const fixedMs: real
    var emaMs: real
    var intervalMs: real
    var lastMs: real
    var requested: bool
    ghost var passes: seq<Pass>
    ghost var history: seq<Event>

    /** What happened so far, on a clock that never goes back, explains the globals. */
    ghost predicate Valid()
      reads this
    {
      Clocked(history) && View() == Run(Boot(dynamic, fixedMs), history)
    }

    ghost function View(): State
      reads this
    {
      State(dynamic, fixedMs, emaMs, intervalMs, lastMs, requested, passes)
    }

    constructor (dynamic: bool, fixedMs: real)
      ensures Valid() && requested && passes == [] && history == []
      ensures this.dynamic == dynamic && this.fixedMs == fixedMs
    {
      this.dynamic, this.fixedMs := dynamic, fixedMs;
      emaMs, intervalMs, lastMs, requested, passes, history := 0.0, 0.0, 0.0, true, [], [];
    }

    method ScheduleRenderingUpdate()
      requires Valid()
      modifies this
      ensures Valid() && requested && passes == old(passes) && history == old(history) + [Request]
    {
      RunOneMore(Boot(dynamic, fixedMs), history, Request);
      requested := true;
      history := history + [Request];
    }

    /** now and end are what the clock reads before and after the pass; again is
        whether the pass asked for another.  A pass runs if and only if one is asked
        for and the last one that ran lies the interval in force behind; otherwise
        the request stays.  Passes stay within the budget. */
    method RunUpdate(now: real, end: real, again: bool) returns (ran: bool)
      requires Valid() && now <= end && EndedBy(history, now)
      modifies this
      ensures Valid() && history == old(history) + [Tick(now, end, again)]
      ensures passes == if ran then old(passes) + [Pass(now, end - now, emaMs)] else old(passes)
      ensures requested == if ran then again else old(requested)
      ensures (dynamic || fixedMs > 0.0) && old(passes) != [] ==>
                (ran <==> old(requested) && now - old(passes)[|old(passes)| - 1].start >=
                                            InForce(fixedMs, old(passes)[|old(passes)| - 1]))
      ensures !dynamic && fixedMs <= 0.0 ==> ran == old(requested)
      ensures dynamic && fixedMs == 0.0 ==> Bounded(passes)
    {
      ghost var was := View();
      ran := requested && MayRun(now);
      if ran {
        RunPass(now, end, again);
      }
      TickSays(was, View(), history, now, end, again, ran);
      history := history + [Tick(now, end, again)];
    }

    method RunPass(now: real, end: real, again: bool)
      requires requested && MayRun(now)
      modifies this
      ensures View() == Step(old(View()), Tick(now, end, again)) && history == old(history)
    {
      requested := again;
      Measure(now, end);
      passes := passes + [Pass(now, end - now, emaMs)];
    }

    /** Whether the throttle lets a pass start now. */
    predicate MayRun(now: real)
      reads this
    {
      var interval := if fixedMs > 0.0 then fixedMs else intervalMs;
      !(dynamic || fixedMs > 0.0) || !(interval > 0.0 && now - lastMs < interval)
    }

    /** Start-to-start spacing, and the interval derived anew from what the pass cost. */
    method Measure(now: real, end: real)
      modifies this`lastMs, this`emaMs, this`intervalMs
      ensures View() == old(View()).(
                lastMs := if dynamic || fixedMs > 0.0 then now else old(lastMs),
                emaMs := if dynamic then NewEma(old(emaMs), end - now) else old(emaMs),
                intervalMs := if dynamic then Capped(emaMs) else old(intervalMs))
    {
      if dynamic || fixedMs > 0.0 {
        lastMs := now;
        if dynamic {
          var cost := end - now;
          emaMs := if emaMs > 0.0 then emaMs * (1.0 - ALPHA) + cost * ALPHA else cost;
          var iv := emaMs / BUDGET;
          intervalMs := if iv > MAX_INTERVAL then MAX_INTERVAL else iv;
        }
      }
    }
  }

  /** What one tick does to a throttle with a history. */
  lemma TickSays(s: State, s': State, es: seq<Event>, now: real, end: real, again: bool, ran: bool)
    requires Clocked(es) && now <= end && EndedBy(es, now) && s == Run(Boot(s.dynamic, s.fixedMs), es)
    requires s' == Step(s, Tick(now, end, again)) && ran == (s.requested && s.RunsAt(now))
    ensures Clocked(es + [Tick(now, end, again)])
    ensures s' == Run(Boot(s.dynamic, s.fixedMs), es + [Tick(now, end, again)])
    ensures s'.passes == if ran then s.passes + [Pass(now, end - now, s'.emaMs)] else s.passes
    ensures s'.requested == if ran then again else s.requested
    ensures s.Throttling() && s.passes != [] ==>
              var last := s.passes[|s.passes| - 1];
              ran <==> s.requested && now - last.start >= InForce(s.fixedMs, last)
    ensures s.dynamic && s.fixedMs == 0.0 ==> Bounded(s'.passes)
  {
    var tick := Tick(now, end, again);
    RunOneMore(Boot(s.dynamic, s.fixedMs), es, tick);
    if s.Throttling() {
      Explained(s.dynamic, s.fixedMs, es, now);
    }
    if s.dynamic && s.fixedMs == 0.0 {
      RunKeeps(es + [tick]);
    }
  }

  lemma RunOneMore(s: State, es: seq<Event>, e: Event)
    ensures Run(s, es + [e]) == Step(Run(s, es), e)
    ensures Clocked(es) && (e.Tick? ==> e.now <= e.end && EndedBy(es, e.now)) ==> Clocked(es + [e])
  {
    assert (es + [e])[..|es|] == es;
  }

  /** The last pass, as the globals remember it when a tick reads the clock. */
  lemma Explained(dynamic: bool, fixedMs: real, es: seq<Event>, now: real)
    requires Clocked(es) && EndedBy(es, now) && (dynamic || fixedMs > 0.0)
    ensures var s := Run(Boot(dynamic, fixedMs), es); Remembers(s) && (s.passes != [] ==> s.lastMs <= now)
  {
    AlwaysRemembers(dynamic, fixedMs, es);
    LastIsPast(Boot(dynamic, fixedMs), es, now);
  }
}
