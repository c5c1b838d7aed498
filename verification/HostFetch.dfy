/** The page's side of the network bridge: what one fetch makes the host post for a
    request id, with cancellation possible at every await. */
module HostFetch {
  import opened Basics
  import opened ResourceLoad
  import opened LoadExact
  import opened Network

  const SLICE: nat := 65536

  /** What the fetch comes to: it rejects; the proxy reports an error; or a reply,
      whose body arrives in chunks and then ends or breaks. */
  datatype Fetch =
    | Rejects
    | ProxyError
    | Reply(parses: bool, status: int, location: bool, httpFamily: bool, chunks: seq<seq<Byte>>, breaks: bool)

  predicate IsRedirect(f: Fetch) { f.Reply? && 300 <= f.status < 400 && f.location }

  // ----- what is promised ------------------------------------------------------------

  /** The messages are ones a request may get, in that order, starting in phase ph. */
  predicate InOrder(ph: Phase, msgs: seq<Msg>)
    decreases |msgs|
  {
    msgs == [] || (Legal(ph, msgs[0]) && InOrder(After(ph, msgs[0]), msgs[1..]))
  }

  /** The phase the request is in after them. */
  function PhaseAfter(ph: Phase, msgs: seq<Msg>): Phase
    decreases |msgs|
  {
    if msgs == [] then ph else PhaseAfter(After(ph, msgs[0]), msgs[1..])
  }

  /** The body bytes they carry. */
  function Body(msgs: seq<Msg>): seq<Byte>
    decreases |msgs|
  {
    if msgs == [] then []
    else
      var last := msgs[|msgs| - 1];
      Body(msgs[..|msgs| - 1]) + if last.Data? then last.bytes else []
  }

  function Joined(chunks: seq<seq<Byte>>): seq<Byte>
    decreases |chunks|
  {
    if chunks == [] then [] else Joined(chunks[..|chunks| - 1]) + chunks[|chunks| - 1]
  }

  ghost predicate Sliced(msgs: seq<Msg>) {
    forall k :: 0 <= k < |msgs| && msgs[k].Data? ==> 0 < |msgs[k].bytes| <= SLICE
  }

  lemma {:induction false} OneMore(ph: Phase, msgs: seq<Msg>, m: Msg)
    ensures InOrder(ph, msgs + [m]) <==> InOrder(ph, msgs) && Legal(PhaseAfter(ph, msgs), m)
    ensures PhaseAfter(ph, msgs + [m]) == After(PhaseAfter(ph, msgs), m)
    decreases |msgs|
  {
    if msgs == [] {
      assert [] + [m] == [m];
    } else {
      OneMore(After(ph, msgs[0]), msgs[1..], m);
      assert (msgs + [m])[1..] == msgs[1..] + [m];
    }
  }

  lemma BodyMore(msgs: seq<Msg>, m: Msg)
    ensures Body(msgs + [m]) == Body(msgs) + if m.Data? then m.bytes else []
  {
    assert (msgs + [m])[..|msgs|] == msgs;
  }

  lemma JoinedMore(chunks: seq<seq<Byte>>, i: nat)
    requires i < |chunks|
    ensures Joined(chunks[..i + 1]) == Joined(chunks[..i]) + chunks[i]
  {
    assert chunks[..i + 1][..i] == chunks[..i];
  }

  lemma SliceMore(a: seq<Byte>, chunk: seq<Byte>, i: nat, j: nat)
    requires i <= j <= |chunk|
    ensures a + chunk[..i] + chunk[i..j] == a + chunk[..j]
  {
  }

  lemma {:induction false} JoinedPrefix(chunks: seq<seq<Byte>>, i: nat)
    requires i <= |chunks|
    ensures Joined(chunks[..i]) <= Joined(chunks)
    decreases |chunks| - i
  {
    if i == |chunks| {
      assert chunks[..i] == chunks;
    } else {
      JoinedMore(chunks, i);
      JoinedPrefix(chunks, i + 1);
    }
  }

  /** What one fetch may post: messages in order, carrying a first part of the body;
      done only with all of it; a redirect alone, and only for a redirect. */
  ghost predicate Posts(f: Fetch, msgs: seq<Msg>) {
    && InOrder(Sent, msgs)
    && Body(msgs) <= (if f.Reply? && !IsRedirect(f) then Joined(f.chunks) else [])
    && (Done in msgs ==> f.Reply? && !IsRedirect(f) && !f.breaks && Body(msgs) == Joined(f.chunks))
    && (forall m :: m in msgs && m.Redirect? ==>
          IsRedirect(f) && m == Redirect(f.parses, f.status, f.location, f.httpFamily))
  }

  /** All that a fetch posts when nobody cancels it. */
  ghost predicate Whole(f: Fetch, msgs: seq<Msg>) {
    if !f.Reply? then msgs == [Fail]
    else if IsRedirect(f) then msgs == [Redirect(f.parses, f.status, f.location, f.httpFamily)]
    else
      && |msgs| > 1 && msgs[0] == Response(f.parses) && Body(msgs) == Joined(f.chunks)
      && msgs[|msgs| - 1] == if f.breaks then Fail else Done
  }

  /** What it has posted when it is cancelled during await number cancelAt: the response
      and every chunk read before, and no end. */
  ghost predicate CutOff(f: Fetch, msgs: seq<Msg>, cancelAt: nat) {
    if cancelAt == 0 then msgs == []
    else
      && f.Reply? && cancelAt - 1 <= |f.chunks|
      && msgs != [] && msgs[0] == Response(f.parses) && Body(msgs) == Joined(f.chunks[..cancelAt - 1])
      && PhaseAfter(Sent, msgs) == Streaming
  }

  /** The requests in flight by id. */
  class Host {
    var inflight: set<nat>

    constructor ()
      ensures inflight == {}
    {
      inflight := {};
    }

    /** An await: the id is cancelled while it lasts, or not. */
    method Await(id: nat, cancelled: bool)
      modifies this`inflight
      ensures inflight == if cancelled then old(inflight) - {id} else old(inflight)
    {
      if cancelled {
        inflight := inflight - {id};
      }
    }

    /** begin.  Await number cancelAt is the one during which bibNetCancel comes:
        the fetch is 0, the reads follow. */
    method Begin(id: nat, f: Fetch, cancelAt: nat) returns (msgs: seq<Msg>)
      modifies this`inflight
      ensures inflight == old(inflight) - {id}
      ensures Posts(f, msgs) && Sliced(msgs)
      ensures cancelAt > Reads(f) ==> Whole(f, msgs) && PhaseAfter(Sent, msgs) == Closed
      ensures cancelAt <= Reads(f) && !f.Rejects? ==> CutOff(f, msgs, cancelAt)
    {
      inflight := inflight + {id};
      Await(id, cancelAt == 0);
      msgs := [];
      if f.Rejects? {
        msgs := [Fail];
        inflight := inflight - {id};
      } else if id in inflight {
        if f.ProxyError? {
          msgs := [Fail];
          inflight := inflight - {id};
        } else if IsRedirect(f) {
          inflight := inflight - {id};
          msgs := [Redirect(f.parses, f.status, f.location, f.httpFamily)];
        } else {
          msgs := Stream(id, f, cancelAt);
        }
      }
    }

    /** The response, and the body as it is read. */
    method Stream(id: nat, f: Fetch, cancelAt: nat) returns (msgs: seq<Msg>)
      requires f.Reply? && !IsRedirect(f) && id in inflight
      modifies this`inflight
      ensures inflight == old(inflight) - {id}
      ensures Posts(f, msgs) && Sliced(msgs)
      ensures cancelAt == 0 || cancelAt > Reads(f) ==> Whole(f, msgs) && PhaseAfter(Sent, msgs) == Closed
      ensures 0 < cancelAt <= Reads(f) ==> CutOff(f, msgs, cancelAt)
    {
      msgs := [Response(f.parses)];
      for i := 0 to |f.chunks|
        invariant inflight == old(inflight)
        invariant Streams(msgs) && Body(msgs) == Joined(f.chunks[..i])
        invariant msgs[0] == Response(f.parses) && !(0 < cancelAt <= i)
      {
        Await(id, cancelAt == i + 1);
        if id !in inflight {
          CutStream(f, msgs, i);
          return;
        }
        msgs := PostSlices(msgs, f.chunks[i]);
        JoinedMore(f.chunks, i);
      }
      assert f.chunks[..|f.chunks|] == f.chunks;
      Await(id, cancelAt == |f.chunks| + 1);
      if id in inflight {
        inflight := inflight - {id};
        EndedStream(f, msgs, if f.breaks then Fail else Done);
        msgs := msgs + [if f.breaks then Fail else Done];
      } else {
        CutStream(f, msgs, |f.chunks|);
      }
    }

    /** One chunk in slices of at most SLICE bytes. */
    static method PostSlices(msgs: seq<Msg>, chunk: seq<Byte>) returns (msgs': seq<Msg>)
      requires Streams(msgs)
      ensures Streams(msgs') && Body(msgs') == Body(msgs) + chunk && msgs <= msgs'
    {
      msgs' := msgs;
      var off := 0;
      while off < |chunk|
        invariant off <= |chunk| && Streams(msgs') && Body(msgs') == Body(msgs) + chunk[..off] && msgs <= msgs'
      {
        var end := if off + SLICE < |chunk| then off + SLICE else |chunk|;
        var m := Data(chunk[off..end]);
        OneMore(Sent, msgs', m);
        BodyMore(msgs', m);
        SliceMore(Body(msgs), chunk, off, end);
        msgs' := msgs' + [m];
        off := end;
      }
      assert chunk[..|chunk|] == chunk;
    }
  }

  /** A response and slices of body so far. */
  ghost predicate Streams(msgs: seq<Msg>) {
    msgs != [] && InOrder(Sent, msgs) && PhaseAfter(Sent, msgs) == Streaming && Sliced(msgs)
    && forall m :: m in msgs ==> m.Response? || m.Data?
  }

  lemma CutStream(f: Fetch, msgs: seq<Msg>, i: nat)
    requires f.Reply? && !IsRedirect(f) && i <= |f.chunks| && Streams(msgs)
    requires msgs[0] == Response(f.parses) && Body(msgs) == Joined(f.chunks[..i])
    ensures Posts(f, msgs) && Sliced(msgs) && CutOff(f, msgs, i + 1)
  {
    JoinedPrefix(f.chunks, i);
  }

  lemma EndedStream(f: Fetch, msgs: seq<Msg>, last: Msg)
    requires f.Reply? && !IsRedirect(f) && Streams(msgs) && last == if f.breaks then Fail else Done
    requires msgs[0] == Response(f.parses) && Body(msgs) == Joined(f.chunks)
    ensures Posts(f, msgs + [last]) && Sliced(msgs + [last]) && Whole(f, msgs + [last])
    ensures PhaseAfter(Sent, msgs + [last]) == Closed
  {
    OneMore(Sent, msgs, last);
    BodyMore(msgs, last);
  }

  /** The reads a fetch makes: one per chunk, and the one that ends or breaks it. */
  function Reads(f: Fetch): nat { if f.Reply? && !IsRedirect(f) then |f.chunks| + 1 else 0 }

  // ----- orderly runs are interleavings of such fetches ---------------------------------

  /** The messages a run brings for one id. */
  function Said(evs: seq<NetEvent>, id: nat): seq<Msg>
    decreases |evs|
  {
    if evs == [] then []
    else
      var e := evs[|evs| - 1];
      if e.Says? && e.id == id then Said(evs[..|evs| - 1], id) + [e.m] else Said(evs[..|evs| - 1], id)
  }

  /** No message comes for a request before it is begun. */
  predicate OnlyBegun(evs: seq<NetEvent>)
    decreases |evs|
  {
    evs == [] ||
    (OnlyBegun(evs[..|evs| - 1]) &&
     (evs[|evs| - 1].Says? ==> 0 < evs[|evs| - 1].id <= NetRun(evs[..|evs| - 1]).b.lastId))
  }

  lemma {:induction false} PhaseIsSaid(evs: seq<NetEvent>, id: nat)
    ensures PhaseOf(NetRun(evs).phases, id) == PhaseAfter(Sent, Said(evs, id))
    decreases |evs|
  {
    if evs != [] {
      var most, e := evs[..|evs| - 1], evs[|evs| - 1];
      PhaseIsSaid(most, id);
      if e.Says? {
        OneMore(Sent, Said(most, id), e.m);
      }
    }
  }

  /** Every request gets the messages of one fetch, in order. */
  ghost predicate EachInOrder(evs: seq<NetEvent>) {
    forall id: nat :: InOrder(Sent, Said(evs, id))
  }

  lemma EachInOrderMore(evs: seq<NetEvent>, most: seq<NetEvent>, e: NetEvent)
    requires evs != [] && most == evs[..|evs| - 1] && e == evs[|evs| - 1]
    ensures EachInOrder(evs) <==>
            EachInOrder(most) && (e.Says? ==> Legal(PhaseOf(NetRun(most).phases, e.id), e.m))
  {
    forall id: nat
      ensures InOrder(Sent, Said(evs, id)) <==>
              InOrder(Sent, Said(most, id)) && (e.Says? && e.id == id ==> Legal(PhaseOf(NetRun(most).phases, id), e.m))
    {
      PhaseIsSaid(most, id);
      if e.Says? {
        OneMore(Sent, Said(most, id), e.m);
      }
    }
    if e.Says? && EachInOrder(evs) {
      assert InOrder(Sent, Said(evs, e.id));
    }
  }

  /** A run is orderly exactly when it brings, for every request, the messages of
      one fetch in order, however the requests interleave. */
  lemma {:induction false} OrderlyIsPerRequest(evs: seq<NetEvent>)
    ensures OrderlyRun(evs) <==> OnlyBegun(evs) && EachInOrder(evs)
    decreases |evs|
  {
    if evs != [] {
      var most := evs[..|evs| - 1];
      OrderlyIsPerRequest(most);
      EachInOrderMore(evs, most, evs[|evs| - 1]);
    }
  }
}
