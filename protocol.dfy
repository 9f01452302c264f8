/** The op-iteration protocol of a trial's searcher, as the sequence of
    observable steps each process takes. The chief fetches ops from the master,
    broadcasts each length to the workers, hands the op to the training code
    and insists that the op is completed before it fetches the next one; the
    workers turn the broadcast lengths back into ops. The generators are
    described by what they were given (the master's replies, the values
    received, whether each yielded op had been completed when the generator
    was resumed) and what they did (the trace) and how they ended. */
module Protocol {
  import opened Wrappers

  /** The master's answer to one request for the next operation. */
  datatype MasterReply = NextOp(length: nat) | OutOfOps

  /** One observable step of the iteration. */
  datatype Step =
    | Fetch                          // GET the next searcher operation
    | Broadcast(value: Option<int>)  // chief sends a length, or None for "no more"
    | Receive(value: Option<int>)    // worker receives the chief's broadcast
    | Yield(length: int, chief: bool) // an op of this length is handed to the caller
    | Ack                            // POST ack_preemption: acknowledge being out of ops

  datatype OpsError =
    | OpNotCompleted        // the caller resumed without completing the yielded op
    | ChiefOnlyOnWorker     // ops(chief_only=True) called on a non-chief worker

  /** How the iteration ended: it ran out of ops, it raised, or it is still
      suspended (waiting for a reply, a broadcast or the caller) when the
      inputs given run out. */
  datatype Outcome = Finished | Raised(error: OpsError) | Suspended

  datatype Run = Run(trace: seq<Step>, outcome: Outcome)

  /** The steps `done` followed by the run `r`. */
  function Then(done: seq<Step>, r: Run): Run
  {
    Run(done + r.trace, r.outcome)
  }

  lemma ThenThen(a: seq<Step>, b: seq<Step>, r: Run)
    ensures Then(a, Then(b, r)) == Then(a + b, r)
  {
    assert a + (b + r.trace) == (a + b) + r.trace;
  }

  /** `op and op.length`: the value the chief broadcasts for a reply. */
  function Announced(reply: MasterReply): (v: Option<int>)
    ensures v.None? <==> reply.OutOfOps?
    ensures reply.NextOp? ==> v == Some(reply.length)
  {
    match reply
    case NextOp(n) => Some(n)
    case OutOfOps => None
  }

  /** The chief's broadcast for a reply, unless chief_only. */
  function Announce(reply: MasterReply, chiefOnly: bool): seq<Step>
  {
    if chiefOnly then [] else [Broadcast(Announced(reply))]
  }

  /** The steps of a turn of the chief's loop on an op of length `n`. */
  function OpTurn(n: nat, chiefOnly: bool): seq<Step>
  {
    [Fetch] + Announce(NextOp(n), chiefOnly) + [Yield(n, true)]
  }

  /** The steps of the last turn, when the master is out of ops. */
  function EndTurn(chiefOnly: bool, autoAck: bool): seq<Step>
  {
    [Fetch] + Announce(OutOfOps, chiefOnly) + (if autoAck then [Ack] else [])
  }

  /** The chief's iteration. `replies` are the master's answers to successive
      fetches; `resumed[k]` says whether the k-th yielded op was completed when
      the caller came back for the next one. */
  function ChiefRun(replies: seq<MasterReply>, resumed: seq<bool>, chiefOnly: bool, autoAck: bool): Run
    decreases replies
  {
    if replies == [] then Run([], Suspended)
    else match replies[0]
      case OutOfOps => Run(EndTurn(chiefOnly, autoAck), Finished)
      case NextOp(n) =>
        if resumed == [] then Run(OpTurn(n, chiefOnly), Suspended)
        else if !resumed[0] then Run(OpTurn(n, chiefOnly), Raised(OpNotCompleted))
        else Then(OpTurn(n, chiefOnly), ChiefRun(replies[1..], resumed[1..], chiefOnly, autoAck))
  }

  /** One turn of the chief's loop, read off at the i-th reply. */
  lemma ChiefRunAt(replies: seq<MasterReply>, resumed: seq<bool>, i: nat, chiefOnly: bool, autoAck: bool)
    requires i < |replies| && i <= |resumed|
    ensures var r := ChiefRun(replies[i..], resumed[i..], chiefOnly, autoAck);
            if replies[i].OutOfOps? then r == Run(EndTurn(chiefOnly, autoAck), Finished)
            else
              var head := OpTurn(replies[i].length, chiefOnly);
              if i == |resumed| then r == Run(head, Suspended)
              else if !resumed[i] then r == Run(head, Raised(OpNotCompleted))
              else r == Then(head, ChiefRun(replies[i + 1..], resumed[i + 1..], chiefOnly, autoAck))
  {
    assert replies[i..][0] == replies[i] && replies[i..][1..] == replies[i + 1..];
    if i < |resumed| {
      assert resumed[i..][0] == resumed[i] && resumed[i..][1..] == resumed[i + 1..];
    }
  }

  /** The loop a worker runs: receive, stop at None, otherwise yield a
      non-chief op of the received length. */
  function WorkerLoop(received: seq<Option<int>>): (r: Run)
    decreases received
  {
    if received == [] then Run([], Suspended)
    else match received[0]
      case None => Run([Receive(None)], Finished)
      case Some(n) =>
        var rest := WorkerLoop(received[1..]);
        Run([Receive(Some(n)), Yield(n, false)] + rest.trace, rest.outcome)
  }

  /** A worker's iteration: refused outright under chief_only. */
  function WorkerRun(received: seq<Option<int>>, chiefOnly: bool): (r: Run)
    ensures chiefOnly ==> r == Run([], Raised(ChiefOnlyOnWorker))
    ensures !chiefOnly ==> r == WorkerLoop(received)
  {
    if chiefOnly then Run([], Raised(ChiefOnlyOnWorker)) else WorkerLoop(received)
  }

  /** The dummy searcher's chief: one made-up op of the configured length;
      its length is broadcast before it is yielded and None only after it was
      completed; nothing is ever fetched or acknowledged. */
  function DummyChiefRun(length: int, resumed: seq<bool>, chiefOnly: bool): (r: Run)
    ensures Yields(r.trace) == [length]
    ensures Count(r.trace, Ack) == 0 && Count(r.trace, Fetch) == 0
    ensures r.outcome.Finished? <==> |resumed| > 0 && resumed[0]
    ensures r.outcome.Raised? <==> |resumed| > 0 && !resumed[0]
    ensures Broadcasts(r.trace) ==
              if chiefOnly then []
              else [Some(length)] + (if r.outcome.Finished? then [None] else [])
    ensures !chiefOnly ==> |r.trace| >= 2 && r.trace[0] == Broadcast(Some(length)) && r.trace[1] == Yield(length, true)
    ensures chiefOnly ==> |r.trace| >= 1 && r.trace[0] == Yield(length, true)
    ensures r.outcome.Finished? && !chiefOnly ==> r.trace[|r.trace| - 1] == Broadcast(None)
  {
    var announce := if chiefOnly then [] else [Broadcast(Some(length))];
    var head := announce + [Yield(length, true)];
    YieldsAppend(announce, [Yield(length, true)]);
    BroadcastsAppend(announce, [Yield(length, true)]);
    CountAppend(announce, [Yield(length, true)], Ack);
    CountAppend(announce, [Yield(length, true)], Fetch);
    if resumed == [] then Run(head, Suspended)
    else if !resumed[0] then Run(head, Raised(OpNotCompleted))
    else
      var tail := if chiefOnly then [] else [Broadcast(None)];
      YieldsAppend(head, tail);
      BroadcastsAppend(head, tail);
      CountAppend(head, tail, Ack);
      CountAppend(head, tail, Fetch);
      Run(head + tail, Finished)
  }

  // ---------------------------------------------------------------------------
  // Views of a trace

  /** The lengths of the ops yielded, in order. */
  function Yields(trace: seq<Step>): seq<int>
  {
    if trace == [] then []
    else (if trace[0].Yield? then [trace[0].length] else []) + Yields(trace[1..])
  }

  /** The values broadcast, in order. */
  function Broadcasts(trace: seq<Step>): seq<Option<int>>
  {
    if trace == [] then []
    else (if trace[0].Broadcast? then [trace[0].value] else []) + Broadcasts(trace[1..])
  }

  function Count(trace: seq<Step>, s: Step): nat
  {
    if trace == [] then 0
    else (if trace[0] == s then 1 else 0) + Count(trace[1..], s)
  }

  /** The lengths the master offers before its first "out of ops". */
  function Offered(replies: seq<MasterReply>): seq<nat>
  {
    if replies == [] || replies[0].OutOfOps? then []
    else [replies[0].length] + Offered(replies[1..])
  }

  /** The lengths broadcast before the first None. */
  function Announcements(received: seq<Option<int>>): seq<int>
  {
    if received == [] || received[0].None? then []
    else [received[0].value] + Announcements(received[1..])
  }

  function Somes(ns: seq<int>): (r: seq<Option<int>>)
    ensures |r| == |ns|
  {
    if ns == [] then [] else [Some(ns[0])] + Somes(ns[1..])
  }

  lemma {:induction false} YieldsAppend(a: seq<Step>, b: seq<Step>)
    ensures Yields(a + b) == Yields(a) + Yields(b)
  {
    if a != [] {
      assert (a + b)[0] == a[0];
      assert (a + b)[1..] == a[1..] + b;
      YieldsAppend(a[1..], b);
    } else {
      assert a + b == b;
    }
  }

  lemma {:induction false} BroadcastsAppend(a: seq<Step>, b: seq<Step>)
    ensures Broadcasts(a + b) == Broadcasts(a) + Broadcasts(b)
  {
    if a != [] {
      assert (a + b)[0] == a[0];
      assert (a + b)[1..] == a[1..] + b;
      BroadcastsAppend(a[1..], b);
    } else {
      assert a + b == b;
    }
  }

  lemma {:induction false} CountAppend(a: seq<Step>, b: seq<Step>, s: Step)
    ensures Count(a + b, s) == Count(a, s) + Count(b, s)
  {
    if a != [] {
      assert (a + b)[0] == a[0];
      assert (a + b)[1..] == a[1..] + b;
      CountAppend(a[1..], b, s);
    } else {
      assert a + b == b;
    }
  }

  // ---------------------------------------------------------------------------
  // The chief

  /** What one turn on an op contributes to each view of the trace. */
  lemma OpTurnViews(n: nat, chiefOnly: bool)
    ensures var t := OpTurn(n, chiefOnly);
            Yields(t) == [n] &&
            Broadcasts(t) == (if chiefOnly then [] else [Some(n)]) &&
            Count(t, Fetch) == 1 && Count(t, Ack) == 0
  {
    var announce := Announce(NextOp(n), chiefOnly);
    ViewsAppend([Fetch] + announce, [Yield(n, true)]);
    ViewsAppend([Fetch], announce);
    SingleStepViews(Fetch);
    SingleStepViews(Yield(n, true));
    if !chiefOnly { SingleStepViews(Broadcast(Some(n))); }
  }

  /** A turn on an op ends with its yield, right after its announcement. */
  lemma OpTurnShape(n: nat, chiefOnly: bool)
    ensures var t := OpTurn(n, chiefOnly);
            |t| >= 2 && t[|t| - 1] == Yield(n, true) &&
            t[|t| - 2] == (if chiefOnly then Fetch else Broadcast(Some(n))) &&
            forall i :: 0 <= i < |t| - 1 ==> !t[i].Yield?
  {
    if chiefOnly {
      assert OpTurn(n, chiefOnly) == [Fetch, Yield(n, true)];
    } else {
      assert OpTurn(n, chiefOnly) == [Fetch, Broadcast(Some(n)), Yield(n, true)];
    }
  }

  /** What the last turn contributes to each view of the trace. */
  lemma EndTurnViews(chiefOnly: bool, autoAck: bool)
    ensures var t := EndTurn(chiefOnly, autoAck);
            Yields(t) == [] &&
            Broadcasts(t) == (if chiefOnly then [] else [None]) &&
            Count(t, Ack) == (if autoAck then 1 else 0)
  {
    SingleStepViews(Fetch);
    SingleStepViews(Ack);
    SingleStepViews(Broadcast(None));
    var t := EndTurn(chiefOnly, autoAck);
    if chiefOnly && autoAck {
      assert t == [Fetch] + [Ack];
      ViewsAppend([Fetch], [Ack]);
    } else if chiefOnly {
      assert t == [Fetch];
    } else if autoAck {
      assert t == ([Fetch] + [Broadcast(None)]) + [Ack];
      ViewsAppend([Fetch] + [Broadcast(None)], [Ack]);
      ViewsAppend([Fetch], [Broadcast(None)]);
    } else {
      assert t == [Fetch] + [Broadcast(None)];
      ViewsAppend([Fetch], [Broadcast(None)]);
    }
  }

  lemma EndTurnFetches(chiefOnly: bool, autoAck: bool)
    ensures Count(EndTurn(chiefOnly, autoAck), Fetch) == 1
  {
    var announce := Announce(OutOfOps, chiefOnly);
    ViewsAppend([Fetch] + announce, if autoAck then [Ack] else []);
    ViewsAppend([Fetch], announce);
    SingleStepViews(Fetch);
    SingleStepViews(Ack);
    SingleStepViews(Broadcast(None));
  }

  /** The last turn yields nothing, and with auto_ack ends with the
      acknowledgement right after the final announcement. */
  lemma EndTurnShape(chiefOnly: bool, autoAck: bool)
    ensures var t := EndTurn(chiefOnly, autoAck);
            (autoAck ==> |t| >= 2 && t[|t| - 1] == Ack &&
                         t[|t| - 2] == (if chiefOnly then Fetch else Broadcast(None))) &&
            forall i :: 0 <= i < |t| ==> !t[i].Yield?
  {
    var t := EndTurn(chiefOnly, autoAck);
    if chiefOnly {
      assert t == if autoAck then [Fetch, Ack] else [Fetch];
    } else {
      assert t == if autoAck then [Fetch, Broadcast(None), Ack] else [Fetch, Broadcast(None)];
    }
  }

  lemma SingleStepViews(s: Step)
    ensures Yields([s]) == (if s.Yield? then [s.length] else [])
    ensures Broadcasts([s]) == (if s.Broadcast? then [s.value] else [])
    ensures Count([s], Fetch) == (if s == Fetch then 1 else 0)
    ensures Count([s], Ack) == (if s == Ack then 1 else 0)
  {
    assert [s][1..] == [];
  }

  lemma ViewsAppend(a: seq<Step>, b: seq<Step>)
    ensures Yields(a + b) == Yields(a) + Yields(b)
    ensures Broadcasts(a + b) == Broadcasts(a) + Broadcasts(b)
    ensures Count(a + b, Fetch) == Count(a, Fetch) + Count(b, Fetch)
    ensures Count(a + b, Ack) == Count(a, Ack) + Count(b, Ack)
  {
    YieldsAppend(a, b);
    BroadcastsAppend(a, b);
    CountAppend(a, b, Fetch);
    CountAppend(a, b, Ack);
  }

  /** Ops are yielded in the order the master supplies them and never beyond
      its first "out of ops"; when the iteration finishes, every offered op
      has been yielded. */
  lemma {:induction false} ChiefYieldsOfferedOps(replies: seq<MasterReply>, resumed: seq<bool>, chiefOnly: bool, autoAck: bool)
    ensures var r := ChiefRun(replies, resumed, chiefOnly, autoAck);
            Yields(r.trace) <= Offered(replies) &&
            (r.outcome.Finished? ==> Yields(r.trace) == Offered(replies))
    decreases replies
  {
    if replies != [] {
      match replies[0]
      case OutOfOps =>
        EndTurnViews(chiefOnly, autoAck);
      case NextOp(n) =>
        OpTurnViews(n, chiefOnly);
        assert Offered(replies) == [n] + Offered(replies[1..]);
        if resumed != [] && resumed[0] {
          var rest := ChiefRun(replies[1..], resumed[1..], chiefOnly, autoAck);
          ChiefYieldsOfferedOps(replies[1..], resumed[1..], chiefOnly, autoAck);
          YieldsAppend(OpTurn(n, chiefOnly), rest.trace);
        }
    }
  }

  /** The first `n` yielded ops were all completed by the caller. */
  ghost predicate CompletedFirst(resumed: seq<bool>, n: nat)
  {
    n <= |resumed| && forall k :: 0 <= k < n ==> resumed[k]
  }

  /** The iteration finishes exactly when the master ran out of ops and every
      op it offered before that was completed. */
  lemma {:induction false} ChiefFinishesIff(replies: seq<MasterReply>, resumed: seq<bool>, chiefOnly: bool, autoAck: bool)
    ensures ChiefRun(replies, resumed, chiefOnly, autoAck).outcome.Finished? <==>
              OutOfOps in replies && CompletedFirst(resumed, |Offered(replies)|)
    decreases replies
  {
    if replies != [] && replies[0].NextOp? {
      assert Offered(replies) == [replies[0].length] + Offered(replies[1..]);
      assert OutOfOps in replies <==> OutOfOps in replies[1..] by {
        assert replies == [replies[0]] + replies[1..];
      }
      if resumed != [] && resumed[0] {
        ChiefFinishesIff(replies[1..], resumed[1..], chiefOnly, autoAck);
        var m := |Offered(replies[1..])|;
        if CompletedFirst(resumed, m + 1) {
          forall k | 0 <= k < m ensures resumed[1..][k] {
            assert resumed[k + 1];
          }
        }
        if CompletedFirst(resumed[1..], m) {
          forall k | 0 <= k < m + 1 ensures resumed[k] {
            if k > 0 { assert resumed[1..][k - 1]; }
          }
        }
      }
    }
  }

  /** Unless chief_only, what is broadcast is exactly the length of every op
      yielded, in order, followed by one None when (and only when) the
      iteration finishes; under chief_only nothing is broadcast. */
  lemma {:induction false} ChiefBroadcasts(replies: seq<MasterReply>, resumed: seq<bool>, chiefOnly: bool, autoAck: bool)
    ensures var r := ChiefRun(replies, resumed, chiefOnly, autoAck);
            Broadcasts(r.trace) ==
              if chiefOnly then []
              else Somes(Yields(r.trace)) + (if r.outcome.Finished? then [None] else [])
    decreases replies
  {
    if replies != [] {
      match replies[0]
      case OutOfOps =>
        EndTurnViews(chiefOnly, autoAck);
      case NextOp(n) =>
        OpTurnViews(n, chiefOnly);
        if resumed != [] && resumed[0] {
          var rest := ChiefRun(replies[1..], resumed[1..], chiefOnly, autoAck);
          ChiefBroadcasts(replies[1..], resumed[1..], chiefOnly, autoAck);
          YieldsAppend(OpTurn(n, chiefOnly), rest.trace);
          BroadcastsAppend(OpTurn(n, chiefOnly), rest.trace);
        }
    }
  }

  /** Every yield in `t` is of a chief op and comes right after the
      broadcast of its length (right after its fetch under chief_only). */
  ghost predicate YieldsAnnounced(t: seq<Step>, chiefOnly: bool)
  {
    forall i :: 0 <= i < |t| && t[i].Yield? ==>
      t[i].chief && 0 < i &&
      t[i - 1] == (if chiefOnly then Fetch else Broadcast(Some(t[i].length)))
  }

  /** Each op's length is broadcast immediately before the op is yielded
      (unless chief_only, where the yield follows its fetch directly). */
  lemma {:induction false} ChiefBroadcastsBeforeYield(replies: seq<MasterReply>, resumed: seq<bool>, chiefOnly: bool, autoAck: bool)
    ensures YieldsAnnounced(ChiefRun(replies, resumed, chiefOnly, autoAck).trace, chiefOnly)
    decreases replies
  {
    if replies != [] {
      match replies[0]
      case OutOfOps =>
        EndTurnShape(chiefOnly, autoAck);
      case NextOp(n) =>
        var head := OpTurn(n, chiefOnly);
        OpTurnShape(n, chiefOnly);
        if resumed != [] && resumed[0] {
          var rest := ChiefRun(replies[1..], resumed[1..], chiefOnly, autoAck);
          ChiefBroadcastsBeforeYield(replies[1..], resumed[1..], chiefOnly, autoAck);
          var t := head + rest.trace;
          assert YieldsAnnounced(rest.trace, chiefOnly);
          forall i | 0 <= i < |t| && t[i].Yield?
            ensures t[i].chief && 0 < i && t[i - 1] == (if chiefOnly then Fetch else Broadcast(Some(t[i].length)))
          {
            if i < |head| {
              assert t[i] == head[i] && t[i - 1] == head[i - 1];
            } else {
              var j := i - |head|;
              assert t[i] == rest.trace[j] && rest.trace[j].Yield?;
              assert t[i - 1] == rest.trace[j - 1];
            }
          }
        }
    }
  }

  /** With auto_ack the out-of-ops acknowledgement is sent exactly once when
      the iteration finishes, as its very last step and right after the final
      None broadcast; otherwise (without auto_ack, or on a raise) never. */
  lemma {:induction false} ChiefAcksOnceAtEnd(replies: seq<MasterReply>, resumed: seq<bool>, chiefOnly: bool, autoAck: bool)
    ensures var r := ChiefRun(replies, resumed, chiefOnly, autoAck);
            Count(r.trace, Ack) == (if autoAck && r.outcome.Finished? then 1 else 0) &&
            (autoAck && r.outcome.Finished? ==>
               |r.trace| >= 2 && r.trace[|r.trace| - 1] == Ack &&
               r.trace[|r.trace| - 2] == (if chiefOnly then Fetch else Broadcast(None)))
    decreases replies
  {
    if replies != [] {
      match replies[0]
      case OutOfOps =>
        EndTurnViews(chiefOnly, autoAck);
        EndTurnShape(chiefOnly, autoAck);
      case NextOp(n) =>
        var head := OpTurn(n, chiefOnly);
        OpTurnViews(n, chiefOnly);
        if resumed != [] && resumed[0] {
          var rest := ChiefRun(replies[1..], resumed[1..], chiefOnly, autoAck);
          ChiefAcksOnceAtEnd(replies[1..], resumed[1..], chiefOnly, autoAck);
          CountAppend(head, rest.trace, Ack);
          if autoAck && rest.outcome.Finished? {
            var t := head + rest.trace;
            assert t[|t| - 1] == rest.trace[|rest.trace| - 1];
            assert t[|t| - 2] == rest.trace[|rest.trace| - 2];
          }
        }
    }
  }

  /** When the caller resumes without completing the op, the iteration raises
      right after yielding it: the trace ends with that yield. */
  lemma {:induction false} ChiefRaisesRightAfterYield(replies: seq<MasterReply>, resumed: seq<bool>, chiefOnly: bool, autoAck: bool)
    ensures var r := ChiefRun(replies, resumed, chiefOnly, autoAck);
            r.outcome.Raised? ==>
              r.outcome.error == OpNotCompleted &&
              |r.trace| > 0 && r.trace[|r.trace| - 1].Yield?
    decreases replies
  {
    if replies != [] && replies[0].NextOp? && resumed != [] {
      var head := OpTurn(replies[0].length, chiefOnly);
      OpTurnShape(replies[0].length, chiefOnly);
      if resumed[0] {
        var rest := ChiefRun(replies[1..], resumed[1..], chiefOnly, autoAck);
        ChiefRaisesRightAfterYield(replies[1..], resumed[1..], chiefOnly, autoAck);
        if rest.outcome.Raised? {
          assert (head + rest.trace)[|head + rest.trace| - 1] == rest.trace[|rest.trace| - 1];
        }
      }
    }
  }

  /** The chief fetches once per op it yields, plus once more for the final
      "out of ops" when it finishes: after a raise no further op is fetched. */
  lemma {:induction false} ChiefFetchesOncePerOp(replies: seq<MasterReply>, resumed: seq<bool>, chiefOnly: bool, autoAck: bool)
    ensures var r := ChiefRun(replies, resumed, chiefOnly, autoAck);
            Count(r.trace, Fetch) == |Yields(r.trace)| + (if r.outcome.Finished? then 1 else 0)
    decreases replies
  {
    if replies != [] {
      match replies[0]
      case OutOfOps =>
        EndTurnViews(chiefOnly, autoAck);
        EndTurnFetches(chiefOnly, autoAck);
      case NextOp(n) =>
        OpTurnViews(n, chiefOnly);
        if resumed != [] && resumed[0] {
          var rest := ChiefRun(replies[1..], resumed[1..], chiefOnly, autoAck);
          ChiefFetchesOncePerOp(replies[1..], resumed[1..], chiefOnly, autoAck);
          YieldsAppend(OpTurn(n, chiefOnly), rest.trace);
          CountAppend(OpTurn(n, chiefOnly), rest.trace, Fetch);
        }
    }
  }

  /** The op that made the iteration raise is the last one yielded: every op
      before it had been completed and that one had not. */
  lemma {:induction false} ChiefRaisesOnFirstIncomplete(replies: seq<MasterReply>, resumed: seq<bool>, chiefOnly: bool, autoAck: bool)
    ensures var r := ChiefRun(replies, resumed, chiefOnly, autoAck);
            var k := |Yields(r.trace)|;
            r.outcome.Raised? ==>
              0 < k <= |resumed| && !resumed[k - 1] &&
              forall j :: 0 <= j < k - 1 ==> resumed[j]
    decreases replies
  {
    if replies != [] && replies[0].NextOp? && resumed != [] {
      var head := OpTurn(replies[0].length, chiefOnly);
      OpTurnViews(replies[0].length, chiefOnly);
      if resumed[0] {
        var rest := ChiefRun(replies[1..], resumed[1..], chiefOnly, autoAck);
        ChiefRaisesOnFirstIncomplete(replies[1..], resumed[1..], chiefOnly, autoAck);
        if rest.outcome.Raised? {
          YieldsAppend(head, rest.trace);
          var k := |Yields(rest.trace)|;
          assert resumed[1..][k - 1] == resumed[k];
          forall j | 0 <= j < k ensures resumed[j] {
            if j > 0 { assert resumed[1..][j - 1] == resumed[j]; }
          }
        }
      }
    }
  }

  /** After a raise nothing more is announced: no None reaches the workers
      and no acknowledgement reaches the master. */
  lemma ChiefRaiseSendsNoEnd(replies: seq<MasterReply>, resumed: seq<bool>, chiefOnly: bool, autoAck: bool)
    ensures var r := ChiefRun(replies, resumed, chiefOnly, autoAck);
            r.outcome.Raised? ==> None !in Broadcasts(r.trace) && Count(r.trace, Ack) == 0
  {
    var r := ChiefRun(replies, resumed, chiefOnly, autoAck);
    ChiefBroadcasts(replies, resumed, chiefOnly, autoAck);
    ChiefAcksOnceAtEnd(replies, resumed, chiefOnly, autoAck);
    if r.outcome.Raised? && !chiefOnly {
      SomesHaveNoNone(Yields(r.trace));
    }
  }

  lemma {:induction false} SomesHaveNoNone(ns: seq<int>)
    ensures None !in Somes(ns)
    decreases ns
  {
    if ns != [] {
      SomesHaveNoNone(ns[1..]);
    }
  }

  // ---------------------------------------------------------------------------
  // The workers

  /** A worker yields non-chief ops whose lengths are exactly the values
      broadcast before the first None, in order, and finishes exactly when a
      None arrives. */
  lemma {:induction false} WorkerYieldsAnnouncements(received: seq<Option<int>>)
    ensures var r := WorkerLoop(received);
            Yields(r.trace) == Announcements(received) &&
            (r.outcome.Finished? <==> None in received) &&
            !r.outcome.Raised? &&
            (forall i :: 0 <= i < |r.trace| && r.trace[i].Yield? ==> !r.trace[i].chief)
    decreases received
  {
    if received != [] {
      assert received == [received[0]] + received[1..];
      if received[0].Some? {
        var n := received[0].value;
        var rest := WorkerLoop(received[1..]);
        WorkerYieldsAnnouncements(received[1..]);
        YieldsAppend([Receive(Some(n)), Yield(n, false)], rest.trace);
        var t := [Receive(Some(n)), Yield(n, false)] + rest.trace;
        forall i | 0 <= i < |t| && t[i].Yield? ensures !t[i].chief {
          if i >= 2 { assert t[i] == rest.trace[i - 2]; }
        }
      }
    }
  }

  lemma {:induction false} WorkerOnSomes(ns: seq<int>, tail: seq<Option<int>>)
    ensures Announcements(Somes(ns) + tail) == ns + Announcements(tail)
    ensures None in Somes(ns) + tail <==> None in tail
    decreases ns
  {
    if ns != [] {
      assert (Somes(ns) + tail)[0] == Some(ns[0]);
      assert (Somes(ns) + tail)[1..] == Somes(ns[1..]) + tail;
      WorkerOnSomes(ns[1..], tail);
      assert Somes(ns) + tail == [Some(ns[0])] + (Somes(ns[1..]) + tail);
    } else {
      assert Somes(ns) + tail == tail;
    }
  }

  /** Chief and workers agree: a worker fed what the chief broadcast yields
      ops of the same lengths in the same order, and finishes exactly when the
      chief does. */
  lemma ChiefAndWorkersAgree(replies: seq<MasterReply>, resumed: seq<bool>, autoAck: bool)
    ensures var c := ChiefRun(replies, resumed, false, autoAck);
            var w := WorkerRun(Broadcasts(c.trace), false);
            Yields(w.trace) == Yields(c.trace) &&
            (w.outcome.Finished? <==> c.outcome.Finished?)
  {
    var c := ChiefRun(replies, resumed, false, autoAck);
    ChiefBroadcasts(replies, resumed, false, autoAck);
    var tail: seq<Option<int>> := if c.outcome.Finished? then [None] else [];
    WorkerOnSomes(Yields(c.trace), tail);
    WorkerYieldsAnnouncements(Broadcasts(c.trace));
  }

  /** The same agreement for the dummy searcher: a worker yields exactly the
      one op of the configured length, and finishes once it was completed. */
  lemma DummyChiefAndWorkersAgree(length: int, resumed: seq<bool>)
    ensures var c := DummyChiefRun(length, resumed, false);
            var w := WorkerRun(Broadcasts(c.trace), false);
            Yields(w.trace) == [length] &&
            (w.outcome.Finished? <==> |resumed| > 0 && resumed[0])
  {
    var c := DummyChiefRun(length, resumed, false);
    var tail: seq<Option<int>> := if c.outcome.Finished? then [None] else [];
    WorkerOnSomes([length], tail);
    WorkerYieldsAnnouncements(Broadcasts(c.trace));
  }
}
