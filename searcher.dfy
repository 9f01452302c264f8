/** The searcher a trial uses to iterate through its operations, and the
    dummy searcher used when there is no master: both iterate as the protocol
    functions describe, step by step, the way the generators do. */
module Searchers {
  import opened Wrappers
  import opened Config
  import opened Protocol

  /** A worker's loop, shared by both searchers: receive a broadcast value,
      stop at None, otherwise yield a non-chief op of that length. */
  method WorkerOps(received: seq<Option<int>>) returns (trace: seq<Step>, outcome: Outcome)
    ensures Run(trace, outcome) == WorkerLoop(received)
  {
    trace := [];
    var i := 0;
    while i < |received|
      invariant 0 <= i <= |received|
      invariant WorkerLoop(received) == Then(trace, WorkerLoop(received[i..]))
    {
      var opLength := received[i];
      assert received[i..][0] == opLength && received[i..][1..] == received[i + 1..];
      ghost var done := trace;
      trace := trace + [Receive(opLength)];
      if opLength.None? {
        outcome := Finished;
        return;
      }
      trace := trace + [Yield(opLength.value, false)];
      ThenThen(done, [Receive(opLength), Yield(opLength.value, false)], WorkerLoop(received[i + 1..]));
      i := i + 1;
    }
    outcome := Suspended;
  }

  /** The searcher of a trial run against the master. */
  class Searcher {
    const trialId: int
    const runId: int
    const allocationId: string
    /** The rank of this process; rank 0 is the chief. */
    const rank: nat
    const units: Option<Unit>

    constructor (trialId: int, runId: int, allocationId: string, rank: nat, units: Option<Unit> := None)
      ensures this.trialId == trialId && this.runId == runId && this.allocationId == allocationId
      ensures this.rank == rank && this.units == units
    {
      this.trialId := trialId;
      this.runId := runId;
      this.allocationId := allocationId;
      this.rank := rank;
      this.units := units;
    }

    /** Iterates through the ops. The chief reads `replies` (the master's
        answers to its fetches) and `resumed` (whether each yielded op was
        completed when the caller asked for the next); a worker reads
        `received` (the values the chief broadcast). By default every process
        takes part and the chief acknowledges running out of ops. */
    method Ops(replies: seq<MasterReply>, resumed: seq<bool>, received: seq<Option<int>>,
               chiefOnly: bool := false, autoAck: bool := true)
      returns (trace: seq<Step>, outcome: Outcome)
      ensures rank == 0 ==> Run(trace, outcome) == ChiefRun(replies, resumed, chiefOnly, autoAck)
      ensures rank != 0 ==> Run(trace, outcome) == WorkerRun(received, chiefOnly)
    {
      if rank == 0 {
        trace, outcome := ChiefOps(chiefOnly, autoAck, replies, resumed);
      } else {
        if chiefOnly {
          return [], Raised(ChiefOnlyOnWorker);
        }
        trace, outcome := WorkerOps(received);
      }
    }

    /** The chief's side of Ops: fetch, broadcast unless chief_only, stop
        (acknowledging under auto_ack) when the master is out of ops,
        otherwise yield the op and insist it was completed. */
    method ChiefOps(chiefOnly: bool, autoAck: bool, replies: seq<MasterReply>, resumed: seq<bool>)
      returns (trace: seq<Step>, outcome: Outcome)
      ensures Run(trace, outcome) == ChiefRun(replies, resumed, chiefOnly, autoAck)
    {
      trace := [];
      var i := 0;
      while i < |replies|
        invariant 0 <= i <= |replies| && i <= |resumed|
        invariant ChiefRun(replies, resumed, chiefOnly, autoAck) ==
                    Then(trace, ChiefRun(replies[i..], resumed[i..], chiefOnly, autoAck))
      {
        ghost var done := trace;
        var op := replies[i];
        ChiefRunAt(replies, resumed, i, chiefOnly, autoAck);
        trace := trace + [Fetch];
        if !chiefOnly {
          trace := trace + [Broadcast(Announced(op))];
        }
        ghost var announce := Announce(op, chiefOnly);
        assert trace == done + ([Fetch] + announce);
        if op.OutOfOps? {
          if autoAck {
            var acked := AcknowledgeOutOfOps();
            trace := trace + acked;
          }
          outcome := Finished;
          assert trace == done + EndTurn(chiefOnly, autoAck);
          return;
        }
        trace := trace + [Yield(op.length, true)];
        assert trace == done + OpTurn(op.length, chiefOnly);
        if i == |resumed| {
          outcome := Suspended;
          return;
        }
        if !resumed[i] {
          outcome := Raised(OpNotCompleted);
          return;
        }
        ThenThen(done, OpTurn(op.length, chiefOnly),
                 ChiefRun(replies[i + 1..], resumed[i + 1..], chiefOnly, autoAck));
        i := i + 1;
      }
      outcome := Suspended;
    }

    /** Tells the master this process is shutting down for lack of ops: one
        acknowledgement post. */
    method AcknowledgeOutOfOps() returns (posted: seq<Step>)
      ensures posted == [Ack]
    {
      posted := [Ack];
    }

    /** The units configured for the searcher's lengths, as given when the
        searcher was made. */
    function GetConfiguredUnits(): (u: Option<Unit>)
      ensures u == units
    {
      units
    }
  }

  /** The searcher used without a master: one op of a fixed length. */
  class DummySearcher {
    const rank: nat
    const length: int

    constructor (rank: nat, length: int := 1)
      ensures this.rank == rank && this.length == length
    {
      this.rank := rank;
      this.length := length;
    }

    /** The same interface and the same synchronisation as the real
        searcher; `auto_ack` has nothing to acknowledge here. */
    method Ops(resumed: seq<bool>, received: seq<Option<int>>,
               chiefOnly: bool := false, autoAck: bool := true)
      returns (trace: seq<Step>, outcome: Outcome)
      ensures rank == 0 ==> Run(trace, outcome) == DummyChiefRun(length, resumed, chiefOnly)
      ensures rank != 0 ==> Run(trace, outcome) == WorkerRun(received, chiefOnly)
    {
      if rank == 0 {
        trace := [];
        if !chiefOnly {
          trace := trace + [Broadcast(Some(length))];
        }
        trace := trace + [Yield(length, true)];
        if resumed == [] {
          return trace, Suspended;
        }
        if !resumed[0] {
          return trace, Raised(OpNotCompleted);
        }
        if !chiefOnly {
          trace := trace + [Broadcast(None)];
        }
        outcome := Finished;
      } else {
        if chiefOnly {
          return [], Raised(ChiefOnlyOnWorker);
        }
        trace, outcome := WorkerOps(received);
      }
    }

    /** The dummy searcher has no master to tell: nothing is posted. */
    method AcknowledgeOutOfOps() returns (posted: seq<Step>)
      ensures posted == []
    {
      posted := [];
    }

    /** The dummy searcher always reports its lengths in epochs. */
    function GetConfiguredUnits(): (u: Option<Unit>)
      ensures u == Some(EPOCHS)
    {
      Some(EPOCHS)
    }
  }
}
