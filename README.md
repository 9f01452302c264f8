# Searcher client of a Determined trial

This project models the client side of the searcher protocol that a
Determined training process runs (`harness/determined/_core/_searcher.py`):

- **Shared values** (`wrappers.dfy`, module `Wrappers`): `Option` and
  `Result`.
- **Units of the searcher configuration** (`config.dfy`, module `Config`):
  how the `searcher` section of an experiment configuration is read to tell
  whether its lengths are in records, epochs or batches. Configuration values
  are a small JSON-like datatype (`Json`), Python truthiness is written out
  (`Truthy`), so `max_length or length_per_round` falls through on `0`, `{}`,
  `""`, `[]`, `False` and `None` exactly as in Python. A `searcher` entry
  that is present but not a mapping makes Python's `.get` fail; that error
  path is the `Err(SearcherNotAMapping)` result.
- **The life of one searcher operation** (`searcher_op.dfy`, module
  `SearcherOps`): `SearcherOp` (the op fetched from the master) and
  `DummySearcherOp` (the op the dummy searcher makes up) are classes with a
  fixed `length`, a fixed `isChief` and a mutable `completed` flag. The
  `length` property is the class's `length` constant. `ReportProgress` and
  `Complete` return `Failed(error)` where the source raises, checking the
  guards in the source's order. The guards are stated once, as the functions
  `ProgressCheck` and `CompleteCheck`. The HTTP posts of the real op are a
  ghost log `posts`, and the class invariant `Valid()` says that at most one
  completion is ever posted, exactly when the op is completed, and that any
  progress posted after it repeats the op's own length.
- **The op-iteration protocol** (`protocol.dfy`, module `Protocol`, and
  `searcher.dfy`, module `Searchers`): the generators `Searcher.ops` and
  `DummySearcher.ops` become methods that are given what the outside world
  supplies and return the trace of what they did and how they ended:
  - the master's replies (`NextOp(length)` or `OutOfOps`), standing for
    `_get_searcher_op`;
  - for each yielded op, whether the caller had completed it when it came
    back for the next one (`resumed`);
  - on a worker, the values the chief broadcast (`received`).

  A trace is a sequence of steps: `Fetch`, `Broadcast(v)`, `Receive(v)`,
  `Yield(length, chief)` and `Ack`. The run ends `Finished`, `Raised(error)`,
  or `Suspended` when the inputs given run out before the generator stops.
  The chief's and the worker's loops are proved equal to the recursive
  functions `ChiefRun` and `WorkerLoop`; the dummy chief, which has no loop,
  is proved equal to the function `DummyChiefRun`. The lemmas state what the
  code and its doc-comments promise about these functions:
  - ops are yielded in the master's order, up to its first "out of ops";
  - unless `chief_only`, each length is broadcast right before its op is
    yielded, and `None` is broadcast once, only when the iteration finishes;
  - with `auto_ack`, the acknowledgement is sent once, as the very last step:
    right after that `None`, or right after the last fetch under `chief_only`;
  - an op the caller left uncompleted makes the iteration raise at once, with
    nothing fetched, broadcast or acknowledged afterwards;
  - a worker fed what the chief broadcast yields ops of the same lengths, in
    the same order.

## Model

| member | source | states |
|---|---|---|
| `Config.UnitForKey` | harness/determined/_core/_searcher.py:25 | Only the exact keys "records", "epochs" and "batches" give a unit. The unit given is the one spelled by the key. |
| `Config.LengthExample` | harness/determined/_core/_searcher.py:21-22 | The entry is `max_length` when that is truthy; otherwise it is whatever `length_per_round` holds, absent reading as `None`. |
| `Config.ParseSearcherUnits` | harness/determined/_core/_searcher.py:19-27 | Fails exactly when the `searcher` entry is present but not a mapping. A config without a `searcher` section gives no unit. A unit is returned only when the length entry is a mapping whose single key spells that unit. |
| `Config.ParsedUnitIff` | harness/determined/_core/_searcher.py:19-27 | Both directions: `Some(u)` is returned exactly when the length entry is a mapping whose key set is `{UnitKey(u)}`. |
| `Config.BareLengthHasNoUnit` | harness/determined/_core/_searcher.py:23-27 | A length entry that is not a mapping, such as a bare number, gives no unit. |
| `Config.MaxLengthTakesPrecedence` | harness/determined/_core/_searcher.py:22 | With a truthy `max_length`, changing `length_per_round` to anything does not change the result. |
| `Config.FalsyMaxLengthFallsThrough` | harness/determined/_core/_searcher.py:22 | An absent or falsy `max_length` is ignored: the result equals that of the section with `max_length` removed. |
| `Config.DocumentedExamples` | harness/determined/_core/_searcher.py:213-228 | The two documented configurations: `max_length: {epochs: 50}` gives EPOCHS, and `max_length: 50` gives none. |
| `SearcherOps.ProgressCheck` | harness/determined/_core/_searcher.py:48-52 | A report passes iff the caller is the chief and either the op is not completed or the reported length equals the op's length. A non-chief caller always gets the non-chief error. A chief's report of another length after completion gets the after-complete error. Before completion, any length passes. |
| `SearcherOps.CompleteCheck` | harness/determined/_core/_searcher.py:59-65 | Completion passes iff the caller is the chief, the op is not yet completed and the metric is not NaN. Each failure gets its own error, checked in that order: non-chief first, then already-completed, then NaN. |
| `SearcherOps.CompleteSucceedsAtMostOnce` | harness/determined/_core/_searcher.py:59-66 | For any series of complete() calls on a fresh op, exactly one passes if the caller is the chief and some metric is not NaN, and none otherwise. The op ends up completed exactly then. |
| `SearcherOps.SearcherOp.constructor` | harness/determined/_core/_searcher.py:31-42 | A new op has the given trial, length and chief flag, is not completed and has posted nothing. |
| `SearcherOps.SearcherOp.ReportProgress` | harness/determined/_core/_searcher.py:48-57 | Returns `ProgressCheck` of the current state. A progress post is appended only when the check passes, `completed` is untouched, and the post-log invariant is kept. |
| `SearcherOps.SearcherOp.Complete` | harness/determined/_core/_searcher.py:59-72 | Returns `CompleteCheck` of the state before the call. `completed` becomes true only when every check passed; exactly then one completion post with the op's length and the metric is appended. The invariant is kept. |
| `SearcherOps.DummySearcherOp.constructor` | harness/determined/_core/_searcher.py:234-237 | A new dummy op has the given length and chief flag and is not completed. |
| `SearcherOps.DummySearcherOp.ReportProgress` | harness/determined/_core/_searcher.py:239-244 | Same guards as the real op (`ProgressCheck`); changes nothing. |
| `SearcherOps.DummySearcherOp.Complete` | harness/determined/_core/_searcher.py:246-254 | Same guards as the real op (`CompleteCheck`). `completed` flips only when they all pass. |
| `Protocol.Announced` | harness/determined/_core/_searcher.py:174 | What the chief broadcasts for a reply: `None` exactly when the master is out of ops, and `Some(n)` for an op of length `n`. |
| `Protocol.WorkerRun` | harness/determined/_core/_searcher.py:182-192 | A worker called with `chief_only` raises at once and does nothing else. Otherwise it runs the receive loop. |
| `Protocol.DummyChiefRun` | harness/determined/_core/_searcher.py:264-276 | The dummy chief yields exactly one op of its length. It never fetches or acknowledges. It finishes iff that op was completed and raises iff it was not. Unless `chief_only`, the trace starts with the broadcast of the length immediately followed by the yield, and a finished run ends with the `None` broadcast; under `chief_only` the yield is the first step and nothing is broadcast. |
| `Protocol.ChiefYieldsOfferedOps` | harness/determined/_core/_searcher.py:166-181 | The lengths yielded are a prefix of the lengths the master offers before its first "out of ops", in order. When the run finishes, it has yielded all of them. |
| `Protocol.ChiefFinishesIff` | harness/determined/_core/_searcher.py:166-181 | Both directions: the run finishes exactly when the master replied "out of ops" at some point and the caller completed every op offered before that. |
| `Protocol.ChiefBroadcasts` | harness/determined/_core/_searcher.py:170-178 | Unless `chief_only`, the values broadcast are the yielded lengths in order, followed by one `None` iff the run finished. Under `chief_only` nothing is broadcast. |
| `Protocol.ChiefBroadcastsBeforeYield` | harness/determined/_core/_searcher.py:169-179 | Every yielded op is a chief op. It comes right after the broadcast of its own length, or right after its fetch under `chief_only`. |
| `Protocol.ChiefAcksOnceAtEnd` | harness/determined/_core/_searcher.py:175-178 | The acknowledgement is sent exactly once if `auto_ack` is set and the run finishes, and never otherwise. When sent it is the last step, right after the final `None` broadcast (or after the fetch under `chief_only`). |
| `Protocol.ChiefRaisesRightAfterYield` | harness/determined/_core/_searcher.py:179-181 | A raise is the not-completed error, and the trace ends with the yield of that op. |
| `Protocol.ChiefFetchesOncePerOp` | harness/determined/_core/_searcher.py:166-181 | The chief fetches once per op it yields, plus one final fetch when the run finishes. After a raise, no further op has been fetched. |
| `Protocol.ChiefRaisesOnFirstIncomplete` | harness/determined/_core/_searcher.py:179-181 | On a raise, the last op yielded is the one not completed, and every op before it was completed. |
| `Protocol.ChiefRaiseSendsNoEnd` | harness/determined/_core/_searcher.py:170-181 | After a raise, no `None` has been broadcast and no acknowledgement has been sent. |
| `Protocol.WorkerYieldsAnnouncements` | harness/determined/_core/_searcher.py:187-192 | A worker yields non-chief ops whose lengths are exactly the values received before the first `None`, in order. It finishes iff a `None` arrives and never raises. |
| `Protocol.ChiefAndWorkersAgree` | harness/determined/_core/_searcher.py:166-192 | A worker fed the chief's broadcasts yields the same lengths as the chief, in the same order. It finishes iff the chief does. |
| `Protocol.DummyChiefAndWorkersAgree` | harness/determined/_core/_searcher.py:264-287 | A worker fed the dummy chief's broadcasts yields exactly one op, of the configured length. It finishes iff that op was completed. |
| `Searchers.WorkerOps` | harness/determined/_core/_searcher.py:187-192 | The worker's receive loop produces exactly the trace and outcome of `WorkerLoop`. |
| `Searchers.Searcher.constructor` | harness/determined/_core/_searcher.py:125-139 | The searcher keeps the trial, run, allocation, rank and units it was given; the units default to none. |
| `Searchers.Searcher.Ops` | harness/determined/_core/_searcher.py:153-192 | On rank 0 the run is `ChiefRun`; on other ranks it is `WorkerRun`, which refuses `chief_only`. `chief_only` defaults to false and `auto_ack` to true. |
| `Searchers.Searcher.ChiefOps` | harness/determined/_core/_searcher.py:166-181 | The chief's fetch/broadcast/yield/check loop produces exactly the trace and outcome of `ChiefRun`. |
| `Searchers.Searcher.AcknowledgeOutOfOps` | harness/determined/_core/_searcher.py:194-206 | Posts exactly one acknowledgement. |
| `Searchers.Searcher.GetConfiguredUnits` | harness/determined/_core/_searcher.py:208-230 | Reports the units the searcher was made with. These come from `ParseSearcherUnits`, see `DocumentedExamples`. |
| `Searchers.DummySearcher.constructor` | harness/determined/_core/_searcher.py:260-262 | The dummy searcher keeps its rank and length; the length defaults to 1. |
| `Searchers.DummySearcher.Ops` | harness/determined/_core/_searcher.py:264-287 | On rank 0 the run is `DummyChiefRun` of the configured length; on other ranks it is `WorkerRun`. The defaults are those of the real searcher. |
| `Searchers.DummySearcher.AcknowledgeOutOfOps` | harness/determined/_core/_searcher.py:289-290 | Posts nothing. |
| `Searchers.DummySearcher.GetConfiguredUnits` | harness/determined/_core/_searcher.py:292-293 | Always EPOCHS, whatever the configuration. |

## Left out

- HTTP traffic: the GET of the next operation and the posts of progress, completion and acknowledgement go through a session the model does not have. They are recorded only as abstract steps (`Fetch`, `Ack`) and as entries of the ghost `posts` log. Their URLs, JSON encoding and the master's answers are not modelled.
- Logging (`logger.debug`, `logger.info`) has no observable effect on the protocol and is not modelled.
- The broadcast transport between processes is not modelled. Only the values the chief broadcasts and the values a worker receives are. The rendezvous it implies, and what workers do when the chief raises, are not modelled either.
- Floating point: the searcher metric is an abstract `Metric` with an `IsNaN` predicate. Reported progress is a `real`, so a NaN progress value and IEEE comparison are not modelled.
- The master's length arrives as a decimal string of a 64-bit unsigned integer and is parsed with Python's `int`. The model takes it as an already-parsed `nat` and does not bound it by 2^64. Every other length (of an op, of the dummy searcher, broadcast or received) is an unbounded `int`, negative values included, as in Python.
- Configuration numbers are integers. Floats such as `0.0`, which Python also treats as falsy, are not represented, and mapping keys are strings only.
- `Searchers.Searcher.GetConfiguredUnits`: the source does not say where the units come from beyond the constructor argument. The caller that computes them with `_parse_searcher_units` is not part of this model.
- What the caller's training code does between yields is not modelled. Whether it completed each op is the `resumed` input.
- A generator that is abandoned, or resumed after it raised, is not modelled.
- The authorization stub `master/internal/model/authz_basic_impl.go` is left out: its methods return constant results regardless of their arguments.
