/** One searcher operation handed to a trial: a length to train for, then a
    single completion carrying the searcher metric. The real operation posts
    progress and completion to the master; the dummy one only logs. */
module SearcherOps {

  /** A searcher metric as the harness sees it: a float that may be NaN. */
  datatype Metric = Finite(value: real) | Infinite(positive: bool) | NaN
  {
    predicate IsNaN() { NaN? }
  }

  /** The runtime errors an operation raises, one per distinct message. */
  datatype OpError =
    | ProgressFromNonChief    // report_progress() called off the chief
    | ProgressAfterComplete   // report_progress() of another length after complete()
    | CompleteFromNonChief    // complete() called off the chief
    | CompleteCalledTwice     // complete() called a second time
    | NaNSearcherMetric       // complete() with a NaN metric

  /** The result of a call that either goes through or raises. */
  datatype Check = Passed | Failed(error: OpError)

  /** The guards of report_progress, in their order: only the chief may
      report, and once the op is complete only its own length may be
      reported again. */
  function ProgressCheck(isChief: bool, completed: bool, opLength: int, reported: real): (c: Check)
    ensures c.Passed? <==> isChief && (!completed || reported == opLength as real)
    ensures !isChief ==> c == Failed(ProgressFromNonChief)
    ensures isChief && !completed ==> c == Passed
    ensures isChief && completed && reported != opLength as real ==> c == Failed(ProgressAfterComplete)
  {
    if !isChief then Failed(ProgressFromNonChief)
    else if completed && reported != opLength as real then Failed(ProgressAfterComplete)
    else Passed
  }

  /** The guards of complete, in their order: the chief check comes first,
      then the already-completed check, then the NaN check. */
  function CompleteCheck(isChief: bool, completed: bool, metric: Metric): (c: Check)
    ensures c.Passed? <==> isChief && !completed && !metric.IsNaN()
    ensures !isChief ==> c == Failed(CompleteFromNonChief)
    ensures isChief && completed ==> c == Failed(CompleteCalledTwice)
    ensures isChief && !completed && metric.IsNaN() ==> c == Failed(NaNSearcherMetric)
  {
    if !isChief then Failed(CompleteFromNonChief)
    else if completed then Failed(CompleteCalledTwice)
    else if metric.IsNaN() then Failed(NaNSearcherMetric)
    else Passed
  }

  /** What a series of complete() calls on one op returns, call by call,
      together with whether the op ends up completed. */
  function CompleteSeries(isChief: bool, completed: bool, metrics: seq<Metric>): (r: (seq<Check>, bool))
    ensures |r.0| == |metrics|
    ensures completed ==> r.1
    decreases metrics
  {
    if metrics == [] then ([], completed)
    else
      var c := CompleteCheck(isChief, completed, metrics[0]);
      var rest := CompleteSeries(isChief, completed || c.Passed?, metrics[1..]);
      ([c] + rest.0, rest.1)
  }

  function CountPassed(cs: seq<Check>): nat
  {
    if cs == [] then 0 else (if cs[0].Passed? then 1 else 0) + CountPassed(cs[1..])
  }

  /** complete() succeeds at most once per op: on a fresh op, the calls that
      pass number one exactly when the caller is the chief and some metric
      is not NaN, and the op is completed exactly then. */
  lemma {:induction false} CompleteSucceedsAtMostOnce(isChief: bool, completed: bool, metrics: seq<Metric>)
    ensures var r := CompleteSeries(isChief, completed, metrics);
            CountPassed(r.0) == (if !completed && isChief && exists i :: 0 <= i < |metrics| && !metrics[i].IsNaN() then 1 else 0) &&
            r.1 == (completed || (isChief && exists i :: 0 <= i < |metrics| && !metrics[i].IsNaN()))
    decreases metrics
  {
    if metrics != [] {
      var c := CompleteCheck(isChief, completed, metrics[0]);
      CompleteSucceedsAtMostOnce(isChief, completed || c.Passed?, metrics[1..]);
      if exists i :: 0 <= i < |metrics[1..]| && !metrics[1..][i].IsNaN() {
        var i :| 0 <= i < |metrics[1..]| && !metrics[1..][i].IsNaN();
        assert !metrics[i + 1].IsNaN();
      }
      if exists i :: 0 <= i < |metrics| && !metrics[i].IsNaN() {
        var i :| 0 <= i < |metrics| && !metrics[i].IsNaN();
        if i > 0 { assert !metrics[1..][i - 1].IsNaN(); }
      }
    }
  }

  /** The posts an operation makes to the master. */
  datatype Post =
    | ProgressPost(trialId: int, progress: real)                  // /trials/{id}/progress
    | CompletionPost(trialId: int, length: int, metric: Metric)   // /trials/{id}/searcher/completed_operation

  function CountCompletions(posts: seq<Post>): nat
  {
    if posts == [] then 0
    else (if posts[0].CompletionPost? then 1 else 0) + CountCompletions(posts[1..])
  }

  lemma {:induction false} CountCompletionsAppend(posts: seq<Post>, p: Post)
    ensures CountCompletions(posts + [p]) == CountCompletions(posts) + (if p.CompletionPost? then 1 else 0)
  {
    if posts != [] {
      assert (posts + [p])[1..] == posts[1..] + [p];
      CountCompletionsAppend(posts[1..], p);
    }
  }

  /** An operation fetched from the master. */
  class SearcherOp {
    const trialId: int
    const length: int
    const isChief: bool
    var completed: bool
    /** Every post this op has made to the master, oldest first. */
    ghost var posts: seq<Post>

    /** Only the chief posts; there is one completion post exactly when the op
        is completed, it carries the op's length, and every later progress
        post reports exactly that length. */
    ghost predicate Valid()
      reads this
    {
      (!isChief ==> posts == []) &&
      CountCompletions(posts) == (if completed then 1 else 0) &&
      (forall i :: 0 <= i < |posts| ==> posts[i].trialId == trialId) &&
      (forall i :: 0 <= i < |posts| && posts[i].CompletionPost? ==> posts[i].length == length) &&
      (forall i, j :: 0 <= i < j < |posts| && posts[i].CompletionPost? ==>
         posts[j] == ProgressPost(trialId, length as real))
    }

    constructor (trialId: int, length: int, isChief: bool)
      ensures Valid()
      ensures this.trialId == trialId && this.length == length && this.isChief == isChief
      ensures !completed && posts == []
    {
      this.trialId := trialId;
      this.length := length;
      this.isChief := isChief;
      completed := false;
      posts := [];
    }

    method ReportProgress(reported: real) returns (c: Check)
      requires Valid()
      modifies this`posts
      ensures Valid()
      ensures c == ProgressCheck(isChief, completed, length, reported)
      ensures posts == if c.Passed? then old(posts) + [ProgressPost(trialId, reported)] else old(posts)
    {
      if !isChief {
        return Failed(ProgressFromNonChief);
      }
      if completed && reported != length as real {
        return Failed(ProgressAfterComplete);
      }
      CountCompletionsAppend(posts, ProgressPost(trialId, reported));
      if !completed {
        NoCompletionBeforeFirst(posts);
      }
      posts := posts + [ProgressPost(trialId, reported)];
      c := Passed;
    }

    method Complete(metric: Metric) returns (c: Check)
      requires Valid()
      modifies this`completed, this`posts
      ensures Valid()
      ensures c == CompleteCheck(isChief, old(completed), metric)
      ensures completed == (old(completed) || c.Passed?)
      ensures posts == if c.Passed? then old(posts) + [CompletionPost(trialId, length, metric)] else old(posts)
    {
      if !isChief {
        return Failed(CompleteFromNonChief);
      }
      if completed {
        return Failed(CompleteCalledTwice);
      }
      if metric.IsNaN() {
        return Failed(NaNSearcherMetric);
      }
      completed := true;
      CountCompletionsAppend(posts, CompletionPost(trialId, length, metric));
      NoCompletionBeforeFirst(posts);
      posts := posts + [CompletionPost(trialId, length, metric)];
      c := Passed;
    }
  }

  lemma {:induction false} NoCompletionBeforeFirst(posts: seq<Post>)
    requires CountCompletions(posts) == 0
    ensures forall i :: 0 <= i < |posts| ==> !posts[i].CompletionPost?
  {
    if posts != [] {
      NoCompletionBeforeFirst(posts[1..]);
      forall i | 0 < i < |posts| ensures !posts[i].CompletionPost? {
        assert posts[i] == posts[1..][i - 1];
      }
    }
  }

  /** The operation the dummy searcher makes up: the same guards, no posts. */
  class DummySearcherOp {
    const length: int
    const isChief: bool
    var completed: bool

    constructor (length: int, isChief: bool)
      ensures this.length == length && this.isChief == isChief && !completed
    {
      this.length := length;
      this.isChief := isChief;
      completed := false;
    }

    method ReportProgress(reported: real) returns (c: Check)
      ensures c == ProgressCheck(isChief, completed, length, reported)
    {
      if !isChief {
        return Failed(ProgressFromNonChief);
      }
      if completed && reported != length as real {
        return Failed(ProgressAfterComplete);
      }
      c := Passed;
    }

    method Complete(metric: Metric) returns (c: Check)
      modifies this`completed
      ensures c == CompleteCheck(isChief, old(completed), metric)
      ensures completed == (old(completed) || c.Passed?)
    {
      if !isChief {
        return Failed(CompleteFromNonChief);
      }
      if completed {
        return Failed(CompleteCalledTwice);
      }
      if metric.IsNaN() {
        return Failed(NaNSearcherMetric);
      }
      completed := true;
      c := Passed;
    }
  }
}
