/** The recovery sweep: under the recovery lock, page after page of
    transactions left unmodified for too long is recovered until the
    repository returns an empty page; with a sentinel pair of repositories
    the work repository is swept only while it is not degraded. */
module RecoverySweep {
  import opened Wrappers
  import opened Errors
  import opened Transactions
  import opened Repository
  import opened Effects
  import opened LogThrottle
  import opened Recovery

  /** The repository's answer to one page query. The query itself (its
      cut-off time and offset) is not modelled. */
  datatype PageAnswer = Page(data: seq<Transaction>) | LoadError(error: Error)

  /** The recovery frequency settings that the sweep reads. */
  datatype RecoverConfig = RecoverConfig(maxRetryCount: int, fetchPageSize: int)

  /** A sweep's outcome: the repository afterwards, what was done and
      logged, how many non-empty pages and transactions were recovered, and
      the exception that ended the sweep early, if any. */
  datatype SweepResult = SweepResult(
    store: Store,
    trace: seq<Event>,
    log: seq<LogLine>,
    pages: nat,
    total: nat,
    failure: Option<Error>)

  /** Whether the i-th answer ends the page loop: an empty page, or a load
      that threw. Answers past the end of the list are empty pages. */
  predicate Ends(answers: seq<PageAnswer>, i: nat) {
    i >= |answers| || answers[i].LoadError? || answers[i].data == []
  }

  /** The number of transactions the pages of a list of answers hold. */
  function RecoveredCount(answers: seq<PageAnswer>): nat {
    if answers == [] then 0
    else (if answers[0].Page? then |answers[0].data| else 0) + RecoveredCount(answers[1..])
  }

  /** The sweep before any page: nothing done yet. */
  function Start(store: Store): SweepResult {
    SweepResult(store, [], [], 0, 0, None)
  }

  /** The page loop from the i-th answer on, as a recursive definition. */
  function SweepFrom(st: SweepResult, answers: seq<PageAnswer>, i: nat, cfg: RecoverConfig,
                     threshold: int, logging: Logging, renv: RecoveryEnv): (r: SweepResult)
    requires st.pages == i && st.failure.None?
    ensures i <= r.pages && Ends(answers, r.pages)
    ensures forall j :: i <= j < r.pages ==> !Ends(answers, j)
    ensures i <= |answers| ==> r.pages <= |answers|
    ensures r.failure.Some? <==> r.pages < |answers| && answers[r.pages].LoadError?
    ensures r.failure.Some? ==> r.failure.value == answers[r.pages].error
    decreases |answers| - i
  {
    if Ends(answers, i) then
      if i < |answers| && answers[i].LoadError? then st.(failure := Some(answers[i].error)) else st
    else
      var data := answers[i].data;
      var p := RecoverPage(st.store, data, cfg.maxRetryCount, threshold, logging, renv);
      SweepFrom(SweepResult(p.store, st.trace + p.trace, st.log + p.log, st.pages + 1, st.total + |data|, None),
                answers, i + 1, cfg, threshold, logging, renv)
  }

  /** Counting from a page on is that page's size plus the count after it. */
  lemma CountFront(answers: seq<PageAnswer>, i: nat, k: nat)
    requires i < k <= |answers| && answers[i].Page?
    ensures RecoveredCount(answers[i..k]) == |answers[i].data| + RecoveredCount(answers[i + 1..k])
  {
    assert answers[i..k][1..] == answers[i + 1..k];
  }

  /** The page loop's total counts the transactions of the pages it recovered. */
  lemma {:induction false} SweepCounts(st: SweepResult, answers: seq<PageAnswer>, i: nat, cfg: RecoverConfig,
                                       threshold: int, logging: Logging, renv: RecoveryEnv)
    requires st.pages == i && st.failure.None? && i <= |answers|
    ensures var r := SweepFrom(st, answers, i, cfg, threshold, logging, renv);
            r.total == st.total + RecoveredCount(answers[i..r.pages])
    decreases |answers| - i
  {
    if !Ends(answers, i) {
      var data := answers[i].data;
      var p := RecoverPage(st.store, data, cfg.maxRetryCount, threshold, logging, renv);
      var next := SweepResult(p.store, st.trace + p.trace, st.log + p.log, st.pages + 1, st.total + |data|, None);
      var r := SweepFrom(next, answers, i + 1, cfg, threshold, logging, renv);
      assert SweepFrom(st, answers, i, cfg, threshold, logging, renv) == r;
      SweepCounts(next, answers, i + 1, cfg, threshold, logging, renv);
      CountFront(answers, i, r.pages);
    }
  }

  /** What `startRecover(repository)` does: nothing when the lock is taken
      elsewhere, the page loop otherwise. */
  function SweepSpec(store: Store, answers: seq<PageAnswer>, locked: bool, cfg: RecoverConfig,
                     threshold: int, logging: Logging, renv: RecoveryEnv): SweepResult
  {
    if locked then SweepFrom(Start(store), answers, 0, cfg, threshold, logging, renv) else Start(store)
  }

  /** `startRecover(repository)`: a sweep that does not get the lock does
      nothing; otherwise pages are recovered in order until the first empty
      page, or until a load throws, which ends the sweep (the exception is
      logged, not raised). */
  method Sweep(store: Store, answers: seq<PageAnswer>, locked: bool, cfg: RecoverConfig,
               threshold: int, logging: Logging, renv: RecoveryEnv) returns (r: SweepResult)
    ensures !locked ==> r == Start(store)
    ensures locked ==> && Ends(answers, r.pages)
                       && (forall j :: 0 <= j < r.pages ==> !Ends(answers, j))
                       && (r.failure.Some? <==> r.pages < |answers| && answers[r.pages].LoadError?)
                       && r.pages <= |answers| && r.total == RecoveredCount(answers[..r.pages])
    ensures r == SweepSpec(store, answers, locked, cfg, threshold, logging, renv)
  {
    r := Start(store);
    if !locked {
      return;
    }
    var i := 0;
    while !Ends(answers, i)
      invariant i <= |answers| && r.pages == i && r.failure.None?
      invariant SweepFrom(r, answers, i, cfg, threshold, logging, renv) == SweepFrom(Start(store), answers, 0, cfg, threshold, logging, renv)
      decreases |answers| - i
    {
      var data := answers[i].data;
      var p := RecoverPage(r.store, data, cfg.maxRetryCount, threshold, logging, renv);
      r := SweepResult(p.store, r.trace + p.trace, r.log + p.log, r.pages + 1, r.total + |data|, None);
      i := i + 1;
    }
    if i < |answers| && answers[i].LoadError? {
      r := r.(failure := Some(answers[i].error));
    }
    SweepCounts(Start(store), answers, 0, cfg, threshold, logging, renv);
  }

  /** How the recovery repository is set up: a single repository, or a
      sentinel pair of a work and a degraded repository. */
  datatype Setup = Single | Sentinel(degraded: bool)

  /** The repositories of a setup. */
  datatype Target = Main | Work | Degraded

  /** The repositories `startRecover()` sweeps, in order. */
  function Targets(setup: Setup): (ts: seq<Target>)
    ensures setup == Single ==> ts == [Main]
    ensures setup.Sentinel? ==> && ts != [] && ts[|ts| - 1] == Degraded
                                && (Work in ts <==> !setup.degraded)
                                && Main !in ts
  {
    match setup
    case Single => [Main]
    case Sentinel(degraded) => if degraded then [Degraded] else [Work, Degraded]
  }

  /** `startRecover()`: sets the log threshold from the page size, then
      sweeps every repository of the setup with its own lock, answers and
      environment, logging through the throttle branch as written. */
  method StartRecover(setup: Setup, stores: Target -> Store, answers: Target -> seq<PageAnswer>,
                      locked: Target -> bool, cfg: RecoverConfig, renv: Target -> RecoveryEnv)
    returns (rs: seq<SweepResult>)
    ensures |rs| == |Targets(setup)|
    ensures forall i :: 0 <= i < |rs| ==>
              var x := Targets(setup)[i];
              rs[i] == SweepSpec(stores(x), answers(x), locked(x), cfg, LogThreshold(cfg.fetchPageSize), AsWritten, renv(x))
  {
    var threshold := LogThreshold(cfg.fetchPageSize);
    var ts := Targets(setup);
    rs := [];
    var i := 0;
    while i < |ts|
      invariant 0 <= i <= |ts| && |rs| == i
      invariant forall j :: 0 <= j < i ==>
                  rs[j] == SweepSpec(stores(ts[j]), answers(ts[j]), locked(ts[j]), cfg, threshold, AsWritten, renv(ts[j]))
    {
      var x := ts[i];
      var r := Sweep(stores(x), answers(x), locked(x), cfg, threshold, AsWritten, renv(x));
      rs := rs + [r];
      i := i + 1;
    }
  }
}
