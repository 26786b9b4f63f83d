/**
 * The control flow of `main` in experiments/evaluate.py: validate the
 * workload name, check that the workload's collection exists, time
 * `num_runs` runs without indexes and `num_runs` runs with the recommended
 * indexes (each run going through the index phase of `run_eval`), and
 * optionally discard the best and worst sample of each list.
 *
 * Profiling, the recommendation tool, the workload queries and the clock
 * are outside the model: the recommended indexes, whether the collection
 * exists, whether the server accepts an index, and the time of run `n` are
 * parameters. Mean and standard deviation are not modelled.
 */
module Evaluate {
  import opened Common
  import opened Workloads
  import opened Indexes
  import opened Timings

  const MissingWorkload: string := "Workload configuration is missing."

  /**
   * The validation at the top of `main`: an unset or empty name is a
   * missing configuration, and `get_workload`'s `ValueError` is re-raised
   * as a validation error with the same message.
   */
  function LoadWorkload(name: Option<string>): (r: Result<Workload, ValidationError>)
    ensures r.Success? <==> name.Some? && name.value in {"ember", "linkbench", "test"}
    ensures r.Success? ==> Key(r.value) == name.value
    ensures name.None? || name.value == "" ==> r == Failure(ValidationError(MissingWorkload))
    ensures name.Some? && name.value != "" && r.Failure? ==>
              r == Failure(ValidationError(UnknownWorkloadMessage(name.value)))
  {
    if name.None? || name.value == "" then Failure(ValidationError(MissingWorkload))
    else
      match GetWorkload(name.value)
      case Success(w) => Success(w)
      case Failure(message) => Failure(ValidationError(message))
  }

  /** The message `enable_profiling` raises when the workload's collection is missing. */
  function MissingCollectionMessage(names: Names): string
    requires names.dbName.Some? && names.collectionName.Some?
  {
    "Collection '" + names.collectionName.value + "' does not exist in database '" + names.dbName.value + "'."
  }

  /** Why `main` stops early. */
  datatype RunError =
    | Invalid(error: ValidationError)
    /** `create_index` raised in a run with indexes, on the index at this position. */
    | IndexCreationFailed(at: nat)

  /** What `main` logs, before the statistics. */
  datatype Report = Report(
    workload: Workload,
    timesNoIndexes: seq<real>,
    timesWithIndexes: seq<real>,
    numRecommended: nat,
    finalIndexes: seq<Literal>)

  /** The `num_runs` configuration parameter as `range(num_runs)` sees it. */
  function RunCount(numRuns: int): nat {
    if numRuns > 0 then numRuns else 0
  }

  /** The list the loop of `main` builds: the time of each run, in run order. */
  function RawTimes(numRuns: int, time: nat -> real): (r: seq<real>)
    ensures |r| == RunCount(numRuns)
    ensures forall n :: 0 <= n < |r| ==> r[n] == time(n)
  {
    seq(RunCount(numRuns), n requires 0 <= n < RunCount(numRuns) => time(n))
  }

  /** Every index of the list is accepted by the server. */
  predicate AllAccepted(indexes: seq<Literal>, accepts: Literal -> bool) {
    forall k :: 0 <= k < |indexes| ==> accepts(indexes[k])
  }

  /**
   * One timing loop of `main`: `num_runs` calls of `run_eval` with the same
   * index list, appending one time per run. A rejected index raises in the
   * first run. Otherwise the list holds exactly one time per run, in run
   * order, and the collection holds exactly `indexes` after at least one
   * run and is untouched after none.
   */
  method TimedRuns(numRuns: int, indexes: seq<Literal>, before: seq<Literal>,
                   accepts: Literal -> bool, time: nat -> real)
    returns (r: Result<(seq<real>, seq<Literal>), nat>)
    ensures r.Failure? <==> numRuns > 0 && !AllAccepted(indexes, accepts)
    ensures r.Failure? ==> r.error < |indexes| && !accepts(indexes[r.error])
    ensures r.Failure? ==> forall k :: 0 <= k < r.error ==> accepts(indexes[k])
    ensures r.Success? ==> r.value.0 == RawTimes(numRuns, time)
    ensures r.Success? ==> r.value.1 == if numRuns > 0 then indexes else before
  {
    var times: seq<real> := [];
    var state := before;
    var n := 0;
    while n < numRuns
      invariant 0 <= n <= RunCount(numRuns)
      invariant |times| == n
      invariant forall k :: 0 <= k < n ==> times[k] == time(k)
      invariant n > 0 ==> AllAccepted(indexes, accepts) && state == indexes
      invariant n == 0 ==> state == before
    {
      var outcome := RunEvalIndexes(state, indexes, accepts);
      if outcome.Raised? {
        return Failure(outcome.at);
      }
      state := outcome.indexes;
      times := times + [time(n)];
      n := n + 1;
    }
    return Success((times, state));
  }

  /**
   * `main` of experiments/evaluate.py, from parameter validation to the
   * trimmed timing lists.
   */
  method RunExperiment(workloadName: Option<string>, numRuns: int, discardBestWorst: bool,
              collectionExists: bool, recommended: seq<Literal>, before: seq<Literal>,
              accepts: Literal -> bool, timeNoIndexes: nat -> real, timeWithIndexes: nat -> real)
    returns (r: Result<Report, RunError>)
    ensures LoadWorkload(workloadName).Failure? ==> r == Failure(Invalid(LoadWorkload(workloadName).error))
    ensures LoadWorkload(workloadName).Success? && !collectionExists ==>
              r == Failure(Invalid(ValidationError(MissingCollectionMessage(NamesOf(LoadWorkload(workloadName).value)))))
    ensures r.Failure? && r.error.IndexCreationFailed? ==>
              numRuns > 0 && r.error.at < |recommended| && !accepts(recommended[r.error.at])
    ensures r.Success? <==> LoadWorkload(workloadName).Success? && collectionExists
                            && (numRuns > 0 ==> AllAccepted(recommended, accepts))
    ensures r.Success? ==> Key(r.value.workload) == workloadName.value
    ensures r.Success? ==> r.value.numRecommended == |recommended|
    ensures r.Success? ==> r.value.finalIndexes == if numRuns > 0 then recommended else before
    ensures r.Success? ==> r.value.timesNoIndexes == Trim(RawTimes(numRuns, timeNoIndexes), numRuns, discardBestWorst)
    ensures r.Success? ==> r.value.timesWithIndexes == Trim(RawTimes(numRuns, timeWithIndexes), numRuns, discardBestWorst)
  {
    var loaded := LoadWorkload(workloadName);
    if loaded.Failure? {
      return Failure(Invalid(loaded.error));
    }
    var workload := loaded.value;
    if !collectionExists {
      return Failure(Invalid(ValidationError(MissingCollectionMessage(NamesOf(workload)))));
    }
    var without := TimedRuns(numRuns, [], before, accepts, timeNoIndexes);
    // `run_eval` with no index to create cannot raise.
    assert without.Success?;
    var with := TimedRuns(numRuns, recommended, without.value.1, accepts, timeWithIndexes);
    if with.Failure? {
      return Failure(IndexCreationFailed(with.error));
    }
    var noIndexes := Trim(without.value.0, numRuns, discardBestWorst);
    var withIndexes := Trim(with.value.0, numRuns, discardBestWorst);
    return Success(Report(workload, noIndexes, withIndexes, |recommended|, with.value.1));
  }

  /**
   * After trimming, each list has `num_runs - 2` times, is sorted, and is
   * what the runs measured minus one smallest and one largest time; without
   * trimming it is exactly the measured times in run order.
   */
  lemma {:induction false} ReportedTimes(numRuns: int, discardBestWorst: bool, time: nat -> real)
    ensures discardBestWorst && numRuns >= 3 ==>
      && |Trim(RawTimes(numRuns, time), numRuns, discardBestWorst)| == numRuns - 2
      && Sorted(Trim(RawTimes(numRuns, time), numRuns, discardBestWorst))
      && multiset(Trim(RawTimes(numRuns, time), numRuns, discardBestWorst))
           + multiset{Min(RawTimes(numRuns, time)), Max(RawTimes(numRuns, time))}
         == multiset(RawTimes(numRuns, time))
    ensures !discardBestWorst || numRuns < 3 ==>
      && |Trim(RawTimes(numRuns, time), numRuns, discardBestWorst)| == RunCount(numRuns)
      && forall n :: 0 <= n < RunCount(numRuns) ==> Trim(RawTimes(numRuns, time), numRuns, discardBestWorst)[n] == time(n)
  {
    if discardBestWorst && numRuns >= 3 {
      TrimRemovesMinAndMax(RawTimes(numRuns, time), numRuns);
    }
  }
}
