/**
 * The parameter handling and dispatch of experiments/profile_workload.py:
 * `validate_workload` and the choice of run function in `main`.
 *
 * `yanex.get_param` is modelled by its results: `main` reads the workload
 * parameter with the default "test", while `validate_workload` ignores its
 * argument and reads the parameter again without a default, so an unset
 * parameter (`None`) reaches the validation as a missing configuration.
 * Whether the configured collection exists is a parameter; profiling, the
 * run functions' queries and the recommendation tool are not modelled.
 */
module ProfileWorkload {
  import opened Common

  const Supported: seq<string> := ["linkbench", "ember", "test"]

  /**
   * `validate_workload(workload)`. Only the re-read parameter `reread`
   * decides: unset or empty is a missing configuration, a value outside the
   * supported list is rejected, the three supported names pass.
   */
  function ValidateWorkload(workload: string, reread: Option<string>): (r: Outcome<ValidationError>)
    ensures r.Pass? <==> reread.Some? && reread.value in Supported
    ensures reread.None? || reread.value == "" ==>
              r == Fail(ValidationError("Workload configuration is missing."))
    ensures reread.Some? && reread.value != "" && reread.value !in Supported ==>
              r == Fail(ValidationError("Unsupported workload: " + reread.value
                                        + ". Supported workloads are: linkbench, ember, test."))
  {
    var w := reread;
    if w.None? || w.value == "" then
      Fail(ValidationError("Workload configuration is missing."))
    else if w.value !in ["linkbench", "ember", "test"] then
      Fail(ValidationError("Unsupported workload: " + w.value + ". Supported workloads are: linkbench, ember, test."))
    else Pass
  }

  /** The three run functions of this script. */
  datatype RunFunction = RunLinkbench | RunEmber | RunTest

  /** The `if`/`elif` chain of `main`: the run function for a name, or none. */
  function Dispatch(workload: string): (r: Option<RunFunction>)
    ensures r.Some? <==> workload in Supported
    ensures workload == "linkbench" <==> r == Some(RunLinkbench)
    ensures workload == "ember" <==> r == Some(RunEmber)
    ensures workload == "test" <==> r == Some(RunTest)
  {
    if workload == "linkbench" then Some(RunLinkbench)
    else if workload == "ember" then Some(RunEmber)
    else if workload == "test" then Some(RunTest)
    else None
  }

  /**
   * `main` up to the dispatch: the collection check of `enable_profiling`
   * (with the configured database and collection names) comes first, then
   * the validation, then the choice of run function.
   */
  function ProfileRun(param: Option<string>, dbName: string, collectionName: string, collectionExists: bool)
    : (r: Result<Option<RunFunction>, ValidationError>)
    ensures !collectionExists ==> r == Failure(ValidationError(
              "Collection '" + collectionName + "' does not exist in database '" + dbName + "'."))
    ensures collectionExists && (param.None? || param.value !in Supported) ==>
              r.Failure? && r.error == ValidateWorkload(param.GetOr("test"), param).error
    ensures r.Success? <==> collectionExists && param.Some? && param.value in Supported
    ensures r.Success? ==> r.value.Some? && r.value == Dispatch(param.value)
  {
    var workload := param.GetOr("test");
    if !collectionExists then
      Failure(ValidationError("Collection '" + collectionName + "' does not exist in database '" + dbName + "'."))
    else
      match ValidateWorkload(workload, param)
      case Fail(e) => Failure(e)
      case Pass => Success(Dispatch(workload))
  }

  /**
   * The default of `main` never reaches the validation: with the parameter
   * unset, `main` would run the test workload, but the re-read value is
   * `None` and the run stops as a missing configuration.
   */
  lemma UnsetParameterIsMissing(dbName: string, collectionName: string)
    ensures ProfileRun(None, dbName, collectionName, true)
         == Failure(ValidationError("Workload configuration is missing."))
  {
  }
}
