/**
 * The workload registry of experiments/workloads.py: three concrete
 * workload classes, each naming a database and a collection, and the
 * factory `get_workload` that looks a class up by name.
 *
 * The lifecycle hooks (`setup_hook`, `execute_workload`, `cleanup_hook`)
 * are database calls or empty and are not part of this model.
 */
module Workloads {
  import opened Common

  /** The concrete subclasses of `BaseWorkload`. */
  datatype Workload = Ember | Linkbench | Test

  /** The two attributes a workload object carries; `None` is Python's `None`. */
  datatype Names = Names(dbName: Option<string>, collectionName: Option<string>)

  /** What `BaseWorkload.__init__` leaves: both names unset. */
  const BaseInit: Names := Names(None, None)

  /**
   * The names after a subclass's `__init__`, which runs the base
   * constructor and then sets both attributes. Every concrete workload ends
   * with two non-empty names, unlike the base.
   */
  function NamesOf(w: Workload): (n: Names)
    ensures n.dbName.Some? && n.dbName.value != ""
    ensures n.collectionName.Some? && n.collectionName.value != ""
    ensures n != BaseInit
  {
    var base := BaseInit;
    match w
    case Ember => base.(dbName := Some("ember2018"), collectionName := Some("ember_train"))
    case Linkbench => base.(dbName := Some("linkbench"), collectionName := Some("linktable"))
    case Test => base.(dbName := Some("ember2018"), collectionName := Some("ember_test"))
  }

  /** The registry dict of `get_workload`, in its insertion order. */
  const Registry: seq<(string, Workload)> := [("ember", Ember), ("linkbench", Linkbench), ("test", Test)]

  /** The key under which a class is registered. */
  function Key(w: Workload): string {
    match w
    case Ember => "ember"
    case Linkbench => "linkbench"
    case Test => "test"
  }

  /** Dict lookup in a key-ordered list of entries with distinct keys. */
  function Lookup(entries: seq<(string, Workload)>, name: string): (r: Option<Workload>)
    ensures r.Some? <==> exists k :: 0 <= k < |entries| && entries[k].0 == name
    ensures r.Some? ==> exists k :: 0 <= k < |entries| && entries[k] == (name, r.value)
  {
    if entries == [] then None
    else if entries[0].0 == name then Some(entries[0].1)
    else
      var r := Lookup(entries[1..], name);
      assert forall k :: 1 <= k < |entries| ==> entries[k] == entries[1..][k - 1];
      assert r.Some? ==> entries[1..][0..] == entries[1..];
      r
  }

  /** Python's `repr` of a list of strings that hold no quote or backslash. */
  function ListRepr(items: seq<string>): string {
    "[" + JoinQuoted(items) + "]"
  }

  function JoinQuoted(items: seq<string>): string {
    if items == [] then ""
    else if |items| == 1 then "'" + items[0] + "'"
    else "'" + items[0] + "', " + JoinQuoted(items[1..])
  }

  /** The message of the `ValueError` for an unknown name. */
  function UnknownWorkloadMessage(name: string): string {
    "Unknown workload: " + name + ". Available workloads: "
      + ListRepr(seq(|Registry|, k requires 0 <= k < |Registry| => Registry[k].0))
  }

  /**
   * `get_workload(name)`: the registered class for the name, or the
   * `ValueError` naming it and the available workloads.
   */
  function GetWorkload(name: string): (r: Result<Workload, string>)
    ensures r.Success? <==> name in {"ember", "linkbench", "test"}
    ensures r.Success? ==> Key(r.value) == name
    ensures r.Failure? ==> r.error == UnknownWorkloadMessage(name)
  {
    match Lookup(Registry, name)
    case Some(w) => Success(w)
    case None => Failure(UnknownWorkloadMessage(name))
  }

  /** Looking a class up by its own key finds that class: the registry is a bijection. */
  lemma {:induction false} KeyRoundTrip(w: Workload)
    ensures GetWorkload(Key(w)) == Success(w)
  {
    match w
    case Ember => assert Registry[0] == ("ember", Ember);
    case Linkbench => assert Registry[1] == ("linkbench", Linkbench);
    case Test => assert Registry[2] == ("test", Test);
  }

  /** The database and collection behind each registered name. */
  lemma {:induction false} RegisteredTargets()
    ensures GetWorkload("ember").Success?
      && NamesOf(GetWorkload("ember").value) == Names(Some("ember2018"), Some("ember_train"))
    ensures GetWorkload("linkbench").Success?
      && NamesOf(GetWorkload("linkbench").value) == Names(Some("linkbench"), Some("linktable"))
    ensures GetWorkload("test").Success?
      && NamesOf(GetWorkload("test").value) == Names(Some("ember2018"), Some("ember_test"))
  {
    KeyRoundTrip(Ember);
    KeyRoundTrip(Linkbench);
    KeyRoundTrip(Test);
  }
}
