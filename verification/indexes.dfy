/**
 * Index literals and the collection's index list: converting a recommended
 * index into the `(field, direction)` list handed to `create_index`
 * (experiments/utils.py `create_indexes`), and the drop-then-create sequence
 * of `run_eval` (experiments/evaluate.py).
 *
 * The database is not modelled. A collection is the list of its user-defined
 * indexes in creation order (the default `_id` index is implicit and never
 * dropped), and whether the server accepts one `create_index` call is the
 * abstract predicate `accepts`.
 */
module Indexes {
  import opened Common

  /** The Python literals `ast.literal_eval` can return that matter here. */
  datatype Literal =
    | Int(i: int)
    | Str(s: string)
    | Tuple(items: seq<Literal>)
    | List(items: seq<Literal>)
    | Dict(entries: seq<(Literal, Literal)>)

  /** A Python dict never holds the same key twice. */
  predicate DistinctKeys(entries: seq<(Literal, Literal)>) {
    forall i, j :: 0 <= i < j < |entries| ==> entries[i].0 != entries[j].0
  }

  /**
   * The index specification `create_indexes` passes to `create_index`: a dict
   * becomes the list of its `(field, direction)` pairs in key order, anything
   * else is passed on unchanged.
   */
  function IndexSpecOf(index: Literal): (spec: Literal)
    ensures !index.Dict? ==> spec == index
    ensures index.Dict? ==> spec.List? && |spec.items| == |index.entries|
    ensures index.Dict? ==> forall k :: 0 <= k < |spec.items| ==>
              spec.items[k] == Tuple([index.entries[k].0, index.entries[k].1])
  {
    match index
    case Dict(entries) =>
      List(seq(|entries|, k requires 0 <= k < |entries| => Tuple([entries[k].0, entries[k].1])))
    case _ => index
  }

  /**
   * `dict(pairs)` for a list of two-element tuples with distinct first
   * elements; `None` for anything else.
   */
  function DictOfPairs(spec: Literal): (r: Option<Literal>)
    ensures r.Some? ==> r.value.Dict? && DistinctKeys(r.value.entries)
  {
    if spec.List? && (forall k :: 0 <= k < |spec.items| ==> spec.items[k].Tuple? && |spec.items[k].items| == 2) then
      var entries := seq(|spec.items|, k requires 0 <= k < |spec.items| && spec.items[k].Tuple? && |spec.items[k].items| == 2 =>
        (spec.items[k].items[0], spec.items[k].items[1]));
      if DistinctKeys(entries) then Some(Dict(entries)) else None
    else None
  }

  /** The pair list of a dict rebuilds exactly that dict: same keys, same directions, same order. */
  lemma PairsRoundTrip(index: Literal)
    requires index.Dict? && DistinctKeys(index.entries)
    ensures DictOfPairs(IndexSpecOf(index)) == Some(index)
  {
    var spec := IndexSpecOf(index);
    var entries := seq(|spec.items|, k requires 0 <= k < |spec.items| && spec.items[k].Tuple? && |spec.items[k].items| == 2 =>
      (spec.items[k].items[0], spec.items[k].items[1]));
    assert entries == index.entries;
  }

  /** The specification of each index, in list order. */
  function Specs(indexes: seq<Literal>): (specs: seq<Literal>)
    ensures |specs| == |indexes|
    ensures forall k :: 0 <= k < |specs| ==> specs[k] == IndexSpecOf(indexes[k])
  {
    seq(|indexes|, k requires 0 <= k < |indexes| => IndexSpecOf(indexes[k]))
  }

  /**
   * What a sequence of `create_index` calls leaves behind: either every call
   * succeeded, or the call at position `at` raised; in both cases `indexes`
   * is the collection's index list afterwards.
   */
  datatype CreateOutcome =
    | AllCreated(indexes: seq<Literal>)
    | Raised(at: nat, indexes: seq<Literal>)

  /**
   * Create `specs` one after the other on a collection that holds `current`.
   * The first rejected call raises and ends the sequence, so the indexes
   * before it exist and none after it are attempted.
   */
  function CreateInOrder(current: seq<Literal>, specs: seq<Literal>, accepts: Literal -> bool): (r: CreateOutcome)
    ensures r.AllCreated? <==> forall k :: 0 <= k < |specs| ==> accepts(specs[k])
    ensures r.AllCreated? ==> r.indexes == current + specs
    ensures r.Raised? ==> r.at < |specs| && !accepts(specs[r.at])
    ensures r.Raised? ==> forall k :: 0 <= k < r.at ==> accepts(specs[k])
    ensures r.Raised? ==> r.indexes == current + specs[..r.at]
    decreases |specs|
  {
    if specs == [] then AllCreated(current)
    else if !accepts(specs[0]) then Raised(0, current)
    else
      match CreateInOrder(current + [specs[0]], specs[1..], accepts)
      case AllCreated(ix) =>
        assert current + [specs[0]] + specs[1..] == current + specs;
        AllCreated(ix)
      case Raised(k, ix) =>
        assert current + [specs[0]] + specs[1..][..k] == current + specs[..k + 1];
        Raised(k + 1, ix)
  }

  /**
   * `create_indexes(client, workload, indexes)`: every index is converted to
   * its specification and created in list order; the first failure is
   * re-raised, so later indexes are not created.
   */
  function CreateIndexes(current: seq<Literal>, indexes: seq<Literal>, accepts: Literal -> bool): (r: CreateOutcome)
    ensures r.AllCreated? <==> forall k :: 0 <= k < |indexes| ==> accepts(IndexSpecOf(indexes[k]))
    ensures r.AllCreated? ==> r.indexes == current + Specs(indexes)
    ensures r.Raised? ==> r.at < |indexes| && !accepts(IndexSpecOf(indexes[r.at]))
    ensures r.Raised? ==> forall k :: 0 <= k < r.at ==> accepts(IndexSpecOf(indexes[k]))
    ensures r.Raised? ==> r.indexes == current + Specs(indexes[..r.at])
  {
    var created := CreateInOrder(current, Specs(indexes), accepts);
    assert created.Raised? ==> Specs(indexes)[..created.at] == Specs(indexes[..created.at]);
    created
  }

  /** `drop_indexes`: every user-defined index goes; only the implicit `_id` index stays. */
  function DropIndexes(current: seq<Literal>): (r: seq<Literal>)
    ensures |r| == 0
  {
    []
  }

  /**
   * The index phase of `run_eval(client, workload, indexes)`: drop every
   * index, then create the given ones as they are, in order. When every
   * creation succeeds the collection holds exactly `indexes`, in order,
   * whatever it held before; an empty list leaves no user index.
   */
  function RunEvalIndexes(before: seq<Literal>, indexes: seq<Literal>, accepts: Literal -> bool): (r: CreateOutcome)
    ensures r.AllCreated? <==> forall k :: 0 <= k < |indexes| ==> accepts(indexes[k])
    ensures r.AllCreated? ==> r.indexes == indexes
    ensures r.Raised? ==> r.at < |indexes| && r.indexes == indexes[..r.at]
    ensures indexes == [] ==> r == AllCreated([])
  {
    CreateInOrder(DropIndexes(before), indexes, accepts)
  }

}
