/**
 The history-merge core of `RepoStats` (repostats.py): `_get_counts` turns one
 traffic snapshot into a dictionary of per-day counts, `_merge_dict` reconciles
 that dictionary with the persisted history, and `_create_dataframe` chooses
 between the merge and a fresh start.

 Day keys are a type parameter `K`: the model compares them only for
 equality, as the Python dictionaries do.
 */
module RepoStats {
  import opened Wrappers

  /** One day's counts: the `total_<kind>` and `unique_<kind>` columns. */
  datatype Rec = Rec(total: nat, unique: nat)

  /** One element of the `views` or `clones` list of an API response. */
  datatype Item<K> = Item(timestamp: K, count: nat, uniques: nat)

  /** The record `_get_counts` stores for an item. */
  function RecOf<K>(item: Item<K>): Rec
  {
    Rec(item.count, item.uniques)
  }

  // ---------------------------------------------------------------------
  // _get_counts

  /** The dictionary built by writing the items in order: an item whose
      timestamp was seen before overwrites the earlier entry. */
  function CountsOf<K(==)>(items: seq<Item<K>>): map<K, Rec>
    decreases |items|
  {
    if items == [] then map[]
    else
      var last := items[|items| - 1];
      CountsOf(items[..|items| - 1])[last.timestamp := RecOf(last)]
  }

  /** The distinct timestamps of a snapshot. */
  function Timestamps<K(==)>(items: seq<Item<K>>): set<K>
  {
    set i | 0 <= i < |items| :: items[i].timestamp
  }

  /** The index of the last item stamped `t`, or -1 when no item is. */
  function LastIndexOf<K(==)>(items: seq<Item<K>>, t: K): (i: int)
    ensures -1 <= i < |items|
    ensures i >= 0 ==> items[i].timestamp == t
    ensures forall j :: i < j < |items| ==> items[j].timestamp != t
    decreases |items|
  {
    if items == [] then -1
    else if items[|items| - 1].timestamp == t then |items| - 1
    else LastIndexOf(items[..|items| - 1], t)
  }

  /** A timestamp has an entry exactly when some item carries it, and the
      entry holds the values of the LAST such item (overwrite, not sum). */
  lemma {:induction false} CountsOfLastWins<K>(items: seq<Item<K>>, t: K)
    ensures t in CountsOf(items) <==> LastIndexOf(items, t) >= 0
    ensures t in CountsOf(items) ==> CountsOf(items)[t] == RecOf(items[LastIndexOf(items, t)])
    decreases |items|
  {
    if items != [] {
      CountsOfLastWins(items[..|items| - 1], t);
    }
  }

  /** One entry per distinct timestamp, and no other. */
  lemma {:induction false} CountsOfKeys<K>(items: seq<Item<K>>)
    ensures CountsOf(items).Keys == Timestamps(items)
  {
    forall t | t in Timestamps(items) ensures t in CountsOf(items) {
      CountsOfLastWins(items, t);
    }
    forall t | t in CountsOf(items) ensures t in Timestamps(items) {
      CountsOfLastWins(items, t);
    }
  }

  /** Two items on one day: the second replaces the first, nothing is added up. */
  lemma CountsOfRepeatedDay(t: int)
    ensures CountsOf([Item(t, 10, 5), Item(t, 3, 1)]) == map[t := Rec(3, 1)]
  {
    assert [Item(t, 10, 5), Item(t, 3, 1)][..1] == [Item(t, 10, 5)];
    assert [Item(t, 10, 5)][..0] == [];
    assert CountsOf([Item(t, 10, 5)]) == map[t := Rec(10, 5)];
  }

  /** `_get_counts`: fills the dictionary item by item. */
  method GetCounts<K(==)>(items: seq<Item<K>>) returns (counts: map<K, Rec>)
    ensures counts.Keys == Timestamps(items)
    ensures forall t :: t in counts ==>
      LastIndexOf(items, t) >= 0 && counts[t] == RecOf(items[LastIndexOf(items, t)])
    ensures counts == CountsOf(items)
  {
    counts := map[];
    for n := 0 to |items|
      invariant counts == CountsOf(items[..n])
    {
      assert items[..n + 1][..n] == items[..n];
      counts := counts[items[n].timestamp := RecOf(items[n])];
    }
    assert items[..|items|] == items;
    CountsOfKeys(items);
    forall t | t in counts
      ensures LastIndexOf(items, t) >= 0 && counts[t] == RecOf(items[LastIndexOf(items, t)])
    {
      CountsOfLastWins(items, t);
    }
  }

  // ---------------------------------------------------------------------
  // _merge_dict

  /** The replacement rule: the incoming record wins only when its total or
      its unique count is strictly larger than the stored one. */
  predicate Supersedes(incoming: Rec, stored: Rec)
  {
    incoming.total > stored.total || incoming.unique > stored.unique
  }

  /** The record left at a key of the new data. */
  function Resolve<K(==)>(oldData: map<K, Rec>, newData: map<K, Rec>, k: K): Rec
    requires k in newData
  {
    if k in oldData && !Supersedes(newData[k], oldData[k]) then oldData[k] else newData[k]
  }

  /** The history after a merge, key by key. */
  function Reconcile<K(==)>(oldData: map<K, Rec>, newData: map<K, Rec>): map<K, Rec>
  {
    map k | k in oldData.Keys + newData.Keys ::
      if k in newData then Resolve(oldData, newData, k) else oldData[k]
  }

  /** `_merge_dict`: visits every key of the new data once, adding it when
      the history lacks it and replacing the stored record when the new one
      supersedes it. */
  method MergeDict<K(==)>(oldData: map<K, Rec>, newData: map<K, Rec>) returns (updated: map<K, Rec>)
    ensures updated.Keys == oldData.Keys + newData.Keys
    ensures forall k :: k in oldData && k !in newData ==> updated[k] == oldData[k]
    ensures forall k :: k in newData && k !in oldData ==> updated[k] == newData[k]
    ensures forall k :: k in oldData && k in newData ==>
      updated[k] == if Supersedes(newData[k], oldData[k]) then newData[k] else oldData[k]
    ensures updated == Reconcile(oldData, newData)
  {
    updated := oldData;
    var pending := newData.Keys;
    while pending != {}
      invariant pending <= newData.Keys
      invariant updated.Keys == oldData.Keys + (newData.Keys - pending)
      invariant forall k :: k in updated ==>
        updated[k] == if k in newData && k !in pending then Resolve(oldData, newData, k) else oldData[k]
      decreases pending
    {
      var key :| key in pending;
      if key !in updated {
        updated := updated[key := newData[key]];
      } else if Supersedes(newData[key], updated[key]) {
        updated := updated[key := newData[key]];
      }
      pending := pending - {key};
    }
  }

  /** Every record of the result is one whole record of one input. */
  lemma ReconcileKeepsWholeRecords<K>(oldData: map<K, Rec>, newData: map<K, Rec>)
    ensures forall k :: k in Reconcile(oldData, newData) ==>
      (k in oldData && Reconcile(oldData, newData)[k] == oldData[k]) ||
      (k in newData && Reconcile(oldData, newData)[k] == newData[k])
  {
  }

  /** A stored record is only ever replaced by one that is strictly larger
      in at least one of the two counts. */
  lemma ReconcileNeverRegresses<K>(oldData: map<K, Rec>, newData: map<K, Rec>)
    ensures forall k :: k in oldData ==>
      Reconcile(oldData, newData)[k] == oldData[k] || Supersedes(Reconcile(oldData, newData)[k], oldData[k])
  {
  }

  /** After a merge, no record of the snapshot supersedes what is stored. */
  lemma ReconcileAbsorbs<K>(oldData: map<K, Rec>, newData: map<K, Rec>)
    ensures forall k :: k in newData ==> !Supersedes(newData[k], Reconcile(oldData, newData)[k])
  {
  }

  /** Merging a history with itself returns it unchanged. */
  lemma ReconcileSelf<K>(m: map<K, Rec>)
    ensures Reconcile(m, m) == m
  {
  }

  /** Merging the same snapshot a second time changes nothing. */
  lemma ReconcileIdempotent<K>(oldData: map<K, Rec>, newData: map<K, Rec>)
    ensures Reconcile(Reconcile(oldData, newData), newData) == Reconcile(oldData, newData)
  {
  }

  /** Merging into an empty history yields the snapshot itself. */
  lemma ReconcileIntoEmpty<K>(newData: map<K, Rec>)
    ensures Reconcile(map[], newData) == newData
  {
  }

  /** The four cases of the rule on one day: a larger total, a larger unique
      count, both, neither.  The first shows that the rule is not a field-wise
      maximum: the stored total 10 drops to 8. */
  lemma ReconcileCases(d: int)
    ensures Reconcile(map[d := Rec(10, 5)], map[d := Rec(8, 7)])[d] == Rec(8, 7)
    ensures Reconcile(map[d := Rec(10, 5)], map[d := Rec(12, 3)])[d] == Rec(12, 3)
    ensures Reconcile(map[d := Rec(10, 5)], map[d := Rec(11, 6)])[d] == Rec(11, 6)
    ensures Reconcile(map[d := Rec(10, 5)], map[d := Rec(9, 5)])[d] == Rec(10, 5)
  {
  }

  // ---------------------------------------------------------------------
  // _create_dataframe

  /** The record a run produces: the merge when the prior record could be
      read and merged, the fresh counts alone otherwise. */
  function NextRecord<K(==)>(prior: Option<map<K, Rec>>, counts: map<K, Rec>): map<K, Rec>
  {
    match prior
    case None => counts
    case Some(oldData) => Reconcile(oldData, counts)
  }

  /** `_create_dataframe`: `prior` is `None` when reading the persisted
      record, or merging with it, raised. */
  method CreateDataframe<K(==)>(counts: map<K, Rec>, prior: Option<map<K, Rec>>) returns (frame: map<K, Rec>)
    ensures prior.None? ==> frame == counts
    ensures prior.Some? ==> frame == Reconcile(prior.value, counts)
    ensures frame == NextRecord(prior, counts)
  {
    match prior {
      case None =>
        frame := counts;
      case Some(oldData) =>
        frame := MergeDict(oldData, counts);
    }
  }

  /** The days a prior record holds. */
  function Recorded<K(==)>(prior: Option<map<K, Rec>>): set<K>
  {
    if prior.Some? then prior.value.Keys else {}
  }

  /** The days that occur in any of a series of snapshots. */
  function AllDays<K(==)>(snapshots: seq<map<K, Rec>>): set<K>
    decreases |snapshots|
  {
    if snapshots == [] then {} else snapshots[0].Keys + AllDays(snapshots[1..])
  }

  /** The persisted record after one run per snapshot, each run reading what
      the previous one wrote. */
  function Replay<K(==)>(prior: Option<map<K, Rec>>, snapshots: seq<map<K, Rec>>): Option<map<K, Rec>>
    decreases |snapshots|
  {
    if snapshots == [] then prior
    else Replay(Some(NextRecord(prior, snapshots[0])), snapshots[1..])
  }

  /** Over any number of runs no day is ever dropped: the record holds exactly
      the days first recorded plus every day some snapshot reported. */
  lemma {:induction false} ReplayKeepsEveryDay<K>(prior: Option<map<K, Rec>>, snapshots: seq<map<K, Rec>>)
    ensures Replay(prior, snapshots).Some? <==> prior.Some? || snapshots != []
    ensures Recorded(Replay(prior, snapshots)) == Recorded(prior) + AllDays(snapshots)
    decreases |snapshots|
  {
    if snapshots != [] {
      ReplayKeepsEveryDay(Some(NextRecord(prior, snapshots[0])), snapshots[1..]);
    }
  }
}
