/**
 Day keys as `_create_dataframe` actually compares them. The persisted history
 is read back keyed by parsed dates, while `_get_counts` keys the fresh counts
 by the raw API timestamp strings, and a string never equals a parsed date.
 Only the conversion of the index that follows the merge brings both kinds of
 key to the same day. The second half of the module normalises the timestamps
 before counting, which is what the merge rule needs.
 */
module DayKeys {
  import opened Wrappers
  import opened RepoStats

  /** A dictionary key in the source: a date parsed from the persisted file,
      or a timestamp string from the API. */
  datatype Key = Parsed(day: int) | Text(stamp: string)

  /** The day that the index conversion makes of a key; `parse` is the date
      parser applied to API strings. */
  function DayOf(k: Key, parse: string -> int): int
  {
    match k
    case Parsed(d) => d
    case Text(s) => parse(s)
  }

  /** The keys read back from a persisted file. */
  predicate ParsedOnly(m: map<Key, Rec>)
  {
    forall k :: k in m ==> k.Parsed?
  }

  /** The counts of a snapshot as `_get_counts` keys them: by the raw strings. */
  function RawCounts(items: seq<Item<string>>): (m: map<Key, Rec>)
    ensures forall k :: k in m ==> k.Text? && k.stamp in Timestamps(items)
    ensures forall s :: s in Timestamps(items) ==> Text(s) in m
  {
    CountsOfKeys(items);
    var c := CountsOf(items);
    map s | s in c :: Text(s) := c[s]
  }

  /** No two keys of the converted index fall on the same day. */
  predicate UniqueDays(frame: map<Key, Rec>, parse: string -> int)
  {
    forall k1, k2 :: k1 in frame && k2 in frame && k1 != k2 ==> DayOf(k1, parse) != DayOf(k2, parse)
  }

  /** Reading a written frame back: turning the file into a dictionary raises
      when a day is repeated, and the except branch then treats the run as a
      fresh start. */
  function ReadBack(frame: map<Key, Rec>, parse: string -> int): (r: Option<map<Key, Rec>>)
    ensures r.None? <==> !UniqueDays(frame, parse)
    ensures r.Some? ==> ParsedOnly(r.value)
    ensures r.Some? ==> r.value.Keys == set k | k in frame :: Parsed(DayOf(k, parse))
    ensures r.Some? ==> forall k :: k in frame ==>
      Parsed(DayOf(k, parse)) in r.value && r.value[Parsed(DayOf(k, parse))] == frame[k]
  {
    if UniqueDays(frame, parse) then Some(map k | k in frame :: Parsed(DayOf(k, parse)) := frame[k])
    else None
  }

  /** One run of the source as written. */
  function RunAsWritten(prior: Option<map<Key, Rec>>, items: seq<Item<string>>): map<Key, Rec>
  {
    NextRecord(prior, RawCounts(items))
  }

  /** As written, no fresh key is ever found in the history: the merge only
      adds, and the replacement rule never runs. */
  lemma MergeOnlyAdds(oldData: map<Key, Rec>, items: seq<Item<string>>)
    requires ParsedOnly(oldData)
    ensures oldData.Keys !! RawCounts(items).Keys
    ensures Reconcile(oldData, RawCounts(items)) == oldData + RawCounts(items)
  {
  }

  /** As written, whenever a snapshot reports a day the history already
      holds, the written frame holds that day twice: the next read fails, and
      the next run keeps only its own snapshot, whatever the history was. */
  lemma OverlapLosesHistory(h: map<Key, Rec>, items: seq<Item<string>>, parse: string -> int,
                            i: int, next: seq<Item<string>>)
    requires ParsedOnly(h)
    requires 0 <= i < |items| && Parsed(parse(items[i].timestamp)) in h
    ensures ReadBack(RunAsWritten(Some(h), items), parse) == None
    ensures RunAsWritten(ReadBack(RunAsWritten(Some(h), items), parse), next) == RawCounts(next)
  {
    MergeOnlyAdds(h, items);
    var frame := RunAsWritten(Some(h), items);
    var s := items[i].timestamp;
    assert s in Timestamps(items);
    assert Text(s) in frame && Parsed(parse(s)) in frame;
    assert DayOf(Text(s), parse) == DayOf(Parsed(parse(s)), parse);
  }

  const Jan2 := "2024-01-02T00:00:00Z"

  /** A history of days 0 and 1, and the same one-day snapshot for day 1 on
      two runs. The first run writes day 1 twice, so the second run cannot
      read the file back and keeps only the snapshot: day 0 is lost, and so is
      the larger count (10,5) of day 1. */
  lemma HistoryLostOnNextRun(parse: string -> int)
    requires parse(Jan2) == 1
    ensures var first := RunAsWritten(Some(map[Parsed(0) := Rec(4, 2), Parsed(1) := Rec(10, 5)]), [Item(Jan2, 3, 1)]);
      && !UniqueDays(first, parse)
      && ReadBack(first, parse) == None
      && RunAsWritten(ReadBack(first, parse), [Item(Jan2, 3, 1)]) == map[Text(Jan2) := Rec(3, 1)]
  {
    var items := [Item(Jan2, 3, 1)];
    assert items[..0] == [];
    assert CountsOf(items) == map[Jan2 := Rec(3, 1)];
    assert RawCounts(items) == map[Text(Jan2) := Rec(3, 1)];
    var first := RunAsWritten(Some(map[Parsed(0) := Rec(4, 2), Parsed(1) := Rec(10, 5)]), items);
    assert Parsed(1) in first && Text(Jan2) in first;
    assert DayOf(Parsed(1), parse) == DayOf(Text(Jan2), parse);
  }

  // ---------------------------------------------------------------------
  // Corrected: timestamps become days before they are counted.

  /** The snapshot with every timestamp replaced by its day. */
  function Normalized(items: seq<Item<string>>, parse: string -> int): seq<Item<int>>
  {
    seq(|items|, i requires 0 <= i < |items| => Item(parse(items[i].timestamp), items[i].count, items[i].uniques))
  }

  /** One run with day keys on both sides of the merge. */
  function RunNormalized(prior: Option<map<int, Rec>>, items: seq<Item<string>>, parse: string -> int): map<int, Rec>
  {
    NextRecord(prior, CountsOf(Normalized(items, parse)))
  }

  /** With normalised keys, a run keeps every stored day, adds every day of
      the snapshot, and a stored record is only replaced by one that is
      strictly larger in a count. */
  lemma NormalizedRunKeepsHistory(oldData: map<int, Rec>, items: seq<Item<string>>, parse: string -> int)
    ensures RunNormalized(Some(oldData), items, parse).Keys ==
      oldData.Keys + (set i | 0 <= i < |items| :: parse(items[i].timestamp))
    ensures forall d :: d in oldData ==>
      RunNormalized(Some(oldData), items, parse)[d] == oldData[d] ||
      Supersedes(RunNormalized(Some(oldData), items, parse)[d], oldData[d])
  {
    var norm := Normalized(items, parse);
    CountsOfKeys(norm);
    assert Timestamps(norm) == (set i | 0 <= i < |items| :: parse(items[i].timestamp)) by {
      forall d | d in Timestamps(norm) ensures d in (set i | 0 <= i < |items| :: parse(items[i].timestamp)) {
        var i :| 0 <= i < |norm| && norm[i].timestamp == d;
        assert parse(items[i].timestamp) == d;
      }
      forall d | d in (set i | 0 <= i < |items| :: parse(items[i].timestamp)) ensures d in Timestamps(norm) {
        var i :| 0 <= i < |items| && parse(items[i].timestamp) == d;
        assert norm[i].timestamp == d;
      }
    }
  }

  /** The frame of a day-keyed record: each day becomes a parsed date. */
  function AsParsed(m: map<int, Rec>): map<Key, Rec>
  {
    map d | d in m :: Parsed(d) := m[d]
  }

  /** With day keys the written frame reads back as it was written, so the
      corrected runs below may pass a record straight to the next run. */
  lemma ReadBackDayKeyed(m: map<int, Rec>, parse: string -> int)
    ensures ReadBack(AsParsed(m), parse) == Some(AsParsed(m))
  {
    var frame := AsParsed(m);
    forall k | k in frame ensures k.Parsed? && DayOf(k, parse) == k.day {
    }
    assert UniqueDays(frame, parse);
    assert ReadBack(frame, parse).Some?;
    var r := ReadBack(frame, parse).value;
    assert r.Keys == frame.Keys;
    forall k | k in r ensures r[k] == frame[k] {
      assert Parsed(DayOf(k, parse)) == k;
    }
    assert r == frame;
  }

  /** The example of `HistoryLostOnNextRun` with normalised keys: after two
      runs the history is unchanged, days 0 and 1 with the larger count of
      day 1. */
  lemma NormalizedRunKeepsExample(parse: string -> int)
    requires parse(Jan2) == 1
    ensures var stored := map[0 := Rec(4, 2), 1 := Rec(10, 5)];
      RunNormalized(Some(RunNormalized(Some(stored), [Item(Jan2, 3, 1)], parse)), [Item(Jan2, 3, 1)], parse) == stored
  {
    var items := [Item(Jan2, 3, 1)];
    var norm := Normalized(items, parse);
    assert norm == [Item(1, 3, 1)];
    assert norm[..0] == [];
    assert CountsOf(norm) == map[1 := Rec(3, 1)];
    var stored := map[0 := Rec(4, 2), 1 := Rec(10, 5)];
    assert RunNormalized(Some(stored), items, parse) == stored;
  }
}
