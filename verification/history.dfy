/**
 * The import as the program runs it: a connection to `places.sqlite`
 * whose open transaction is changed row by row, and the driver that reads
 * the takeout in chunks of 1000 entries, one transaction per chunk.
 */
module History {
  import opened Wrappers
  import opened Utf8
  import opened UrlHash
  import opened Origins
  import opened Guid
  import opened Places
  import opened Takeout

  /** How an import ends: every entry processed, or the panic of the entry at index `at`. */
  datatype Outcome = Completed | Panicked(at: nat)

  /** The number of entries imported in one transaction. */
  const ChunkSize: nat := 1000

  /**
   * A connection with its open transaction: the three tables as the
   * transaction sees them, the next row id, and the tables as of the last
   * commit, to which a rollback returns.
   */
  class FirefoxHistory {
    var origins: seq<OriginRow>
    var places: seq<PlaceRow>
    var visits: seq<VisitRow>
    var nextId: nat
    var committed: Tables

    /** The tables as the open transaction sees them. */
    function Snapshot(): Tables
      reads this
    {
      Tables(origins, places, visits, nextId)
    }

    /** Opening a database whose tables hold `tables`, with nothing uncommitted. */
    constructor Open(tables: Tables)
      ensures Snapshot() == tables && committed == tables
    {
      origins := tables.origins;
      places := tables.places;
      visits := tables.visits;
      nextId := tables.nextId;
      committed := tables;
    }

    /**
     * `find_or_insert_origin`, on the open transaction: the statements of
     * `ResolveOrigin`, applied to the fields in place.
     */
    method FindOrInsertOrigin(url: Url) returns (r: Result<nat, ImportError>)
      modifies this
      ensures (Snapshot(), r) == ResolveOrigin(old(Snapshot()), url)
      ensures committed == old(committed)
    {
      var key := OriginKeyOf(url);
      if key.None? {
        return Failure(OpaqueOrigin);
      }
      var k := FindOrigin(origins, key.value);
      if k.Some? {
        return Success(origins[k.value].id);
      }
      var id := nextId;
      origins := origins + [NewOrigin(id, key.value)];
      nextId := nextId + 1;
      return Success(id);
    }

    /**
     * `find_or_insert_place`, on the open transaction, drawing `random` for a
     * new place's GUID: the statements of `ResolvePlace`, applied to the
     * fields in place.
     */
    method FindOrInsertPlace(url: Url, title: Option<string>, random: GuidBytes) returns (r: Result<nat, ImportError>)
      modifies this
      ensures (Snapshot(), r) == ResolvePlace(old(Snapshot()), url, title, GenerateGuid(random))
      ensures committed == old(committed)
    {
      var k := FindPlace(places, url.serialized);
      if k.Some? {
        return Success(places[k.value].id);
      }
      if url.host.None? {
        return Failure(NoHost);
      }
      var guid := GenerateGuid(random);
      var urlHash := Hash(Utf8Bytes(url.serialized));
      if urlHash.Failure? {
        return Failure(HashFailed(urlHash.error));
      }
      var originId := FindOrInsertOrigin(url);
      if originId.Failure? {
        return Failure(originId.error);
      }
      var id := nextId;
      places := places + [NewPlace(id, url, title, guid, urlHash.value, originId.value)];
      nextId := nextId + 1;
      return Success(id);
    }

    /**
     * `FirefoxHistoryBatch::insert_visit`, on the open transaction: the
     * statements of `RecordVisit`, applied to the fields in place.
     */
    method InsertVisit(url: Url, title: Option<string>, time: nat, random: GuidBytes) returns (r: Result<(), ImportError>)
      modifies this
      ensures (Snapshot(), r) == RecordVisit(old(Snapshot()), url, title, time, GenerateGuid(random))
      ensures committed == old(committed)
    {
      if HasVisitAt(visits, time) {
        return Success(());
      }
      ghost var before := Snapshot();
      var place := FindOrInsertPlace(url, title, random);
      if place.Failure? {
        return Failure(place.error);
      }
      ghost var found := Snapshot();
      places := MarkVisited(places, place.value, time);
      visits := visits + [NewVisit(nextId, place.value, time)];
      nextId := nextId + 1;
      assert Snapshot() == VisitPlace(found, place.value, time);
      RecordVisitUnfold(before, url, title, time, GenerateGuid(random));
      return Success(());
    }

    /** `FirefoxHistoryBatch::commit`: the open transaction's tables become the committed ones. */
    method Commit()
      modifies this
      ensures committed == Snapshot() == old(Snapshot())
    {
      committed := Snapshot();
    }

    /** Dropping the transaction without commit: the tables go back to the last commit. */
    method Rollback()
      modifies this
      ensures Snapshot() == committed == old(committed)
    {
      origins := committed.origins;
      places := committed.places;
      visits := committed.visits;
      nextId := committed.nextId;
    }
  }

  /** The index of the first entry of the chunk that holds entry `i`. */
  function ChunkStartOf(i: nat): (s: nat)
    ensures s <= i
    decreases i
  {
    if i < ChunkSize then 0 else ChunkStartOf(i - ChunkSize) + ChunkSize
  }

  /** A chunk starts at a multiple of `ChunkSize` and holds the `ChunkSize` entries from there. */
  lemma {:induction false} ChunkStartRoundsDown(i: nat)
    ensures ChunkStartOf(i) == i - i % ChunkSize
    ensures ChunkStartOf(i) <= i < ChunkStartOf(i) + ChunkSize
    decreases i
  {
    if i >= ChunkSize {
      ChunkStartRoundsDown(i - ChunkSize);
    }
  }

  /** Every entry of the chunk that starts at `start` belongs to that chunk. */
  lemma {:induction false} ChunkStart(start: nat, i: nat)
    requires ChunkStartOf(start) == start && start <= i < start + ChunkSize
    ensures ChunkStartOf(i) == start
    decreases start
  {
    if start >= ChunkSize {
      ChunkStart(start - ChunkSize, i - ChunkSize);
    }
  }

  /** The chunk after one that starts at a chunk start starts at a chunk start too. */
  lemma NextChunkStart(start: nat)
    requires ChunkStartOf(start) == start
    ensures ChunkStartOf(start + ChunkSize) == start + ChunkSize
  {
  }

  /** A panic in the chunk that starts at `start` ends the whole run there. */
  lemma PanicEnds(t0: Tables, entries: seq<Entry>, guids: seq<string>, start: nat, panicAt: Option<nat>, reported: seq<nat>)
    requires |guids| == |entries| && ChunkStartOf(start) == start
    requires panicAt.Some? && start <= panicAt.value < start + ChunkSize && panicAt.value < |entries|
    requires Run(t0, entries[..panicAt.value + 1], guids[..panicAt.value + 1]).panic == panicAt
    requires Run(t0, entries[..panicAt.value + 1], guids[..panicAt.value + 1]).failed == reported
    ensures Run(t0, entries, guids).panic == panicAt && Run(t0, entries, guids).failed == reported
    ensures ChunkStartOf(panicAt.value) == start
  {
    RunAfterPanic(t0, entries, guids, panicAt.value + 1);
    ChunkStart(start, panicAt.value);
  }

  /**
   * The entry at index `i` imported on the open transaction, whose tables
   * are those of the run of the entries before it: the run steps with it.
   * A failure is added to the reported indices; a URL without host is a
   * panic at `i`, after which the transaction's tables no longer matter.
   */
  method ImportOne(history: FirefoxHistory, ghost t0: Tables, entries: seq<Entry>, random: seq<GuidBytes>,
                   ghost guids: seq<string>, i: nat, reported: seq<nat>)
      returns (panicked: bool, reportedNext: seq<nat>)
    requires |random| == |entries| && i < |entries| && guids == GuidsOf(random)
    requires Run(t0, entries[..i], guids[..i]) == Progress(history.Snapshot(), reported, None)
    modifies history
    ensures history.committed == old(history.committed)
    ensures panicked ==>
              && Run(t0, entries[..i + 1], guids[..i + 1]).panic == Some(i)
              && Run(t0, entries[..i + 1], guids[..i + 1]).failed == reportedNext
    ensures !panicked ==> Run(t0, entries[..i + 1], guids[..i + 1]) == Progress(history.Snapshot(), reportedNext, None)
  {
    var entry := entries[i];
    var result := history.InsertVisit(entry.url, TitleOf(entry.title), entry.timeUsec, random[i]);
    GuidsOfAt(random, i);
    RunSnoc(t0, entries, guids, i);
    panicked := result == Failure(NoHost);
    if panicked {
      reportedNext := reported;
    } else if result.Failure? {
      reportedNext := reported + [i];
    } else {
      reportedNext := reported;
    }
  }

  /**
   * One chunk, the entries from `start` up to `end`, as one transaction:
   * every failed entry is added to `reported` and the transaction is
   * committed at the end; a URL without host stops the chunk at its index
   * and rolls the transaction back to the tables the chunk started from.
   */
  method ImportChunk(history: FirefoxHistory, ghost t0: Tables, entries: seq<Entry>, random: seq<GuidBytes>,
                     ghost guids: seq<string>, start: nat, end: nat, reported0: seq<nat>)
      returns (panicAt: Option<nat>, reported: seq<nat>)
    requires |random| == |entries| && guids == GuidsOf(random)
    requires start <= end <= |entries|
    requires Run(t0, entries[..start], guids[..start]) == Progress(history.Snapshot(), reported0, None)
    requires history.committed == history.Snapshot()
    modifies history
    ensures history.committed == history.Snapshot()
    ensures panicAt.None? ==> Run(t0, entries[..end], guids[..end]) == Progress(history.Snapshot(), reported, None)
    ensures panicAt.Some? ==>
              && start <= panicAt.value < end
              && Run(t0, entries[..panicAt.value + 1], guids[..panicAt.value + 1]).panic == panicAt
              && Run(t0, entries[..panicAt.value + 1], guids[..panicAt.value + 1]).failed == reported
              && history.Snapshot() == old(history.Snapshot())
  {
    reported := reported0;
    var i := start;
    while i < end
      invariant start <= i <= end
      invariant Run(t0, entries[..i], guids[..i]) == Progress(history.Snapshot(), reported, None)
      invariant history.committed == old(history.Snapshot())
      decreases end - i
    {
      var panicked;
      panicked, reported := ImportOne(history, t0, entries, random, guids, i, reported);
      if panicked {
        history.Rollback();
        panicAt := Some(i);
        assert panicAt.value + 1 == i + 1;
        return;
      }
      i := i + 1;
    }
    history.Commit();
    return None, reported;
  }

  /**
   * `main`'s loop: the entries in chunks of `ChunkSize`, each chunk one
   * transaction committed at its end, every failed entry reported and
   * skipped. A URL without host panics: the open transaction is rolled
   * back, which leaves the tables as the chunks before committed them, and
   * the import ends. The i-th entry draws `random[i]` should it need a GUID.
   */
  method ImportTakeout(history: FirefoxHistory, entries: seq<Entry>, random: seq<GuidBytes>)
      returns (outcome: Outcome, reported: seq<nat>)
    requires |random| == |entries|
    requires history.Snapshot() == history.committed
    modifies history
    ensures history.Snapshot() == history.committed
    ensures var p := Run(old(history.Snapshot()), entries, GuidsOf(random));
            && reported == p.failed
            && (outcome.Completed? <==> p.panic.None?)
            && (outcome.Completed? ==> history.Snapshot() == p.tables)
            && (outcome.Panicked? ==>
                  && outcome.at < |entries|
                  && p.panic == Some(outcome.at)
                  && history.Snapshot() == Run(old(history.Snapshot()), entries[..ChunkStartOf(outcome.at)], GuidsOf(random)[..ChunkStartOf(outcome.at)]).tables)
  {
    ghost var t0 := history.Snapshot();
    ghost var guids := GuidsOf(random);
    reported := [];
    var start := 0;
    while start < |entries|
      invariant 0 <= start <= |entries| && (start < |entries| ==> ChunkStartOf(start) == start)
      invariant Run(t0, entries[..start], guids[..start]) == Progress(history.Snapshot(), reported, None)
      invariant history.committed == history.Snapshot()
      decreases |entries| - start
    {
      var end := if start + ChunkSize < |entries| then start + ChunkSize else |entries|;
      var panicAt;
      panicAt, reported := ImportChunk(history, t0, entries, random, guids, start, end, reported);
      if panicAt.Some? {
        PanicEnds(t0, entries, guids, start, panicAt, reported);
        return Panicked(panicAt.value), reported;
      }
      NextChunkStart(start);
      start := end;
    }
    assert entries[..start] == entries && guids[..start] == guids;
    return Completed, reported;
  }
}
