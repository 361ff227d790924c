/**
 Document indexing: the two external stores, the writes made to them, and what one indexing run
 does, as a fold over its batches.
 */
module IndexingModel {
  import opened Common

  /** A hashed document: its uid is its hash, `source` is what the source id assigner returns for it. */
  datatype Document = Document(uid: string, source: Option<string>, body: string)

  datatype Record = Record(group: Option<string>, updatedAt: int)

  /** The record manager and the vector store. */
  datatype Stores = Stores(records: map<string, Record>, docs: map<string, string>)

  datatype Write =
    | Upsert(keys: seq<(string, Option<string>)>, time: int)
    | AddDocuments(docs: seq<Document>)
    | StoreDelete(ids: set<string>)
    | DeleteKeys(ids: set<string>)

  datatype Cleanup = NoCleanup | Full | Incremental

  datatype Options = Options(
    batchSize: int,
    cleanup: Cleanup,
    hasSourceIdKey: bool,
    cleanupBatchSize: nat,
    forceUpdate: bool)

  datatype Error = SourceIdKeyRequired | SourceIdMissing | SourceIdEmpty | TimeSync

  datatype Counters = Counters(numAdded: int, numUpdated: nat, numSkipped: nat, numDeleted: nat, addedDocs: seq<Document>) {
    function Plus(c: Counters): Counters {
      Counters(numAdded + c.numAdded, numUpdated + c.numUpdated, numSkipped + c.numSkipped,
               numDeleted + c.numDeleted, addedDocs + c.addedDocs)
    }
  }

  const ZERO := Counters(0, 0, 0, 0, [])

  /** The writes a piece of a run makes, its counts, and the error that stopped it, if any. */
  datatype Outcome = Outcome(writes: seq<Write>, counters: Counters, error: Option<Error>) {
    function Then(o: Outcome): Outcome { Outcome(writes + o.writes, counters.Plus(o.counters), o.error) }
  }

  /** The database clock read by the two updates of one batch: stamping known documents, and recording all. */
  datatype Readings = Readings(stamp: int, time: int)

  /** The readings for each batch; nothing is assumed of their order. */
  type Clock = nat -> Readings

  /** One deduplicated batch with its clock readings. */
  datatype Batch = Batch(docs: seq<Document>, stamp: int, time: int)

  // ---------------------------------------------------------------- the stores

  /** An existing record keeps its group; only its time moves. */
  function UpsertAll(records: map<string, Record>, keys: seq<(string, Option<string>)>, time: int): map<string, Record>
    decreases |keys|
  {
    if keys == [] then records
    else
      var (uid, group) := keys[0];
      var record := Record(if uid in records then records[uid].group else group, time);
      UpsertAll(records[uid := record], keys[1..], time)
  }

  function AddAll(docs: map<string, string>, added: seq<Document>): map<string, string>
    decreases |added|
  {
    if added == [] then docs else AddAll(docs[added[0].uid := added[0].body], added[1..])
  }

  function Apply(st: Stores, w: Write): Stores {
    match w
    case Upsert(keys, time) => st.(records := UpsertAll(st.records, keys, time))
    case AddDocuments(docs) => st.(docs := AddAll(st.docs, docs))
    case StoreDelete(ids) => st.(docs := st.docs - ids)
    case DeleteKeys(ids) => st.(records := st.records - ids)
  }

  function ApplyAll(st: Stores, ws: seq<Write>): Stores
    decreases |ws|
  {
    if ws == [] then st else ApplyAll(Apply(st, ws[0]), ws[1..])
  }

  /** The filter of `listKeys({ before })`: a zero time is no filter. */
  predicate Stale(r: Record, start: int) { start == 0 || r.updatedAt < start }

  predicate InGroups(r: Record, groups: set<string>) { r.group.Some? && r.group.value in groups }

  function StaleKeys(records: map<string, Record>, start: int): set<string> {
    set k | k in records && Stale(records[k], start)
  }

  function StaleInGroups(records: map<string, Record>, start: int, groups: set<string>): set<string> {
    set k | k in records && Stale(records[k], start) && InGroups(records[k], groups)
  }

  // ---------------------------------------------------------------- batches

  function Uids(docs: seq<Document>): set<string> { set d | d in docs :: d.uid }

  function Sources(docs: seq<Document>): set<string> { set d | d in docs && d.source.Some? :: d.source.value }

  /** First occurrences, in order. */
  function Deduplicated(docs: seq<Document>): (r: seq<Document>)
    ensures Uids(r) == Uids(docs)
  {
    if docs == [] then []
    else
      var init, last := docs[..|docs| - 1], docs[|docs| - 1];
      var r := Deduplicated(init);
      assert docs == init + [last];
      if last.uid in Uids(init) then
        assert Uids(docs) == Uids(init);
        r
      else
        assert Uids(docs) == Uids(init) + {last.uid};
        assert Uids(r + [last]) == Uids(r) + {last.uid};
        r + [last]
  }

  ghost predicate DistinctUids(docs: seq<Document>) {
    forall i, j :: 0 <= i < j < |docs| ==> docs[i].uid != docs[j].uid
  }

  function KeysOf(docs: seq<Document>): seq<(string, Option<string>)> {
    seq(|docs|, i requires 0 <= i < |docs| => (docs[i].uid, docs[i].source))
  }

  function UngroupedKeys(docs: seq<Document>): seq<(string, Option<string>)> {
    seq(|docs|, i requires 0 <= i < |docs| => (docs[i].uid, None))
  }

  /** The documents that are only time-stamped. */
  function ToSkip(records: map<string, Record>, docs: seq<Document>, force: bool): seq<Document> {
    if docs == [] then []
    else (if docs[0].uid in records && !force then [docs[0]] else []) + ToSkip(records, docs[1..], force)
  }

  /** The documents that are sent to the vector store. */
  function ToIndex(records: map<string, Record>, docs: seq<Document>, force: bool): seq<Document> {
    if docs == [] then []
    else (if docs[0].uid in records && !force then [] else [docs[0]]) + ToIndex(records, docs[1..], force)
  }

  /** The uids sent to the vector store although they are recorded. */
  function Forced(records: map<string, Record>, docs: seq<Document>, force: bool): set<string> {
    set d | d in docs && d.uid in records && force :: d.uid
  }

  predicate AnyNullSource(docs: seq<Document>) {
    docs != [] && (docs[0].source.None? || AnyNullSource(docs[1..]))
  }

  predicate AnyEmptySource(docs: seq<Document>) {
    docs != [] && (docs[0].source == Some("") || AnyEmptySource(docs[1..]))
  }

  /** Recorded keys and stored ids are the same. */
  ghost predicate InSync(st: Stores) { forall k :: k in st.records <==> k in st.docs }

  /** One batch, with the writes it makes before each way it can throw. */
  function BatchOutcome(st: Stores, b: Batch, o: Options, start: int): Outcome {
    var skip := ToSkip(st.records, b.docs, o.forceUpdate);
    var toIndex := ToIndex(st.records, b.docs, o.forceUpdate);
    var forced := Forced(st.records, b.docs, o.forceUpdate);
    if o.cleanup.Incremental? && AnyNullSource(b.docs) then Outcome([], ZERO, Some(SourceIdMissing))
    else if skip != [] && b.stamp < start then Outcome([], ZERO, Some(TimeSync))
    else
      var w1 := if skip == [] then [] else [Upsert(UngroupedKeys(skip), b.stamp)];
      var w2 := if toIndex == [] then [] else [AddDocuments(toIndex)];
      var counters := Counters(|toIndex| - |forced|, |forced|, |skip|, 0, toIndex);
      if b.docs != [] && b.time < start then Outcome(w1 + w2, counters, Some(TimeSync))
      else
        var written := w1 + w2 + [Upsert(KeysOf(b.docs), b.time)];
        if !o.cleanup.Incremental? then Outcome(written, counters, None)
        else if AnyEmptySource(b.docs) then Outcome(written, counters, Some(SourceIdEmpty))
        else
          var ids := StaleInGroups(ApplyAll(st, written).records, start, Sources(b.docs));
          Outcome(written + [StoreDelete(ids), DeleteKeys(ids)], counters.(numDeleted := |ids|), None)
  }

  function RunBatches(st: Stores, bs: seq<Batch>, o: Options, start: int): Outcome
    decreases |bs|
  {
    if bs == [] then Outcome([], ZERO, None)
    else
      var first := BatchOutcome(st, bs[0], o, start);
      if first.error.Some? then first else first.Then(RunBatches(ApplyAll(st, first.writes), bs[1..], o, start))
  }

  // ---------------------------------------------------------------- from documents to batches

  /** A size below one behaves like one. */
  function BatchLength(size: int): nat { if size < 1 then 1 else size }

  function Batched(size: int, docs: seq<Document>): seq<seq<Document>>
    decreases |docs|
  {
    var n := BatchLength(size);
    if docs == [] then [] else if |docs| <= n then [docs] else [docs[..n]] + Batched(size, docs[n..])
  }

  /** The batches as they are processed: deduplicated, batch `i` with the clock's `i`th readings. */
  function Timed(chunks: seq<seq<Document>>, clock: Clock, i: nat): seq<Batch>
    decreases |chunks|
  {
    if chunks == [] then [] else [Batch(Deduplicated(chunks[0]), clock(i).stamp, clock(i).time)] + Timed(chunks[1..], clock, i + 1)
  }

  function Plan(docs: seq<Document>, size: int, clock: Clock): seq<Batch> { Timed(Batched(size, docs), clock, 0) }

  // ---------------------------------------------------------------- full cleanup

  /** Rounds of deletion until no stale key is left; which stale keys a limited query returns is up to the database. */
  ghost predicate FullCleanup(st: Stores, start: int, limit: nat, rounds: seq<set<string>>)
    decreases |rounds|
  {
    var stale := StaleKeys(st.records, start);
    if stale == {} then rounds == []
    else
      rounds != [] && rounds[0] <= stale &&
      |rounds[0]| == (if limit == 0 || |stale| <= limit then |stale| else limit) &&
      FullCleanup(Deleted(st, rounds[0]), start, limit, rounds[1..])
  }

  function Deleted(st: Stores, ids: set<string>): Stores { Stores(st.records - ids, st.docs - ids) }

  function DeleteWrites(rounds: seq<set<string>>): seq<Write> {
    if rounds == [] then [] else [StoreDelete(rounds[0]), DeleteKeys(rounds[0])] + DeleteWrites(rounds[1..])
  }

  function DeleteCount(rounds: seq<set<string>>): nat {
    if rounds == [] then 0 else |rounds[0]| + DeleteCount(rounds[1..])
  }

  /** Everything one call of `index` does, given the cleanup rounds the database dealt it. */
  ghost predicate IndexRun(st: Stores, bs: seq<Batch>, o: Options, start: int, rounds: seq<set<string>>, r: Outcome) {
    if o.cleanup.Incremental? && !o.hasSourceIdKey then rounds == [] && r == Outcome([], ZERO, Some(SourceIdKeyRequired))
    else
      var b := RunBatches(st, bs, o, start);
      if b.error.Some? || !o.cleanup.Full? then rounds == [] && r == b
      else
        FullCleanup(ApplyAll(st, b.writes), start, o.cleanupBatchSize, rounds) &&
        r == b.Then(Outcome(DeleteWrites(rounds), ZERO.(numDeleted := DeleteCount(rounds)), None))
  }
}
