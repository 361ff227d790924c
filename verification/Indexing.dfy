/** Document indexing in the source's own form: two external stores updated batch by batch. */
module Indexing {
  import opened Common
  import opened IndexingModel
  import opened IndexingProofs

  class RecordManager {
    var records: map<string, Record>

    constructor ()
      ensures records == map[]
    {
      records := map[];
    }

    method Exists(keys: seq<string>) returns (found: seq<bool>)
      ensures |found| == |keys| && forall i :: 0 <= i < |keys| ==> (found[i] <==> keys[i] in records)
    {
      found := seq(|keys|, i requires 0 <= i < |keys| reads this => keys[i] in records);
    }

    /** Refuses to write with a clock behind `timeAtLeast`; no keys means no check. */
    method Update(keys: seq<(string, Option<string>)>, now: int, timeAtLeast: int) returns (ok: bool)
      modifies this
      ensures ok <==> keys == [] || now >= timeAtLeast
      ensures records == if ok then UpsertAll(old(records), keys, now) else old(records)
    {
      if keys == [] { return true; }
      if now < timeAtLeast { return false; }
      for i := 0 to |keys|
        invariant UpsertAll(records, keys[i..], now) == UpsertAll(old(records), keys, now)
      {
        assert keys[i..][1..] == keys[i + 1..];
        var (uid, group) := keys[i];
        records := records[uid := Record(if uid in records then records[uid].group else group, now)];
      }
      ok := true;
    }

    /** Any keys older than `before` (and in one of the groups, if given), up to a positive limit. */
    method ListKeys(before: int, limit: nat, groups: Option<set<string>>) returns (keys: set<string>)
      ensures
        var all := if groups.None? then StaleKeys(records, before) else StaleInGroups(records, before, groups.value);
        keys <= all && |keys| == (if limit == 0 || |all| <= limit then |all| else limit)
    {
      var all := if groups.None? then StaleKeys(records, before) else StaleInGroups(records, before, groups.value);
      if limit == 0 || |all| <= limit { return all; }
      keys := {};
      while |keys| < limit
        invariant keys <= all && |keys| <= limit
        decreases limit - |keys|
      {
        assert |all - keys| == |all| - |keys|;
        var k :| k in all - keys;
        keys := keys + {k};
      }
    }

    method DeleteKeys(keys: set<string>)
      modifies this
      ensures records == old(records) - keys
    {
      records := records - keys;
    }
  }

  class VectorStore {
    var docs: map<string, string>

    constructor ()
      ensures docs == map[]
    {
      docs := map[];
    }

    method AddDocuments(added: seq<Document>)
      modifies this
      ensures docs == AddAll(old(docs), added)
    {
      for i := 0 to |added|
        invariant AddAll(docs, added[i..]) == AddAll(old(docs), added)
      {
        assert added[i..][1..] == added[i + 1..];
        docs := docs[added[i].uid := added[i].body];
      }
    }

    method Delete(ids: set<string>)
      modifies this
      ensures docs == old(docs) - ids
    {
      docs := docs - ids;
    }
  }

  lemma BatchedStep(size: int, current: seq<Document>, rest: seq<Document>)
    requires |current| == BatchLength(size)
    ensures Batched(size, current + rest) == [current] + Batched(size, rest)
  {
    var all := current + rest;
    assert all[..|current|] == current && all[|current|..] == rest;
    if rest == [] { assert all == current; }
  }

  /** The batches so far, the batch being filled and the items still to come make up all batches. */
  ghost predicate Filling(size: int, items: seq<Document>, i: nat, batches: seq<seq<Document>>, current: seq<Document>)
    requires i <= |items|
  {
    |current| < BatchLength(size) && batches + Batched(size, current + items[i..]) == Batched(size, items)
  }

  lemma FillingStep(size: int, items: seq<Document>, i: nat, batches: seq<seq<Document>>, current: seq<Document>)
    requires i < |items| && Filling(size, items, i, batches, current)
    ensures
      var next := current + [items[i]];
      if |next| >= size then Filling(size, items, i + 1, batches + [next], []) else Filling(size, items, i + 1, batches, next)
  {
    var next, rest := current + [items[i]], items[i + 1..];
    assert current + items[i..] == next + rest;
    if |next| >= size {
      BatchedStep(size, next, rest);
      assert [] + rest == rest;
      assert batches + ([next] + Batched(size, rest)) == (batches + [next]) + Batched(size, rest);
    }
  }

  method BatchItems(size: int, items: seq<Document>) returns (batches: seq<seq<Document>>)
    ensures batches == Batched(size, items)
  {
    batches := [];
    var current: seq<Document> := [];
    assert current + items[0..] == items;
    for i := 0 to |items|
      invariant Filling(size, items, i, batches, current)
    {
      FillingStep(size, items, i, batches, current);
      current := current + [items[i]];
      if |current| >= size {
        batches := batches + [current];
        current := [];
      }
    }
    assert current + items[|items|..] == current;
    if |current| > 0 {
      batches := batches + [current];
    }
  }

  method DeduplicateInOrder(docs: seq<Document>) returns (deduplicated: seq<Document>)
    ensures deduplicated == Deduplicated(docs)
  {
    var seen: set<string> := {};
    deduplicated := [];
    for i := 0 to |docs|
      invariant deduplicated == Deduplicated(docs[..i]) && seen == Uids(docs[..i])
    {
      assert docs[..i + 1] == docs[..i] + [docs[i]];
      assert docs[..i + 1][..i] == docs[..i];
      if docs[i].uid !in seen {
        seen := seen + {docs[i].uid};
        deduplicated := deduplicated + [docs[i]];
      }
      assert seen == Uids(docs[..i + 1]);
    }
    assert docs[..|docs|] == docs;
  }

  /** What the partition has still to do from document `i` on. */
  ghost predicate PartitionedUpTo(records: map<string, Record>, docs: seq<Document>, force: bool, i: nat,
      toUpdate: seq<Document>, toIndex: seq<Document>, seenDocs: set<string>)
    requires i <= |docs|
  {
    toUpdate + ToSkip(records, docs[i..], force) == ToSkip(records, docs, force) &&
    toIndex + ToIndex(records, docs[i..], force) == ToIndex(records, docs, force) &&
    seenDocs == Forced(records, docs[..i], force)
  }

  lemma PartitionStep(records: map<string, Record>, docs: seq<Document>, force: bool, i: nat,
      toUpdate: seq<Document>, toIndex: seq<Document>, seenDocs: set<string>)
    requires i < |docs| && PartitionedUpTo(records, docs, force, i, toUpdate, toIndex, seenDocs)
    ensures
      var d := docs[i];
      if d.uid !in records then PartitionedUpTo(records, docs, force, i + 1, toUpdate, toIndex + [d], seenDocs)
      else if force then PartitionedUpTo(records, docs, force, i + 1, toUpdate, toIndex + [d], seenDocs + {d.uid})
      else PartitionedUpTo(records, docs, force, i + 1, toUpdate + [d], toIndex, seenDocs)
  {
    assert docs[i..][1..] == docs[i + 1..] && docs[i..][0] == docs[i];
    ForcedStep(records, docs, force, i);
  }

  lemma ForcedStep(records: map<string, Record>, docs: seq<Document>, force: bool, i: nat)
    requires i < |docs|
    ensures Forced(records, docs[..i + 1], force) ==
            Forced(records, docs[..i], force) + if docs[i].uid in records && force then {docs[i].uid} else {}
  {
    assert docs[..i + 1] == docs[..i] + [docs[i]];
  }

  method Partition(records: RecordManager, hashedDocs: seq<Document>, o: Options)
      returns (toUpdate: seq<Document>, toIndex: seq<Document>, seenDocs: set<string>)
    ensures toUpdate == ToSkip(records.records, hashedDocs, o.forceUpdate)
    ensures toIndex == ToIndex(records.records, hashedDocs, o.forceUpdate)
    ensures seenDocs == Forced(records.records, hashedDocs, o.forceUpdate)
  {
    var batchExists := records.Exists(seq(|hashedDocs|, i requires 0 <= i < |hashedDocs| => hashedDocs[i].uid));
    toUpdate, toIndex, seenDocs := [], [], {};
    assert hashedDocs[0..] == hashedDocs;
    for i := 0 to |hashedDocs|
      invariant PartitionedUpTo(records.records, hashedDocs, o.forceUpdate, i, toUpdate, toIndex, seenDocs)
    {
      PartitionStep(records.records, hashedDocs, o.forceUpdate, i, toUpdate, toIndex, seenDocs);
      if batchExists[i] {
        if o.forceUpdate {
          seenDocs := seenDocs + {hashedDocs[i].uid};
        } else {
          toUpdate := toUpdate + [hashedDocs[i]];
          continue;
        }
      }
      toIndex := toIndex + [hashedDocs[i]];
    }
    assert hashedDocs[..|hashedDocs|] == hashedDocs && hashedDocs[|hashedDocs|..] == [];
  }

  ghost function Both(records: RecordManager, store: VectorStore): Stores
    reads records, store
  {
    Stores(records.records, store.docs)
  }

  /** How far a batch got before its cleanup. */
  datatype Stage = StampRefused | RecordRefused | AllWritten

  /** Stamps the known documents, stores the others, and records them all. */
  method WriteBatch(records: RecordManager, store: VectorStore, hashedDocs: seq<Document>, o: Options, start: int, now: Readings)
      returns (stage: Stage, counters: Counters)
    modifies records, store
    ensures
      var st, b := old(Both(records, store)), Batch(hashedDocs, now.stamp, now.time);
      var skip, toIndex := ToSkip(st.records, hashedDocs, o.forceUpdate), ToIndex(st.records, hashedDocs, o.forceUpdate);
      var forced := Forced(st.records, hashedDocs, o.forceUpdate);
      stage == (if skip != [] && now.stamp < start then StampRefused
                else if hashedDocs != [] && now.time < start then RecordRefused else AllWritten) &&
      Both(records, store) == (if stage == StampRefused then st
                               else ApplyAll(st, if stage == RecordRefused then Stored(st, b, o) else Written(st, b, o))) &&
      counters == Counters(|toIndex| - |forced|, |forced|, |skip|, 0, toIndex)
  {
    var toUpdate, toIndex, seenDocs := Partition(records, hashedDocs, o);
    ghost var st, b := Both(records, store), Batch(hashedDocs, now.stamp, now.time);
    counters := Counters(|toIndex| - |seenDocs|, |seenDocs|, |toUpdate|, 0, toIndex);
    if |toUpdate| > 0 {
      var ok := records.Update(UngroupedKeys(toUpdate), now.stamp, start);
      if !ok { return StampRefused, counters; }
    }
    if |toIndex| > 0 {
      store.AddDocuments(toIndex);
    }
    StoredIs(st, b, o);
    WrittenIs(st, b, o);
    var ok := records.Update(KeysOf(hashedDocs), now.time, start);
    stage := if ok then AllWritten else RecordRefused;
  }

  /** Deletes the stale keys of the batch's groups from both stores. */
  method CleanupBatch(records: RecordManager, store: VectorStore, hashedDocs: seq<Document>, start: int) returns (ids: set<string>)
    modifies records, store
    ensures ids == StaleInGroups(old(records.records), start, Sources(hashedDocs))
    ensures Both(records, store) == ApplyAll(old(Both(records, store)), [StoreDelete(ids), DeleteKeys(ids)])
  {
    ids := records.ListKeys(start, 0, Some(Sources(hashedDocs)));
    AllOfThem(ids, StaleInGroups(records.records, start, Sources(hashedDocs)));
    DeletePair(Both(records, store), ids);
    store.Delete(ids);
    records.DeleteKeys(ids);
  }

  /** The loop body of `index` for one batch. */
  method IndexBatch(records: RecordManager, store: VectorStore, chunk: seq<Document>, o: Options, start: int, now: Readings)
      returns (counters: Counters, error: Option<Error>, ghost writes: seq<Write>)
    modifies records, store
    ensures Outcome(writes, counters, error) == BatchOutcome(old(Both(records, store)), Batch(Deduplicated(chunk), now.stamp, now.time), o, start)
    ensures Both(records, store) == ApplyAll(old(Both(records, store)), writes)
  {
    var hashedDocs := DeduplicateInOrder(chunk);
    ghost var st, b := Both(records, store), Batch(hashedDocs, now.stamp, now.time);
    BatchCases(st, b, o, start);
    counters, error, writes := ZERO, None, [];
    if o.cleanup.Incremental? && AnyNullSource(hashedDocs) {
      error := Some(SourceIdMissing);
      return;
    }
    var stage, counts := WriteBatch(records, store, hashedDocs, o, start, now);
    if stage == StampRefused {
      error := Some(TimeSync);
      return;
    }
    counters := counts;
    if stage == RecordRefused {
      error, writes := Some(TimeSync), Stored(st, b, o);
      return;
    }
    writes := Written(st, b, o);
    if o.cleanup.Incremental? {
      if AnyEmptySource(hashedDocs) {
        error := Some(SourceIdEmpty);
        return;
      }
      var ids := CleanupBatch(records, store, hashedDocs, start);
      ApplyConcat(st, writes, [StoreDelete(ids), DeleteKeys(ids)]);
      writes := writes + [StoreDelete(ids), DeleteKeys(ids)];
      counters := counters.(numDeleted := |ids|);
    }
  }

  lemma AllOfThem(a: set<string>, b: set<string>)
    requires a <= b && |a| == |b|
    ensures a == b
  {
    assert |b - a| == |b| - |a|;
  }

  datatype IndexingResult = IndexingResult(counters: Counters, totalKeys: nat)

  /** `rounds`, carried out from `st`, are a first part of a full cleanup that leads to `now`. */
  ghost predicate LeadsTo(st: Stores, start: int, limit: nat, rounds: seq<set<string>>, now: Stores) {
    now == ApplyAll(st, DeleteWrites(rounds)) &&
    forall tail :: FullCleanup(now, start, limit, tail) ==> FullCleanup(st, start, limit, rounds + tail)
  }

  lemma LeadsToSelf(st: Stores, start: int, limit: nat)
    ensures LeadsTo(st, start, limit, [], st)
  {
    forall tail | FullCleanup(st, start, limit, tail) ensures FullCleanup(st, start, limit, [] + tail) {
      assert [] + tail == tail;
    }
  }

  /** A legal deal of keys puts one more round in front of a cleanup. */
  lemma RoundInFront(st: Stores, start: int, limit: nat, ids: set<string>, tail: seq<set<string>>)
    requires ids != {} && FullCleanup(Deleted(st, ids), start, limit, tail)
    requires
      var stale := StaleKeys(st.records, start);
      ids <= stale && |ids| == (if limit == 0 || |stale| <= limit then |stale| else limit)
    ensures FullCleanup(st, start, limit, [ids] + tail)
  {
    assert ([ids] + tail)[1..] == tail;
  }

  lemma LeadsFurther(st: Stores, start: int, limit: nat, rounds: seq<set<string>>, now: Stores, ids: set<string>, tail: seq<set<string>>)
    requires LeadsTo(st, start, limit, rounds, now) && FullCleanup(now, start, limit, [ids] + tail)
    ensures FullCleanup(st, start, limit, (rounds + [ids]) + tail)
  {
    assert rounds + ([ids] + tail) == (rounds + [ids]) + tail;
  }

  lemma RoundWritten(st: Stores, rounds: seq<set<string>>, ids: set<string>)
    ensures ApplyAll(st, DeleteWrites(rounds + [ids])) == Deleted(ApplyAll(st, DeleteWrites(rounds)), ids)
    ensures DeleteCount(rounds + [ids]) == DeleteCount(rounds) + |ids|
  {
    DeleteSnoc(rounds, ids);
    DeletePair(ApplyAll(st, DeleteWrites(rounds)), ids);
    ApplyConcat(st, DeleteWrites(rounds), [StoreDelete(ids), DeleteKeys(ids)]);
  }

  lemma LeadsOn(st: Stores, start: int, limit: nat, rounds: seq<set<string>>, now: Stores, ids: set<string>)
    requires LeadsTo(st, start, limit, rounds, now) && ids != {}
    requires
      var stale := StaleKeys(now.records, start);
      ids <= stale && |ids| == (if limit == 0 || |stale| <= limit then |stale| else limit)
    ensures LeadsTo(st, start, limit, rounds + [ids], Deleted(now, ids))
    ensures DeleteCount(rounds + [ids]) == DeleteCount(rounds) + |ids|
  {
    RoundWritten(st, rounds, ids);
    forall tail | FullCleanup(Deleted(now, ids), start, limit, tail) ensures FullCleanup(st, start, limit, (rounds + [ids]) + tail) {
      RoundInFront(now, start, limit, ids, tail);
      LeadsFurther(st, start, limit, rounds, now, ids, tail);
    }
  }

  lemma {:induction false} DeleteSnoc(rounds: seq<set<string>>, ids: set<string>)
    ensures DeleteWrites(rounds + [ids]) == DeleteWrites(rounds) + [StoreDelete(ids), DeleteKeys(ids)]
    ensures DeleteCount(rounds + [ids]) == DeleteCount(rounds) + |ids|
    decreases |rounds|
  {
    if rounds == [] {
      assert (rounds + [ids])[1..] == [];
    } else {
      assert (rounds + [ids])[1..] == rounds[1..] + [ids];
      DeleteSnoc(rounds[1..], ids);
    }
  }

  method CleanupFull(records: RecordManager, store: VectorStore, o: Options, start: int)
      returns (numDeleted: nat, ghost rounds: seq<set<string>>)
    modifies records, store
    ensures FullCleanup(old(Both(records, store)), start, o.cleanupBatchSize, rounds)
    ensures Both(records, store) == ApplyAll(old(Both(records, store)), DeleteWrites(rounds))
    ensures numDeleted == DeleteCount(rounds)
  {
    numDeleted, rounds := 0, [];
    LeadsToSelf(Both(records, store), start, o.cleanupBatchSize);
    var ids := records.ListKeys(start, o.cleanupBatchSize, None);
    while ids != {}
      invariant LeadsTo(old(Both(records, store)), start, o.cleanupBatchSize, rounds, Both(records, store))
      invariant numDeleted == DeleteCount(rounds)
      invariant
        var stale := StaleKeys(records.records, start);
        ids <= stale && |ids| == (if o.cleanupBatchSize == 0 || |stale| <= o.cleanupBatchSize then |stale| else o.cleanupBatchSize)
      decreases StaleKeys(records.records, start)
    {
      ghost var before := Both(records, store);
      store.Delete(ids);
      records.DeleteKeys(ids);
      numDeleted := numDeleted + |ids|;
      LeadsOn(old(Both(records, store)), start, o.cleanupBatchSize, rounds, before, ids);
      rounds := rounds + [ids];
      assert StaleKeys(records.records, start) == StaleKeys(before.records, start) - ids;
      ids := records.ListKeys(start, o.cleanupBatchSize, None);
    }
    assert FullCleanup(Both(records, store), start, o.cleanupBatchSize, []);
    assert rounds + [] == rounds;
  }

  lemma TimedStep(chunks: seq<seq<Document>>, clock: Clock, i: nat)
    requires i < |chunks|
    ensures Timed(chunks[i..], clock, i) == [Batch(Deduplicated(chunks[i]), clock(i).stamp, clock(i).time)] + Timed(chunks[i + 1..], clock, i + 1)
  {
    assert chunks[i..][1..] == chunks[i + 1..];
  }

  ghost predicate Continues(st: Stores, plan: seq<Batch>, o: Options, start: int, done: Outcome, now: Stores, rest: seq<Batch>) {
    now == ApplyAll(st, done.writes) && done.error.None? &&
    RunBatches(st, plan, o, start) == done.Then(RunBatches(now, rest, o, start))
  }

  lemma ContinuesOn(st: Stores, plan: seq<Batch>, o: Options, start: int, done: Outcome, now: Stores, b: Batch, rest: seq<Batch>)
    requires Continues(st, plan, o, start, done, now, [b] + rest)
    ensures
      var step := BatchOutcome(now, b, o, start);
      var next := ApplyAll(now, step.writes);
      next == ApplyAll(st, done.Then(step).writes) &&
      if step.error.Some? then RunBatches(st, plan, o, start) == done.Then(step)
      else Continues(st, plan, o, start, done.Then(step), next, rest)
  {
    var step := BatchOutcome(now, b, o, start);
    assert ([b] + rest)[1..] == rest;
    ApplyConcat(st, done.writes, step.writes);
    ThenAssociates(done, step, RunBatches(ApplyAll(now, step.writes), rest, o, start));
  }

  method IndexBatches(records: RecordManager, store: VectorStore, batches: seq<seq<Document>>, o: Options, start: int, clock: Clock)
      returns (total: Counters, error: Option<Error>, ghost writes: seq<Write>)
    modifies records, store
    ensures Outcome(writes, total, error) == RunBatches(old(Both(records, store)), Timed(batches, clock, 0), o, start)
    ensures Both(records, store) == ApplyAll(old(Both(records, store)), writes)
  {
    ghost var st, plan := Both(records, store), Timed(batches, clock, 0);
    total, error, writes := ZERO, None, [];
    assert batches[0..] == batches;
    ThenZero(RunBatches(st, plan, o, start));
    for i := 0 to |batches|
      invariant Continues(st, plan, o, start, Outcome(writes, total, None), Both(records, store), Timed(batches[i..], clock, i))
    {
      ghost var here := Both(records, store);
      TimedStep(batches, clock, i);
      ContinuesOn(st, plan, o, start, Outcome(writes, total, None), here,
        Batch(Deduplicated(batches[i]), clock(i).stamp, clock(i).time), Timed(batches[i + 1..], clock, i + 1));
      var counters, failed, step := IndexBatch(records, store, batches[i], o, start, clock(i));
      total, writes := total.Plus(counters), writes + step;
      if failed.Some? {
        error := failed;
        return;
      }
    }
    assert batches[|batches|..] == [];
    ThenZero(Outcome(writes, total, None));
  }

  method Index(docs: seq<Document>, records: RecordManager, store: VectorStore, o: Options, start: int, clock: Clock)
      returns (result: Result<IndexingResult, Error>, ghost run: Outcome, ghost rounds: seq<set<string>>)
    modifies records, store
    ensures IndexRun(old(Both(records, store)), Plan(docs, o.batchSize, clock), o, start, rounds, run)
    ensures Both(records, store) == ApplyAll(old(Both(records, store)), run.writes)
    ensures
      match result
      case Ok(res) => run.error == None && res.counters == run.counters && res.totalKeys == |records.records|
      case Err(e) => run.error == Some(e)
  {
    rounds := [];
    if o.cleanup.Incremental? && !o.hasSourceIdKey {
      run := Outcome([], ZERO, Some(SourceIdKeyRequired));
      return Err(SourceIdKeyRequired), run, rounds;
    }
    ghost var st := Both(records, store);
    var batches := BatchItems(o.batchSize, docs);
    var total, error, done := IndexBatches(records, store, batches, o, start, clock);
    run := Outcome(done, total, error);
    if error.Some? { return Err(error.value), run, rounds; }
    if o.cleanup.Full? {
      var numDeleted;
      numDeleted, rounds := CleanupFull(records, store, o, start);
      ApplyConcat(st, done, DeleteWrites(rounds));
      var deleted := ZERO.(numDeleted := numDeleted);
      run := run.Then(Outcome(DeleteWrites(rounds), deleted, None));
      total := total.Plus(deleted);
    }
    result := Ok(IndexingResult(total, |records.records|));
  }

  lemma ThenZero(a: Outcome)
    ensures Outcome([], ZERO, None).Then(a) == a
    ensures a.error.None? ==> a.Then(Outcome([], ZERO, None)) == a
  {
    assert [] + a.writes == a.writes == a.writes + [];
    assert [] + a.counters.addedDocs == a.counters.addedDocs == a.counters.addedDocs + [];
  }

  lemma ThenAssociates(a: Outcome, b: Outcome, c: Outcome)
    ensures a.Then(b.Then(c)) == a.Then(b).Then(c)
  {
    assert a.writes + (b.writes + c.writes) == (a.writes + b.writes) + c.writes;
    assert a.counters.addedDocs + (b.counters.addedDocs + c.counters.addedDocs) ==
           (a.counters.addedDocs + b.counters.addedDocs) + c.counters.addedDocs;
  }
}
