/** The main results about one indexing run and about a second run over the same documents. */
module IndexingTheorems {
  import opened Common
  import opened IndexingModel
  import opened IndexingProofs

  // ---------------------------------------------------------------- batches of a document list

  lemma UidsConcat(a: seq<Document>, b: seq<Document>)
    ensures Uids(a + b) == Uids(a) + Uids(b) && Sources(a + b) == Sources(a) + Sources(b)
  {
  }

  /** Documents with the same uid have the same source. */
  ghost predicate ConsistentSources(docs: seq<Document>) {
    forall d, e :: d in docs && e in docs && d.uid == e.uid ==> d.source == e.source
  }

  lemma DeduplicatedSources(docs: seq<Document>)
    requires ConsistentSources(docs)
    ensures Sources(Deduplicated(docs)) == Sources(docs)
  {
    DeduplicatedIsDistinct(docs);
    var r := Deduplicated(docs);
    forall s | s in Sources(docs) ensures s in Sources(r) {
      var d :| d in docs && d.source.Some? && d.source.value == s;
      assert d.uid in Uids(r);
      var e :| e in r && e.uid == d.uid;
    }
  }

  /** Neither the batch size nor the clock changes which uids and sources the batches hold. */
  lemma {:induction false} PlanCovers(docs: seq<Document>, size: int, clock: Clock, i: nat)
    ensures
      var bs := Timed(Batched(size, docs), clock, i);
      AllUids(bs) == Uids(docs) && DistinctBatches(bs) &&
      (ConsistentSources(docs) ==> AllSources(bs) == Sources(docs)) &&
      (forall b, d :: b in bs && d in b.docs ==> d in docs)
    decreases |docs|
  {
    var n, bs := BatchLength(size), Timed(Batched(size, docs), clock, i);
    if docs == [] {
      assert Uids(docs) == {} && Sources(docs) == {};
    } else {
      var chunk, rest := docs[..if |docs| <= n then |docs| else n], docs[if |docs| <= n then |docs| else n..];
      assert docs == chunk + rest;
      if |docs| <= n { assert chunk == docs && rest == []; }
      assert Batched(size, docs) == [chunk] + Batched(size, rest);
      assert bs == [Batch(Deduplicated(chunk), clock(i).stamp, clock(i).time)] + Timed(Batched(size, rest), clock, i + 1);
      PlanCovers(rest, size, clock, i + 1);
      UidsConcat(chunk, rest);
      DeduplicatedIsDistinct(chunk);
      if ConsistentSources(docs) {
        assert ConsistentSources(chunk) && ConsistentSources(rest);
        DeduplicatedSources(chunk);
      }
      assert bs[1..] == Timed(Batched(size, rest), clock, i + 1);
    }
  }

  function Concatenated(chunks: seq<seq<Document>>): seq<Document> {
    if chunks == [] then [] else chunks[0] + Concatenated(chunks[1..])
  }

  /** Batching loses and reorders nothing; every batch but the last is full, and none is empty. */
  lemma {:induction false} BatchedShape(size: int, docs: seq<Document>)
    ensures
      var c := Batched(size, docs);
      Concatenated(c) == docs &&
      (forall i :: 0 <= i < |c| - 1 ==> |c[i]| == BatchLength(size)) &&
      (forall i :: 0 <= i < |c| ==> 1 <= |c[i]| <= BatchLength(size))
    decreases |docs|
  {
    var n := BatchLength(size);
    if docs != [] && |docs| <= n {
      assert [docs][1..] == [];
    } else if docs != [] {
      BatchedShape(size, docs[n..]);
      var c, rest := Batched(size, docs), Batched(size, docs[n..]);
      assert c[1..] == rest && docs == docs[..n] + docs[n..];
      forall i | 0 < i < |c| ensures 1 <= |c[i]| <= n && (i < |c| - 1 ==> |c[i]| == n) {
        assert c[i] == rest[i - 1];
      }
    }
  }

  /** Deduplication keeps, of the documents with one uid, the first. */
  lemma {:induction false} DeduplicatedKeepsFirst(docs: seq<Document>, d: Document)
    requires d in Deduplicated(docs)
    ensures exists i :: 0 <= i < |docs| && docs[i] == d && d.uid !in Uids(docs[..i])
    decreases |docs|
  {
    var init, last := docs[..|docs| - 1], docs[|docs| - 1];
    if d in Deduplicated(init) {
      DeduplicatedKeepsFirst(init, d);
      var i :| 0 <= i < |init| && init[i] == d && d.uid !in Uids(init[..i]);
      assert init[..i] == docs[..i];
    }
  }

  // ---------------------------------------------------------------- full cleanup

  /** However the database deals the keys out, the rounds delete each stale key once, and nothing else. */
  lemma {:induction false} CleanupEffect(st: Stores, start: int, limit: nat, rounds: seq<set<string>>)
    requires FullCleanup(st, start, limit, rounds)
    ensures ApplyAll(st, DeleteWrites(rounds)) == Deleted(st, StaleKeys(st.records, start))
    ensures DeleteCount(rounds) == |StaleKeys(st.records, start)|
    decreases |rounds|
  {
    var stale := StaleKeys(st.records, start);
    if rounds == [] {
      assert st.records - {} == st.records && st.docs - {} == st.docs;
    } else {
      var next, pair := Deleted(st, rounds[0]), [StoreDelete(rounds[0]), DeleteKeys(rounds[0])];
      CleanupEffect(next, start, limit, rounds[1..]);
      ApplyConcat(st, pair, DeleteWrites(rounds[1..]));
      DeletePair(st, rounds[0]);
      var left := StaleKeys(next.records, start);
      assert left == stale - rounds[0];
      assert stale == rounds[0] + left;
      DeletedTwice(st, rounds[0], left);
    }
  }

  lemma DeletedTwice(st: Stores, a: set<string>, b: set<string>)
    ensures Deleted(Deleted(st, a), b) == Deleted(st, a + b)
  {
    assert (st.records - a) - b == st.records - (a + b);
    assert (st.docs - a) - b == st.docs - (a + b);
  }

  /** The delete loop ends: a limited query needs at most one round more than the stale keys divided by the limit. */
  lemma {:induction false} CleanupEnds(st: Stores, start: int, limit: nat, rounds: seq<set<string>>)
    requires FullCleanup(st, start, limit, rounds)
    ensures |rounds| <= |StaleKeys(st.records, start)|
    ensures limit == 0 ==> |rounds| <= 1
    ensures limit > 0 ==> (|rounds| - 1) * limit < |StaleKeys(st.records, start)| || rounds == []
    decreases |rounds|
  {
    if rounds != [] {
      var stale, next := StaleKeys(st.records, start), Deleted(st, rounds[0]);
      CleanupEnds(next, start, limit, rounds[1..]);
      var left := StaleKeys(next.records, start);
      assert left == stale - rounds[0];
      assert |left| == |stale| - |rounds[0]|;
      if limit > 0 && rounds[1..] != [] {
        assert (|rounds| - 1) * limit == (|rounds[1..]| - 1) * limit + limit;
      }
    }
  }

  // ---------------------------------------------------------------- the final keys

  /** The recorded keys after a run that did not throw, as a function of the documents and the old records only. */
  ghost function FinalKeys(prior: map<string, Record>, docs: seq<Document>, cleanup: Cleanup, start: int): set<string> {
    Uids(docs) +
    match cleanup
    case NoCleanup => prior.Keys
    case Full => prior.Keys - StaleKeys(prior, start)
    case Incremental => prior.Keys - StaleInGroups(prior, start, Sources(docs))
  }

  /** Whole-run facts: records and stores after the batches, then after the rounds. */
  lemma RunSplits(st: Stores, bs: seq<Batch>, o: Options, start: int, rounds: seq<set<string>>, r: Outcome)
    requires IndexRun(st, bs, o, start, rounds, r) && r.error.None?
    ensures
      var b := RunBatches(st, bs, o, start);
      var mid := ApplyAll(st, b.writes);
      var stale := if o.cleanup.Full? then StaleKeys(mid.records, start) else {};
      b.error.None? && ApplyAll(st, r.writes) == Deleted(mid, stale) &&
      r.counters == b.counters.(numDeleted := b.counters.numDeleted + |stale|)
  {
    var b := RunBatches(st, bs, o, start);
    var mid := ApplyAll(st, b.writes);
    if o.cleanup.Full? {
      CleanupEffect(mid, start, o.cleanupBatchSize, rounds);
      ApplyConcat(st, b.writes, DeleteWrites(rounds));
      assert b.counters.addedDocs + [] == b.counters.addedDocs;
    } else {
      assert mid.records - {} == mid.records && mid.docs - {} == mid.docs;
    }
  }

  /** The closed form: batch size, clock, forced updates and the order of cleanup play no part in it. */
  lemma IndexKeys(st: Stores, docs: seq<Document>, clock: Clock, o: Options, start: int, rounds: seq<set<string>>, r: Outcome)
    requires 0 < start && IndexRun(st, Plan(docs, o.batchSize, clock), o, start, rounds, r) && r.error.None?
    requires o.cleanup.Incremental? ==> ConsistentSources(docs)
    ensures ApplyAll(st, r.writes).records.Keys == FinalKeys(st.records, docs, o.cleanup, start)
  {
    var bs := Plan(docs, o.batchSize, clock);
    PlanCovers(docs, o.batchSize, clock, 0);
    RunSplits(st, bs, o, start, rounds, r);
    RunKeys(st, bs, o, start);
    var after, final := ApplyAll(st, RunBatches(st, bs, o, start).writes).records, ApplyAll(st, r.writes).records;
    var target := FinalKeys(st.records, docs, o.cleanup, start);
    forall k ensures k in final <==> k in target {
      if k in st.records {
        assert Spared(st.records[k], o, start, AllSources(bs)) <==>
               !(o.cleanup.Incremental? && k in StaleInGroups(st.records, start, Sources(docs)));
      }
      if k in after && k !in Uids(docs) { assert after[k] == st.records[k]; }
    }
  }

  ghost predicate AllOlder(records: map<string, Record>, start: int) {
    forall k :: k in records ==> records[k].updatedAt < start
  }

  /** The record belongs to the source of one of the documents. */
  ghost predicate SharesSource(r: Record, docs: seq<Document>) {
    r.group.Some? && exists d :: d in docs && d.source == r.group
  }

  /** The usual case, in which every earlier record is older than the run. */
  lemma IndexKeysOlder(st: Stores, docs: seq<Document>, clock: Clock, o: Options, start: int, rounds: seq<set<string>>, r: Outcome)
    requires 0 < start && IndexRun(st, Plan(docs, o.batchSize, clock), o, start, rounds, r) && r.error.None?
    requires AllOlder(st.records, start) && (o.cleanup.Incremental? ==> ConsistentSources(docs))
    ensures
      var final := ApplyAll(st, r.writes).records.Keys;
      match o.cleanup
      case NoCleanup => final == st.records.Keys + Uids(docs)
      case Full => final == Uids(docs)
      case Incremental => forall k :: k in final <==>
        (exists d :: d in docs && d.uid == k) || (k in st.records && !SharesSource(st.records[k], docs))
  {
    forall k | k in st.records ensures InGroups(st.records[k], Sources(docs)) <==> SharesSource(st.records[k], docs) {}
    IndexKeys(st, docs, clock, o, start, rounds, r);
    assert StaleKeys(st.records, start) == st.records.Keys;
  }

  /** Two runs over the same documents that differ in batching, clock and deal of keys record the same keys. */
  lemma BatchSizeIrrelevant(
      st: Stores, docs: seq<Document>, start: int,
      clock: Clock, o: Options, rounds: seq<set<string>>, r: Outcome,
      clock': Clock, o': Options, rounds': seq<set<string>>, r': Outcome)
    requires 0 < start && o.cleanup == o'.cleanup && (o.cleanup.Incremental? ==> ConsistentSources(docs))
    requires IndexRun(st, Plan(docs, o.batchSize, clock), o, start, rounds, r) && r.error.None?
    requires IndexRun(st, Plan(docs, o'.batchSize, clock'), o', start, rounds', r') && r'.error.None?
    ensures ApplyAll(st, r.writes).records.Keys == ApplyAll(st, r'.writes).records.Keys
  {
    IndexKeys(st, docs, clock, o, start, rounds, r);
    IndexKeys(st, docs, clock', o', start, rounds', r');
  }

  // ---------------------------------------------------------------- counters and the two stores

  /** The counters are conserved over every run that does not throw. */
  lemma IndexCounts(st: Stores, bs: seq<Batch>, o: Options, start: int, rounds: seq<set<string>>, r: Outcome)
    requires DistinctBatches(bs) && IndexRun(st, bs, o, start, rounds, r) && r.error.None?
    ensures
      var c := r.counters;
      |ApplyAll(st, r.writes).records| == |st.records| + c.numAdded - c.numDeleted &&
      c.numAdded + c.numUpdated + c.numSkipped == TotalDocs(bs) &&
      |c.addedDocs| == c.numAdded + c.numUpdated
  {
    RunSplits(st, bs, o, start, rounds, r);
    RunCounts(st, bs, o, start);
    var mid := ApplyAll(st, RunBatches(st, bs, o, start).writes).records;
    DeletedSize(mid, if o.cleanup.Full? then StaleKeys(mid, start) else {});
  }

  lemma DeletedSize(records: map<string, Record>, ids: set<string>)
    requires ids <= records.Keys
    ensures |records - ids| == |records| - |ids|
  {
    assert (records - ids).Keys == records.Keys - ids;
    assert |records.Keys - ids| == |records.Keys| - |ids|;
    assert |(records - ids).Keys| == |records - ids|;
  }

  /** Without incremental cleanup, numAdded is the number of distinct new uids, whatever the batch size. */
  lemma IndexAddsNew(st: Stores, docs: seq<Document>, clock: Clock, o: Options, start: int, rounds: seq<set<string>>, r: Outcome)
    requires 0 < start && !o.cleanup.Incremental?
    requires IndexRun(st, Plan(docs, o.batchSize, clock), o, start, rounds, r) && r.error.None?
    ensures r.counters.numAdded == |Uids(docs) - st.records.Keys|
  {
    var bs := Plan(docs, o.batchSize, clock);
    PlanCovers(docs, o.batchSize, clock, 0);
    RunSplits(st, bs, o, start, rounds, r);
    RunAddsNewUids(st, bs, o, start);
  }

  /** If the two stores agree before a run, they agree after it. */
  lemma IndexSync(st: Stores, bs: seq<Batch>, o: Options, start: int, rounds: seq<set<string>>, r: Outcome)
    requires IndexRun(st, bs, o, start, rounds, r) && r.error.None? && InSync(st)
    ensures InSync(ApplyAll(st, r.writes))
  {
    RunSplits(st, bs, o, start, rounds, r);
    RunSync(st, bs, o, start);
  }
}
