/** Indexing the same documents a second time. */
module IndexingAgain {
  import opened Common
  import opened IndexingModel
  import opened IndexingProofs
  import opened IndexingTheorems

  lemma BatchDeletesNothing(st: Stores, b: Batch, o: Options, start: int)
    requires BatchOutcome(st, b, o, start).error.None? && !o.cleanup.Incremental?
    ensures BatchOutcome(st, b, o, start).counters.numDeleted == 0
  {
  }

  lemma {:induction false} NothingDeletedByBatches(st: Stores, bs: seq<Batch>, o: Options, start: int)
    requires !o.cleanup.Incremental?
    ensures RunBatches(st, bs, o, start).error.None? ==> RunBatches(st, bs, o, start).counters.numDeleted == 0
    decreases |bs|
  {
    if bs != [] && RunBatches(st, bs, o, start).error.None? {
      RunUnfolds(st, bs, o, start);
      BatchDeletesNothing(st, bs[0], o, start);
      NothingDeletedByBatches(ApplyAll(st, BatchOutcome(st, bs[0], o, start).writes), bs[1..], o, start);
    }
  }

  /** A run that stamps every record it finds deletes nothing, also with full cleanup. */
  lemma AllStampedDeletesNothing(st: Stores, docs: seq<Document>, clock: Clock, o: Options, start: int, rounds: seq<set<string>>, r: Outcome)
    requires 0 < start && !o.cleanup.Incremental? && (o.cleanup.Full? ==> st.records.Keys <= Uids(docs))
    requires IndexRun(st, Plan(docs, o.batchSize, clock), o, start, rounds, r) && r.error.None?
    ensures r.counters.numDeleted == 0
  {
    var bs := Plan(docs, o.batchSize, clock);
    RunSplits(st, bs, o, start, rounds, r);
    NothingDeletedByBatches(st, bs, o, start);
    if o.cleanup.Full? {
      PlanCovers(docs, o.batchSize, clock, 0);
      RunKeys(st, bs, o, start);
      assert StaleKeys(ApplyAll(st, RunBatches(st, bs, o, start).writes).records, start) == {};
    }
  }

  /**
   Without incremental cleanup the second run finds nothing to add or delete. With full cleanup the first
   run starts at `start` with only older records; the second starts at any positive time.
   */
  lemma AgainPlain(st: Stores, docs: seq<Document>, o: Options,
      start: int, clock: Clock, rounds: seq<set<string>>, r: Outcome,
      again: int, clock': Clock, rounds': seq<set<string>>, r': Outcome)
    requires 0 < start && 0 < again && !o.cleanup.Incremental? && (o.cleanup.Full? ==> AllOlder(st.records, start))
    requires IndexRun(st, Plan(docs, o.batchSize, clock), o, start, rounds, r) && r.error.None?
    requires IndexRun(ApplyAll(st, r.writes), Plan(docs, o.batchSize, clock'), o, again, rounds', r') && r'.error.None?
    ensures r'.counters.numAdded == 0 && r'.counters.numDeleted == 0
    ensures ApplyAll(ApplyAll(st, r.writes), r'.writes).records.Keys == ApplyAll(st, r.writes).records.Keys
  {
    var st1 := ApplyAll(st, r.writes);
    assert Uids(docs) <= st1.records.Keys && (o.cleanup.Full? ==> st1.records.Keys <= Uids(docs)) by {
      IndexKeys(st, docs, clock, o, start, rounds, r);
      if o.cleanup.Full? { IndexKeysOlder(st, docs, clock, o, start, rounds, r); }
    }
    AgainFrom(st1, docs, clock', o, again, rounds', r');
  }

  lemma NoneAdded(st: Stores, docs: seq<Document>, clock: Clock, o: Options, start: int, rounds: seq<set<string>>, r: Outcome)
    requires 0 < start && !o.cleanup.Incremental? && Uids(docs) <= st.records.Keys
    requires IndexRun(st, Plan(docs, o.batchSize, clock), o, start, rounds, r) && r.error.None?
    ensures r.counters.numAdded == 0
  {
    IndexAddsNew(st, docs, clock, o, start, rounds, r);
    assert Uids(docs) - st.records.Keys == {};
  }

  lemma AgainFrom(st: Stores, docs: seq<Document>, clock: Clock, o: Options, start: int, rounds: seq<set<string>>, r: Outcome)
    requires 0 < start && !o.cleanup.Incremental?
    requires Uids(docs) <= st.records.Keys && (o.cleanup.Full? ==> st.records.Keys <= Uids(docs))
    requires IndexRun(st, Plan(docs, o.batchSize, clock), o, start, rounds, r) && r.error.None?
    ensures r.counters.numAdded == 0 && r.counters.numDeleted == 0
    ensures ApplyAll(st, r.writes).records.Keys == st.records.Keys
  {
    NoneAdded(st, docs, clock, o, start, rounds, r);
    AllStampedDeletesNothing(st, docs, clock, o, start, rounds, r);
    IndexKeys(st, docs, clock, o, start, rounds, r);
    SameFinalKeys(st.records, docs, o.cleanup, start);
  }

  lemma SameFinalKeys(records: map<string, Record>, docs: seq<Document>, cleanup: Cleanup, start: int)
    requires Uids(docs) <= records.Keys && !cleanup.Incremental? && (cleanup.Full? ==> records.Keys <= Uids(docs))
    ensures FinalKeys(records, docs, cleanup, start) == records.Keys
  {
    assert Uids(docs) + records.Keys == records.Keys;
  }

  // ---------------------------------------------------------------- incremental cleanup

  /** Processing batch `b`, with the keys in `done` and its own already stamped, deletes nothing. */
  ghost predicate QuietStep(records: map<string, Record>, b: Batch, start: int, done: set<string>) {
    forall k :: k in records && Stale(records[k], start) && k !in done && k !in Uids(b.docs) ==>
      !InGroups(records[k], Sources(b.docs))
  }

  ghost predicate Quiet(records: map<string, Record>, bs: seq<Batch>, start: int, done: set<string>) {
    bs == [] || (QuietStep(records, bs[0], start, done) && Quiet(records, bs[1..], start, done + Uids(bs[0].docs)))
  }

  /** Stamping the keys in `stamped` is the same as counting them as done. */
  lemma {:induction false} QuietShift(a: map<string, Record>, b: map<string, Record>, bs: seq<Batch>, start: int, stamped: set<string>, done: set<string>)
    requires a.Keys == b.Keys
    requires forall k :: k in a ==> b[k].group == a[k].group && (Stale(b[k], start) <==> Stale(a[k], start) && k !in stamped)
    ensures Quiet(b, bs, start, done) <==> Quiet(a, bs, start, stamped + done)
    decreases |bs|
  {
    if bs != [] {
      QuietShift(a, b, bs[1..], start, stamped, done + Uids(bs[0].docs));
      assert stamped + (done + Uids(bs[0].docs)) == (stamped + done) + Uids(bs[0].docs);
      assert QuietStep(b, bs[0], start, done) <==> QuietStep(a, bs[0], start, stamped + done);
    }
  }

  lemma BatchQuiet(st: Stores, b: Batch, o: Options, start: int)
    requires 0 < start && o.cleanup.Incremental? && BatchOutcome(st, b, o, start).error.None?
    ensures CleanedUp(st, b, o, start) == {} <==> QuietStep(st.records, b, start, {})
  {
    WrittenEffect(st, b, o);
    BatchCounters(st, b, o, start);
    var mid := ApplyAll(st, Written(st, b, o)).records;
    var ids := CleanedUp(st, b, o, start);
    if !QuietStep(st.records, b, start, {}) {
      var k :| k in st.records && Stale(st.records[k], start) && k !in Uids(b.docs) && InGroups(st.records[k], Sources(b.docs));
      assert mid[k] == st.records[k] && k in ids;
    }
    if ids != {} {
      var k :| k in ids;
      assert k !in Uids(b.docs) && mid[k] == st.records[k];
    }
  }

  lemma BatchDeletes(st: Stores, b: Batch, o: Options, start: int)
    requires BatchOutcome(st, b, o, start).error.None?
    ensures BatchOutcome(st, b, o, start).counters.numDeleted == 0 <==> CleanedUp(st, b, o, start) == {}
  {
    BatchCounters(st, b, o, start);
  }

  lemma QuietBatchKeeps(st: Stores, b: Batch, o: Options, start: int)
    requires 0 < start && BatchOutcome(st, b, o, start).error.None?
    requires Uids(b.docs) <= st.records.Keys && CleanedUp(st, b, o, start) == {}
    ensures
      var mid := ApplyAll(st, BatchOutcome(st, b, o, start).writes).records;
      mid.Keys == st.records.Keys &&
      forall k :: k in mid ==>
        mid[k].group == st.records[k].group && (Stale(mid[k], start) <==> Stale(st.records[k], start) && k !in Uids(b.docs))
  {
    BatchKeys(st, b, o, start);
    BatchDecomposes(st, b, o, start);
    WrittenEffect(st, b, o);
  }

  ghost predicate Silent(c: Counters) { c.numAdded == 0 && c.numDeleted == 0 }

  /** A batch of recorded uids adds nothing, and deletes nothing exactly when it is quiet. */
  lemma BatchSilentIffQuiet(st: Stores, b: Batch, o: Options, start: int)
    requires 0 < start && o.cleanup.Incremental? && BatchOutcome(st, b, o, start).error.None?
    requires DistinctUids(b.docs) && Uids(b.docs) <= st.records.Keys
    ensures BatchOutcome(st, b, o, start).counters.numAdded == 0
    ensures BatchOutcome(st, b, o, start).counters.numDeleted == 0 <==> QuietStep(st.records, b, start, {})
    ensures CleanedUp(st, b, o, start) == {} <==> QuietStep(st.records, b, start, {})
  {
    BatchCounts(st, b, o, start);
    assert Uids(b.docs) - st.records.Keys == {};
    BatchDeletes(st, b, o, start);
    BatchQuiet(st, b, o, start);
  }

  /** After a quiet batch the rest is as quiet as it was before it. */
  lemma QuietRest(st: Stores, b: Batch, rest: seq<Batch>, o: Options, start: int)
    requires 0 < start && BatchOutcome(st, b, o, start).error.None?
    requires Uids(b.docs) <= st.records.Keys && CleanedUp(st, b, o, start) == {}
    ensures
      var mid := ApplyAll(st, BatchOutcome(st, b, o, start).writes).records;
      mid.Keys == st.records.Keys && (Quiet(mid, rest, start, {}) <==> Quiet(st.records, rest, start, {} + Uids(b.docs)))
  {
    QuietBatchKeeps(st, b, o, start);
    QuietShift(st.records, ApplyAll(st, BatchOutcome(st, b, o, start).writes).records, rest, start, Uids(b.docs), {});
    assert Uids(b.docs) + {} == {} + Uids(b.docs);
  }

  lemma SilentSum(a: Counters, b: Counters)
    requires a.numAdded >= 0 && b.numAdded >= 0
    ensures Silent(a.Plus(b)) <==> Silent(a) && Silent(b)
  {
  }

  /** On stores that already record every uid, a run is silent exactly when each of its batches is quiet. */
  lemma {:induction false} SilentIffQuiet(st: Stores, bs: seq<Batch>, o: Options, start: int)
    requires 0 < start && o.cleanup.Incremental?
    requires DistinctBatches(bs) && AllUids(bs) <= st.records.Keys
    ensures
      RunBatches(st, bs, o, start).error.None? ==>
      (Silent(RunBatches(st, bs, o, start).counters) <==> Quiet(st.records, bs, start, {}))
    decreases |bs|
  {
    if bs != [] && RunBatches(st, bs, o, start).error.None? {
      var b, rest := bs[0], bs[1..];
      assert b in bs && forall x :: x in rest ==> x in bs;
      var mid := ApplyAll(st, BatchOutcome(st, b, o, start).writes);
      RunUnfolds(st, bs, o, start);
      BatchSilentIffQuiet(st, b, o, start);
      RunCounts(mid, rest, o, start);
      SilentSum(BatchOutcome(st, b, o, start).counters, RunBatches(mid, rest, o, start).counters);
      if CleanedUp(st, b, o, start) == {} {
        QuietRest(st, b, rest, o, start);
        SilentIffQuiet(mid, rest, o, start);
      }
    }
  }

  lemma {:induction false} QuietEverywhere(records: map<string, Record>, bs: seq<Batch>, start: int, done: set<string>)
    ensures Quiet(records, bs, start, done) <==>
            forall i :: 0 <= i < |bs| ==> QuietStep(records, bs[i], start, done + AllUids(bs[..i]))
    decreases |bs|
  {
    if bs != [] {
      var next := done + Uids(bs[0].docs);
      QuietEverywhere(records, bs[1..], start, next);
      assert done + AllUids(bs[..0]) == done;
      forall i | 1 <= i < |bs| ensures next + AllUids(bs[1..][..i - 1]) == done + AllUids(bs[..i]) {
        assert bs[..i][1..] == bs[1..][..i - 1];
      }
      forall i | 1 <= i < |bs| && Quiet(records, bs, start, done)
        ensures QuietStep(records, bs[i], start, done + AllUids(bs[..i]))
      {
        assert bs[1..][i - 1] == bs[i];
      }
      if forall i :: 0 <= i < |bs| ==> QuietStep(records, bs[i], start, done + AllUids(bs[..i])) {
        assert QuietStep(records, bs[0], start, done + AllUids(bs[..0]));
        forall j | 0 <= j < |bs[1..]| ensures QuietStep(records, bs[1..][j], start, next + AllUids(bs[1..][..j])) {
          assert QuietStep(records, bs[j + 1], start, done + AllUids(bs[..j + 1]));
        }
      }
    }
  }

  /** `sourceOf` gives the source of every document, and the group of every record of such a document. */
  ghost predicate SourcesAre(records: map<string, Record>, bs: seq<Batch>, sourceOf: string -> Option<string>) {
    (forall b, d :: b in bs && d in b.docs ==> d.source == sourceOf(d.uid)) &&
    (forall k :: k in records && k in AllUids(bs) ==> records[k].group == sourceOf(k))
  }

  lemma {:induction false} UidInBatch(bs: seq<Batch>, k: string) returns (j: nat, d: Document)
    requires k in AllUids(bs)
    ensures j < |bs| && d in bs[j].docs && d.uid == k
    decreases |bs|
  {
    if k in Uids(bs[0].docs) {
      j := 0;
      d :| d in bs[0].docs && d.uid == k;
    } else {
      j, d := UidInBatch(bs[1..], k);
      j := j + 1;
    }
  }

  lemma {:induction false} DocIsCounted(bs: seq<Batch>, j: nat, d: Document)
    requires j < |bs| && d in bs[j].docs
    ensures d.uid in AllUids(bs) && (d.source.Some? ==> d.source.value in AllSources(bs))
    decreases |bs|
  {
    if j > 0 { DocIsCounted(bs[1..], j - 1, d); }
  }

  lemma BatchGroups(st: Stores, b: Batch, o: Options, start: int, sourceOf: string -> Option<string>)
    requires 0 < start && DistinctUids(b.docs) && BatchOutcome(st, b, o, start).error.None?
    requires forall d :: d in b.docs ==> d.source == sourceOf(d.uid)
    requires forall k :: k in st.records && k in Uids(b.docs) ==> st.records[k].group == sourceOf(k)
    ensures
      var after := ApplyAll(st, BatchOutcome(st, b, o, start).writes).records;
      forall k :: k in Uids(b.docs) ==> k in after && after[k].group == sourceOf(k)
  {
    BatchKeys(st, b, o, start);
    BatchDecomposes(st, b, o, start);
    var after := ApplyAll(st, BatchOutcome(st, b, o, start).writes).records;
    forall k | k in Uids(b.docs) ensures after[k].group == sourceOf(k) {
      if k !in st.records {
        var d :| d in b.docs && d.uid == k;
        var i :| 0 <= i < |b.docs| && b.docs[i] == d;
        WrittenIs(st, b, o);
        AfterSkip(st, b, o);
        var skip := ToSkip(st.records, b.docs, o.forceUpdate);
        var r := if skip == [] then st.records else UpsertAll(st.records, UngroupedKeys(skip), b.stamp);
        UpsertNewGroup(r, b.docs, b.time, i);
      }
    }
  }

  lemma {:induction false} RunGroups(st: Stores, bs: seq<Batch>, o: Options, start: int, sourceOf: string -> Option<string>)
    requires 0 < start && DistinctBatches(bs)
    requires SourcesAre(st.records, bs, sourceOf)
    ensures RunBatches(st, bs, o, start).error.None? ==>
      var after := ApplyAll(st, RunBatches(st, bs, o, start).writes).records;
      forall k :: k in AllUids(bs) ==> k in after && after[k].group == sourceOf(k)
    decreases |bs|
  {
    if bs != [] && RunBatches(st, bs, o, start).error.None? {
      RunUnfolds(st, bs, o, start);
      assert bs[0] in bs;
      BatchGroups(st, bs[0], o, start, sourceOf);
      BatchKeys(st, bs[0], o, start);
      var mid := ApplyAll(st, BatchOutcome(st, bs[0], o, start).writes);
      assert SourcesAre(mid.records, bs[1..], sourceOf);
      RunGroups(mid, bs[1..], o, start, sourceOf);
      RunKeys(mid, bs[1..], o, start);
    }
  }

  /** Some batch holds a source one of whose documents first appears in a later batch. */
  ghost predicate SourceSpansBatches(bs: seq<Batch>) {
    exists i: nat, j: nat, d, e :: SpansAt(bs, i, j, d, e)
  }

  ghost predicate SpansAt(bs: seq<Batch>, i: nat, j: nat, d: Document, e: Document) {
    i < j < |bs| && d in bs[i].docs && e in bs[j].docs &&
    d.source == e.source && d.source.Some? && e.uid !in AllUids(bs[..i + 1])
  }

  /** Every document is recorded under its source. */
  ghost predicate Recorded(records: map<string, Record>, docs: seq<Document>) {
    forall d :: d in docs ==> d.uid in records && d.source == records[d.uid].group
  }

  ghost predicate AllRecorded(records: map<string, Record>, bs: seq<Batch>) {
    forall b :: b in bs ==> Recorded(records, b.docs)
  }

  lemma SpanIsNotQuiet(records: map<string, Record>, bs: seq<Batch>, start: int, i: nat, j: nat, d: Document, e: Document)
    requires AllRecorded(records, bs) && SpansAt(bs, i, j, d, e)
    requires Stale(records[e.uid], start)
    ensures !QuietStep(records, bs[i], start, AllUids(bs[..i]))
  {
    assert bs[j] in bs && Recorded(records, bs[j].docs);
    AllUidsSnoc(bs, i);
    assert InGroups(records[e.uid], Sources(bs[i].docs));
  }

  lemma LaterKeySpans(records: map<string, Record>, bs: seq<Batch>, i: nat, d: Document, k: string)
    requires AllRecorded(records, bs) && i < |bs| && d in bs[i].docs && d.source.Some?
    requires k in records && records[k].group == d.source
    ensures k in AllUids(bs) && k !in AllUids(bs[..i + 1]) ==> SourceSpansBatches(bs)
  {
    if k in AllUids(bs) && k !in AllUids(bs[..i + 1]) {
      var j, e := UidInBatch(bs, k);
      if j <= i { DocIsCounted(bs[..i + 1], j, e); }
      assert Recorded(records, bs[j].docs);
      assert SpansAt(bs, i, j, d, e);
    }
  }

  lemma NotQuietWitness(records: map<string, Record>, b: Batch, start: int, done: set<string>) returns (k: string, d: Document)
    requires !QuietStep(records, b, start, done)
    ensures k in records && k !in done + Uids(b.docs)
    ensures d in b.docs && d.source.Some? && d.source == records[k].group
  {
    k :| k in records && k !in done && k !in Uids(b.docs) && InGroups(records[k], Sources(b.docs));
    assert InGroups(records[k], Sources(b.docs));
    d :| d in b.docs && d.source.Some? && d.source.value == records[k].group.value;
  }

  /** No key that the batches leave out is in a group they see. */
  ghost predicate OthersApart(records: map<string, Record>, bs: seq<Batch>) {
    forall k :: k in records && k !in AllUids(bs) ==> !InGroups(records[k], AllSources(bs))
  }

  lemma NotQuietSpans(records: map<string, Record>, bs: seq<Batch>, start: int, i: nat)
    requires AllRecorded(records, bs) && i < |bs|
    ensures OthersApart(records, bs) && !QuietStep(records, bs[i], start, AllUids(bs[..i])) ==> SourceSpansBatches(bs)
  {
    if OthersApart(records, bs) && !QuietStep(records, bs[i], start, AllUids(bs[..i])) {
      var k, d := NotQuietWitness(records, bs[i], start, AllUids(bs[..i]));
      DocIsCounted(bs, i, d);
      AllUidsSnoc(bs, i);
      LaterKeySpans(records, bs, i, d, k);
    }
  }

  lemma QuietIffNoSpan(records: map<string, Record>, bs: seq<Batch>, start: int)
    requires AllOlder(records, start) && AllRecorded(records, bs) && OthersApart(records, bs)
    ensures Quiet(records, bs, start, {}) <==> !SourceSpansBatches(bs)
  {
    QuietEverywhere(records, bs, start, {});
    if i: nat, j: nat, d, e :| SpansAt(bs, i, j, d, e) {
      assert bs[j] in bs && Recorded(records, bs[j].docs);
      SpanIsNotQuiet(records, bs, start, i, j, d, e);
      assert {} + AllUids(bs[..i]) == AllUids(bs[..i]);
    }
    forall i | 0 <= i < |bs| && !QuietStep(records, bs[i], start, {} + AllUids(bs[..i])) ensures SourceSpansBatches(bs) {
      assert {} + AllUids(bs[..i]) == AllUids(bs[..i]);
      NotQuietSpans(records, bs, start, i);
    }
  }

  lemma {:induction false} AllUidsSnoc(bs: seq<Batch>, i: nat)
    requires i < |bs|
    ensures AllUids(bs[..i + 1]) == AllUids(bs[..i]) + Uids(bs[i].docs)
    decreases |bs|
  {
    if i == 0 {
      assert bs[..1][1..] == [] && bs[..0] == [];
    } else {
      AllUidsSnoc(bs[1..], i - 1);
      assert bs[..i + 1][1..] == bs[1..][..i] && bs[..i][1..] == bs[1..][..i - 1];
    }
  }

  /** What the first incremental run leaves: every uid recorded under its source, and no other key of a source seen. */
  ghost predicate Caught(records: map<string, Record>, docs: seq<Document>, sourceOf: string -> Option<string>) {
    Uids(docs) <= records.Keys && (forall d :: d in docs ==> d.source == sourceOf(d.uid)) &&
    (forall k :: k in Uids(docs) ==> records[k].group == sourceOf(k)) &&
    (forall k :: k in records && k !in Uids(docs) ==> !InGroups(records[k], Sources(docs)))
  }

  /** From there, a run keeps the keys. */
  lemma CaughtKeepsKeys(st: Stores, docs: seq<Document>, o: Options, sourceOf: string -> Option<string>,
      start: int, clock: Clock, rounds: seq<set<string>>, r: Outcome)
    requires 0 < start && o.cleanup.Incremental? && AllOlder(st.records, start) && Caught(st.records, docs, sourceOf)
    requires IndexRun(st, Plan(docs, o.batchSize, clock), o, start, rounds, r) && r.error.None?
    ensures ApplyAll(st, r.writes).records.Keys == st.records.Keys
  {
    assert ConsistentSources(docs);
    IndexKeysOlder(st, docs, clock, o, start, rounds, r);
  }

  lemma CaughtRecords(records: map<string, Record>, docs: seq<Document>, sourceOf: string -> Option<string>, bs: seq<Batch>)
    requires Caught(records, docs, sourceOf) && forall b, d :: b in bs && d in b.docs ==> d in docs
    ensures AllRecorded(records, bs)
  {
    forall b | b in bs ensures Recorded(records, b.docs) {
      forall d | d in b.docs ensures d.uid in records && d.source == records[d.uid].group {
        assert d in docs && d.uid in Uids(docs);
      }
    }
  }

  /** From there, a run is silent exactly when no source spans two batches. */
  lemma CaughtIsSilent(st: Stores, docs: seq<Document>, o: Options, sourceOf: string -> Option<string>,
      start: int, clock: Clock, rounds: seq<set<string>>, r: Outcome)
    requires 0 < start && o.cleanup.Incremental? && AllOlder(st.records, start) && Caught(st.records, docs, sourceOf)
    requires IndexRun(st, Plan(docs, o.batchSize, clock), o, start, rounds, r) && r.error.None?
    ensures Silent(r.counters) <==> !SourceSpansBatches(Plan(docs, o.batchSize, clock))
  {
    var bs := Plan(docs, o.batchSize, clock);
    assert ConsistentSources(docs);
    PlanCovers(docs, o.batchSize, clock, 0);
    SilentIffQuiet(st, bs, o, start);
    CaughtRecords(st.records, docs, sourceOf, bs);
    QuietIffNoSpan(st.records, bs, start);
  }

  /**
   The second incremental run leaves the keys unchanged, but it is silent exactly when no source
   spans two batches: otherwise it deletes keys in one batch that it adds back in a later one.
   */
  lemma AgainIncremental(st: Stores, docs: seq<Document>, o: Options, sourceOf: string -> Option<string>,
      start: int, clock: Clock, rounds: seq<set<string>>, r: Outcome,
      again: int, clock': Clock, rounds': seq<set<string>>, r': Outcome)
    requires 0 < start && 0 < again && o.cleanup.Incremental? && AllOlder(st.records, start)
    requires forall d :: d in docs ==> d.source == sourceOf(d.uid)
    requires forall k :: k in st.records && k in Uids(docs) ==> st.records[k].group == sourceOf(k)
    requires IndexRun(st, Plan(docs, o.batchSize, clock), o, start, rounds, r) && r.error.None?
    requires AllOlder(ApplyAll(st, r.writes).records, again)
    requires IndexRun(ApplyAll(st, r.writes), Plan(docs, o.batchSize, clock'), o, again, rounds', r') && r'.error.None?
    ensures ApplyAll(ApplyAll(st, r.writes), r'.writes).records.Keys == ApplyAll(st, r.writes).records.Keys
    ensures r'.counters.numAdded == 0 && r'.counters.numDeleted == 0 <==>
            !SourceSpansBatches(Plan(docs, o.batchSize, clock'))
  {
    var st1 := ApplyAll(st, r.writes);
    FirstRunRecords(st, docs, o, sourceOf, start, clock, rounds, r);
    assert Caught(st1.records, docs, sourceOf);
    CaughtKeepsKeys(st1, docs, o, sourceOf, again, clock', rounds', r');
    CaughtIsSilent(st1, docs, o, sourceOf, again, clock', rounds', r');
  }

  lemma FirstRunRecords(st: Stores, docs: seq<Document>, o: Options, sourceOf: string -> Option<string>,
      start: int, clock: Clock, rounds: seq<set<string>>, r: Outcome)
    requires 0 < start && o.cleanup.Incremental? && AllOlder(st.records, start)
    requires forall d :: d in docs ==> d.source == sourceOf(d.uid)
    requires forall k :: k in st.records && k in Uids(docs) ==> st.records[k].group == sourceOf(k)
    requires IndexRun(st, Plan(docs, o.batchSize, clock), o, start, rounds, r) && r.error.None?
    ensures
      var after := ApplyAll(st, r.writes).records;
      Uids(docs) <= after.Keys &&
      (forall k :: k in Uids(docs) ==> after[k].group == sourceOf(k)) &&
      (forall k :: k in after && k !in Uids(docs) ==> !InGroups(after[k], Sources(docs)))
  {
    var bs := Plan(docs, o.batchSize, clock);
    PlanCovers(docs, o.batchSize, clock, 0);
    assert ConsistentSources(docs);
    RunGroups(st, bs, o, start, sourceOf);
    RunKeys(st, bs, o, start);
    forall k | k in ApplyAll(st, r.writes).records && k !in Uids(docs)
      ensures !InGroups(ApplyAll(st, r.writes).records[k], Sources(docs))
    {
      assert Spared(st.records[k], o, start, Sources(docs));
    }
  }

  /** Two documents of one source in batches of one: the condition does fail. */
  lemma SpanExample(clock: Clock)
    ensures SourceSpansBatches(Plan([Document("a", Some("s"), "x"), Document("b", Some("s"), "y")], 1, clock))
  {
    var a, b := Document("a", Some("s"), "x"), Document("b", Some("s"), "y");
    var docs := [a, b];
    assert docs[..1] == [a] && docs[1..] == [b];
    assert Batched(1, docs) == [[a], [b]];
    DeduplicatedOne(a);
    DeduplicatedOne(b);
    var bs := Plan(docs, 1, clock);
    assert [[a], [b]][1..] == [[b]] && [[b]][1..] == [];
    assert Timed([[b]], clock, 1) == [Batch([b], clock(1).stamp, clock(1).time)];
    assert bs == [Batch([a], clock(0).stamp, clock(0).time)] + [Batch([b], clock(1).stamp, clock(1).time)];
    assert bs[..1][1..] == [];
    assert SpansAt(bs, 0, 1, a, b);
  }

  lemma DeduplicatedOne(d: Document)
    ensures Deduplicated([d]) == [d]
  {
    assert [d][..0] == [];
  }
}
