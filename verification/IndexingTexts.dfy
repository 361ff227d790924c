/** Which texts the vector store holds after a run, and which documents the run reports. */
module IndexingTexts {
  import opened Common
  import opened IndexingModel
  import opened IndexingProofs
  import opened IndexingTheorems

  /** Documents with one uid have one body, as hashes of their contents have. */
  ghost predicate OneBody(docs: seq<Document>) {
    forall d, e :: d in docs && e in docs && d.uid == e.uid ==> d.body == e.body
  }

  lemma {:induction false} AddTexts(texts: map<string, string>, added: seq<Document>)
    requires OneBody(added)
    ensures forall d :: d in added ==> d.uid in AddAll(texts, added) && AddAll(texts, added)[d.uid] == d.body
    ensures forall k :: k !in Uids(added) ==> (k in AddAll(texts, added) <==> k in texts)
    ensures forall k :: k in texts && k !in Uids(added) ==> AddAll(texts, added)[k] == texts[k]
    decreases |added|
  {
    if added != [] {
      var first, rest := added[0], added[1..];
      assert added == [first] + rest;
      AddTexts(texts[first.uid := first.body], rest);
      if first.uid in Uids(rest) {
        var e :| e in rest && e.uid == first.uid;
        assert e in added && first in added;
      }
    }
  }

  // ---------------------------------------------------------------- one batch

  /** The texts before the cleanup of a batch. */
  lemma StoredTexts(st: Stores, b: Batch, o: Options)
    requires OneBody(b.docs)
    ensures
      var mid := ApplyAll(st, Written(st, b, o)).docs;
      (forall d :: d in b.docs && (d.uid !in st.records || o.forceUpdate) ==> d.uid in mid && mid[d.uid] == d.body) &&
      (forall k :: !(k in Uids(b.docs) && (k !in st.records || o.forceUpdate)) ==>
        (k in mid <==> k in st.docs) && (k in mid ==> mid[k] == st.docs[k]))
  {
    var toIndex := ToIndex(st.records, b.docs, o.forceUpdate);
    WrittenIs(st, b, o);
    ToIndexIs(st.records, b.docs, o.forceUpdate);
    ToIndexUids(st.records, b.docs, o.forceUpdate);
    AddTexts(st.docs, toIndex);
  }

  /** The cleanup of a batch deletes the records that it does not spare, and none of its own. */
  lemma CleanedUpIs(st: Stores, b: Batch, o: Options, start: int)
    requires 0 < start && BatchOutcome(st, b, o, start).error.None?
    ensures forall k :: k in CleanedUp(st, b, o, start) <==>
      k in st.records && k !in Uids(b.docs) && !Spared(st.records[k], o, start, Sources(b.docs))
  {
    BatchCounters(st, b, o, start);
    WrittenEffect(st, b, o);
    var mid := ApplyAll(st, Written(st, b, o)).records;
    forall k ensures k in CleanedUp(st, b, o, start) <==>
      k in st.records && k !in Uids(b.docs) && !Spared(st.records[k], o, start, Sources(b.docs))
    {
      if k in st.records && k !in Uids(b.docs) { assert mid[k] == st.records[k]; }
    }
  }

  lemma BatchTexts(st: Stores, b: Batch, o: Options, start: int)
    requires 0 < start && BatchOutcome(st, b, o, start).error.None? && OneBody(b.docs)
    ensures
      var after := ApplyAll(st, BatchOutcome(st, b, o, start).writes).docs;
      (forall d :: d in b.docs && (d.uid !in st.records || o.forceUpdate) ==> d.uid in after && after[d.uid] == d.body) &&
      (forall k :: !(k in Uids(b.docs) && (k !in st.records || o.forceUpdate)) ==>
        (k in after <==> k in st.docs && (k in st.records && k !in Uids(b.docs) ==> Spared(st.records[k], o, start, Sources(b.docs)))) &&
        (k in after ==> after[k] == st.docs[k]))
  {
    BatchDecomposes(st, b, o, start);
    StoredTexts(st, b, o);
    CleanedUpIs(st, b, o, start);
  }

  // ---------------------------------------------------------------- all batches

  ghost function AllDocs(bs: seq<Batch>): seq<Document> { if bs == [] then [] else bs[0].docs + AllDocs(bs[1..]) }

  lemma {:induction false} AllDocsUids(bs: seq<Batch>)
    ensures Uids(AllDocs(bs)) == AllUids(bs)
    decreases |bs|
  {
    if bs == [] {
      assert Uids([]) == {};
    } else {
      AllDocsUids(bs[1..]);
      assert Uids(AllDocs(bs)) == Uids(bs[0].docs) + Uids(AllDocs(bs[1..]));
    }
  }

  /** A batch before the first one with `k` has a source in whose group the record is. */
  ghost predicate DeletedBefore(bs: seq<Batch>, r: Record, k: string) {
    exists i :: 0 <= i < |bs| && InGroups(r, Sources(bs[i].docs)) && forall j :: 0 <= j <= i ==> k !in Uids(bs[j].docs)
  }

  /** A document whose text is written by the run: not recorded before, forced, or deleted by an earlier batch. */
  ghost predicate Rewritten(prior: map<string, Record>, bs: seq<Batch>, o: Options, start: int, k: string) {
    k !in prior || o.forceUpdate || (o.cleanup.Incremental? && Stale(prior[k], start) && DeletedBefore(bs, prior[k], k))
  }

  lemma DeletedStep(bs: seq<Batch>, r: Record, k: string)
    requires bs != []
    ensures DeletedBefore(bs, r, k) <==>
      k !in Uids(bs[0].docs) && (InGroups(r, Sources(bs[0].docs)) || DeletedBefore(bs[1..], r, k))
  {
    var rest := bs[1..];
    if i :| 0 <= i < |bs| && InGroups(r, Sources(bs[i].docs)) && forall j :: 0 <= j <= i ==> k !in Uids(bs[j].docs) {
      if i > 0 {
        assert InGroups(r, Sources(rest[i - 1].docs));
        forall j | 0 <= j <= i - 1 ensures k !in Uids(rest[j].docs) { assert rest[j] == bs[j + 1]; }
      }
    }
    if k !in Uids(bs[0].docs) {
      if i :| 0 <= i < |rest| && InGroups(r, Sources(rest[i].docs)) && forall j :: 0 <= j <= i ==> k !in Uids(rest[j].docs) {
        assert InGroups(r, Sources(bs[i + 1].docs));
        forall j | 0 <= j <= i + 1 ensures k !in Uids(bs[j].docs) { if j > 0 { assert bs[j] == rest[j - 1]; } }
      }
      if InGroups(r, Sources(bs[0].docs)) { assert forall j :: 0 <= j <= 0 ==> k !in Uids(bs[j].docs); }
    }
  }

  /** What a run of batches must leave: new bodies for what it rewrites, and every other text as it was, unless deleted. */
  ghost predicate Leaves(st: Stores, bs: seq<Batch>, o: Options, start: int, after: map<string, string>) {
    (forall d :: d in AllDocs(bs) && Rewritten(st.records, bs, o, start, d.uid) ==> d.uid in after && after[d.uid] == d.body) &&
    (forall k :: !(k in AllUids(bs) && Rewritten(st.records, bs, o, start, k)) ==> Untouched(st, bs, o, start, after, k))
  }

  ghost predicate Untouched(st: Stores, bs: seq<Batch>, o: Options, start: int, after: map<string, string>, k: string) {
    (k in after <==> k in st.docs && (k in st.records && k !in AllUids(bs) ==> Spared(st.records[k], o, start, AllSources(bs)))) &&
    (k in after ==> after[k] == st.docs[k])
  }

  lemma {:induction false} RunTexts(st: Stores, bs: seq<Batch>, o: Options, start: int)
    requires 0 < start && OneBody(AllDocs(bs))
    ensures RunBatches(st, bs, o, start).error.None? ==>
      Leaves(st, bs, o, start, ApplyAll(st, RunBatches(st, bs, o, start).writes).docs)
    decreases |bs|
  {
    if bs != [] && RunBatches(st, bs, o, start).error.None? {
      var rest := bs[1..];
      assert AllDocs(bs) == bs[0].docs + AllDocs(rest);
      RunUnfolds(st, bs, o, start);
      var mid := ApplyAll(st, BatchOutcome(st, bs[0], o, start).writes);
      RunTexts(mid, rest, o, start);
      BatchTexts(st, bs[0], o, start);
      BatchKeys(st, bs[0], o, start);
      LeavesStep(st, bs, o, start, mid, ApplyAll(mid, RunBatches(mid, rest, o, start).writes).docs);
    }
  }

  /** What the first batch leaves, as the records and texts for the others. */
  ghost predicate AfterFirst(st: Stores, b: Batch, o: Options, start: int, mid: Stores) {
    (forall d :: d in b.docs && (d.uid !in st.records || o.forceUpdate) ==> d.uid in mid.docs && mid.docs[d.uid] == d.body) &&
    (forall k :: !(k in Uids(b.docs) && (k !in st.records || o.forceUpdate)) ==>
      (k in mid.docs <==> k in st.docs && (k in st.records && k !in Uids(b.docs) ==> Spared(st.records[k], o, start, Sources(b.docs)))) &&
      (k in mid.docs ==> mid.docs[k] == st.docs[k])) &&
    (forall k :: k in mid.records <==>
      k in Uids(b.docs) || (k in st.records && Spared(st.records[k], o, start, Sources(b.docs)))) &&
    (forall k :: k in Uids(b.docs) ==> !Stale(mid.records[k], start)) &&
    (forall k :: k in mid.records && k !in Uids(b.docs) ==> mid.records[k] == st.records[k])
  }

  lemma LeavesStep(st: Stores, bs: seq<Batch>, o: Options, start: int, mid: Stores, after: map<string, string>)
    requires bs != [] && AfterFirst(st, bs[0], o, start, mid) && Leaves(mid, bs[1..], o, start, after) && OneBody(AllDocs(bs))
    ensures Leaves(st, bs, o, start, after)
  {
    var rest := bs[1..];
    assert AllDocs(bs) == bs[0].docs + AllDocs(rest);
    forall d | d in AllDocs(bs) && Rewritten(st.records, bs, o, start, d.uid) ensures d.uid in after && after[d.uid] == d.body {
      RewrittenStep(st, bs, o, start, mid, after, d);
    }
    forall k | !(k in AllUids(bs) && Rewritten(st.records, bs, o, start, k)) ensures Untouched(st, bs, o, start, after, k) {
      UntouchedStep(st, bs, o, start, mid, after, k);
    }
  }

  /** A key of the first batch is written there, or it is only stamped and then left alone. */
  lemma RewrittenStep(st: Stores, bs: seq<Batch>, o: Options, start: int, mid: Stores, after: map<string, string>, d: Document)
    requires bs != [] && AfterFirst(st, bs[0], o, start, mid) && Leaves(mid, bs[1..], o, start, after) && OneBody(AllDocs(bs))
    requires d in AllDocs(bs) && Rewritten(st.records, bs, o, start, d.uid)
    ensures d.uid in after && after[d.uid] == d.body
  {
    var k, rest := d.uid, bs[1..];
    assert AllDocs(bs) == bs[0].docs + AllDocs(rest);
    AllDocsUids(rest);
    if k in st.records { DeletedStep(bs, st.records[k], k); }
    if k in Uids(bs[0].docs) {
      var e :| e in bs[0].docs && e.uid == k;
      assert e in AllDocs(bs) && e.body == d.body;
      if k in AllUids(rest) && Rewritten(mid.records, rest, o, start, k) {
        var f :| f in AllDocs(rest) && f.uid == k;
        assert f in AllDocs(bs) && f.body == d.body;
      } else {
        assert Untouched(mid, rest, o, start, after, k);
      }
    } else {
      assert d in AllDocs(rest);
      assert Rewritten(mid.records, rest, o, start, k);
    }
  }

  lemma UntouchedStep(st: Stores, bs: seq<Batch>, o: Options, start: int, mid: Stores, after: map<string, string>, k: string)
    requires bs != [] && AfterFirst(st, bs[0], o, start, mid) && Leaves(mid, bs[1..], o, start, after)
    requires !(k in AllUids(bs) && Rewritten(st.records, bs, o, start, k))
    ensures Untouched(st, bs, o, start, after, k)
  {
    var rest := bs[1..];
    if k in st.records {
      DeletedStep(bs, st.records[k], k);
      assert Spared(st.records[k], o, start, AllSources(bs)) <==>
        Spared(st.records[k], o, start, Sources(bs[0].docs)) && Spared(st.records[k], o, start, AllSources(rest));
    }
    assert !(k in AllUids(rest) && Rewritten(mid.records, rest, o, start, k));
    assert Untouched(mid, rest, o, start, after, k);
  }

  // ---------------------------------------------------------------- whole runs

  lemma {:induction false} PlannedDocs(chunks: seq<seq<Document>>, clock: Clock, i: nat, docs: seq<Document>)
    requires forall c, d :: c in chunks && d in c ==> d in docs
    ensures forall d :: d in AllDocs(Timed(chunks, clock, i)) ==> d in docs
    decreases |chunks|
  {
    if chunks != [] {
      DeduplicatedIsDistinct(chunks[0]);
      PlannedDocs(chunks[1..], clock, i + 1, docs);
      var bs := Timed(chunks, clock, i);
      assert bs[1..] == Timed(chunks[1..], clock, i + 1);
    }
  }

  lemma {:induction false} BatchedDocs(size: int, docs: seq<Document>)
    ensures forall c, d :: c in Batched(size, docs) && d in c ==> d in docs
    decreases |docs|
  {
    var n := BatchLength(size);
    if |docs| > n {
      BatchedDocs(size, docs[n..]);
      var rest := Batched(size, docs[n..]);
      forall c, d | c in Batched(size, docs) && d in c ensures d in docs {
        if c != docs[..n] { assert c in rest && d in docs[n..]; }
      }
    }
  }

  /**
   The texts after any run without error. What was not recorded before, is forced, or was deleted by an earlier
   batch has its new body; every other id that is left has the text it had.
   */
  lemma IndexTexts(st: Stores, docs: seq<Document>, clock: Clock, o: Options, start: int, rounds: seq<set<string>>, r: Outcome)
    requires 0 < start && IndexRun(st, Plan(docs, o.batchSize, clock), o, start, rounds, r) && r.error.None?
    requires OneBody(docs) && (o.cleanup.Incremental? ==> ConsistentSources(docs))
    ensures
      var bs := Plan(docs, o.batchSize, clock);
      var final := ApplyAll(st, r.writes).docs;
      var kept := FinalKeys(st.records, docs, o.cleanup, start);
      (forall d :: d in docs && Rewritten(st.records, bs, o, start, d.uid) ==> d.uid in final && final[d.uid] == d.body) &&
      (forall k :: !(k in Uids(docs) && Rewritten(st.records, bs, o, start, k)) ==>
        (k in final <==> k in st.docs && (k in st.records ==> k in kept)) && (k in final ==> final[k] == st.docs[k]))
  {
    var bs := Plan(docs, o.batchSize, clock);
    PlanCovers(docs, o.batchSize, clock, 0);
    BatchedDocs(o.batchSize, docs);
    PlannedDocs(Batched(o.batchSize, docs), clock, 0, docs);
    AllDocsUids(bs);
    RunSplits(st, bs, o, start, rounds, r);
    RunTexts(st, bs, o, start);
    RunKeys(st, bs, o, start);
    var mid := ApplyAll(st, RunBatches(st, bs, o, start).writes);
    FinalTexts(st, docs, bs, o, start, mid, ApplyAll(st, r.writes).docs);
  }

  lemma FinalTexts(st: Stores, docs: seq<Document>, bs: seq<Batch>, o: Options, start: int, mid: Stores, final: map<string, string>)
    requires Leaves(st, bs, o, start, mid.docs) && OneBody(docs)
    requires AllUids(bs) == Uids(docs) == Uids(AllDocs(bs)) && (forall d :: d in AllDocs(bs) ==> d in docs)
    requires o.cleanup.Incremental? ==> AllSources(bs) == Sources(docs)
    requires forall k :: k in mid.records <==> k in AllUids(bs) || (k in st.records && Spared(st.records[k], o, start, AllSources(bs)))
    requires forall k :: k in AllUids(bs) ==> !Stale(mid.records[k], start)
    requires forall k :: k in mid.records && k !in AllUids(bs) ==> mid.records[k] == st.records[k]
    requires final == mid.docs - if o.cleanup.Full? then StaleKeys(mid.records, start) else {}
    ensures
      (forall d :: d in docs && Rewritten(st.records, bs, o, start, d.uid) ==> d.uid in final && final[d.uid] == d.body) &&
      (forall k :: !(k in Uids(docs) && Rewritten(st.records, bs, o, start, k)) ==>
        (k in final <==> k in st.docs && (k in st.records ==> k in FinalKeys(st.records, docs, o.cleanup, start))) &&
        (k in final ==> final[k] == st.docs[k]))
  {
    forall d | d in docs && Rewritten(st.records, bs, o, start, d.uid) ensures d.uid in final && final[d.uid] == d.body {
      assert d.uid in Uids(AllDocs(bs));
      var e :| e in AllDocs(bs) && e.uid == d.uid;
      assert e in docs && d.uid in mid.docs;
    }
    forall k | !(k in Uids(docs) && Rewritten(st.records, bs, o, start, k))
      ensures (k in final <==> k in st.docs && (k in st.records ==> k in FinalKeys(st.records, docs, o.cleanup, start))) &&
        (k in final ==> final[k] == st.docs[k])
    {
      assert Untouched(st, bs, o, start, mid.docs, k);
    }
  }

  // ---------------------------------------------------------------- what is reported

  /** The documents sent to the vector store, in order. */
  ghost function AddedBy(ws: seq<Write>): seq<Document> {
    if ws == [] then [] else (if ws[0].AddDocuments? then ws[0].docs else []) + AddedBy(ws[1..])
  }

  /** How many keys the deletions name. */
  ghost function DeletedBy(ws: seq<Write>): nat {
    if ws == [] then 0 else (if ws[0].DeleteKeys? then |ws[0].ids| else 0) + DeletedBy(ws[1..])
  }

  lemma {:induction false} WritesConcat(a: seq<Write>, b: seq<Write>)
    ensures AddedBy(a + b) == AddedBy(a) + AddedBy(b) && DeletedBy(a + b) == DeletedBy(a) + DeletedBy(b)
    decreases |a|
  {
    if a == [] {
      assert a + b == b;
    } else {
      assert (a + b)[1..] == a[1..] + b;
      WritesConcat(a[1..], b);
    }
  }

  lemma OneWrite(w: Write)
    ensures AddedBy([w]) == (if w.AddDocuments? then w.docs else []) && DeletedBy([w]) == if w.DeleteKeys? then |w.ids| else 0
  {
    assert [w][1..] == [];
  }

  lemma StoredReport(st: Stores, b: Batch, o: Options)
    ensures AddedBy(Stored(st, b, o)) == ToIndex(st.records, b.docs, o.forceUpdate) && DeletedBy(Stored(st, b, o)) == 0
  {
    var skip, toIndex := ToSkip(st.records, b.docs, o.forceUpdate), ToIndex(st.records, b.docs, o.forceUpdate);
    var w1: seq<Write> := if skip == [] then [] else [Upsert(UngroupedKeys(skip), b.stamp)];
    var w2: seq<Write> := if toIndex == [] then [] else [AddDocuments(toIndex)];
    WritesConcat(w1, w2);
    OneWrite(Upsert(UngroupedKeys(skip), b.stamp));
    OneWrite(AddDocuments(toIndex));
  }

  lemma WrittenReport(st: Stores, b: Batch, o: Options)
    ensures AddedBy(Written(st, b, o)) == ToIndex(st.records, b.docs, o.forceUpdate) && DeletedBy(Written(st, b, o)) == 0
  {
    var w3 := [Upsert(KeysOf(b.docs), b.time)];
    assert Written(st, b, o) == Stored(st, b, o) + w3;
    StoredReport(st, b, o);
    WritesConcat(Stored(st, b, o), w3);
    OneWrite(w3[0]);
  }

  lemma PairReport(ids: set<string>)
    ensures AddedBy([StoreDelete(ids), DeleteKeys(ids)]) == [] && DeletedBy([StoreDelete(ids), DeleteKeys(ids)]) == |ids|
  {
    WritesConcat([StoreDelete(ids)], [DeleteKeys(ids)]);
    OneWrite(StoreDelete(ids));
    OneWrite(DeleteKeys(ids));
    assert [StoreDelete(ids)] + [DeleteKeys(ids)] == [StoreDelete(ids), DeleteKeys(ids)];
  }

  ghost predicate Reported(o: Outcome) {
    o.counters.addedDocs == AddedBy(o.writes) && o.counters.numDeleted == DeletedBy(o.writes)
  }

  lemma BatchReports(st: Stores, b: Batch, o: Options, start: int)
    ensures Reported(BatchOutcome(st, b, o, start))
  {
    var ids := CleanedUp(st, b, o, start);
    BatchCases(st, b, o, start);
    StoredReport(st, b, o);
    WrittenReport(st, b, o);
    PairReport(ids);
    WritesConcat(Written(st, b, o), [StoreDelete(ids), DeleteKeys(ids)]);
  }

  lemma ThenReports(a: Outcome, b: Outcome)
    requires Reported(a) && Reported(b)
    ensures Reported(a.Then(b))
  {
    WritesConcat(a.writes, b.writes);
  }

  lemma {:induction false} RunReports(st: Stores, bs: seq<Batch>, o: Options, start: int)
    ensures Reported(RunBatches(st, bs, o, start))
    decreases |bs|
  {
    if bs != [] {
      var first := BatchOutcome(st, bs[0], o, start);
      BatchReports(st, bs[0], o, start);
      if first.error.None? {
        RunReports(ApplyAll(st, first.writes), bs[1..], o, start);
        ThenReports(first, RunBatches(ApplyAll(st, first.writes), bs[1..], o, start));
      }
    }
  }

  lemma {:induction false} CleanupReports(rounds: seq<set<string>>)
    ensures AddedBy(DeleteWrites(rounds)) == [] && DeletedBy(DeleteWrites(rounds)) == DeleteCount(rounds)
    decreases |rounds|
  {
    if rounds != [] {
      CleanupReports(rounds[1..]);
      PairReport(rounds[0]);
      WritesConcat([StoreDelete(rounds[0]), DeleteKeys(rounds[0])], DeleteWrites(rounds[1..]));
    }
  }

  /** The documents and deletions that a run reports are those it wrote, in order, also when it throws. */
  lemma IndexReports(st: Stores, bs: seq<Batch>, o: Options, start: int, rounds: seq<set<string>>, r: Outcome)
    requires IndexRun(st, bs, o, start, rounds, r)
    ensures Reported(r)
  {
    RunReports(st, bs, o, start);
    CleanupReports(rounds);
    ThenReports(RunBatches(st, bs, o, start), Outcome(DeleteWrites(rounds), ZERO.(numDeleted := DeleteCount(rounds)), None));
  }
}
