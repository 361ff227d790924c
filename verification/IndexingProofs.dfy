/** What one indexing run leaves behind, for every input. */
module IndexingProofs {
  import opened Common
  import opened IndexingModel

  // ---------------------------------------------------------------- writes

  lemma {:induction false} ApplyConcat(st: Stores, a: seq<Write>, b: seq<Write>)
    ensures ApplyAll(st, a + b) == ApplyAll(ApplyAll(st, a), b)
    decreases |a|
  {
    if a == [] {
      assert a + b == b;
    } else {
      assert (a + b)[1..] == a[1..] + b;
      ApplyConcat(Apply(st, a[0]), a[1..], b);
    }
  }

  ghost function Named(keys: seq<(string, Option<string>)>): set<string> {
    if keys == [] then {} else {keys[0].0} + Named(keys[1..])
  }

  lemma {:induction false} NamedByDocs(keys: seq<(string, Option<string>)>, docs: seq<Document>)
    requires |keys| == |docs| && forall i :: 0 <= i < |docs| ==> keys[i].0 == docs[i].uid
    ensures Named(keys) == Uids(docs)
    decreases |keys|
  {
    if keys != [] {
      NamedByDocs(keys[1..], docs[1..]);
      assert docs == [docs[0]] + docs[1..];
    }
  }

  /** An upsert stamps exactly its keys, and an existing record keeps its group. */
  lemma {:induction false} UpsertNamed(records: map<string, Record>, keys: seq<(string, Option<string>)>, time: int)
    ensures
      var r := UpsertAll(records, keys, time);
      r.Keys == records.Keys + Named(keys) &&
      (forall k :: k in records && k !in Named(keys) ==> r[k] == records[k]) &&
      (forall k :: k in Named(keys) ==> r[k].updatedAt == time) &&
      (forall k :: k in records ==> r[k].group == records[k].group)
    decreases |keys|
  {
    if keys != [] {
      var (uid, group) := keys[0];
      var record := Record(if uid in records then records[uid].group else group, time);
      UpsertNamed(records[uid := record], keys[1..], time);
    }
  }

  lemma UpsertEffect(records: map<string, Record>, keys: seq<(string, Option<string>)>, docs: seq<Document>, time: int)
    requires |keys| == |docs| && forall i :: 0 <= i < |docs| ==> keys[i].0 == docs[i].uid
    ensures
      var r := UpsertAll(records, keys, time);
      r.Keys == records.Keys + Uids(docs) &&
      (forall k :: k in records && k !in Uids(docs) ==> r[k] == records[k]) &&
      (forall k :: k in Uids(docs) ==> r[k].updatedAt == time) &&
      (forall k :: k in records ==> r[k].group == records[k].group)
  {
    NamedByDocs(keys, docs);
    UpsertNamed(records, keys, time);
  }

  /** A new record takes its group from the first of its documents. */
  lemma {:induction false} UpsertNewGroup(records: map<string, Record>, docs: seq<Document>, time: int, i: nat)
    requires i < |docs| && DistinctUids(docs) && docs[i].uid !in records
    ensures docs[i].uid in UpsertAll(records, KeysOf(docs), time)
    ensures UpsertAll(records, KeysOf(docs), time)[docs[i].uid].group == docs[i].source
    decreases |docs|
  {
    var keys := KeysOf(docs);
    var record := Record(if docs[0].uid in records then records[docs[0].uid].group else docs[0].source, time);
    var next := records[docs[0].uid := record];
    assert keys[1..] == KeysOf(docs[1..]);
    if i == 0 {
      UpsertEffect(next, keys[1..], docs[1..], time);
    } else {
      UpsertNewGroup(next, docs[1..], time, i - 1);
    }
  }

  lemma {:induction false} AddEffect(docs: map<string, string>, added: seq<Document>)
    ensures AddAll(docs, added).Keys == docs.Keys + Uids(added)
    decreases |added|
  {
    if added != [] {
      AddEffect(docs[added[0].uid := added[0].body], added[1..]);
      assert added == [added[0]] + added[1..];
      assert Uids(added) == {added[0].uid} + Uids(added[1..]);
    }
  }

  // ---------------------------------------------------------------- one batch

  lemma {:induction false} DeduplicatedIsDistinct(docs: seq<Document>)
    ensures DistinctUids(Deduplicated(docs))
    ensures forall d :: d in Deduplicated(docs) ==> d in docs
    decreases |docs|
  {
    if docs != [] {
      var init, last := docs[..|docs| - 1], docs[|docs| - 1];
      DeduplicatedIsDistinct(init);
      assert docs == init + [last];
      var r := Deduplicated(init);
      forall i | 0 <= i < |r| ensures r[i].uid in Uids(init) { assert r[i] in r; }
    }
  }

  lemma {:induction false} DistinctCount(docs: seq<Document>)
    requires DistinctUids(docs)
    ensures |docs| == |Uids(docs)|
    decreases |docs|
  {
    if docs == [] {
      assert Uids(docs) == {};
    } else {
      var rest := docs[1..];
      DistinctCount(rest);
      assert docs == [docs[0]] + rest;
      assert Uids(docs) == {docs[0].uid} + Uids(rest);
      assert docs[0].uid !in Uids(rest);
    }
  }

  lemma {:induction false} ToIndexIs(records: map<string, Record>, docs: seq<Document>, force: bool)
    ensures forall d :: d in ToIndex(records, docs, force) <==> d in docs && (d.uid !in records || force)
    ensures DistinctUids(docs) ==> DistinctUids(ToIndex(records, docs, force))
    decreases |docs|
  {
    if docs != [] {
      ToIndexIs(records, docs[1..], force);
      assert docs == [docs[0]] + docs[1..];
      var rest := ToIndex(records, docs[1..], force);
      forall i | 0 <= i < |rest| && DistinctUids(docs) ensures rest[i].uid != docs[0].uid { assert rest[i] in docs[1..]; }
    }
  }

  lemma {:induction false} ToSkipIs(records: map<string, Record>, docs: seq<Document>, force: bool)
    ensures forall d :: d in ToSkip(records, docs, force) <==> d in docs && d.uid in records && !force
    ensures |ToSkip(records, docs, force)| + |ToIndex(records, docs, force)| == |docs|
    decreases |docs|
  {
    if docs != [] {
      ToSkipIs(records, docs[1..], force);
      assert docs == [docs[0]] + docs[1..];
    }
  }

  lemma ToIndexUids(records: map<string, Record>, docs: seq<Document>, force: bool)
    ensures Uids(ToIndex(records, docs, force)) == if force then Uids(docs) else Uids(docs) - records.Keys
  {
    var part := ToIndex(records, docs, force);
    ToIndexIs(records, docs, force);
    forall u | u in Uids(docs) && (force || u !in records) ensures u in Uids(part) {
      var d :| d in docs && d.uid == u;
      assert d in part;
    }
  }

  lemma ToSkipUids(records: map<string, Record>, docs: seq<Document>, force: bool)
    ensures Uids(ToSkip(records, docs, force)) == if force then {} else Uids(docs) * records.Keys
  {
    var part := ToSkip(records, docs, force);
    ToSkipIs(records, docs, force);
    forall u | u in Uids(docs) && !force && u in records ensures u in Uids(part) {
      var d :| d in docs && d.uid == u;
      assert d in part;
    }
  }

  lemma ForcedUids(records: map<string, Record>, docs: seq<Document>, force: bool)
    ensures Forced(records, docs, force) == if force then Uids(docs) * records.Keys else {}
  {
  }

  /** The sizes of the two halves of a batch. */
  lemma PartitionSizes(records: map<string, Record>, docs: seq<Document>, force: bool)
    requires DistinctUids(docs)
    ensures
      var skip, toIndex, forced := ToSkip(records, docs, force), ToIndex(records, docs, force), Forced(records, docs, force);
      |toIndex| - |forced| == |Uids(docs) - records.Keys| &&
      |skip| + |forced| == |Uids(docs) * records.Keys| &&
      |skip| + |toIndex| == |docs| == |Uids(docs)|
  {
    ToIndexIs(records, docs, force);
    ToSkipIs(records, docs, force);
    ToIndexUids(records, docs, force);
    ForcedUids(records, docs, force);
    DistinctCount(docs);
    DistinctCount(ToIndex(records, docs, force));
    Split(Uids(docs), records.Keys);
  }

  lemma Split(a: set<string>, b: set<string>)
    ensures |a * b| + |a - b| == |a|
  {
    assert a == (a * b) + (a - b);
  }

  /** The writes of a batch up to its incremental cleanup. */
  ghost function Written(st: Stores, b: Batch, o: Options): seq<Write> {
    var skip := ToSkip(st.records, b.docs, o.forceUpdate);
    var toIndex := ToIndex(st.records, b.docs, o.forceUpdate);
    (if skip == [] then [] else [Upsert(UngroupedKeys(skip), b.stamp)]) +
    (if toIndex == [] then [] else [AddDocuments(toIndex)]) +
    [Upsert(KeysOf(b.docs), b.time)]
  }

  lemma AfterSkip(st: Stores, b: Batch, o: Options)
    ensures
      var skip := ToSkip(st.records, b.docs, o.forceUpdate);
      var r := if skip == [] then st.records else UpsertAll(st.records, UngroupedKeys(skip), b.stamp);
      r.Keys == st.records.Keys &&
      (forall k :: k in r ==> r[k].group == st.records[k].group) &&
      (forall k :: k in r && k !in Uids(b.docs) ==> r[k] == st.records[k])
  {
    var skip := ToSkip(st.records, b.docs, o.forceUpdate);
    ToSkipUids(st.records, b.docs, o.forceUpdate);
    UpsertEffect(st.records, UngroupedKeys(skip), skip, b.stamp);
  }

  lemma WrittenIs(st: Stores, b: Batch, o: Options)
    ensures
      var skip, toIndex := ToSkip(st.records, b.docs, o.forceUpdate), ToIndex(st.records, b.docs, o.forceUpdate);
      var r := if skip == [] then st.records else UpsertAll(st.records, UngroupedKeys(skip), b.stamp);
      var d := if toIndex == [] then st.docs else AddAll(st.docs, toIndex);
      ApplyAll(st, Written(st, b, o)) == Stores(UpsertAll(r, KeysOf(b.docs), b.time), d)
  {
    var w3 := [Upsert(KeysOf(b.docs), b.time)];
    assert Written(st, b, o) == Stored(st, b, o) + w3;
    StoredIs(st, b, o);
    ApplyConcat(st, Stored(st, b, o), w3);
    ApplyOne(ApplyAll(st, Stored(st, b, o)), w3);
  }

  /** The writes of a batch before its records are written: the stamps and the stored documents. */
  ghost function Stored(st: Stores, b: Batch, o: Options): seq<Write> {
    var skip := ToSkip(st.records, b.docs, o.forceUpdate);
    var toIndex := ToIndex(st.records, b.docs, o.forceUpdate);
    (if skip == [] then [] else [Upsert(UngroupedKeys(skip), b.stamp)]) +
    (if toIndex == [] then [] else [AddDocuments(toIndex)])
  }

  lemma StoredIs(st: Stores, b: Batch, o: Options)
    ensures
      var skip, toIndex := ToSkip(st.records, b.docs, o.forceUpdate), ToIndex(st.records, b.docs, o.forceUpdate);
      var r := if skip == [] then st.records else UpsertAll(st.records, UngroupedKeys(skip), b.stamp);
      var d := if toIndex == [] then st.docs else AddAll(st.docs, toIndex);
      ApplyAll(st, Stored(st, b, o)) == Stores(r, d)
  {
    var skip, toIndex := ToSkip(st.records, b.docs, o.forceUpdate), ToIndex(st.records, b.docs, o.forceUpdate);
    var w1: seq<Write> := if skip == [] then [] else [Upsert(UngroupedKeys(skip), b.stamp)];
    var w2: seq<Write> := if toIndex == [] then [] else [AddDocuments(toIndex)];
    ApplyConcat(st, w1, w2);
    ApplyOne(st, w1);
    ApplyOne(ApplyAll(st, w1), w2);
  }

  lemma ApplyOne(st: Stores, ws: seq<Write>)
    requires |ws| <= 1
    ensures ApplyAll(st, ws) == if ws == [] then st else Apply(st, ws[0])
  {
    if ws != [] { assert ws[1..] == []; }
  }

  /** Before the cleanup: the batch's keys are added and stamped, all groups and all other records stay. */
  lemma WrittenEffect(st: Stores, b: Batch, o: Options)
    ensures
      var r := ApplyAll(st, Written(st, b, o)).records;
      r.Keys == st.records.Keys + Uids(b.docs) &&
      (forall k :: k in Uids(b.docs) ==> r[k].updatedAt == b.time) &&
      (forall k :: k in st.records ==> r[k].group == st.records[k].group) &&
      (forall k :: k in st.records && k !in Uids(b.docs) ==> r[k] == st.records[k])
  {
    WrittenIs(st, b, o);
    AfterSkip(st, b, o);
    var skip := ToSkip(st.records, b.docs, o.forceUpdate);
    var r := if skip == [] then st.records else UpsertAll(st.records, UngroupedKeys(skip), b.stamp);
    UpsertEffect(r, KeysOf(b.docs), b.docs, b.time);
  }

  /** The vector store receives the documents that are not merely stamped. */
  lemma WrittenDocs(st: Stores, b: Batch, o: Options)
    ensures
      ApplyAll(st, Written(st, b, o)).docs.Keys ==
      st.docs.Keys + if o.forceUpdate then Uids(b.docs) else Uids(b.docs) - st.records.Keys
  {
    WrittenIs(st, b, o);
    ToIndexUids(st.records, b.docs, o.forceUpdate);
    AddEffect(st.docs, ToIndex(st.records, b.docs, o.forceUpdate));
    if ToIndex(st.records, b.docs, o.forceUpdate) == [] {
      assert Uids([]) == {};
    }
  }

  /** An incremental batch spares a record unless it is stale and in one of the batch's groups. */
  ghost predicate Spared(r: Record, o: Options, start: int, groups: set<string>) {
    !(o.cleanup.Incremental? && Stale(r, start) && InGroups(r, groups))
  }

  ghost function CleanedUp(st: Stores, b: Batch, o: Options, start: int): set<string> {
    if o.cleanup.Incremental? then StaleInGroups(ApplyAll(st, Written(st, b, o)).records, start, Sources(b.docs)) else {}
  }

  lemma BatchWrites(st: Stores, b: Batch, o: Options, start: int)
    requires BatchOutcome(st, b, o, start).error.None?
    ensures
      var ids := CleanedUp(st, b, o, start);
      BatchOutcome(st, b, o, start).writes ==
        Written(st, b, o) + if o.cleanup.Incremental? then [StoreDelete(ids), DeleteKeys(ids)] else []
  {
  }

  /** The outcome of a batch in terms of its three stages. */
  lemma BatchCases(st: Stores, b: Batch, o: Options, start: int)
    ensures
      var r := BatchOutcome(st, b, o, start);
      var toIndex, forced := ToIndex(st.records, b.docs, o.forceUpdate), Forced(st.records, b.docs, o.forceUpdate);
      var skip := ToSkip(st.records, b.docs, o.forceUpdate);
      var counters := Counters(|toIndex| - |forced|, |forced|, |skip|, 0, toIndex);
      var ids := CleanedUp(st, b, o, start);
      if o.cleanup.Incremental? && AnyNullSource(b.docs) then r == Outcome([], ZERO, Some(SourceIdMissing))
      else if skip != [] && b.stamp < start then r == Outcome([], ZERO, Some(TimeSync))
      else if b.docs != [] && b.time < start then r == Outcome(Stored(st, b, o), counters, Some(TimeSync))
      else if !o.cleanup.Incremental? then r == Outcome(Written(st, b, o), counters, None)
      else if AnyEmptySource(b.docs) then r == Outcome(Written(st, b, o), counters, Some(SourceIdEmpty))
      else r == Outcome(Written(st, b, o) + [StoreDelete(ids), DeleteKeys(ids)], counters.(numDeleted := |ids|), None)
  {
    if o.cleanup.Incremental? && !AnyNullSource(b.docs) {
      var written := Written(st, b, o);
      assert CleanedUp(st, b, o, start) == StaleInGroups(ApplyAll(st, written).records, start, Sources(b.docs));
    }
  }

  lemma DeletePair(st: Stores, ids: set<string>)
    ensures ApplyAll(st, [StoreDelete(ids), DeleteKeys(ids)]) == Deleted(st, ids)
  {
    var ws := [StoreDelete(ids), DeleteKeys(ids)];
    assert ws[1..] == [DeleteKeys(ids)];
    ApplyOne(Apply(st, ws[0]), ws[1..]);
  }

  lemma BatchDecomposes(st: Stores, b: Batch, o: Options, start: int)
    requires BatchOutcome(st, b, o, start).error.None?
    ensures
      ApplyAll(st, BatchOutcome(st, b, o, start).writes) ==
      Deleted(ApplyAll(st, Written(st, b, o)), CleanedUp(st, b, o, start))
  {
    BatchWrites(st, b, o, start);
    var written := Written(st, b, o);
    var mid, ids := ApplyAll(st, written), CleanedUp(st, b, o, start);
    if o.cleanup.Incremental? {
      ApplyConcat(st, written, [StoreDelete(ids), DeleteKeys(ids)]);
      DeletePair(mid, ids);
    } else {
      assert written + [] == written;
      assert mid.records - {} == mid.records && mid.docs - {} == mid.docs;
    }
  }

  lemma BatchCounters(st: Stores, b: Batch, o: Options, start: int)
    requires BatchOutcome(st, b, o, start).error.None?
    ensures b.docs != [] ==> b.time >= start
    ensures
      BatchOutcome(st, b, o, start).counters == Counters(
        |ToIndex(st.records, b.docs, o.forceUpdate)| - |Forced(st.records, b.docs, o.forceUpdate)|,
        |Forced(st.records, b.docs, o.forceUpdate)|, |ToSkip(st.records, b.docs, o.forceUpdate)|,
        |CleanedUp(st, b, o, start)|, ToIndex(st.records, b.docs, o.forceUpdate))
  {
    assert |CleanedUp(st, b, o, start)| == 0 || o.cleanup.Incremental?;
  }

  /** The keys and records after one batch. */
  lemma BatchKeys(st: Stores, b: Batch, o: Options, start: int)
    requires 0 < start && BatchOutcome(st, b, o, start).error.None?
    ensures
      var after := ApplyAll(st, BatchOutcome(st, b, o, start).writes).records;
      (forall k :: k in after <==>
        k in Uids(b.docs) || (k in st.records && Spared(st.records[k], o, start, Sources(b.docs)))) &&
      (forall k :: k in Uids(b.docs) ==> after[k].updatedAt == b.time && !Stale(after[k], start)) &&
      (forall k :: k in after && k in st.records ==> after[k].group == st.records[k].group) &&
      (forall k :: k in after && k !in Uids(b.docs) ==> after[k] == st.records[k])
  {
    BatchDecomposes(st, b, o, start);
    BatchCounters(st, b, o, start);
    WrittenEffect(st, b, o);
  }

  /** Recorded keys and stored ids move together. */
  lemma BatchSync(st: Stores, b: Batch, o: Options, start: int)
    requires BatchOutcome(st, b, o, start).error.None?
    requires InSync(st)
    ensures
      var after := ApplyAll(st, BatchOutcome(st, b, o, start).writes);
      InSync(after)
  {
    BatchDecomposes(st, b, o, start);
    WrittenEffect(st, b, o);
    WrittenDocs(st, b, o);
  }

  lemma SizeAfter(records: map<string, Record>, uids: set<string>, mid: map<string, Record>, ids: set<string>)
    requires mid.Keys == records.Keys + uids && ids <= mid.Keys
    ensures |mid - ids| == |records| + |uids - records.Keys| - |ids|
  {
    assert mid.Keys == records.Keys + (uids - records.Keys);
    assert (mid - ids).Keys == mid.Keys - ids;
    assert |mid.Keys - ids| == |mid.Keys| - |ids|;
    assert |(mid - ids).Keys| == |mid - ids| && |mid.Keys| == |records.Keys| + |uids - records.Keys|;
  }

  /** The counts of one batch, as sizes of sets of keys. */
  lemma BatchCounts(st: Stores, b: Batch, o: Options, start: int)
    requires DistinctUids(b.docs) && BatchOutcome(st, b, o, start).error.None?
    ensures
      var r := BatchOutcome(st, b, o, start);
      var after := ApplyAll(st, r.writes).records;
      r.counters.numAdded == |Uids(b.docs) - st.records.Keys| &&
      r.counters.numAdded + r.counters.numUpdated + r.counters.numSkipped == |b.docs| &&
      |r.counters.addedDocs| == r.counters.numAdded + r.counters.numUpdated &&
      |after| == |st.records| + r.counters.numAdded - r.counters.numDeleted
  {
    BatchDecomposes(st, b, o, start);
    BatchCounters(st, b, o, start);
    WrittenEffect(st, b, o);
    PartitionSizes(st.records, b.docs, o.forceUpdate);
    var mid, ids := ApplyAll(st, Written(st, b, o)).records, CleanedUp(st, b, o, start);
    assert ids <= mid.Keys;
    SizeAfter(st.records, Uids(b.docs), mid, ids);
  }

  // ---------------------------------------------------------------- all batches

  /** The uids of the batches' documents. */
  ghost function AllUids(bs: seq<Batch>): set<string> {
    if bs == [] then {} else Uids(bs[0].docs) + AllUids(bs[1..])
  }

  /** The sources seen by the batches. */
  ghost function AllSources(bs: seq<Batch>): set<string> {
    if bs == [] then {} else Sources(bs[0].docs) + AllSources(bs[1..])
  }

  ghost function TotalDocs(bs: seq<Batch>): nat {
    if bs == [] then 0 else |bs[0].docs| + TotalDocs(bs[1..])
  }

  ghost predicate DistinctBatches(bs: seq<Batch>) { forall b :: b in bs ==> DistinctUids(b.docs) }

  /** What a run writes is what its first batch writes and then the rest. */
  lemma RunUnfolds(st: Stores, bs: seq<Batch>, o: Options, start: int)
    requires bs != []
    ensures
      var first := BatchOutcome(st, bs[0], o, start);
      var rest := RunBatches(ApplyAll(st, first.writes), bs[1..], o, start);
      ApplyAll(st, first.Then(rest).writes) == ApplyAll(ApplyAll(st, first.writes), rest.writes)
  {
    var first := BatchOutcome(st, bs[0], o, start);
    ApplyConcat(st, first.writes, RunBatches(ApplyAll(st, first.writes), bs[1..], o, start).writes);
  }

  /** The closed form of the keys after all batches, whatever the batches delete and add back on the way. */
  lemma {:induction false} RunKeys(st: Stores, bs: seq<Batch>, o: Options, start: int)
    requires 0 < start
    ensures RunBatches(st, bs, o, start).error.None? ==>
      var after := ApplyAll(st, RunBatches(st, bs, o, start).writes).records;
      (forall k :: k in after <==>
        k in AllUids(bs) || (k in st.records && Spared(st.records[k], o, start, AllSources(bs)))) &&
      (forall k :: k in AllUids(bs) ==> !Stale(after[k], start)) &&
      (forall k :: k in after && k !in AllUids(bs) ==> after[k] == st.records[k])
    decreases |bs|
  {
    if bs != [] && RunBatches(st, bs, o, start).error.None? {
      RunUnfolds(st, bs, o, start);
      BatchKeys(st, bs[0], o, start);
      var mid := ApplyAll(st, BatchOutcome(st, bs[0], o, start).writes);
      RunKeys(mid, bs[1..], o, start);
      var after := ApplyAll(st, RunBatches(st, bs, o, start).writes).records;
      forall k ensures
        k in after <==> k in AllUids(bs) || (k in st.records && Spared(st.records[k], o, start, AllSources(bs)))
      {
        if k !in AllUids(bs) && k in st.records {
          var r := st.records[k];
          assert Spared(r, o, start, AllSources(bs)) <==>
                 Spared(r, o, start, Sources(bs[0].docs)) && Spared(r, o, start, AllSources(bs[1..]));
        }
      }
    }
  }

  lemma {:induction false} RunSync(st: Stores, bs: seq<Batch>, o: Options, start: int)
    requires InSync(st)
    ensures RunBatches(st, bs, o, start).error.None? ==>
      var after := ApplyAll(st, RunBatches(st, bs, o, start).writes);
      InSync(after)
    decreases |bs|
  {
    if bs != [] && RunBatches(st, bs, o, start).error.None? {
      RunUnfolds(st, bs, o, start);
      BatchSync(st, bs[0], o, start);
      RunSync(ApplyAll(st, BatchOutcome(st, bs[0], o, start).writes), bs[1..], o, start);
    }
  }

  lemma {:induction false} RunCounts(st: Stores, bs: seq<Batch>, o: Options, start: int)
    requires DistinctBatches(bs)
    ensures RunBatches(st, bs, o, start).error.None? ==>
      var r := RunBatches(st, bs, o, start);
      var c := r.counters;
      c.numAdded >= 0 && c.numAdded + c.numUpdated + c.numSkipped == TotalDocs(bs) &&
      |c.addedDocs| == c.numAdded + c.numUpdated &&
      |ApplyAll(st, r.writes).records| == |st.records| + c.numAdded - c.numDeleted
    decreases |bs|
  {
    if bs != [] && RunBatches(st, bs, o, start).error.None? {
      RunUnfolds(st, bs, o, start);
      assert bs[0] in bs;
      BatchCounts(st, bs[0], o, start);
      RunCounts(ApplyAll(st, BatchOutcome(st, bs[0], o, start).writes), bs[1..], o, start);
    }
  }

  lemma NewInTwoSteps(known: set<string>, a: set<string>, b: set<string>)
    ensures |(a + b) - known| == |a - known| + |b - (known + a)|
  {
    var first, later := a - known, b - (known + a);
    assert (a + b) - known == first + later;
  }

  lemma BatchKeepsKeys(st: Stores, b: Batch, o: Options, start: int)
    requires BatchOutcome(st, b, o, start).error.None? && !o.cleanup.Incremental?
    ensures ApplyAll(st, BatchOutcome(st, b, o, start).writes).records.Keys == st.records.Keys + Uids(b.docs)
  {
    BatchDecomposes(st, b, o, start);
    WrittenEffect(st, b, o);
  }

  lemma BatchAddsNewUids(st: Stores, b: Batch, o: Options, start: int)
    requires DistinctUids(b.docs) && BatchOutcome(st, b, o, start).error.None? && !o.cleanup.Incremental?
    ensures BatchOutcome(st, b, o, start).counters.numAdded == |Uids(b.docs) - st.records.Keys|
    ensures ApplyAll(st, BatchOutcome(st, b, o, start).writes).records.Keys == st.records.Keys + Uids(b.docs)
  {
    BatchCounts(st, b, o, start);
    BatchKeepsKeys(st, b, o, start);
  }

  lemma AddedSum(a: Outcome, b: Outcome)
    ensures a.Then(b).counters.numAdded == a.counters.numAdded + b.counters.numAdded
  {
  }

  /** Without incremental cleanup, the added documents are the distinct new uids, however they are batched. */
  lemma {:induction false} RunAddsNewUids(st: Stores, bs: seq<Batch>, o: Options, start: int)
    requires 0 < start && DistinctBatches(bs) && !o.cleanup.Incremental?
    ensures
      RunBatches(st, bs, o, start).error.None? ==>
      RunBatches(st, bs, o, start).counters.numAdded == |AllUids(bs) - st.records.Keys|
    decreases |bs|
  {
    if bs == [] {
      assert AllUids(bs) - st.records.Keys == {};
    } else if RunBatches(st, bs, o, start).error.None? {
      assert bs[0] in bs && DistinctBatches(bs[1..]);
      var first := BatchOutcome(st, bs[0], o, start);
      var mid := ApplyAll(st, first.writes);
      BatchAddsNewUids(st, bs[0], o, start);
      RunAddsNewUids(mid, bs[1..], o, start);
      AddedSum(first, RunBatches(mid, bs[1..], o, start));
      NewInTwoSteps(st.records.Keys, Uids(bs[0].docs), AllUids(bs[1..]));
    }
  }
}
