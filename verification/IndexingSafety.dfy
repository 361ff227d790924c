/** What holds of the two stores at every moment of a run, including runs that stop with an error. */
module IndexingSafety {
  import opened Common
  import opened IndexingModel
  import opened IndexingProofs

  ghost predicate Covered(st: Stores) { st.records.Keys <= st.docs.Keys }

  /** The stores stand between a store delete and the delete of the same keys, and lack nothing else. */
  ghost predicate Deleting(s: Stores, last: Write, next: Write) {
    last.StoreDelete? && next == DeleteKeys(last.ids) && s.records.Keys - last.ids <= s.docs.Keys
  }

  /** After `n` writes every recorded key is stored, except for keys whose `deleteKeys` is the very next write. */
  ghost predicate SafePoint(st: Stores, ws: seq<Write>, n: nat)
    requires n <= |ws|
  {
    var s := ApplyAll(st, ws[..n]);
    Covered(s) || (0 < n < |ws| && Deleting(s, ws[n - 1], ws[n]))
  }

  ghost predicate SafeTrace(st: Stores, ws: seq<Write>) {
    forall n: nat :: n <= |ws| ==> SafePoint(st, ws, n)
  }

  lemma SafeEmpty(st: Stores)
    requires Covered(st)
    ensures SafeTrace(st, [])
  {
  }

  lemma SafeEnd(st: Stores, ws: seq<Write>)
    requires SafeTrace(st, ws)
    ensures Covered(ApplyAll(st, ws))
  {
    assert SafePoint(st, ws, |ws|) && ws[..|ws|] == ws;
  }

  lemma SafeBefore(st: Stores, a: seq<Write>, b: seq<Write>, n: nat)
    requires n <= |a| && SafePoint(st, a, n)
    ensures SafePoint(st, a + b, n)
  {
    assert (a + b)[..n] == a[..n];
  }

  lemma SafeAfter(st: Stores, a: seq<Write>, b: seq<Write>, m: nat)
    requires m <= |b| && SafePoint(ApplyAll(st, a), b, m)
    ensures SafePoint(st, a + b, |a| + m)
  {
    SameStores(st, a, b, m);
    var ws, n := a + b, |a| + m;
    assert 0 < m < |b| ==> ws[n - 1] == b[m - 1] && ws[n] == b[m];
  }

  lemma SameStores(st: Stores, a: seq<Write>, b: seq<Write>, m: nat)
    requires m <= |b|
    ensures ApplyAll(st, (a + b)[..|a| + m]) == ApplyAll(ApplyAll(st, a), b[..m])
  {
    assert (a + b)[..|a| + m] == a + b[..m];
    ApplyConcat(st, a, b[..m]);
  }

  lemma SafeAt(st: Stores, a: seq<Write>, b: seq<Write>, n: nat)
    requires n <= |a + b| && SafeTrace(st, a) && SafeTrace(ApplyAll(st, a), b)
    ensures SafePoint(st, a + b, n)
  {
    if n <= |a| {
      assert SafePoint(st, a, n);
      SafeBefore(st, a, b, n);
    } else {
      assert SafePoint(ApplyAll(st, a), b, n - |a|);
      SafeAfter(st, a, b, n - |a|);
    }
  }

  lemma SafeConcat(st: Stores, a: seq<Write>, b: seq<Write>)
    requires SafeTrace(st, a) && SafeTrace(ApplyAll(st, a), b)
    ensures SafeTrace(st, a + b)
  {
    var ws := a + b;
    forall n: nat | n <= |ws| ensures SafePoint(st, ws, n) { SafeAt(st, a, b, n); }
  }

  lemma SafeOne(st: Stores, ws: seq<Write>)
    requires |ws| <= 1 && Covered(st) && Covered(ApplyAll(st, ws))
    ensures SafeTrace(st, ws)
  {
    forall n: nat | n <= |ws| ensures SafePoint(st, ws, n) {
      assert ws[..n] == if n == 0 then [] else ws;
    }
  }

  lemma SafeDelete(st: Stores, ids: set<string>)
    requires Covered(st)
    ensures SafeTrace(st, [StoreDelete(ids), DeleteKeys(ids)])
    ensures ApplyAll(st, [StoreDelete(ids), DeleteKeys(ids)]) == Deleted(st, ids)
  {
    var ws := [StoreDelete(ids), DeleteKeys(ids)];
    DeletePair(st, ids);
    forall n: nat | n <= 2 ensures SafePoint(st, ws, n) {
      if n == 1 {
        assert ws[..1] == [StoreDelete(ids)];
        ApplyOne(st, ws[..1]);
      } else {
        assert ws[..n] == if n == 0 then [] else ws;
      }
    }
  }

  lemma StoredSafe(st: Stores, b: Batch, o: Options)
    requires Covered(st)
    ensures SafeTrace(st, Stored(st, b, o))
    ensures ApplyAll(st, Stored(st, b, o)).docs == ApplyAll(st, Written(st, b, o)).docs
  {
    var skip := ToSkip(st.records, b.docs, o.forceUpdate);
    var toIndex := ToIndex(st.records, b.docs, o.forceUpdate);
    var w1: seq<Write> := if skip == [] then [] else [Upsert(UngroupedKeys(skip), b.stamp)];
    var w2: seq<Write> := if toIndex == [] then [] else [AddDocuments(toIndex)];
    AfterSkip(st, b, o);
    ApplyOne(st, w1);
    SafeOne(st, w1);
    var mid := ApplyAll(st, w1);
    ApplyOne(mid, w2);
    AddEffect(mid.docs, toIndex);
    SafeOne(mid, w2);
    SafeConcat(st, w1, w2);
    ApplyConcat(st, w1, w2);
    WrittenIs(st, b, o);
  }

  lemma WrittenSafe(st: Stores, b: Batch, o: Options)
    requires Covered(st)
    ensures SafeTrace(st, Written(st, b, o))
  {
    var w3 := [Upsert(KeysOf(b.docs), b.time)];
    var mid := ApplyAll(st, Stored(st, b, o));
    StoredSafe(st, b, o);
    SafeEnd(st, Stored(st, b, o));
    assert Written(st, b, o) == Stored(st, b, o) + w3;
    ApplyConcat(st, Stored(st, b, o), w3);
    WrittenEffect(st, b, o);
    WrittenDocs(st, b, o);
    SafeOne(mid, w3);
    SafeConcat(st, Stored(st, b, o), w3);
  }

  /** One batch is safe at every write, wherever it throws. */
  lemma BatchSafe(st: Stores, b: Batch, o: Options, start: int)
    requires Covered(st)
    ensures SafeTrace(st, BatchOutcome(st, b, o, start).writes)
  {
    var r := BatchOutcome(st, b, o, start);
    SafeEmpty(st);
    StoredSafe(st, b, o);
    WrittenSafe(st, b, o);
    if r.error.None? && o.cleanup.Incremental? {
      BatchWrites(st, b, o, start);
      var written := Written(st, b, o);
      SafeEnd(st, written);
      SafeDelete(ApplyAll(st, written), CleanedUp(st, b, o, start));
      SafeConcat(st, written, [StoreDelete(CleanedUp(st, b, o, start)), DeleteKeys(CleanedUp(st, b, o, start))]);
    } else {
      assert r.writes == [] || r.writes == Stored(st, b, o) || r.writes == Written(st, b, o);
    }
  }

  lemma {:induction false} BatchesSafe(st: Stores, bs: seq<Batch>, o: Options, start: int)
    requires Covered(st)
    ensures SafeTrace(st, RunBatches(st, bs, o, start).writes)
    decreases |bs|
  {
    if bs == [] {
      SafeEmpty(st);
    } else {
      var first := BatchOutcome(st, bs[0], o, start);
      BatchSafe(st, bs[0], o, start);
      if first.error.None? {
        var mid := ApplyAll(st, first.writes);
        SafeEnd(st, first.writes);
        BatchesSafe(mid, bs[1..], o, start);
        SafeConcat(st, first.writes, RunBatches(mid, bs[1..], o, start).writes);
      }
    }
  }

  lemma {:induction false} RoundsSafe(st: Stores, rounds: seq<set<string>>)
    requires Covered(st)
    ensures SafeTrace(st, DeleteWrites(rounds))
    decreases |rounds|
  {
    if rounds == [] {
      SafeEmpty(st);
    } else {
      SafeDelete(st, rounds[0]);
      RoundsSafe(Deleted(st, rounds[0]), rounds[1..]);
      SafeConcat(st, [StoreDelete(rounds[0]), DeleteKeys(rounds[0])], DeleteWrites(rounds[1..]));
    }
  }

  /** Every write of every run, also one that throws midway, leaves the stores safe. */
  lemma IndexSafe(st: Stores, bs: seq<Batch>, o: Options, start: int, rounds: seq<set<string>>, r: Outcome)
    requires IndexRun(st, bs, o, start, rounds, r) && Covered(st)
    ensures SafeTrace(st, r.writes)
  {
    if o.cleanup.Incremental? && !o.hasSourceIdKey {
      SafeEmpty(st);
    } else {
      var b := RunBatches(st, bs, o, start);
      BatchesSafe(st, bs, o, start);
      if b.error.None? && o.cleanup.Full? {
        SafeEnd(st, b.writes);
        RoundsSafe(ApplyAll(st, b.writes), rounds);
        SafeConcat(st, b.writes, DeleteWrites(rounds));
      }
    }
  }

  // ---------------------------------------------------------------- when a run throws

  /** The assigner gave some document no source, or an empty one. */
  ghost predicate LacksSource(docs: seq<Document>) {
    exists d :: d in docs && (d.source.None? || d.source == Some(""))
  }

  lemma {:induction false} LacksSourceIs(docs: seq<Document>)
    ensures LacksSource(docs) <==> AnyNullSource(docs) || AnyEmptySource(docs)
    decreases |docs|
  {
    if docs != [] {
      LacksSourceIs(docs[1..]);
      assert docs == [docs[0]] + docs[1..];
    }
  }

  lemma {:induction false} RunThrows(st: Stores, bs: seq<Batch>, o: Options, start: int)
    requires forall b :: b in bs ==> b.stamp >= start && b.time >= start
    ensures RunBatches(st, bs, o, start).error.Some? <==> o.cleanup.Incremental? && exists b :: b in bs && LacksSource(b.docs)
    decreases |bs|
  {
    if bs != [] {
      var first := BatchOutcome(st, bs[0], o, start);
      assert bs[0] in bs;
      LacksSourceIs(bs[0].docs);
      assert first.error.Some? <==> o.cleanup.Incremental? && LacksSource(bs[0].docs);
      RunThrows(ApplyAll(st, first.writes), bs[1..], o, start);
      assert bs == [bs[0]] + bs[1..];
    }
  }

  /** With a clock that never runs behind, a run throws exactly when incremental cleanup lacks a source id. */
  lemma IndexThrows(st: Stores, bs: seq<Batch>, o: Options, start: int, rounds: seq<set<string>>, r: Outcome)
    requires IndexRun(st, bs, o, start, rounds, r) && forall b :: b in bs ==> b.stamp >= start && b.time >= start
    ensures r.error.Some? <==>
            o.cleanup.Incremental? && (!o.hasSourceIdKey || exists b :: b in bs && LacksSource(b.docs))
  {
    RunThrows(st, bs, o, start);
  }
}
