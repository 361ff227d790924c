/**
 The rate-limited chunker `processStreamWithRateLimit`: stream callbacks and an emitter loop
 that share a buffer and two flags. Callbacks run only between iterations of the loop, so a run
 is any sequence of callback events and loop iterations.
 */
module SpeechStream {

  type Byte = bv8

  /** A chunk size. */
  type Positive = n: nat | 0 < n witness 1

  /** Where the emitter loop stands. */
  datatype Emitter = Running | Finished | Stopped

  /** The promise of the caller: the first settlement wins. */
  datatype Promise = Pending | Resolved | Rejected {
    function Resolve(): Promise { if Pending? then Resolved else this }
    function Reject(): Promise { if Pending? then Rejected else this }
  }

  datatype State = State(
    buffer: seq<Byte>,
    isEnded: bool,
    aborted: bool,
    destroyed: bool,
    emitter: Emitter,
    promise: Promise,
    emitted: seq<seq<Byte>>,   // arguments of the onChunk calls, in order
    accepted: seq<Byte>,       // bytes taken into the buffer so far
    arrived: seq<Byte>)        // bytes the stream has delivered so far

  datatype Event =
    | Data(chunk: seq<Byte>)
    | End
    | Error
    | Abort
    | Iterate

  function Initial(aborted: bool): State {
    State([], false, aborted, false, Running, Pending, [], [], [])
  }

  function Iteration(target: Positive, s: State): State
  {
    if s.isEnded && s.buffer == [] then s.(emitter := Finished, promise := s.promise.Resolve())
    else if s.aborted then s.(emitter := Stopped, destroyed := true, promise := s.promise.Reject())
    else if |s.buffer| >= target then s.(emitted := s.emitted + [s.buffer[..target]], buffer := s.buffer[target..])
    else if s.isEnded then s.(emitted := s.emitted + [s.buffer], buffer := [])
    else s
  }

  /** The source makes its first pass before any callback can come: a signal that is already aborted ends it there. */
  function Start(target: Positive, aborted: bool): State
  {
    Iteration(target, Initial(aborted))
  }

  function Step(target: Positive, s: State, e: Event): State
  {
    match e
    case Data(chunk) =>
      var t := s.(arrived := s.arrived + chunk);
      if s.aborted then t else t.(buffer := s.buffer + chunk, accepted := s.accepted + chunk)
    case End => s.(isEnded := true)
    case Error => s.(promise := s.promise.Reject())
    case Abort => if s.aborted then s else s.(aborted := true, destroyed := true, promise := s.promise.Reject())
    case Iterate => if s.emitter.Running? then Iteration(target, s) else s
  }

  /** A readable stream delivers no data after its end event; nothing else is assumed of the order of events. */
  predicate Enabled(s: State, e: Event) { e.Data? ==> !s.isEnded }

  predicate Possible(target: Positive, s: State, run: seq<Event>)
    decreases |run|
  {
    run == [] || (Enabled(s, run[0]) && Possible(target, Step(target, s, run[0]), run[1..]))
  }

  function Run(target: Positive, s: State, run: seq<Event>): State
    decreases |run|
  {
    if run == [] then s else Run(target, Step(target, s, run[0]), run[1..])
  }

  /** The source's closure variables and callbacks. */
  class Chunker {
    const target: Positive
    var buffer: seq<Byte>
    var isEnded: bool
    var aborted: bool
    var destroyed: bool
    var emitter: Emitter
    var promise: Promise
    var emitted: seq<seq<Byte>>
    ghost var accepted: seq<Byte>
    ghost var arrived: seq<Byte>

    ghost function View(): State
      reads this
    {
      State(buffer, isEnded, aborted, destroyed, emitter, promise, emitted, accepted, arrived)
    }

    constructor (target: Positive, aborted: bool)
      ensures this.target == target && View() == Start(target, aborted)
    {
      this.target := target;
      this.aborted := aborted;
      buffer, isEnded, destroyed, emitter, promise, emitted := [], false, false, Running, Pending, [];
      accepted, arrived := [], [];
      new;
      Iterate();
    }

    method OnData(chunk: seq<Byte>)
      modifies this
      ensures View() == Step(target, old(View()), Data(chunk))
    {
      arrived := arrived + chunk;
      if !aborted {
        buffer := buffer + chunk;
        accepted := accepted + chunk;
      }
    }

    method OnEnd()
      modifies this
      ensures View() == Step(target, old(View()), End)
    {
      isEnded := true;
    }

    method OnError()
      modifies this
      ensures View() == Step(target, old(View()), Error)
    {
      promise := promise.Reject();
    }

    method OnAbort()
      modifies this
      ensures View() == Step(target, old(View()), Abort)
    {
      if !aborted {
        aborted := true;
        if !destroyed { destroyed := true; }
        promise := promise.Reject();
      }
    }

    /** One pass through the loop, or its exit. */
    method Iterate()
      requires emitter == Running
      modifies this
      ensures View() == Step(target, old(View()), Event.Iterate)
    {
      if !isEnded || |buffer| > 0 {
        if aborted {
          if !destroyed { destroyed := true; }
          promise := promise.Reject();
          emitter := Stopped;
          return;
        }
        if |buffer| >= target {
          var chunk := buffer[..target];
          buffer := buffer[target..];
          emitted := emitted + [chunk];
        } else if isEnded && |buffer| > 0 {
          emitted := emitted + [buffer];
          buffer := [];
        }
      } else {
        promise := promise.Resolve();
        emitter := Finished;
      }
    }

    /** The loop run to its exit once the stream has ended and nobody aborts. */
    method Drain()
      requires emitter == Running && isEnded && !aborted
      modifies this
      ensures View() == Drained(target, old(View()))
    {
      ghost var start := View();
      while emitter == Running
        invariant isEnded && !aborted && emitter != Stopped
        invariant emitter == Running ==> Drained(target, View()) == Drained(target, start)
        invariant emitter == Finished ==> View() == Drained(target, start)
        decreases emitter == Running, |buffer|
      {
        DrainStep(target, View());
        Iterate();
      }
    }
  }

  // ---------------------------------------------------------------- chunking

  /** `bytes` cut into pieces of `target`, the last one shorter if need be. */
  function Chunks(target: Positive, bytes: seq<Byte>): seq<seq<Byte>>
    decreases |bytes|
  {
    if bytes == [] then []
    else if |bytes| <= target then [bytes]
    else [bytes[..target]] + Chunks(target, bytes[target..])
  }

  function Concat(chunks: seq<seq<Byte>>): seq<Byte> {
    if chunks == [] then [] else chunks[0] + Concat(chunks[1..])
  }

  /** n divided by d, rounded up. */
  function CeilDiv(n: nat, d: Positive): nat
  {
    if n == 0 then 0 else if n <= d then 1 else 1 + CeilDiv(n - d, d)
  }

  lemma {:induction false} CeilDivIsCeiling(n: nat, d: Positive)
    ensures
      var k := CeilDiv(n, d);
      n <= k * d && (n > 0 ==> (k - 1) * d < n)
    decreases n
  {
    if n > d {
      CeilDivIsCeiling(n - d, d);
      var k := CeilDiv(n - d, d);
      assert (k + 1) * d == k * d + d && k * d == (k - 1) * d + d;
    }
  }

  /** Cutting loses nothing, and yields ceil(n / target) pieces, all full except a last one of 1 to `target` bytes. */
  lemma {:induction false} ChunksShape(target: Positive, bytes: seq<Byte>)
    ensures
      var c := Chunks(target, bytes);
      Concat(c) == bytes && |c| == CeilDiv(|bytes|, target) &&
      (forall i :: 0 <= i < |c| - 1 ==> |c[i]| == target) &&
      (c != [] ==> 1 <= |c[|c| - 1]| <= target)
    decreases |bytes|
  {
    if bytes == [] {
    } else if |bytes| <= target {
      assert [bytes][1..] == [];
    } else {
      var rest := bytes[target..];
      ChunksShape(target, rest);
      var c, d := Chunks(target, bytes), Chunks(target, rest);
      assert c[1..] == d && bytes == bytes[..target] + rest;
      forall i | 0 <= i < |c| - 1 ensures |c[i]| == target {
        if i > 0 { assert c[i] == d[i - 1]; }
      }
      assert c[|c| - 1] == d[|d| - 1];
    }
  }

  lemma {:induction false} ConcatAppend(chunks: seq<seq<Byte>>, last: seq<Byte>)
    ensures Concat(chunks + [last]) == Concat(chunks) + last
    decreases |chunks|
  {
    if chunks == [] {
      assert [last][1..] == [] && (chunks + [last])[0] == last;
    } else {
      assert (chunks + [last])[1..] == chunks[1..] + [last];
      ConcatAppend(chunks[1..], last);
    }
  }

  lemma {:induction false} ChunksAppend(target: Positive, full: seq<Byte>, rest: seq<Byte>, chunks: seq<seq<Byte>>)
    requires forall i :: 0 <= i < |chunks| ==> |chunks[i]| == target
    requires Concat(chunks) == full
    ensures rest != [] || chunks == [] ==> Chunks(target, full + rest) == chunks + Chunks(target, rest)
    ensures rest == [] ==> Chunks(target, full) == chunks
    decreases |chunks|
  {
    if chunks == [] {
      assert full + rest == rest;
    } else {
      var tail := Concat(chunks[1..]);
      ChunksAppend(target, tail, rest, chunks[1..]);
      assert full == chunks[0] + tail && full[..target] == chunks[0] && full[target..] == tail;
      assert (full + rest)[..target] == chunks[0] && (full + rest)[target..] == tail + rest;
      assert chunks == [chunks[0]] + chunks[1..];
      if rest != [] {
        assert chunks + Chunks(target, rest) == [chunks[0]] + (chunks[1..] + Chunks(target, rest));
      }
    }
  }

  // ---------------------------------------------------------------- every run

  /** What holds between any two steps of any run. */
  ghost predicate Invariant(target: Positive, s: State) {
    && Concat(s.emitted) + s.buffer == s.accepted
    && (!s.aborted ==> s.accepted == s.arrived)
    && (forall i :: 0 <= i < |s.emitted| - 1 ==> |s.emitted[i]| == target)
    && (s.emitted != [] ==> 1 <= |s.emitted[|s.emitted| - 1]| <= target)
    && (s.emitted != [] && |s.emitted[|s.emitted| - 1]| < target ==> s.isEnded && s.buffer == [])
    && (s.emitter.Finished? ==> s.isEnded && s.buffer == [])
    && (s.emitter.Stopped? ==> s.aborted && s.promise != Pending)
    && (s.aborted ==> s.promise != Pending)
    && (s.promise.Resolved? ==> s.emitter.Finished? && s.accepted == s.arrived)
  }

  lemma EmitKeeps(target: Positive, s: State, n: nat)
    requires Invariant(target, s) && s.emitter.Running?
    requires 1 <= n <= |s.buffer| && n <= target && (n < target ==> s.isEnded && n == |s.buffer|)
    ensures Invariant(target, s.(emitted := s.emitted + [s.buffer[..n]], buffer := s.buffer[n..]))
  {
    var piece, rest := s.buffer[..n], s.buffer[n..];
    ConcatAppend(s.emitted, piece);
    assert Concat(s.emitted + [piece]) + rest == Concat(s.emitted) + (piece + rest);
    assert s.buffer == piece + rest;
  }

  lemma IterationKeeps(target: Positive, s: State)
    requires Invariant(target, s) && s.emitter.Running?
    ensures Invariant(target, Iteration(target, s))
  {
    if !(s.isEnded && s.buffer == []) && !s.aborted {
      if |s.buffer| >= target {
        EmitKeeps(target, s, target);
      } else if s.isEnded {
        EmitKeeps(target, s, |s.buffer|);
        assert s.buffer[..|s.buffer|] == s.buffer;
      }
    }
  }

  lemma StepKeeps(target: Positive, s: State, e: Event)
    requires Invariant(target, s) && Enabled(s, e)
    ensures Invariant(target, Step(target, s, e))
  {
    match e
    case Data(chunk) =>
      assert Concat(s.emitted) + (s.buffer + chunk) == (Concat(s.emitted) + s.buffer) + chunk;
    case Iterate => if s.emitter.Running? { IterationKeeps(target, s); }
    case _ =>
  }

  lemma StartKeeps(target: Positive, aborted: bool)
    ensures Invariant(target, Start(target, aborted))
    ensures var s := Start(target, aborted); s.aborted == s.destroyed == aborted
  {
    assert Concat([]) + [] == [];
  }

  /** Every interleaving keeps the invariant: emitted bytes followed by the buffer are the accepted bytes. */
  lemma {:induction false} RunKeeps(target: Positive, s: State, run: seq<Event>)
    requires Invariant(target, s) && Possible(target, s, run)
    ensures Invariant(target, Run(target, s, run))
    decreases |run|
  {
    if run != [] {
      StepKeeps(target, s, run[0]);
      RunKeeps(target, Step(target, s, run[0]), run[1..]);
    }
  }

  /** Once aborted, no chunk is emitted and no byte accepted, whatever follows. */
  lemma {:induction false} NothingAfterAbort(target: Positive, s: State, run: seq<Event>)
    requires s.aborted
    ensures
      var t := Run(target, s, run);
      t.aborted && t.emitted == s.emitted && t.accepted == s.accepted && t.buffer == s.buffer
    decreases |run|
  {
    if run != [] { NothingAfterAbort(target, Step(target, s, run[0]), run[1..]); }
  }

  /** A run that finished without an abort has emitted the whole stream, cut into chunks. */
  lemma FinishedRunIsComplete(target: Positive, aborted: bool, run: seq<Event>)
    requires Possible(target, Start(target, aborted), run)
    ensures
      var t := Run(target, Start(target, aborted), run);
      t.emitter.Finished? && !t.aborted ==>
        t.emitted == Chunks(target, t.arrived) && |t.emitted| == CeilDiv(|t.arrived|, target)
  {
    var t := Run(target, Start(target, aborted), run);
    StartKeeps(target, aborted);
    RunKeeps(target, Start(target, aborted), run);
    if t.emitter.Finished? && !t.aborted {
      EmittedAreChunks(target, t);
      ChunksShape(target, t.arrived);
    }
  }

  lemma EmittedAreChunks(target: Positive, t: State)
    requires Invariant(target, t) && t.isEnded && t.buffer == [] && !t.aborted
    ensures t.emitted == Chunks(target, t.arrived)
  {
    assert Concat(t.emitted) == t.arrived by { assert Concat(t.emitted) + [] == Concat(t.emitted); }
    if t.emitted != [] {
      var n := |t.emitted| - 1;
      var init, last := t.emitted[..n], t.emitted[n];
      assert t.emitted == init + [last];
      ConcatAppend(init, last);
      ChunksAppend(target, Concat(init), last, init);
      assert Chunks(target, last) == [last];
    }
  }

  /** The caller's promise resolves only after every byte that arrived went out; bytes are lost only to an abort. */
  lemma ResolvedMeansDelivered(target: Positive, aborted: bool, run: seq<Event>)
    requires Possible(target, Start(target, aborted), run)
    ensures
      var t := Run(target, Start(target, aborted), run);
      t.promise.Resolved? ==> Concat(t.emitted) == t.arrived && t.emitter.Finished?
  {
    StartKeeps(target, aborted);
    RunKeeps(target, Start(target, aborted), run);
    var t := Run(target, Start(target, aborted), run);
    assert Concat(t.emitted) + [] == Concat(t.emitted);
  }

  /** A signal aborted from the start: the loop never runs, nothing is emitted and the promise stays rejected. */
  lemma {:induction false} AbortedFromTheStart(target: Positive, run: seq<Event>)
    ensures
      var t := Run(target, Start(target, true), run);
      t.emitter.Stopped? && t.promise.Rejected? && t.emitted == []
  {
    StoppedStays(target, Start(target, true), run);
  }

  lemma {:induction false} StoppedStays(target: Positive, s: State, run: seq<Event>)
    requires s.emitter.Stopped? && s.promise.Rejected?
    ensures
      var t := Run(target, s, run);
      t.emitter.Stopped? && t.promise.Rejected? && t.emitted == s.emitted
    decreases |run|
  {
    if run != [] { StoppedStays(target, Step(target, s, run[0]), run[1..]); }
  }

  // ---------------------------------------------------------------- the promise

  /** The promise is settled once, and the loop left once. */
  lemma {:induction false} SettledStays(target: Positive, s: State, run: seq<Event>)
    ensures
      var t := Run(target, s, run);
      (s.promise != Pending ==> t.promise == s.promise) && (s.emitter != Running ==> t.emitter == s.emitter)
    decreases |run|
  {
    if run != [] { SettledStays(target, Step(target, s, run[0]), run[1..]); }
  }

  /** An error or an abort at position `i`, while the loop was still running. */
  ghost predicate InterruptedAt(target: Positive, s: State, run: seq<Event>, i: nat) {
    i < |run| && (run[i].Error? || run[i].Abort?) && Run(target, s, run[..i]).emitter.Running?
  }

  lemma RunShifts(target: Positive, s: State, run: seq<Event>, i: nat)
    requires 0 < i <= |run|
    ensures Run(target, s, run[..i]) == Run(target, Step(target, s, run[0]), run[1..][..i - 1])
  {
    assert run[..i][1..] == run[1..][..i - 1];
  }

  lemma InterruptionShifts(target: Positive, s: State, run: seq<Event>)
    requires run != [] && !run[0].Error? && !run[0].Abort?
    ensures
      (exists i: nat :: InterruptedAt(target, s, run, i)) <==>
      exists i: nat :: InterruptedAt(target, Step(target, s, run[0]), run[1..], i)
  {
    var next := Step(target, s, run[0]);
    if i: nat :| InterruptedAt(target, s, run, i) {
      RunShifts(target, s, run, i);
      assert InterruptedAt(target, next, run[1..], i - 1);
    }
    if i: nat :| InterruptedAt(target, next, run[1..], i) {
      RunShifts(target, s, run, i + 1);
      assert InterruptedAt(target, s, run, i + 1);
    }
  }

  lemma NoneOnceLeft(target: Positive, s: State, run: seq<Event>)
    requires s.emitter != Running
    ensures !exists i: nat :: InterruptedAt(target, s, run, i)
  {
    forall i: nat ensures !InterruptedAt(target, s, run, i) {
      if i < |run| { SettledStays(target, s, run[..i]); }
    }
  }

  lemma {:induction false} PromiseFrom(target: Positive, s: State, run: seq<Event>)
    requires s.promise.Pending? && s.emitter.Running? && !s.aborted
    ensures
      var t := Run(target, s, run);
      t.promise == if exists i: nat :: InterruptedAt(target, s, run, i) then Rejected
                   else if t.emitter.Finished? then Resolved else Pending
    decreases |run|
  {
    if run != [] {
      var next := Step(target, s, run[0]);
      if run[0].Error? || run[0].Abort? {
        SettledStays(target, next, run[1..]);
        assert run[..0] == [] && InterruptedAt(target, s, run, 0);
      } else {
        InterruptionShifts(target, s, run);
        if next.emitter.Finished? {
          SettledStays(target, next, run[1..]);
          NoneOnceLeft(target, next, run[1..]);
        } else {
          PromiseFrom(target, next, run[1..]);
        }
      }
    }
  }

  /**
   The first settlement wins: the promise is rejected exactly when an error or an abort came while the loop was
   running, resolved exactly when the loop finished before any, and pending otherwise, in every run.
   */
  lemma PromiseIs(target: Positive, run: seq<Event>)
    ensures
      var s, t := Start(target, false), Run(target, Start(target, false), run);
      t.promise == if exists i: nat :: InterruptedAt(target, s, run, i) then Rejected
                   else if t.emitter.Finished? then Resolved else Pending
  {
    PromiseFrom(target, Start(target, false), run);
  }

  /** The stream is destroyed exactly when the call was aborted, before it began or since. */
  lemma {:induction false} DestroyedExactlyWhen(target: Positive, s: State, run: seq<Event>)
    requires s.destroyed == s.aborted
    ensures
      var t := Run(target, s, run);
      t.destroyed == t.aborted && (t.aborted <==> s.aborted || Abort in run)
    decreases |run|
  {
    if run != [] {
      DestroyedExactlyWhen(target, Step(target, s, run[0]), run[1..]);
      assert run == [run[0]] + run[1..];
    }
  }

  // ---------------------------------------------------------------- it ends

  /** The state the loop exits in when left alone after the stream's end. */
  function Drained(target: Positive, s: State): State
  {
    s.(emitted := s.emitted + Chunks(target, s.buffer), buffer := [], emitter := Finished, promise := s.promise.Resolve())
  }

  lemma DrainStep(target: Positive, s: State)
    requires s.isEnded && !s.aborted && s.emitter.Running?
    ensures
      var t := Iteration(target, s);
      if s.buffer == [] then t == Drained(target, s)
      else Drained(target, t) == Drained(target, s) && |t.buffer| < |s.buffer| && t.emitter.Running?
  {
    if s.buffer == [] {
      assert s.emitted + [] == s.emitted;
    } else if |s.buffer| >= target {
      var piece, rest := s.buffer[..target], s.buffer[target..];
      assert (s.emitted + [piece]) + Chunks(target, rest) == s.emitted + ([piece] + Chunks(target, rest));
      if rest == [] { assert piece == s.buffer; }
    }
  }

  function Iterations(n: nat): seq<Event> { seq(n, _ => Event.Iterate) }

  /** After the end event the loop exits in exactly ceil(buffer / target) + 1 more iterations. */
  lemma {:induction false} LoopEnds(target: Positive, s: State)
    requires s.isEnded && !s.aborted && s.emitter.Running?
    ensures Run(target, s, Iterations(CeilDiv(|s.buffer|, target) + 1)) == Drained(target, s)
    ensures forall n :: 0 <= n <= CeilDiv(|s.buffer|, target) ==> Run(target, s, Iterations(n)).emitter.Running?
    decreases |s.buffer|
  {
    var k := CeilDiv(|s.buffer|, target);
    var t := Iteration(target, s);
    var run := Iterations(k + 1);
    DrainStep(target, s);
    assert run[0] == Event.Iterate && run[1..] == Iterations(k);
    if s.buffer == [] {
      assert Run(target, t, []) == t;
    } else {
      LoopEnds(target, t);
      forall n | 0 < n <= k ensures Run(target, s, Iterations(n)).emitter.Running? {
        assert Iterations(n)[0] == Event.Iterate && Iterations(n)[1..] == Iterations(n - 1);
      }
    }
  }
}
