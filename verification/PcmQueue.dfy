/**
 The bounded PCM queue between the packet thread, the output worker and the control thread, as steps each
 under a lock or of one shared read. Frames are numbered in the order they are enqueued; decryption and
 decoding stay outside.
 */
module PcmQueue {
  const CAPACITY: nat := 256

  // Where the worker is: no thread, at the condition variable, about to test the running flag, past that
  // test, or out of the retry loop.
  datatype Worker = Absent | Waiting | Holding(id: nat) | Armed(id: nat) | Left(id: nat, accepted: bool)

  // Where the control thread is in set_audio_callback, stop_output_worker and reset.
  datatype Control = Ready | Starting | Stopping | Joining | Clearing

  // Whether the producer still has to count a frame it enqueued.
  datatype Producer = Resting | Counting(dropped: bool)

  datatype Call = Call(id: nat, ok: bool)

  datatype State<F> = State(
    frames: seq<F>,
    head: nat,
    running: bool,
    callback: bool,
    worker: Worker,
    control: Control,
    producer: Producer,
    delivered: seq<nat>,
    dropped: seq<nat>,
    discarded: seq<nat>,
    silent: seq<nat>,
    calls: seq<Call>,
    queuedCount: nat,
    dropCount: nat)

  datatype Step<F> =
    | Enqueue(frame: F)
    | CountFrame
    | SetCallback(present: bool)
    | Start
    | BeginStop
    | StopFlag
    | Join
    | Clear
    | Take
    | Exit
    | ReadRunning
    | Deliver(ok: bool)
    | Settle

  function Init<F>(): State<F> {
    State([], 0, false, false, Absent, Ready, Resting, [], [], [], [], [], 0, 0)
  }

  // The queue itself: numbers head and up, oldest first.
  function Queued<F>(s: State<F>): nat {
    if s.head <= |s.frames| then |s.frames| - s.head else 0
  }

  // ---------- the steps ----------

  predicate Enabled<F>(s: State<F>, step: Step<F>) {
    match step
    case Enqueue(_) => s.producer == Resting
    case CountFrame => s.producer.Counting?
    case SetCallback(_) => s.control == Ready
    case Start => s.control == Starting
    case BeginStop => s.control == Ready
    case StopFlag => s.control == Stopping
    case Join => s.control == Joining && s.worker == Absent
    case Clear => s.control == Clearing || s.control == Ready
    case Take => s.worker == Waiting && Queued(s) > 0
    case Exit => s.worker == Waiting && !s.running && Queued(s) == 0
    case ReadRunning => s.worker.Holding?
    case Deliver(_) => s.worker.Armed?
    case Settle => s.worker.Left?
  }

  // The numbers from a up to b.
  function Range(a: nat, b: nat): (r: seq<nat>)
    requires a <= b
    ensures |r| == b - a
  {
    seq(b - a, (i: nat) => a + i)
  }

  function EnqueueStep<F>(s: State<F>, f: F): State<F>
  {
    if Queued(s) >= CAPACITY then
      s.(frames := s.frames + [f], dropped := s.dropped + [s.head], head := s.head + 1, producer := Counting(true))
    else
      s.(frames := s.frames + [f], producer := Counting(false))
  }

  function ClearStep<F>(s: State<F>): State<F> {
    if s.head <= |s.frames| then
      s.(discarded := s.discarded + Range(s.head, |s.frames|), head := |s.frames|, control := Ready)
    else s.(control := Ready)
  }

  // With no callback the retry loop is left as if the frame had been taken.
  function DeliverStep<F>(s: State<F>, id: nat, ok: bool): State<F> {
    if !s.callback then s.(worker := Left(id, false), silent := s.silent + [id])
    else s.(calls := s.calls + [Call(id, ok)], worker := if ok then Left(id, true) else Holding(id))
  }

  function Next<F>(s: State<F>, step: Step<F>): State<F>
    requires Enabled(s, step)
  {
    match step
    case Enqueue(f) => EnqueueStep(s, f)
    case CountFrame =>
      s.(queuedCount := s.queuedCount + 1, dropCount := s.dropCount + (if s.producer.dropped then 1 else 0),
         producer := Resting)
    case SetCallback(present) => s.(callback := present, control := if present then Starting else Stopping)
    case Start => if s.running then s.(control := Ready) else s.(running := true, worker := Waiting, control := Ready)
    case BeginStop => s.(control := Stopping)
    case StopFlag => if s.running then s.(running := false, control := Joining) else s.(control := Ready)
    case Join => s.(control := Clearing)
    case Clear => ClearStep(s)
    case Take => s.(head := s.head + 1, worker := Holding(s.head))
    case Exit => s.(worker := Absent)
    case ReadRunning => s.(worker := if s.running then Armed(s.worker.id) else Left(s.worker.id, false))
    case Deliver(ok) => DeliverStep(s, s.worker.id, ok)
    case Settle =>
      if s.running then s.(delivered := s.delivered + [s.worker.id], worker := Waiting)
      else s.(discarded := s.discarded + [s.worker.id], worker := Waiting)
  }

  // ---------- the invariant ----------

  // How often a number stands among the frames that left the queue.
  function InFlight(w: Worker, id: nat): nat {
    if (w.Holding? || w.Armed? || w.Left?) && w.id == id then 1 else 0
  }

  function Places<F>(s: State<F>, id: nat): nat {
    multiset(s.delivered)[id] + multiset(s.dropped)[id] + multiset(s.discarded)[id] + InFlight(s.worker, id)
  }

  // Each frame is in exactly one place: still queued, or once among the others.
  ghost predicate Partitioned<F>(s: State<F>) {
    forall id: nat :: Places(s, id) == if id < s.head then 1 else 0
  }

  ghost predicate Bounded<F>(s: State<F>) {
    s.head <= |s.frames| <= s.head + CAPACITY
  }

  // The frame in flight, or the head: everything delivered or offered is older.
  function Front<F>(s: State<F>): nat {
    if s.worker.Absent? || s.worker.Waiting? then s.head else s.worker.id
  }

  ghost predicate Increasing(ids: seq<nat>) {
    forall i, j :: 0 <= i < j < |ids| ==> ids[i] < ids[j]
  }

  // Delivered in order, none twice, none newer than the one in flight.
  ghost predicate Ordered<F>(s: State<F>) {
    && Increasing(s.delivered) && (forall i :: 0 <= i < |s.delivered| ==> s.delivered[i] < Front(s))
    && Front(s) <= s.head && (s.worker.Absent? || s.worker.Waiting? || Front(s) < s.head)
  }

  // Offers never go back; a frame is offered again only after a refusal; and the one in flight was refused
  // by every offer so far, unless it is the accepted one.
  ghost predicate Offered<F>(s: State<F>) {
    && (forall i, j :: 0 <= i < j < |s.calls| ==>
          s.calls[i].id < s.calls[j].id || (s.calls[i].id == s.calls[j].id && !s.calls[i].ok))
    && (forall i :: 0 <= i < |s.calls| ==>
          s.calls[i].id <= Front(s) && (s.calls[i].id == Front(s) ==> !s.worker.Absent? && !s.worker.Waiting?))
    && (s.worker.Holding? || s.worker.Armed? ==>
          forall i :: 0 <= i < |s.calls| && s.calls[i].id == s.worker.id ==> !s.calls[i].ok)
  }

  // What is delivered was accepted, or let through while there was no callback.
  ghost predicate Taken<F>(s: State<F>, id: nat) {
    Call(id, true) in s.calls || id in s.silent
  }

  ghost predicate Justified<F>(s: State<F>) {
    && (forall id :: id in s.delivered ==> Taken(s, id))
    && (s.worker.Left? && s.worker.accepted ==> Call(s.worker.id, true) in s.calls)
    && (s.worker.Left? && s.running ==> Taken(s, s.worker.id))
  }

  // The worker lives while the flag is set, and until it is joined.
  ghost predicate Threads<F>(s: State<F>) {
    && (s.running ==> s.worker != Absent && s.control != Joining && s.control != Clearing)
    && (!s.running && s.control != Joining ==> s.worker == Absent)
  }

  // The counters follow the frames, one step behind while the producer has yet to count.
  ghost predicate Counted<F>(s: State<F>) {
    && |s.frames| == s.queuedCount + (if s.producer.Counting? then 1 else 0)
    && |s.dropped| == s.dropCount + (if s.producer.Counting? && s.producer.dropped then 1 else 0)
  }

  // Nothing is lost: every frame enqueued is queued, in flight, delivered, dropped or discarded.
  ghost predicate Conserved<F>(s: State<F>) {
    |s.frames| == Queued(s) + (if s.worker.Absent? || s.worker.Waiting? then 0 else 1)
                  + |s.delivered| + |s.dropped| + |s.discarded|
  }

  ghost predicate Inv<F>(s: State<F>) {
    Bounded(s) && Partitioned(s) && Ordered(s) && Offered(s) && Justified(s) && Threads(s) && Counted(s) && Conserved(s)
  }

  // ---------- every step keeps it ----------

  lemma InitInv<F>()
    ensures Inv(Init<F>())
  {
  }

  lemma KeepsBounded<F>(s: State<F>, step: Step<F>)
    requires Inv(s) && Enabled(s, step)
    ensures Bounded(Next(s, step))
  {
  }

  lemma KeepsConserved<F>(s: State<F>, step: Step<F>)
    requires Inv(s) && Enabled(s, step)
    ensures Conserved(Next(s, step))
  {
  }

  lemma KeepsCounted<F>(s: State<F>, step: Step<F>)
    requires Inv(s) && Enabled(s, step)
    ensures Counted(Next(s, step))
  {
  }

  lemma KeepsThreads<F>(s: State<F>, step: Step<F>)
    requires Inv(s) && Enabled(s, step)
    ensures Threads(Next(s, step))
  {
  }

  lemma KeepsOrdered<F>(s: State<F>, step: Step<F>)
    requires Inv(s) && Enabled(s, step)
    ensures Ordered(Next(s, step))
  {
  }

  // Without an offer only the front moves, forward.
  lemma OfferedSame<F>(s: State<F>, t: State<F>)
    requires Offered(s) && t.calls == s.calls && Front(s) <= Front(t)
    requires t.worker == s.worker || (t.worker.Left? && InFlight(s.worker, t.worker.id) == 1)
             || (t.worker.Armed? && s.worker == Holding(t.worker.id))
             || ((t.worker.Waiting? || t.worker.Absent?) && forall i :: 0 <= i < |s.calls| ==> s.calls[i].id < Front(t))
             || (t.worker.Holding? && s.worker == Waiting)
    ensures Offered(t)
  {
  }

  lemma OfferedOnce<F>(s: State<F>, ok: bool)
    requires Offered(s) && s.worker.Armed?
    ensures Offered(DeliverStep(s, s.worker.id, ok))
  {
    var t := DeliverStep(s, s.worker.id, ok);
    if s.callback {
      assert t.calls == s.calls + [Call(s.worker.id, ok)];
    }
  }

  lemma KeepsOffered<F>(s: State<F>, step: Step<F>)
    requires Inv(s) && Enabled(s, step)
    ensures Offered(Next(s, step))
  {
    match step
    case Deliver(ok) => OfferedOnce(s, ok);
    case _ => OfferedSame(s, Next(s, step));
  }

  lemma KeepsJustified<F>(s: State<F>, step: Step<F>)
    requires Inv(s) && Enabled(s, step)
    ensures Justified(Next(s, step))
  {
  }

  lemma {:induction false} RangePlaces(a: nat, b: nat, id: nat)
    requires a <= b
    ensures multiset(Range(a, b))[id] == if a <= id < b then 1 else 0
    decreases b - a
  {
    if a < b {
      assert Range(a, b) == Range(a, b - 1) + [b - 1];
      RangePlaces(a, b - 1, id);
    }
  }

  lemma MorePlaces(ids: seq<nat>, more: seq<nat>, id: nat)
    ensures multiset(ids + more)[id] == multiset(ids)[id] + multiset(more)[id]
  {
  }

  // The places of one number after each kind of step.
  lemma PlacesEnqueue<F>(s: State<F>, f: F, id: nat)
    requires Inv(s) && Places(s, id) == if id < s.head then 1 else 0
    ensures var t := EnqueueStep(s, f); Places(t, id) == if id < t.head then 1 else 0
  {
    MorePlaces(s.dropped, [s.head], id);
  }

  lemma PlacesClear<F>(s: State<F>, id: nat)
    requires Inv(s) && Places(s, id) == if id < s.head then 1 else 0
    ensures var t := ClearStep(s); Places(t, id) == if id < t.head then 1 else 0
  {
    RangePlaces(s.head, |s.frames|, id);
    MorePlaces(s.discarded, Range(s.head, |s.frames|), id);
  }

  lemma PlacesSettle<F>(s: State<F>, id: nat)
    requires s.worker.Left? && Places(s, id) == if id < s.head then 1 else 0
    ensures var t := Next(s, Settle); Places(t, id) == if id < t.head then 1 else 0
  {
    MorePlaces(s.delivered, [s.worker.id], id);
    MorePlaces(s.discarded, [s.worker.id], id);
  }

  lemma PlacesOther<F>(s: State<F>, step: Step<F>, id: nat)
    requires Inv(s) && Enabled(s, step) && !step.Enqueue? && !step.Clear? && !step.Settle?
    requires Places(s, id) == if id < s.head then 1 else 0
    ensures var t := Next(s, step); Places(t, id) == if id < t.head then 1 else 0
  {
  }

  lemma KeepsPartitioned<F>(s: State<F>, step: Step<F>)
    requires Inv(s) && Enabled(s, step)
    ensures Partitioned(Next(s, step))
  {
    var t := Next(s, step);
    forall id: nat
      ensures Places(t, id) == if id < t.head then 1 else 0
    {
      match step
      case Enqueue(f) => PlacesEnqueue(s, f, id);
      case Clear => PlacesClear(s, id);
      case Settle => PlacesSettle(s, id);
      case _ => PlacesOther(s, step, id);
    }
  }

  // Every step of every thread keeps the invariant.
  lemma StepKeepsInv<F>(s: State<F>, step: Step<F>)
    requires Inv(s) && Enabled(s, step)
    ensures Inv(Next(s, step))
  {
    KeepsBounded(s, step);
    KeepsPartitioned(s, step);
    KeepsOrdered(s, step);
    KeepsOffered(s, step);
    KeepsJustified(s, step);
    KeepsThreads(s, step);
    KeepsCounted(s, step);
    KeepsConserved(s, step);
  }

  // ---------- runs ----------

  // A run: the states an interleaving of steps goes through.
  ghost predicate Run<F>(states: seq<State<F>>, steps: seq<Step<F>>) {
    && |states| == |steps| + 1
    && forall i: nat {:trigger steps[i]} | i < |steps| ::
         Enabled(states[i], steps[i]) && states[i + 1] == Next(states[i], steps[i])
  }

  lemma {:induction false} RunKeepsInv<F>(states: seq<State<F>>, steps: seq<Step<F>>, i: nat)
    requires Run(states, steps) && Inv(states[0]) && i < |states|
    ensures Inv(states[i])
  {
    if i > 0 {
      RunKeepsInv(states, steps, i - 1);
      StepKeepsInv(states[i - 1], steps[i - 1]);
    }
  }

  // ---------- retries ----------

  ghost predicate Live<F>(s: State<F>) {
    s.running && s.callback
  }

  lemma {:induction false} StillHeld<F>(states: seq<State<F>>, steps: seq<Step<F>>, i: nat, n: nat, id: nat)
    requires Run(states, steps) && i < n < |states|
    requires steps[i] == Deliver(false) && states[i].callback && states[i].worker == Armed(id)
    requires forall k: nat {:trigger steps[k]} | i < k < n :: !steps[k].Deliver?
    requires forall k: nat {:trigger states[k]} | i < k <= n :: Live(states[k])
    ensures states[n].worker == Holding(id) || states[n].worker == Armed(id)
  {
    var s, step := states[n - 1], steps[n - 1];
    assert Enabled(s, step) && states[n] == Next(s, step);
    if i + 1 < n {
      StillHeld(states, steps, i, n - 1, id);
      assert Live(states[n - 1]);
    }
  }

  // While the worker runs and has a callback, the next frame offered after a refusal is the refused one,
  // whatever the other threads do in between.
  lemma RetriedFirst<F>(states: seq<State<F>>, steps: seq<Step<F>>, i: nat, j: nat)
    requires Run(states, steps) && i < j < |steps|
    requires steps[i] == Deliver(false) && states[i].callback && steps[j].Deliver?
    requires forall k: nat {:trigger steps[k]} | i < k < j :: !steps[k].Deliver?
    requires forall k: nat {:trigger states[k]} | i < k <= j :: Live(states[k])
    ensures states[i].worker.Armed? && states[j].worker == states[i].worker
  {
    assert Enabled(states[i], steps[i]) && Enabled(states[j], steps[j]);
    StillHeld(states, steps, i, j, states[i].worker.id);
  }

  // ---------- undisturbed delivery ----------

  predicate Disturbs<F>(step: Step<F>) {
    step.SetCallback? || step.BeginStop? || step.Clear?
  }

  // Nothing about to be discarded.
  predicate Sure<F>(s: State<F>) {
    s.worker.Left? ==> s.worker.accepted
  }

  // As long as the control thread neither changes the callback, stops nor clears, nothing is discarded and
  // nothing passes without being accepted: what the worker takes it delivers.
  lemma {:induction false} NothingLost<F>(states: seq<State<F>>, steps: seq<Step<F>>, n: nat)
    requires Run(states, steps) && n < |states| && Inv(states[0]) && Live(states[0]) && states[0].control == Ready
    requires Sure(states[0]) && forall k: nat {:trigger steps[k]} | k < n :: !Disturbs(steps[k])
    ensures Live(states[n]) && states[n].control == Ready && Sure(states[n])
    ensures states[n].discarded == states[0].discarded && states[n].silent == states[0].silent
  {
    if n > 0 {
      NothingLost(states, steps, n - 1);
      assert Enabled(states[n - 1], steps[n - 1]) && states[n] == Next(states[n - 1], steps[n - 1]);
      assert !Disturbs(steps[n - 1]);
    }
  }

  // What is delivered in any run: frames that were enqueued, in their order, none twice, each accepted or
  // let through without a callback; and the queue never holds more than it may.
  lemma DeliveredInOrder<F>(states: seq<State<F>>, steps: seq<Step<F>>, i: nat)
    requires Run(states, steps) && states[0] == Init() && i < |states|
    ensures Increasing(states[i].delivered) && Queued(states[i]) <= 256
    ensures forall k :: 0 <= k < |states[i].delivered| ==>
              states[i].delivered[k] < |states[i].frames| && Taken(states[i], states[i].delivered[k])
    ensures forall id: nat :: id < |states[i].frames| ==>
              Places(states[i], id) == if id < |states[i].frames| - Queued(states[i]) then 1 else 0
  {
    InitInv<F>();
    RunKeepsInv(states, steps, i);
    var s := states[i];
    forall k | 0 <= k < |s.delivered|
      ensures s.delivered[k] < |s.frames| && Taken(s, s.delivered[k])
    {
      assert s.delivered[k] in s.delivered;
    }
  }

  // A frame is dropped exactly when another is enqueued on 256, and it is the oldest of these.
  lemma DroppedWhenFull<F>(states: seq<State<F>>, steps: seq<Step<F>>, i: nat)
    requires Run(states, steps) && states[0] == Init() && i < |steps|
    ensures states[i + 1].dropped != states[i].dropped <==> steps[i].Enqueue? && Queued(states[i]) == 256
    ensures steps[i].Enqueue? && Queued(states[i]) == 256 ==>
              states[i + 1].dropped == states[i].dropped + [|states[i].frames| - 256]
  {
    InitInv<F>();
    RunKeepsInv(states, steps, i);
    assert Enabled(states[i], steps[i]) && states[i + 1] == Next(states[i], steps[i]);
    var s := states[i];
    assert |s.dropped + [s.head]| == |s.dropped| + 1;
  }

  // ---------- the counter and the callback ----------

  function After<F>(s: State<F>, step: Step<F>): State<F> {
    if Enabled(s, step) then Next(s, step) else s
  }

  // From an accepted offer up to the worker's next look at the flag, only clearing it intervenes: the thread
  // is not joined, so nothing starts it again.
  lemma {:induction false} StillLeft<F>(states: seq<State<F>>, steps: seq<Step<F>>, i: nat, n: nat, id: nat)
    requires Run(states, steps) && Inv(states[0]) && i < n < |states|
    requires steps[i] == Deliver(true) && states[i].callback && states[i].worker == Armed(id)
    requires forall k: nat {:trigger steps[k]} | i < k < n :: !steps[k].Settle?
    ensures states[n].worker == Left(id, true) && states[n].delivered == states[i].delivered
    ensures states[n].running <==> states[i].running && forall k: nat | i < k < n :: !steps[k].StopFlag?
  {
    var s, step := states[n - 1], steps[n - 1];
    assert Enabled(s, step) && states[n] == Next(s, step);
    RunKeepsInv(states, steps, n - 1);
    if i + 1 < n {
      StillLeft(states, steps, i, n - 1, id);
    }
  }

  // An accepted frame is counted as delivered exactly when the flag is set as it is accepted and no stop
  // clears it before the worker looks; otherwise it is discarded.
  lemma AcceptedCounted<F>(states: seq<State<F>>, steps: seq<Step<F>>, i: nat, j: nat)
    requires Run(states, steps) && Inv(states[0]) && i < j < |steps|
    requires steps[i] == Deliver(true) && states[i].callback && steps[j] == Settle
    requires forall k: nat {:trigger steps[k]} | i < k < j :: !steps[k].Settle?
    ensures states[i].worker.Armed?
    ensures states[j + 1].delivered == states[i].delivered + [states[i].worker.id]
            <==> states[i].running && forall k: nat | i < k < j :: !steps[k].StopFlag?
    ensures states[j + 1].delivered == states[i].delivered
            <==> states[j + 1].discarded == states[j].discarded + [states[i].worker.id]
  {
    assert Enabled(states[i], steps[i]) && Enabled(states[j], steps[j]);
    assert states[j + 1] == Next(states[j], steps[j]);
    var id := states[i].worker.id;
    StillLeft(states, steps, i, j, id);
    assert |states[j].delivered + [id]| == |states[i].delivered| + 1;
    assert |states[j].discarded + [id]| == |states[j].discarded| + 1;
  }

  // Such a stop can come: a run in which an accepted frame is not counted as delivered.
  lemma AcceptedUncounted<F>(f: F)
    ensures var playing :=
              After(After(After(After(After(Init(), SetCallback(true)), Start), Enqueue(f)), Take), ReadRunning);
            var stopping := After(After(After(playing, Deliver(true)), BeginStop), StopFlag);
            var s := After(stopping, Settle);
            s.calls == [Call(0, true)] && s.delivered == [] && s.discarded == [0]
  {
  }

  // Without a callback a frame is not offered, and counted as delivered in the same case.
  lemma {:induction false} StillSilent<F>(states: seq<State<F>>, steps: seq<Step<F>>, i: nat, n: nat, id: nat)
    requires Run(states, steps) && Inv(states[0]) && i < n < |states|
    requires steps[i].Deliver? && !states[i].callback && states[i].worker == Armed(id)
    requires forall k: nat {:trigger steps[k]} | i < k < n :: !steps[k].Settle?
    ensures states[n].worker == Left(id, false) && states[n].delivered == states[i].delivered
    ensures states[n].running <==> states[i].running && forall k: nat | i < k < n :: !steps[k].StopFlag?
  {
    var s, step := states[n - 1], steps[n - 1];
    assert Enabled(s, step) && states[n] == Next(s, step);
    RunKeepsInv(states, steps, n - 1);
    if i + 1 < n {
      StillSilent(states, steps, i, n - 1, id);
    }
  }

  lemma SilentCounted<F>(states: seq<State<F>>, steps: seq<Step<F>>, i: nat, j: nat)
    requires Run(states, steps) && Inv(states[0]) && i < j < |steps|
    requires steps[i].Deliver? && !states[i].callback && steps[j] == Settle
    requires forall k: nat {:trigger steps[k]} | i < k < j :: !steps[k].Settle?
    ensures states[i].worker.Armed? && states[i + 1].calls == states[i].calls
    ensures states[j + 1].delivered == states[i].delivered + [states[i].worker.id]
            <==> states[i].running && forall k: nat | i < k < j :: !steps[k].StopFlag?
  {
    assert Enabled(states[i], steps[i]) && Enabled(states[j], steps[j]);
    assert states[i + 1] == Next(states[i], steps[i]) && states[j + 1] == Next(states[j], steps[j]);
    var id := states[i].worker.id;
    StillSilent(states, steps, i, j, id);
    assert |states[j].delivered + [id]| == |states[i].delivered| + 1;
  }

  // A frame is only offered behind a look at the flag that found it set.
  lemma {:induction false} OfferedRunning<F>(states: seq<State<F>>, steps: seq<Step<F>>, j: nat) returns (i: nat)
    requires Run(states, steps) && states[0] == Init() && j < |states| && states[j].worker.Armed?
    ensures i < j && steps[i] == ReadRunning && states[i].running && states[i].worker == Holding(states[j].worker.id)
    ensures forall k: nat | i < k <= j :: states[k].worker == states[j].worker
  {
    var s, step := states[j - 1], steps[j - 1];
    assert Enabled(s, step) && states[j] == Next(s, step);
    if s.worker.Armed? {
      i := OfferedRunning(states, steps, j - 1);
    } else {
      i := j - 1;
    }
  }

  // ---------- stopping ----------

  predicate Controls<F>(step: Step<F>) {
    step.SetCallback? || step.Start? || step.BeginStop? || step.StopFlag? || step.Join? || step.Clear?
  }

  lemma {:induction false} ControlKept<F>(states: seq<State<F>>, steps: seq<Step<F>>, i: nat, n: nat)
    requires Run(states, steps) && i < n < |states|
    requires forall k: nat {:trigger steps[k]} | i < k < n :: !Controls(steps[k])
    ensures states[n].control == states[i + 1].control
  {
    if i + 1 < n {
      assert Enabled(states[n - 1], steps[n - 1]) && states[n] == Next(states[n - 1], steps[n - 1]);
      ControlKept(states, steps, i, n - 1);
    }
  }

  // The control thread starts the worker behind a new callback and stops it behind the removal of one; and a stop that
  // found the flag set waits for the worker and then empties the queue.
  lemma ControlOrder<F>(states: seq<State<F>>, steps: seq<Step<F>>, i: nat, j: nat)
    requires Run(states, steps) && i < j < |steps| && Controls(steps[j])
    requires forall k: nat {:trigger steps[k]} | i < k < j :: !Controls(steps[k])
    ensures steps[i] == SetCallback(true) ==> steps[j] == Start
    ensures steps[i] == SetCallback(false) || steps[i] == BeginStop ==> steps[j] == StopFlag
    ensures steps[i] == StopFlag && states[i].running ==> steps[j] == Join
    ensures steps[i] == Join ==> steps[j] == Clear
  {
    ControlKept(states, steps, i, j);
    assert Enabled(states[i], steps[i]) && states[i + 1] == Next(states[i], steps[i]);
    assert Enabled(states[j], steps[j]);
  }

  // From a stop up to the end of the worker the flag stays cleared, and nothing more is delivered.
  lemma {:induction false} StaysStopped<F>(states: seq<State<F>>, steps: seq<Step<F>>, i: nat, n: nat)
    requires Run(states, steps) && Inv(states[0]) && i < n < |states|
    requires steps[i] == StopFlag && states[i].running
    requires forall k: nat {:trigger steps[k]} | i < k < n :: steps[k] != Exit
    ensures !states[n].running && states[n].control == Joining && states[n].worker != Absent
    ensures states[n].delivered == states[i].delivered && |states[i].frames| <= |states[n].frames|
  {
    var s, step := states[n - 1], steps[n - 1];
    assert Enabled(s, step) && states[n] == Next(s, step);
    RunKeepsInv(states, steps, n - 1);
    if i + 1 < n {
      StaysStopped(states, steps, i, n - 1);
    }
  }

  // What is queued when a stop clears the flag is not delivered any more: by the time the worker ends, every frame of
  // it has been discarded, or dropped for a newer one.
  lemma StopDiscards<F>(states: seq<State<F>>, steps: seq<Step<F>>, i: nat, j: nat, id: nat)
    requires Run(states, steps) && states[0] == Init() && i < j < |steps|
    requires steps[i] == StopFlag && states[i].running && steps[j] == Exit
    requires forall k: nat {:trigger steps[k]} | i < k < j :: steps[k] != Exit
    requires states[i].head <= id < |states[i].frames|
    ensures id !in states[j].delivered && (id in states[j].discarded || id in states[j].dropped)
  {
    InitInv<F>();
    RunKeepsInv(states, steps, i);
    RunKeepsInv(states, steps, j);
    StaysStopped(states, steps, i, j);
    assert Enabled(states[j], steps[j]);
    assert Places(states[j], id) == 1;
  }
}
