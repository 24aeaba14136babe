/**
 The queue, flags, counters and worker frame of RaopAudioDecryptor, each critical section a method that
 does one step of PcmQueue.
 */
module OutputQueue {
  import opened PcmQueue

  // The offers that were refused.
  function Refusals(calls: seq<Call>): (n: nat)
    ensures n <= |calls|
  {
    if calls == [] then 0 else Refusals(calls[..|calls| - 1]) + (if calls[|calls| - 1].ok then 0 else 1)
  }

  lemma RefusalsMore(calls: seq<Call>, c: Call)
    ensures Refusals(calls + [c]) == Refusals(calls) + if c.ok then 0 else 1
  {
    assert (calls + [c])[..|calls|] == calls;
  }

  // The queue after a frame is enqueued: the oldest makes room for the newest.
  lemma QueueAfter<F>(s: State<F>, f: F, queue: seq<F>)
    requires s.head <= |s.frames| && queue == s.frames[s.head..]
    ensures var t := EnqueueStep(s, f);
            t.head <= |t.frames|
            && t.frames[t.head..] == (if |queue| >= CAPACITY then queue[1..] else queue) + [f]
            && t.producer == Counting(|queue| >= CAPACITY)
  {
  }

  class OutputQueue<F(0)> {
    var queue: seq<F>
    var running: bool
    var hasCallback: bool
    var frame: F
    var framesQueued: nat
    var queueDrops: nat
    var framesDelivered: nat
    var callbackRetries: nat
    ghost var state: State<F>

    // The fields show the state of the protocol.
    ghost predicate Valid()
      reads this
    {
      && Inv(state) && queue == state.frames[state.head..]
      && running == state.running && hasCallback == state.callback
      && framesQueued == state.queuedCount && queueDrops == state.dropCount
      && framesDelivered == |state.delivered| && callbackRetries == Refusals(state.calls)
      && (state.worker.Holding? || state.worker.Armed? || state.worker.Left? ==>
            state.worker.id < |state.frames| && frame == state.frames[state.worker.id])
    }

    constructor (none: F)
      ensures Valid() && state == Init()
    {
      queue, running, hasCallback, frame := [], false, false, none;
      framesQueued, queueDrops, framesDelivered, callbackRetries := 0, 0, 0, 0;
      state := Init();
    }

    // enqueue_pcm under the output lock: the oldest frame makes room.
    method EnqueuePcm(f: F) returns (dropped: bool)
      requires Valid() && Enabled(state, Enqueue(f))
      modifies this`queue, this`state
      ensures Valid() && state == Next(old(state), Enqueue(f)) && state.producer == Counting(dropped)
    {
      StepKeepsInv(state, Enqueue(f));
      QueueAfter(state, f, queue);
      dropped := false;
      if |queue| >= CAPACITY {
        queue := queue[1..];
        dropped := true;
      }
      queue := queue + [f];
      state := Next(state, Enqueue(f));
    }

    // enqueue_pcm under the statistics lock.
    method CountEnqueued(dropped: bool)
      requires Valid() && state.producer == Counting(dropped)
      modifies this`framesQueued, this`queueDrops, this`state
      ensures Valid() && state == Next(old(state), CountFrame)
    {
      StepKeepsInv(state, CountFrame);
      if dropped {
        queueDrops := queueDrops + 1;
      }
      framesQueued := framesQueued + 1;
      state := Next(state, CountFrame);
    }

    // set_audio_callback, before it starts or stops the worker.
    method SetAudioCallback(present: bool)
      requires Valid() && Enabled(state, SetCallback(present))
      modifies this`hasCallback, this`state
      ensures Valid() && state == Next(old(state), SetCallback(present))
    {
      StepKeepsInv(state, SetCallback(present));
      hasCallback := present;
      state := Next(state, SetCallback(present));
    }

    // start_output_worker
    method StartOutputWorker()
      requires Valid() && Enabled(state, Start)
      modifies this`running, this`state
      ensures Valid() && state == Next(old(state), Start)
    {
      StepKeepsInv(state, Start);
      if !running {
        running := true;
      }
      state := Next(state, Start);
    }

    // stop_output_worker up to the join.
    method StopRunning() returns (stopped: bool)
      requires Valid() && Enabled(state, StopFlag)
      modifies this`running, this`state
      ensures Valid() && state == Next(old(state), StopFlag) && stopped == old(running)
    {
      StepKeepsInv(state, StopFlag);
      stopped := running;
      running := false;
      state := Next(state, StopFlag);
    }

    // clear_output_queue
    method ClearOutputQueue()
      requires Valid() && Enabled(state, Clear)
      modifies this`queue, this`state
      ensures Valid() && state == Next(old(state), Clear) && queue == []
    {
      StepKeepsInv(state, Clear);
      queue := [];
      state := Next(state, Clear);
    }

    // The worker's wake-up: the oldest frame, or the end of the thread.
    method TakeFrame() returns (taken: bool)
      requires Valid() && state.worker == Waiting && (!running || queue != [])
      modifies this`queue, this`frame, this`state
      ensures Valid()
      ensures taken == (old(queue) != []) && state == Next(old(state), if taken then Take else Exit)
      ensures taken ==> frame == old(queue)[0] && queue == old(queue)[1..]
    {
      if !running && queue == [] {
        StepKeepsInv(state, Exit);
        state := Next(state, Exit);
        return false;
      }
      StepKeepsInv(state, Take);
      frame := queue[0];
      queue := queue[1..];
      state := Next(state, Take);
      taken := true;
    }

    // The first test of the retry loop.
    method TestRunning() returns (go: bool)
      requires Valid() && state.worker.Holding?
      modifies this`state
      ensures Valid() && go == running && state == Next(old(state), ReadRunning)
    {
      StepKeepsInv(state, ReadRunning);
      go := running;
      state := Next(state, ReadRunning);
    }

    // The second test and the call, whose answer is `accepts`; a refusal is counted and the frame kept.
    method OfferFrame(accepts: bool) returns (retry: bool)
      requires Valid() && state.worker.Armed?
      modifies this`callbackRetries, this`state
      ensures Valid() && state == Next(old(state), Deliver(accepts)) && retry == (hasCallback && !accepts)
      ensures retry ==> state.worker == Holding(old(state).worker.id)
    {
      StepKeepsInv(state, Deliver(accepts));
      RefusalsMore(state.calls, Call(state.worker.id, accepts));
      retry := hasCallback && !accepts;
      if retry {
        callbackRetries := callbackRetries + 1;
      }
      state := Next(state, Deliver(accepts));
    }

    // Behind the retry loop.
    method CountDelivered()
      requires Valid() && state.worker.Left?
      modifies this`framesDelivered, this`state
      ensures Valid() && state == Next(old(state), Settle)
    {
      StepKeepsInv(state, Settle);
      if running {
        framesDelivered := framesDelivered + 1;
      }
      state := Next(state, Settle);
    }
  }
}
