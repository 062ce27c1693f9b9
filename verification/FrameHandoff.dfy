/** The one-slot "latest frame only" hand-off between the capture thread and the process
    thread of services/ai-service-python/stream_processor.py.  Each thread is a program
    counter over a `Queue(maxsize=1)`; a schedule is any sequence of thread steps. */
module FrameHandoff {

  // Frames are numbered in capture order.
  type Frame = nat

  datatype CapturePc =
    | Capturing                  // top of the loop, about to read a frame
    | Deciding(f: Frame)         // about to ask frame_queue.full()
    | Putting(f: Frame)          // full() was false, about to put
    | CountingPut                // put done, enqueued not yet incremented
    | Evicting(f: Frame)         // full() was true, about to get_nowait()
    | Replacing(f: Frame)        // the old frame is out, about to put the new one
    | CountingDrop               // replacement put, dropped not yet incremented
    | CaptureStopped

  datatype ProcessPc =
    | Looping                    // top of the loop
    | Polling                    // about to ask frame_queue.empty()
    | Getting                    // empty() was false, about to get()
    | ProcessStopped

  datatype State = State(
    running: bool, queue: seq<Frame>, p: CapturePc, c: ProcessPc,
    captured: nat, enqueued: nat, dropped: nat,
    consumed: seq<Frame>, evicted: seq<Frame>, refused: seq<Frame>)

  const CAPACITY := 1

  function Initial(): State {
    State(true, [], Capturing, Looping, 0, 0, 0, [], [], [])
  }

  // `put` and `get` block; a blocked thread takes no step.
  predicate CaptureBlocked(s: State) { (s.p.Putting? || s.p.Replacing?) && |s.queue| >= CAPACITY }
  predicate ProcessBlocked(s: State) { s.c.Getting? && s.queue == [] }

  function CaptureStep(s: State): State {
    match s.p
    case Capturing =>
      if s.running then s.(p := Deciding(s.captured), captured := s.captured + 1) else s.(p := CaptureStopped)
    case Deciding(f) => s.(p := if |s.queue| >= CAPACITY then Evicting(f) else Putting(f))
    case Putting(f) => if CaptureBlocked(s) then s else s.(queue := s.queue + [f], p := CountingPut)
    case CountingPut => s.(enqueued := s.enqueued + 1, p := Capturing)
    case Evicting(f) =>
      if s.queue == [] then s.(refused := s.refused + [f], p := Capturing)   // queue.Empty is swallowed
      else s.(queue := s.queue[1..], evicted := s.evicted + [s.queue[0]], p := Replacing(f))
    case Replacing(f) => if CaptureBlocked(s) then s else s.(queue := s.queue + [f], p := CountingDrop)
    case CountingDrop => s.(dropped := s.dropped + 1, p := CountingPut)
    case CaptureStopped => s
  }

  function ProcessStep(s: State): State {
    match s.c
    case Looping => s.(c := if s.running then Polling else ProcessStopped)
    case Polling => s.(c := if s.queue == [] then Looping else Getting)
    case Getting =>
      if ProcessBlocked(s) then s
      else s.(queue := s.queue[1..], consumed := s.consumed + [s.queue[0]], c := Looping)
    case ProcessStopped => s
  }

  datatype Actor = Capture | Process | StopCall

  function Step(s: State, a: Actor): State {
    match a
    case Capture => CaptureStep(s)
    case Process => ProcessStep(s)
    case StopCall => s.(running := false)
  }

  function Run(s: State, schedule: seq<Actor>): State
    decreases |schedule|
  {
    if schedule == [] then s else Run(Step(s, schedule[0]), schedule[1..])
  }

  // ---------------------------------------------------------------- the invariant

  // The frame the capture thread holds outside the queue.
  function InHand(p: CapturePc): seq<Frame> {
    if p.Deciding? || p.Putting? || p.Evicting? || p.Replacing? then [p.f] else []
  }

  function Times(f: Frame, fs: seq<Frame>): nat {
    if fs == [] then 0 else Times(f, fs[..|fs| - 1]) + if fs[|fs| - 1] == f then 1 else 0
  }

  function Places(s: State, f: Frame): nat {
    Times(f, s.consumed) + Times(f, s.evicted) + Times(f, s.refused) + Times(f, s.queue) + Times(f, InHand(s.p))
  }

  // Every captured frame is in exactly one place.
  ghost predicate Conserved(s: State) {
    forall f: Frame :: Places(s, f) == if f < s.captured then 1 else 0
  }

  function UncountedPuts(p: CapturePc): nat { if p.CountingPut? || p.CountingDrop? then 1 else 0 }
  function UncountedDrops(p: CapturePc): nat { if p.Replacing? || p.CountingDrop? then 1 else 0 }

  predicate CountersExact(s: State) {
    && s.enqueued + UncountedPuts(s.p) == |s.consumed| + |s.evicted| + |s.queue|
    && s.dropped + UncountedDrops(s.p) == |s.evicted|
    && s.captured == |s.consumed| + |s.evicted| + |s.refused| + |s.queue| + |InHand(s.p)|
  }

  // The slot holds the newest frame apart from the one in hand.
  predicate Newest(s: State) {
    && |s.queue| <= CAPACITY
    && (s.queue != [] ==> s.queue[0] + 1 + |InHand(s.p)| == s.captured)
    && (InHand(s.p) != [] ==> InHand(s.p)[0] + 1 == s.captured)
  }

  ghost predicate Ordered(s: State) {
    && (forall i, j :: 0 <= i < j < |s.consumed| ==> s.consumed[i] < s.consumed[j])
    && (forall i :: 0 <= i < |s.consumed| ==> s.consumed[i] + |s.queue| + |InHand(s.p)| < s.captured)
  }

  predicate NoDeadlock(s: State) {
    && (s.p.Putting? || s.p.Replacing? ==> s.queue == [])
    && (s.c.Getting? ==> s.queue != [] || s.p.Replacing?)
  }

  ghost predicate Inv(s: State) {
    Conserved(s) && CountersExact(s) && Newest(s) && Ordered(s) && NoDeadlock(s)
  }

  lemma SnocTimes(f: Frame, fs: seq<Frame>, g: Frame)
    ensures Times(f, fs + [g]) == Times(f, fs) + if f == g then 1 else 0
  {
    assert (fs + [g])[..|fs|] == fs;
  }

  lemma OneTimes(f: Frame, g: Frame)
    ensures Times(f, [g]) == if f == g then 1 else 0
  {
    SnocTimes(f, [], g);
    assert [] + [g] == [g];
  }

  // The frame in hand goes into the empty slot.
  lemma PutConserves(s: State, f: Frame)
    requires (s.p.Putting? || s.p.Replacing?) && s.queue == []
    ensures Places(CaptureStep(s), f) == Places(s, f)
  {
    OneTimes(f, s.p.f);
    assert s.queue + [s.p.f] == [s.p.f];
  }

  // The frame in the slot goes out, or the process thread has taken it and the frame in hand is refused.
  lemma EvictConserves(s: State, f: Frame)
    requires s.p.Evicting? && |s.queue| <= CAPACITY
    ensures Places(CaptureStep(s), f) == Places(s, f)
  {
    var g := if s.queue == [] then s.p.f else s.queue[0];
    OneTimes(f, g);
    if s.queue == [] {
      SnocTimes(f, s.refused, g);
    } else {
      SnocTimes(f, s.evicted, g);
      assert s.queue == [g] && s.queue[1..] == [];
    }
  }

  lemma CaptureConserves(s: State, f: Frame)
    requires |s.queue| <= CAPACITY
    ensures Places(CaptureStep(s), f) ==
            Places(s, f) + if s.p.Capturing? && s.running && f == s.captured then 1 else 0
  {
    if s.p.Capturing? {
      OneTimes(f, s.captured);
    } else if s.p.Evicting? {
      EvictConserves(s, f);
    } else if s.p.Putting? || s.p.Replacing? {
      if s.queue == [] { PutConserves(s, f); }
    }
  }

  lemma ProcessConserves(s: State, f: Frame)
    requires |s.queue| <= CAPACITY
    ensures Places(ProcessStep(s), f) == Places(s, f)
  {
    if s.c.Getting? && s.queue != [] {
      var t, g := ProcessStep(s), s.queue[0];
      OneTimes(f, g);
      SnocTimes(f, s.consumed, g);
      assert s.queue == [g] && t.queue == [];
      assert Times(f, t.consumed) + Times(f, t.queue) == Times(f, s.consumed) + Times(f, s.queue);
    }
  }

  lemma StepConserves(s: State, a: Actor)
    requires Conserved(s) && Newest(s)
    ensures Conserved(Step(s, a))
  {
    var t := Step(s, a);
    forall f: Frame ensures Places(t, f) == if f < t.captured then 1 else 0 {
      assert Places(s, f) == if f < s.captured then 1 else 0;
      match a
      case Capture => CaptureConserves(s, f);
      case Process => ProcessConserves(s, f);
      case StopCall =>
    }
  }

  lemma CaptureCounts(s: State)
    requires CountersExact(s) && Newest(s)
    ensures CountersExact(CaptureStep(s))
  {}

  lemma ProcessCounts(s: State)
    requires CountersExact(s)
    ensures CountersExact(ProcessStep(s))
  {}

  lemma StepCounts(s: State, a: Actor)
    requires CountersExact(s) && Newest(s)
    ensures CountersExact(Step(s, a))
  {
    match a
    case Capture => CaptureCounts(s);
    case Process => ProcessCounts(s);
    case StopCall =>
  }

  lemma StepNewest(s: State, a: Actor)
    requires Newest(s) && NoDeadlock(s)
    ensures Newest(Step(s, a)) && NoDeadlock(Step(s, a))
  {}

  lemma CaptureOrdered(s: State)
    requires Newest(s) && Ordered(s) && NoDeadlock(s)
    ensures Ordered(CaptureStep(s))
  {}

  // The frame that is taken is newer than all that were.
  lemma ProcessOrdered(s: State)
    requires Newest(s) && Ordered(s)
    ensures Ordered(ProcessStep(s))
  {
    if s.c.Getting? && s.queue != [] {
      assert forall i :: 0 <= i < |s.consumed| ==> s.consumed[i] < s.queue[0];
      assert s.queue[1..] == [];
    }
  }

  lemma StepOrdered(s: State, a: Actor)
    requires Newest(s) && Ordered(s) && NoDeadlock(s)
    ensures Ordered(Step(s, a))
  {
    match a
    case Capture => CaptureOrdered(s);
    case Process => ProcessOrdered(s);
    case StopCall =>
  }

  lemma {:induction false} EveryInterleaving(s: State, schedule: seq<Actor>)
    requires Inv(s)
    ensures Inv(Run(s, schedule))
    decreases |schedule|
  {
    if schedule != [] {
      var a := schedule[0];
      StepConserves(s, a);
      StepCounts(s, a);
      StepNewest(s, a);
      StepOrdered(s, a);
      EveryInterleaving(Step(s, a), schedule[1..]);
    }
  }

  // ---------------------------------------------------------------- what it means

  // The states that some interleaving of the two threads and stop() leads to.
  ghost predicate Reachable(s: State) { exists schedule :: Run(Initial(), schedule) == s }

  lemma ReachableInv(s: State)
    requires Reachable(s)
    ensures Inv(s)
  {
    var schedule :| Run(Initial(), schedule) == s;
    EveryInterleaving(Initial(), schedule);
  }

  /** Under every interleaving a captured frame was consumed, evicted, refused in the race, is
      queued or is in the capture thread's hands: exactly one of them, exactly once. */
  lemma EachFrameExactlyOnce(s: State, f: Frame)
    requires Reachable(s)
    ensures Times(f, s.consumed) + Times(f, s.evicted) + Times(f, s.refused) + Times(f, s.queue) + Times(f, InHand(s.p))
            == if f < s.captured then 1 else 0
  {
    ReachableInv(s);
    assert Places(s, f) == if f < s.captured then 1 else 0;
  }

  /** The published counters: between frames, enqueued = dropped + consumed + queued, and the
      refused frames are the captured ones that the counters never saw. */
  lemma CountersBalance(s: State)
    requires Reachable(s)
    ensures s.p.Capturing? || s.p.CaptureStopped? ==>
              s.enqueued == s.dropped + |s.consumed| + |s.queue| && s.captured == s.enqueued + |s.refused|
  {
    ReachableInv(s);
  }

  /** No interleaving deadlocks: the capture thread never blocks on put, and a process thread
      blocked on get is released by the very next capture step, even after stop(). */
  lemma NeverStuck(s: State)
    requires Reachable(s)
    ensures !CaptureBlocked(s)
    ensures ProcessBlocked(s) ==> s.p.Replacing? && !ProcessBlocked(CaptureStep(s))
  {
    ReachableInv(s);
  }

  /** Frames are consumed in capture order, and each one is the newest or the one just before
      the newest captured at the moment it is taken. */
  lemma LatestInOrder(s: State)
    requires Reachable(s)
    ensures forall i, j :: 0 <= i < j < |s.consumed| ==> s.consumed[i] < s.consumed[j]
    ensures var t := ProcessStep(s);
            |t.consumed| > |s.consumed| ==> t.consumed == s.consumed + [s.queue[0]] && s.captured <= s.queue[0] + 2
  {
    ReachableInv(s);
  }

  // ---------------------------------------------------------------- what each thread gets done

  lemma RunOneMore(s: State, schedule: seq<Actor>, a: Actor)
    ensures Run(s, schedule + [a]) == Step(Run(s, schedule), a)
    decreases |schedule|
  {
    var all := schedule + [a];
    if schedule == [] {
      assert all[1..] == [];
    } else {
      assert all[1..] == schedule[1..] + [a];
      RunOneMore(Step(s, schedule[0]), schedule[1..], a);
    }
  }

  /** A frame that the process thread finds is taken: unless capture interferes, its next two steps
      consume the frame in the slot and bring the thread back to its loop. */
  lemma FoundFrameIsTaken(s: State)
    requires Reachable(s) && s.c == Polling && s.queue != []
    ensures Run(s, [Process, Process]) == s.(queue := [], consumed := s.consumed + s.queue, c := Looping)
  {
    ReachableInv(s);
    RunOneMore(s, [Process], Process);
    RunOneMore(s, [], Process);
    assert [] + [Process] == [Process] && [Process] + [Process] == [Process, Process];
    assert s.queue == [s.queue[0]];
  }

  // Without a frame it looks again, as long as it is not stopped.
  lemma EmptySlotIsPolled(s: State)
    requires s.c == Looping
    ensures s.running && s.queue == [] ==> Step(s, Process).c == Polling && Run(s, [Process, Process]) == s
    ensures !s.running ==> Step(s, Process).c == ProcessStopped
  {
    RunOneMore(s, [Process], Process);
    RunOneMore(s, [], Process);
    assert [] + [Process] == [Process] && [Process] + [Process] == [Process, Process];
  }

  // The state after one uninterrupted round of the capture thread.
  ghost predicate Delivered(s: State, t: State) {
    && t.queue == [s.captured] && t.captured == s.captured + 1 && t.enqueued == s.enqueued + 1 && t.p == Capturing
    && t.evicted == s.evicted + s.queue && t.dropped == s.dropped + |s.queue| && t.refused == s.refused
    && t.consumed == s.consumed && t.c == s.c && t.running
  }

  function Captures(n: nat): seq<Actor> { seq(n, _ => Capture) }

  lemma {:induction false} CapturesRun(s: State, n: nat)
    ensures Run(s, Captures(n + 1)) == Run(CaptureStep(s), Captures(n))
    ensures Run(s, Captures(0)) == s
  {
    assert Captures(n + 1)[1..] == Captures(n);
  }

  lemma TwoCaptures(s: State)
    ensures Run(s, Captures(2)) == CaptureStep(CaptureStep(s))
  {
    CapturesRun(s, 1);
    CapturesRun(CaptureStep(s), 0);
  }

  lemma FillsEmptySlot(s: State)
    requires s.running && s.p == Capturing && s.queue == []
    ensures Run(s, Captures(4)) ==
            s.(captured := s.captured + 1, p := Capturing, queue := [s.captured], enqueued := s.enqueued + 1)
  {
    var half := s.(captured := s.captured + 1, p := Putting(s.captured));
    TwoCaptures(s);
    assert CaptureStep(CaptureStep(s)) == half;
    TwoCaptures(half);
    CapturesAdd(s, 2, 2);
    assert half.queue + [s.captured] == [s.captured];
  }

  lemma EvictsFromSlot(s: State)
    requires s.running && s.p == Capturing && |s.queue| == 1
    ensures Run(s, Captures(3)) ==
            s.(captured := s.captured + 1, p := Replacing(s.captured), queue := [], evicted := s.evicted + s.queue)
  {
    var s1 := CaptureStep(s);
    var s2 := CaptureStep(s1);
    CapturesRun(s, 2);
    CapturesRun(s1, 1);
    CapturesRun(s2, 0);
    assert s.queue == [s.queue[0]];
  }

  lemma PutsInSlot(s: State, f: Frame)
    requires s.p == Replacing(f) && s.queue == []
    ensures CaptureStep(s) == s.(p := CountingDrop, queue := [f])
  {
    assert s.queue + [f] == [f];
  }

  lemma CountsBoth(s: State)
    requires s.p == CountingDrop
    ensures Run(s, Captures(2)) == s.(p := Capturing, enqueued := s.enqueued + 1, dropped := s.dropped + 1)
  {
    var s1 := CaptureStep(s);
    CapturesRun(s, 1);
    CapturesRun(s1, 0);
  }

  lemma ReplacesInSlot(s: State, f: Frame)
    requires s.p == Replacing(f) && s.queue == []
    ensures Run(s, Captures(3)) ==
            s.(p := Capturing, queue := [f], enqueued := s.enqueued + 1, dropped := s.dropped + 1)
  {
    CapturesRun(s, 2);
    PutsInSlot(s, f);
    CountsBoth(CaptureStep(s));
  }

  lemma {:induction false} CapturesAdd(s: State, m: nat, n: nat)
    ensures Run(s, Captures(m + n)) == Run(Run(s, Captures(m)), Captures(n))
    decreases m
  {
    if m > 0 {
      CapturesRun(s, m + n - 1);
      CapturesRun(s, m - 1);
      CapturesAdd(CaptureStep(s), m - 1, n);
    }
  }

  /** A frame that is read gets into the slot: a round of the capture thread, four steps on an empty
      slot and six on a full one, replaces what is in the slot by the new frame and counts both. */
  lemma ReadFrameIsQueued(s: State)
    requires Reachable(s) && s.running && s.p == Capturing
    ensures Delivered(s, Run(s, Captures(if s.queue == [] then 4 else 6)))
  {
    ReachableInv(s);
    if s.queue == [] {
      FillsEmptySlot(s);
    } else {
      EvictsFromSlot(s);
      CapturesAdd(s, 3, 3);
      ReplacesInSlot(Run(s, Captures(3)), s.captured);
    }
  }

  // ---------------------------------------------------------------- after stop()

  // How many steps of its own a thread still makes once stop() was called.
  function CaptureLeft(p: CapturePc): nat {
    match p
    case Capturing => 1
    case CountingPut => 2
    case Putting(_) => 3
    case CountingDrop => 3
    case Replacing(_) => 4
    case Evicting(_) => 5
    case Deciding(_) => 6
    case CaptureStopped => 0
  }

  function StepsOf(schedule: seq<Actor>, a: Actor): nat {
    if schedule == [] then 0 else (if schedule[0] == a then 1 else 0) + StepsOf(schedule[1..], a)
  }

  lemma LaterIsReachable(s: State, a: Actor)
    requires Reachable(s)
    ensures Reachable(Step(s, a))
  {
    var schedule :| Run(Initial(), schedule) == s;
    RunOneMore(Initial(), schedule, a);
  }

  lemma OneStepLess(s: State)
    requires Reachable(s) && !s.running
    ensures CaptureLeft(CaptureStep(s).p) < CaptureLeft(s.p) || s.p == CaptureStep(s).p == CaptureStopped
  {
    ReachableInv(s);
  }

  // The capture thread is stopped after at most six steps of its own, whatever the process thread does.
  lemma {:induction false} CaptureStops(s: State, schedule: seq<Actor>)
    requires Reachable(s) && !s.running
    ensures var t := Run(s, schedule);
            !t.running && (CaptureLeft(s.p) <= StepsOf(schedule, Capture) ==> t.p == CaptureStopped)
    decreases |schedule|
  {
    if schedule != [] {
      var a := schedule[0];
      LaterIsReachable(s, a);
      if a == Capture { OneStepLess(s); }
      CaptureStops(Step(s, a), schedule[1..]);
    }
  }

  /** After stop() both threads end: six steps of the capture thread, with any steps of the other between
      them, and then three of the process thread, are always enough. */
  lemma StopEndsBoth(s: State, schedule: seq<Actor>)
    requires Reachable(s) && StepsOf(schedule, Capture) >= 6
    ensures var t := Run(Step(s, StopCall), schedule);
            t.p == CaptureStopped && Step(Step(Step(t, Process), Process), Process).c == ProcessStopped
  {
    LaterIsReachable(s, StopCall);
    CaptureStops(Step(s, StopCall), schedule);
    RunIsReachable(Step(s, StopCall), schedule);
    ReachableInv(Run(Step(s, StopCall), schedule));
  }

  // And nothing but stop() makes them end.
  lemma {:induction false} RunsUntilStopped(s: State, schedule: seq<Actor>)
    requires s.running && s.p != CaptureStopped && s.c != ProcessStopped && StopCall !in schedule
    ensures var t := Run(s, schedule); t.running && t.p != CaptureStopped && t.c != ProcessStopped
    decreases |schedule|
  {
    if schedule != [] {
      assert schedule[0] in schedule && forall a :: a in schedule[1..] ==> a in schedule;
      RunsUntilStopped(Step(s, schedule[0]), schedule[1..]);
    }
  }

  lemma StartsRunning(schedule: seq<Actor>)
    requires StopCall !in schedule
    ensures var t := Run(Initial(), schedule); t.running && t.p != CaptureStopped && t.c != ProcessStopped
  {
    RunsUntilStopped(Initial(), schedule);
  }

  lemma {:induction false} RunIsReachable(s: State, schedule: seq<Actor>)
    requires Reachable(s)
    ensures Reachable(Run(s, schedule))
    decreases |schedule|
  {
    if schedule != [] {
      LaterIsReachable(s, schedule[0]);
      RunIsReachable(Step(s, schedule[0]), schedule[1..]);
    }
  }
}
