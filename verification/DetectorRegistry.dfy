/** "First caller loads, the others wait": ModelRegistry.ensure_detector of
    services/ai-service-python/model_registry.py, for any number of threads.  Each dictionary
    operation is one step; `reset()` is not part of this model. */
module DetectorRegistry {
  import opened Optional

  type Key = string
  type Detector = nat
  datatype Pc =
    | Idle
    | FastPath(key: Key)                                   // first look at the cache, without the lock
    | SlowPath(key: Key)                                   // about to enter the locked section
    | Joining(key: Key)                                    // about to read _loading[key] without the lock
    | Waiting(key: Key, event: nat)
    | Rechecking(key: Key)                                 // about to read the cache after the wait
    | Loading(key: Key)                                    // building and loading the detector
    | Storing(key: Key, det: Detector)
    | Popping(key: Key, out: Option<Detector>)             // in the finally, before the lock
    | Waking(key: Key, out: Option<Detector>, popped: Option<nat>)
    | Returned(key: Key, det: Detector)
    | Raised(key: Key)

  datatype State = State(
    cache: map<Key, Detector>,
    loading: map<Key, nat>,
    events: seq<bool>,                                     // which threading.Event objects are set
    threads: seq<Pc>,
    answers: seq<(Key, Detector)>)                         // every successful return so far

  datatype Step =
    | Spawn
    | Call(key: Key)
    | Advance
    | WakeUp                                               // the event is set, or 120 s passed
    | Build(result: Option<Detector>)                      // the detector, or an exception

  function Finish(s: State, t: nat, key: Key, det: Detector): State
    requires t < |s.threads|
  {
    s.(threads := s.threads[t := Returned(key, det)], answers := s.answers + [(key, det)])
  }

  function Goto(s: State, t: nat, pc: Pc): State
    requires t < |s.threads|
  {
    s.(threads := s.threads[t := pc])
  }

  function LockedSection(s: State, t: nat, key: Key): State
    requires t < |s.threads|
  {
    if key in s.cache then Finish(s, t, key, s.cache[key])
    else if key !in s.loading then
      Goto(s.(loading := s.loading[key := |s.events|], events := s.events + [false]), t, Loading(key))
    else Goto(s, t, Joining(key))
  }

  function AdvanceStep(s: State, t: nat): State
    requires t < |s.threads|
  {
    match s.threads[t]
    case FastPath(key) => if key in s.cache then Finish(s, t, key, s.cache[key]) else Goto(s, t, SlowPath(key))
    case SlowPath(key) => LockedSection(s, t, key)
    case Joining(key) =>
      if key in s.loading then Goto(s, t, Waiting(key, s.loading[key])) else Goto(s, t, Raised(key))   // KeyError
    case Rechecking(key) => if key in s.cache then Finish(s, t, key, s.cache[key]) else Goto(s, t, Raised(key))
    case Storing(key, det) => Goto(s.(cache := s.cache[key := det]), t, Popping(key, Some(det)))
    case Popping(key, out) =>
      var event := if key in s.loading then Some(s.loading[key]) else None;
      Goto(s.(loading := s.loading - {key}), t, Waking(key, out, event))
    case Waking(key, out, event) =>
      var s' := if event.Some? && event.value < |s.events| then s.(events := s.events[event.value := true]) else s;
      if out.Some? then Finish(s', t, key, out.value) else Goto(s', t, Raised(key))
    case _ => s
  }

  // One step of thread t; a step that is not enabled there changes nothing.
  function Next(s: State, t: nat, step: Step): State {
    if step.Spawn? then s.(threads := s.threads + [Idle])
    else if t >= |s.threads| then s
    else
      match step
      case Call(key) =>
        if s.threads[t].Idle? || s.threads[t].Returned? || s.threads[t].Raised? then Goto(s, t, FastPath(key)) else s
      case WakeUp => if s.threads[t].Waiting? then Goto(s, t, Rechecking(s.threads[t].key)) else s
      case Build(result) =>
        if s.threads[t].Loading? then
          var key := s.threads[t].key;
          Goto(s, t, if result.Some? then Storing(key, result.value) else Popping(key, None))
        else s
      case _ => AdvanceStep(s, t)
  }

  function Run(s: State, schedule: seq<(nat, Step)>): State
    decreases |schedule|
  {
    if schedule == [] then s else Run(Next(s, schedule[0].0, schedule[0].1), schedule[1..])
  }

  function Initial(): State { State(map[], map[], [], [], []) }

  // ---------------------------------------------------------------- the invariant

  predicate Building(pc: Pc, key: Key) { (pc.Loading? || pc.Storing?) && pc.key == key }
  predicate Holds(pc: Pc, key: Key) { (pc.Loading? || pc.Storing? || pc.Popping?) && pc.key == key }

  // The thread that holds a key is the only one, and _loading names exactly the held keys.
  ghost predicate Exclusive(s: State) {
    forall t, u, key ::
      0 <= t < |s.threads| && 0 <= u < |s.threads| && Holds(s.threads[t], key) && Holds(s.threads[u], key) ==> t == u
  }

  ghost predicate Announced(s: State) {
    && (forall t, key :: 0 <= t < |s.threads| && Holds(s.threads[t], key) ==> key in s.loading)
    && (forall key :: key in s.loading ==> exists t :: 0 <= t < |s.threads| && Holds(s.threads[t], key))
  }

  ghost predicate BuildsAreFirst(s: State) {
    forall t, key :: 0 <= t < |s.threads| && Building(s.threads[t], key) ==> key !in s.cache
  }

  predicate Carries(pc: Pc, key: Key, det: Detector) {
    (pc.Popping? || pc.Waking?) && pc.key == key && pc.out == Some(det)
  }

  ghost predicate CarriesCached(s: State) {
    forall t, key, det :: 0 <= t < |s.threads| && Carries(s.threads[t], key, det) ==>
          key in s.cache && s.cache[key] == det
  }

  ghost predicate ReturnsCached(s: State) {
    forall i :: 0 <= i < |s.answers| ==> s.answers[i].0 in s.cache && s.cache[s.answers[i].0] == s.answers[i].1
  }

  ghost predicate Inv(s: State) {
    Exclusive(s) && Announced(s) && BuildsAreFirst(s) && CarriesCached(s) && ReturnsCached(s)
  }

  // A step of thread t that neither takes nor releases a key.
  lemma QuietStep(s: State, t: nat, pc: Pc)
    requires Inv(s) && t < |s.threads|
    requires forall key :: Holds(pc, key) <==> Holds(s.threads[t], key)
    requires forall key :: Building(pc, key) ==> Building(s.threads[t], key)
    requires forall key, det :: Carries(pc, key, det) ==> Carries(s.threads[t], key, det)
    ensures Inv(Goto(s, t, pc))
  {
    var u := Goto(s, t, pc);
    forall key | key in u.loading ensures exists i :: 0 <= i < |u.threads| && Holds(u.threads[i], key) {
      var i :| 0 <= i < |s.threads| && Holds(s.threads[i], key);
      assert Holds(u.threads[i], key);
    }
  }

  lemma FinishStep(s: State, t: nat, key: Key, det: Detector)
    requires Inv(s) && t < |s.threads| && key in s.cache && s.cache[key] == det
    requires forall k :: !Holds(s.threads[t], k)
    ensures Inv(Finish(s, t, key, det))
  {
    QuietStep(s, t, Returned(key, det));
  }

  // Thread t takes a key that nobody holds.
  lemma TakeStep(s: State, u: State, t: nat, key: Key)
    requires Announced(s) && Exclusive(s) && t < |s.threads| && key !in s.loading
    requires (forall k :: !Holds(s.threads[t], k))
    requires u.threads == s.threads[t := Loading(key)] && u.loading.Keys == s.loading.Keys + {key}
    ensures Announced(u) && Exclusive(u)
  {
    forall k | k in u.loading ensures exists i :: 0 <= i < |u.threads| && Holds(u.threads[i], k) {
      if k == key {
        assert Holds(u.threads[t], key);
      } else {
        var i :| 0 <= i < |s.threads| && Holds(s.threads[i], k);
        assert Holds(u.threads[i], k);
      }
    }
  }

  // The first caller of a key that is neither cached nor loading becomes its loader.
  lemma LoaderStep(s: State, t: nat, key: Key)
    requires Inv(s) && t < |s.threads| && s.threads[t] == SlowPath(key) && key !in s.cache && key !in s.loading
    ensures Inv(LockedSection(s, t, key))
  {
    TakeStep(s, LockedSection(s, t, key), t, key);
  }

  lemma LockedStep(s: State, t: nat, key: Key)
    requires Inv(s) && t < |s.threads| && s.threads[t] == SlowPath(key)
    ensures Inv(LockedSection(s, t, key))
  {
    if key in s.cache {
      FinishStep(s, t, key, s.cache[key]);
    } else if key in s.loading {
      QuietStep(s, t, Joining(key));
    } else {
      LoaderStep(s, t, key);
    }
  }

  // A step of thread t that keeps what every thread holds keeps the announcements.
  lemma SameHolds(s: State, u: State, t: nat)
    requires Announced(s) && Exclusive(s) && t < |s.threads| && |u.threads| == |s.threads| && u.loading == s.loading
    requires forall i :: 0 <= i < |s.threads| && i != t ==> u.threads[i] == s.threads[i]
    requires forall k :: Holds(u.threads[t], k) <==> Holds(s.threads[t], k)
    ensures Announced(u) && Exclusive(u)
  {
    forall k | k in u.loading ensures exists i :: 0 <= i < |u.threads| && Holds(u.threads[i], k) {
      var i :| 0 <= i < |s.threads| && Holds(s.threads[i], k);
      assert Holds(u.threads[i], k);
    }
  }

  lemma StoreStep(s: State, t: nat, key: Key, det: Detector)
    requires Inv(s) && t < |s.threads| && s.threads[t] == Storing(key, det)
    ensures Inv(AdvanceStep(s, t))
  {
    var u := AdvanceStep(s, t);
    assert Holds(s.threads[t], key) && Building(s.threads[t], key);
    assert key !in s.cache;
    SameHolds(s, u, t);
    forall i, k | 0 <= i < |u.threads| && Building(u.threads[i], k) ensures k !in u.cache {
      assert i != t && Building(s.threads[i], k) && Holds(s.threads[i], k);
    }
  }

  lemma PopStep(s: State, t: nat, key: Key, out: Option<Detector>)
    requires Inv(s) && t < |s.threads| && s.threads[t] == Popping(key, out)
    ensures Inv(AdvanceStep(s, t))
  {
    var u := AdvanceStep(s, t);
    assert Holds(s.threads[t], key);
    forall i, k | 0 <= i < |u.threads| && Holds(u.threads[i], k) ensures k in u.loading {
      assert i != t && Holds(s.threads[i], k);
    }
    forall k | k in u.loading ensures exists i :: 0 <= i < |u.threads| && Holds(u.threads[i], k) {
      var i :| 0 <= i < |s.threads| && Holds(s.threads[i], k);
      assert i != t && Holds(u.threads[i], k);
    }
    assert forall det :: out == Some(det) ==> Carries(s.threads[t], key, det);
  }

  lemma WakeStep(s: State, t: nat, key: Key, out: Option<Detector>, event: Option<nat>)
    requires Inv(s) && t < |s.threads| && s.threads[t] == Waking(key, out, event)
    ensures Inv(AdvanceStep(s, t))
  {
    var s' := if event.Some? && event.value < |s.events| then s.(events := s.events[event.value := true]) else s;
    assert Inv(s');
    if out.Some? {
      assert Carries(s.threads[t], key, out.value);
      FinishStep(s', t, key, out.value);
    } else {
      QuietStep(s', t, Raised(key));
    }
  }

  // The steps before a thread takes a key, or without taking one.
  lemma EnterInv(s: State, t: nat)
    requires Inv(s) && t < |s.threads|
    requires s.threads[t].FastPath? || s.threads[t].SlowPath? || s.threads[t].Joining? || s.threads[t].Rechecking?
    ensures Inv(AdvanceStep(s, t))
  {
    var key := s.threads[t].key;
    if s.threads[t].SlowPath? {
      LockedStep(s, t, key);
    } else if s.threads[t].Joining? {
      QuietStep(s, t, if key in s.loading then Waiting(key, s.loading[key]) else Raised(key));
    } else if key in s.cache {
      FinishStep(s, t, key, s.cache[key]);
    } else {
      QuietStep(s, t, if s.threads[t].FastPath? then SlowPath(key) else Raised(key));
    }
  }

  lemma AdvanceInv(s: State, t: nat)
    requires Inv(s) && t < |s.threads|
    ensures Inv(AdvanceStep(s, t))
  {
    match s.threads[t]
    case Storing(key, det) => StoreStep(s, t, key, det);
    case Popping(key, out) => PopStep(s, t, key, out);
    case Waking(key, out, event) => WakeStep(s, t, key, out, event);
    case FastPath(_) => EnterInv(s, t);
    case SlowPath(_) => EnterInv(s, t);
    case Joining(_) => EnterInv(s, t);
    case Rechecking(_) => EnterInv(s, t);
    case _ =>
  }

  lemma NextInv(s: State, t: nat, step: Step)
    requires Inv(s)
    ensures Inv(Next(s, t, step))
  {
    if step.Spawn? {
      var u := Next(s, t, step);
      forall key | key in u.loading ensures exists i :: 0 <= i < |u.threads| && Holds(u.threads[i], key) {
        var i :| 0 <= i < |s.threads| && Holds(s.threads[i], key);
        assert Holds(u.threads[i], key);
      }
    } else if t < |s.threads| {
      match step
      case Call(key) =>
        if s.threads[t].Idle? || s.threads[t].Returned? || s.threads[t].Raised? { QuietStep(s, t, FastPath(key)); }
      case WakeUp => if s.threads[t].Waiting? { QuietStep(s, t, Rechecking(s.threads[t].key)); }
      case Build(result) =>
        if s.threads[t].Loading? {
          var key := s.threads[t].key;
          QuietStep(s, t, if result.Some? then Storing(key, result.value) else Popping(key, None));
        }
      case Advance => AdvanceInv(s, t);
    }
  }

  lemma {:induction false} RunInv(s: State, schedule: seq<(nat, Step)>)
    requires Inv(s)
    ensures Inv(Run(s, schedule))
    decreases |schedule|
  {
    if schedule != [] {
      NextInv(s, schedule[0].0, schedule[0].1);
      RunInv(Next(s, schedule[0].0, schedule[0].1), schedule[1..]);
    }
  }

  // ---------------------------------------------------------------- what it means

  ghost predicate Reachable(s: State) { exists schedule :: Run(Initial(), schedule) == s }

  lemma ReachableInv(s: State)
    requires Reachable(s)
    ensures Inv(s)
  {
    var schedule :| Run(Initial(), schedule) == s;
    RunInv(Initial(), schedule);
  }

  /** At most one thread is loading a key at any time, and none loads a cached key. */
  lemma OneLoaderAtATime(s: State, t: nat, u: nat, key: Key)
    requires Reachable(s) && t < |s.threads| && u < |s.threads|
    requires Building(s.threads[t], key) && Building(s.threads[u], key)
    ensures t == u && key !in s.cache && key in s.loading
  {
    ReachableInv(s);
    assert Holds(s.threads[t], key) && Holds(s.threads[u], key);
  }

  // The cache only grows, and a cached detector is never replaced.
  lemma CacheIsStable(s: State, t: nat, step: Step, key: Key)
    requires Inv(s) && key in s.cache
    ensures key in Next(s, t, step).cache && Next(s, t, step).cache[key] == s.cache[key]
  {
    if t < |s.threads| && s.threads[t].Storing? {
      assert Building(s.threads[t], s.threads[t].key);
    }
  }

  lemma {:induction false} CacheIsStableOverRuns(s: State, schedule: seq<(nat, Step)>, key: Key)
    requires Inv(s) && key in s.cache
    ensures key in Run(s, schedule).cache && Run(s, schedule).cache[key] == s.cache[key]
    decreases |schedule|
  {
    if schedule != [] {
      CacheIsStable(s, schedule[0].0, schedule[0].1, key);
      NextInv(s, schedule[0].0, schedule[0].1);
      CacheIsStableOverRuns(Next(s, schedule[0].0, schedule[0].1), schedule[1..], key);
    }
  }

  /** Once a load has succeeded, no thread ever builds that key again. */
  lemma NoLoadAfterSuccess(s: State, schedule: seq<(nat, Step)>, key: Key, t: nat)
    requires Reachable(s) && key in s.cache
    ensures var u := Run(s, schedule); t < |u.threads| ==> !Building(u.threads[t], key)
  {
    ReachableInv(s);
    CacheIsStableOverRuns(s, schedule, key);
    RunInv(s, schedule);
  }

  /** Every successful return for a key, whenever it happens and however many loads failed
      before, yields the same detector. */
  lemma SameDetectorForever(s: State, schedule: seq<(nat, Step)>, i: nat, j: nat)
    requires Reachable(s) && i < |s.answers|
    requires var u := Run(s, schedule); j < |u.answers| && u.answers[j].0 == s.answers[i].0
    ensures Run(s, schedule).answers[j].1 == s.answers[i].1
  {
    ReachableInv(s);
    CacheIsStableOverRuns(s, schedule, s.answers[i].0);
    RunInv(s, schedule);
  }

  /** A failed load leaves nothing behind: when no thread holds the key, the next caller that
      reaches the locked section loads again. */
  lemma RetryAfterFailure(s: State, t: nat, key: Key)
    requires Reachable(s) && t < |s.threads| && s.threads[t] == SlowPath(key) && key !in s.cache
    ensures Next(s, t, Advance).threads[t] == Loading(key) <==>
            forall u :: 0 <= u < |s.threads| ==> !Holds(s.threads[u], key)
  {
    ReachableInv(s);
  }

  // ---------------------------------------------------------------- nobody waits for nothing

  predicate Wakes(pc: Pc, key: Key, event: int) {
    pc.Waking? && pc.key == key && pc.popped.Some? && pc.popped.value == event
  }

  ghost predicate WokenBySomeone(s: State, key: Key, event: nat) {
    exists u :: 0 <= u < |s.threads| && Wakes(s.threads[u], key, event)
  }

  ghost predicate EventsExist(s: State) {
    && (forall key :: key in s.loading ==> s.loading[key] < |s.events|)
    && (forall t, key, event :: 0 <= t < |s.threads| && Wakes(s.threads[t], key, event) ==> event < |s.events|)
    && (forall t :: 0 <= t < |s.threads| && s.threads[t].Waiting? ==> s.threads[t].event < |s.events|)
  }

  // The event that thread t waits for is set, is announced for its key, or is about to be set.
  ghost predicate Served(s: State, t: nat)
    requires t < |s.threads| && s.threads[t].Waiting? && s.threads[t].event < |s.events|
  {
    var (key, event) := (s.threads[t].key, s.threads[t].event);
    s.events[event] || (key in s.loading && s.loading[key] == event) || WokenBySomeone(s, key, event)
  }

  ghost predicate AllServed(s: State) {
    EventsExist(s) && forall t: nat :: t < |s.threads| && s.threads[t].Waiting? ==> Served(s, t)
  }

  // What one step of thread t does to the others: their places stay, and no event is reset.
  ghost predicate OthersStay(s: State, u: State, t: nat) {
    && |s.threads| <= |u.threads| && (forall i :: 0 <= i < |s.threads| && i != t ==> u.threads[i] == s.threads[i])
    && |s.events| <= |u.events| && (forall e :: 0 <= e < |s.events| && s.events[e] ==> u.events[e])
  }

  lemma StaysServed(s: State, u: State, t: nat, i: nat)
    requires AllServed(s) && OthersStay(s, u, t) && i < |s.threads| && i != t && s.threads[i].Waiting?
    requires forall key :: key in s.loading ==>
               (key in u.loading && u.loading[key] == s.loading[key]) || WokenBySomeone(u, key, s.loading[key])
    requires forall key, event :: t < |s.threads| && Wakes(s.threads[t], key, event) ==>
               event < |u.events| && (u.events[event] || Wakes(u.threads[t], key, event))
    ensures Served(u, i)
  {
    var (key, event) := (s.threads[i].key, s.threads[i].event);
    assert Served(s, i);
    if WokenBySomeone(s, key, event) {
      var v :| 0 <= v < |s.threads| && Wakes(s.threads[v], key, event);
      if v != t || !u.events[event] { assert Wakes(u.threads[v], key, event); }
    }
  }

  // The loader of a key pops its event and is about to set it.
  lemma PoppedIsServed(s: State, t: nat)
    requires AllServed(s) && t < |s.threads| && s.threads[t].Popping?
    ensures AllServed(AdvanceStep(s, t))
  {
    var u, key := AdvanceStep(s, t), s.threads[t].key;
    forall k | k in s.loading
      ensures (k in u.loading && u.loading[k] == s.loading[k]) || WokenBySomeone(u, k, s.loading[k])
    {
      if k == key { assert Wakes(u.threads[t], k, s.loading[k]); }
    }
    forall i: nat | i < |u.threads| && u.threads[i].Waiting? ensures Served(u, i) { StaysServed(s, u, t, i); }
  }

  lemma WakingIsServed(s: State, t: nat)
    requires AllServed(s) && t < |s.threads| && s.threads[t].Waking?
    ensures AllServed(AdvanceStep(s, t))
  {
    var u := AdvanceStep(s, t);
    forall i: nat | i < |u.threads| && u.threads[i].Waiting? ensures Served(u, i) { StaysServed(s, u, t, i); }
  }

  // Every other step leaves the announced events and those about to be set alone.
  lemma QuietIsServed(s: State, u: State, t: nat)
    requires AllServed(s) && OthersStay(s, u, t) && t < |s.threads| == |u.threads|
    requires (forall key :: key in s.loading ==> key in u.loading && u.loading[key] == s.loading[key])
    requires (forall key :: key in u.loading ==> u.loading[key] < |u.events|)
    requires !s.threads[t].Waking? && !u.threads[t].Waking?
    requires u.threads[t].Waiting? ==>
               u.threads[t].key in u.loading && u.threads[t].event == u.loading[u.threads[t].key]
    ensures AllServed(u)
  {
    forall i: nat | i < |u.threads| && u.threads[i].Waiting? ensures u.threads[i].event < |u.events| && Served(u, i) {
      if i != t { StaysServed(s, u, t, i); }
    }
  }

  lemma SpawnIsServed(s: State)
    requires AllServed(s)
    ensures AllServed(s.(threads := s.threads + [Idle]))
  {
    var u := s.(threads := s.threads + [Idle]);
    forall i: nat | i < |u.threads| && u.threads[i].Waiting? ensures Served(u, i) {
      StaysServed(s, u, |s.threads|, i);
    }
  }

  lemma AdvanceServes(s: State, t: nat)
    requires AllServed(s) && t < |s.threads|
    ensures AllServed(AdvanceStep(s, t))
  {
    match s.threads[t]
    case Popping(_, _) => PoppedIsServed(s, t);
    case Waking(_, _, _) => WakingIsServed(s, t);
    case FastPath(_) => QuietIsServed(s, AdvanceStep(s, t), t);
    case SlowPath(_) => QuietIsServed(s, AdvanceStep(s, t), t);
    case Joining(_) => QuietIsServed(s, AdvanceStep(s, t), t);
    case Rechecking(_) => QuietIsServed(s, AdvanceStep(s, t), t);
    case Storing(_, _) => QuietIsServed(s, AdvanceStep(s, t), t);
    case _ =>
  }

  lemma NextServes(s: State, t: nat, step: Step)
    requires AllServed(s)
    ensures AllServed(Next(s, t, step))
  {
    if step.Spawn? {
      SpawnIsServed(s);
    } else if t < |s.threads| {
      if step.Advance? { AdvanceServes(s, t); } else if Next(s, t, step) != s { QuietIsServed(s, Next(s, t, step), t); }
    }
  }

  lemma {:induction false} RunServes(s: State, schedule: seq<(nat, Step)>)
    requires AllServed(s)
    ensures AllServed(Run(s, schedule))
    decreases |schedule|
  {
    if schedule != [] {
      NextServes(s, schedule[0].0, schedule[0].1);
      RunServes(Next(s, schedule[0].0, schedule[0].1), schedule[1..]);
    }
  }

  /** No wake-up is lost: when a thread waits, its event is set, or some thread is still loading the key,
      or has just removed that event from the dictionary and sets it next. */
  lemma NoLostWakeUp(s: State, t: nat)
    requires Reachable(s) && t < |s.threads| && s.threads[t].Waiting?
    ensures var (key, event) := (s.threads[t].key, s.threads[t].event);
            event < |s.events| &&
            (s.events[event] || (exists u :: 0 <= u < |s.threads| && Holds(s.threads[u], key))
             || WokenBySomeone(s, key, event))
  {
    ReachableInv(s);
    var schedule :| Run(Initial(), schedule) == s;
    RunServes(Initial(), schedule);
    assert Served(s, t);
  }

  // ---------------------------------------------------------------- what a call comes to

  function Steps(t: nat, steps: seq<Step>): (r: seq<(nat, Step)>)
    ensures |r| == |steps| && forall i :: 0 <= i < |r| ==> r[i] == (t, steps[i])
  {
    seq(|steps|, i requires 0 <= i < |steps| => (t, steps[i]))
  }

  lemma OneStep(s: State, t: nat, step: Step, rest: seq<Step>)
    ensures Run(s, Steps(t, [step] + rest)) == Run(Next(s, t, step), Steps(t, rest))
    ensures Run(s, Steps(t, [])) == s
  {
    assert Steps(t, [step] + rest)[1..] == Steps(t, rest);
  }

  // Waiters are released, and nobody else loads the key on their account.
  ghost predicate Released(s: State, u: State, key: Key) {
    && u.loading == s.loading - {key} && |u.events| == |s.events|
    && key in s.loading && s.loading[key] < |u.events| && u.events[s.loading[key]]
  }

  lemma BuildDelivers(s: State, t: nat, key: Key, det: Detector)
    requires t < |s.threads| && s.threads[t] == Loading(key) && key in s.loading && s.loading[key] < |s.events|
    ensures var u := Run(s, Steps(t, [Build(Some(det)), Advance, Advance]));
            && u.loading == s.loading - {key} && u.cache == s.cache[key := det] && u.events == s.events
            && u.threads == s.threads[t := Waking(key, Some(det), Some(s.loading[key]))] && u.answers == s.answers
  {
    var s1 := Next(s, t, Build(Some(det)));
    var s2 := Next(s1, t, Advance);
    OneStep(s, t, Build(Some(det)), [Advance, Advance]);
    OneStep(s1, t, Advance, [Advance]);
    OneStep(s2, t, Advance, []);
    assert [Build(Some(det))] + [Advance, Advance] == [Build(Some(det)), Advance, Advance];
    assert [Advance] + [Advance] == [Advance, Advance] && [Advance] + [] == [Advance];
  }

  lemma BuildGivesUp(s: State, t: nat, key: Key)
    requires t < |s.threads| && s.threads[t] == Loading(key) && key in s.loading && s.loading[key] < |s.events|
    ensures var u := Run(s, Steps(t, [Build(None), Advance]));
            && u.loading == s.loading - {key} && u.cache == s.cache && u.events == s.events
            && u.threads == s.threads[t := Waking(key, None, Some(s.loading[key]))] && u.answers == s.answers
  {
    var s1 := Next(s, t, Build(None));
    OneStep(s, t, Build(None), [Advance]);
    OneStep(s1, t, Advance, []);
    assert [Build(None)] + [Advance] == [Build(None), Advance] && [Advance] + [] == [Advance];
  }

  lemma {:induction false} StepsAdd(s: State, t: nat, a: seq<Step>, b: seq<Step>)
    ensures Run(s, Steps(t, a + b)) == Run(Run(s, Steps(t, a)), Steps(t, b))
    decreases |a|
  {
    if a == [] {
      assert a + b == b;
      OneStep(s, t, Advance, []);
    } else {
      assert a == [a[0]] + a[1..] && a + b == [a[0]] + (a[1..] + b);
      OneStep(s, t, a[0], a[1..] + b);
      OneStep(s, t, a[0], a[1..]);
      StepsAdd(Next(s, t, a[0]), t, a[1..], b);
    }
  }

  lemma LastStep(s: State, t: nat, step: Step)
    ensures Run(s, Steps(t, [step])) == Next(s, t, step)
  {
    OneStep(s, t, step, []);
    OneStep(Next(s, t, step), t, step, []);
    assert [step] + [] == [step];
  }

  // Thread t loads a key that is announced with an event of its own.
  predicate Loads(s: State, t: nat, key: Key) {
    t < |s.threads| && s.threads[t] == Loading(key) && key in s.loading && s.loading[key] < |s.events|
  }

  lemma LoadersAreAnnounced(s: State, t: nat, key: Key)
    requires Reachable(s) && t < |s.threads| && s.threads[t] == Loading(key)
    ensures Loads(s, t, key)
  {
    ReachableInv(s);
    assert Holds(s.threads[t], key);
    var schedule :| Run(Initial(), schedule) == s;
    RunServes(Initial(), schedule);
  }

  /** A loader that succeeds stores its detector, releases the waiters and returns it. */
  lemma LoaderDelivers(s: State, t: nat, key: Key, det: Detector)
    requires Loads(s, t, key)
    ensures var u := Run(s, Steps(t, [Build(Some(det)), Advance, Advance] + [Advance]));
            && Released(s, u, key) && u.cache == s.cache[key := det]
            && u.threads == s.threads[t := Returned(key, det)] && u.answers == s.answers + [(key, det)]
  {
    var before := Run(s, Steps(t, [Build(Some(det)), Advance, Advance]));
    StepsAdd(s, t, [Build(Some(det)), Advance, Advance], [Advance]);
    BuildDelivers(s, t, key, det);
    LastStep(before, t, Advance);
  }

  /** One that fails stores nothing, releases the waiters too, and raises. */
  lemma LoaderGivesUp(s: State, t: nat, key: Key)
    requires Loads(s, t, key)
    ensures var u := Run(s, Steps(t, [Build(None), Advance] + [Advance]));
            && Released(s, u, key) && u.cache == s.cache
            && u.threads == s.threads[t := Raised(key)] && u.answers == s.answers
  {
    var before := Run(s, Steps(t, [Build(None), Advance]));
    StepsAdd(s, t, [Build(None), Advance], [Advance]);
    BuildGivesUp(s, t, key);
    LastStep(before, t, Advance);
  }

  // What a thread is left with that gets its answer from the cache, or none.
  ghost predicate Answered(s: State, u: State, t: nat, key: Key)
    requires t < |s.threads|
  {
    if key in s.cache then
      u == s.(threads := s.threads[t := Returned(key, s.cache[key])], answers := s.answers + [(key, s.cache[key])])
    else u == s.(threads := s.threads[t := Raised(key)])
  }

  /** A waiter that is released gets what is cached by then, or raises. */
  lemma WaiterIsAnswered(s: State, t: nat, key: Key, event: nat)
    requires t < |s.threads| && s.threads[t] == Waiting(key, event)
    ensures Answered(s, Run(s, Steps(t, [WakeUp, Advance])), t, key)
  {
    var s1 := Next(s, t, WakeUp);
    OneStep(s, t, WakeUp, [Advance]);
    OneStep(s1, t, Advance, []);
    assert [WakeUp] + [Advance] == [WakeUp, Advance] && [Advance] + [] == [Advance];
  }

  /** A call for a cached key returns the cached detector at once; any other goes on to the locked section. */
  lemma CallOfCachedKey(s: State, t: nat, key: Key)
    requires t < |s.threads| && (s.threads[t].Idle? || s.threads[t].Returned? || s.threads[t].Raised?)
    ensures var u := Run(s, Steps(t, [Call(key), Advance]));
            if key in s.cache then Answered(s, u, t, key) else u == s.(threads := s.threads[t := SlowPath(key)])
  {
    var s1 := Next(s, t, Call(key));
    OneStep(s, t, Call(key), [Advance]);
    OneStep(s1, t, Advance, []);
    assert [Call(key)] + [Advance] == [Call(key), Advance] && [Advance] + [] == [Advance];
  }

  /** In the locked section a cached key is returned, an announced one joined, and any other announced with a
      new event that is not set. */
  lemma LockedSectionDecides(s: State, t: nat, key: Key)
    requires EventsExist(s) && t < |s.threads| && s.threads[t] == SlowPath(key)
    ensures var u := Next(s, t, Advance);
            if key in s.cache then Answered(s, u, t, key)
            else if key !in s.loading then
              && u.threads == s.threads[t := Loading(key)] && u.loading == s.loading[key := |s.events|]
              && u.events == s.events + [false] && u.cache == s.cache && u.answers == s.answers
            else
              u.threads[t] == Joining(key)
              && Next(u, t, Advance) == s.(threads := s.threads[t := Waiting(key, s.loading[key])])
  {}

  /** So the first call of all loads the detector, returns it, and leaves it to all later ones. */
  lemma FirstCallLoads(key: Key, det: Detector)
    ensures var s := Next(Initial(), 0, Spawn);
            var load := [Build(Some(det)), Advance, Advance] + [Advance];
            var u := Run(s, Steps(0, [Call(key), Advance] + ([Advance] + load)));
            && u.answers == [(key, det)] && u.cache == map[key := det] && u.loading == map[]
            && u.threads == [Returned(key, det)]
  {
    var s := Next(Initial(), 0, Spawn);
    var load := [Build(Some(det)), Advance, Advance] + [Advance];
    StepsAdd(s, 0, [Call(key), Advance], [Advance] + load);
    CallOfCachedKey(s, 0, key);
    var called := Run(s, Steps(0, [Call(key), Advance]));
    assert called == s.(threads := [SlowPath(key)]);
    StepsAdd(called, 0, [Advance], load);
    LastStep(called, 0, Advance);
    LockedSectionDecides(called, 0, key);
    var loading := Next(called, 0, Advance);
    assert loading.threads == [Loading(key)];
    LoaderDelivers(loading, 0, key, det);
  }
}
