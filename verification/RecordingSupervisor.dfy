/** The recording supervisor of services/camera-worker-go: three maps guarded by `mu`, one
    cancel function per recording, and goroutines that check, stop and unregister themselves. */
module RecordingSupervisor {
  import opened Optional
  import Text

  type CameraId = string
  // `enabled` is a pointer in the source: a missing field is not the value false.
  datatype Camera = Camera(id: CameraId, enabled: Option<bool>, recordingEnabled: bool)

  predicate CameraIsEnabled(cam: Camera) { cam.enabled.None? || cam.enabled.value }
  predicate CameraIsRecordable(cam: Camera) { CameraIsEnabled(cam) && cam.recordingEnabled }

  // Where a goroutine of `startRecording` stands; `cur` is the camera it last fetched.
  datatype Pc =
    | Fetching
    | Checking(cur: Camera)      // about to look at activeRecordings under the lock
    | Deciding(cur: Camera)      // still registered, about to look at `enabled`
    | Recording(cur: Camera)     // running a segment or waiting between attempts
    | Panicking                  // in the deferred recover
    | Exited

  datatype Goroutine = Goroutine(cam: CameraId, pc: Pc)

  // A goroutine and its context share a number: startRecordingLocked creates both.
  datatype State = State(
    active: set<CameraId>,
    cancels: map<CameraId, nat>,
    segments: map<CameraId, int>,
    routines: seq<Goroutine>,
    cancelled: set<nat>,
    shutdown: bool)

  // ---------------------------------------------------------------- critical sections

  function StartLocked(s: State, id: CameraId): State {
    s.(active := s.active + {id}, cancels := s.cancels[id := |s.routines|],
       routines := s.routines + [Goroutine(id, Fetching)])
  }

  function StopLocked(s: State, id: CameraId): State {
    s.(active := s.active - {id}, cancels := s.cancels - {id}, segments := s.segments - {id},
       cancelled := if id in s.cancels then s.cancelled + {s.cancels[id]} else s.cancelled)
  }

  function StopMany(s: State, ids: set<CameraId>): State {
    s.(active := s.active - ids, cancels := s.cancels - ids, segments := s.segments - ids,
       cancelled := s.cancelled + set id | id in ids && id in s.cancels :: s.cancels[id])
  }

  function Ids(cameras: seq<Camera>): set<CameraId> { set i | 0 <= i < |cameras| :: cameras[i].id }

  function RemoveMissing(s: State, cameras: seq<Camera>): State { StopMany(s, s.active - Ids(cameras)) }

  function ReconcileOne(s: State, cam: Camera): State {
    if CameraIsRecordable(cam) then
      if cam.id !in s.active then StartLocked(s, cam.id) else s
    else
      if cam.id in s.active then StopLocked(s, cam.id) else s
  }

  function ReconcileEach(s: State, cameras: seq<Camera>): State {
    if cameras == [] then s
    else ReconcileOne(ReconcileEach(s, cameras[..|cameras| - 1]), cameras[|cameras| - 1])
  }

  function StartCommand(s: State, cam: Camera, segmentSeconds: int): State {
    if !CameraIsEnabled(cam) then s
    else
      var t := if segmentSeconds > 0 then s.(segments := s.segments[cam.id := segmentSeconds]) else s;
      if cam.id !in t.active then StartLocked(t, cam.id) else t
  }

  function StopCommand(s: State, id: CameraId): State {
    if id in s.active then StopLocked(s, id) else s
  }

  // ---------------------------------------------------------------- the goroutine

  predicate Cancelled(s: State, g: nat) { g in s.cancelled || s.shutdown }
  predicate Live(s: State, g: nat) { g < |s.routines| && !s.routines[g].pc.Exited? }

  function Goto(s: State, g: nat, pc: Pc): State
    requires g < |s.routines|
  {
    s.(routines := s.routines[g := s.routines[g].(pc := pc)])
  }

  datatype Event =
    | Tick(cameras: seq<Camera>)                         // the removal pass of one tick
    | TickCamera(cam: Camera)                            // one camera of a tick
    | CommandStart(cam: Camera, segmentSeconds: int)
    | CommandStop(id: CameraId)
    | Shutdown                                           // SIGTERM cancels the root context
    | StopAll                                            // the last pass of main
    | Fetch(g: nat, cur: Camera)                         // fetchCameraByID answered, or the old value is kept
    | Check(g: nat)
    | Decide(g: nat)
    | Loop(g: nat)                                       // segment over, or retry
    | Quit(g: nat)                                       // returns because its context is done
    | Panic(g: nat)
    | Recover(g: nat)

  // A step of the machine; an event that is not enabled leaves the state alone.
  function Step(s: State, e: Event): State {
    match e
    case Tick(cameras) => RemoveMissing(s, cameras)
    case TickCamera(cam) => ReconcileOne(s, cam)
    case CommandStart(cam, seconds) => StartCommand(s, cam, seconds)
    case CommandStop(id) => StopCommand(s, id)
    case Shutdown => s.(shutdown := true)
    case StopAll => StopMany(s, s.active)
    case Fetch(g, cur) => if g < |s.routines| && s.routines[g].pc.Fetching? then Goto(s, g, Checking(cur)) else s
    case Check(g) =>
      if g < |s.routines| && s.routines[g].pc.Checking? then
        var cur := s.routines[g].pc.cur;
        Goto(s, g, if cur.id in s.active then Deciding(cur) else Exited)
      else s
    case Decide(g) =>
      if g < |s.routines| && s.routines[g].pc.Deciding? then
        var cur := s.routines[g].pc.cur;
        if CameraIsEnabled(cur) then Goto(s, g, Recording(cur)) else Goto(StopLocked(s, cur.id), g, Exited)
      else s
    case Loop(g) => if g < |s.routines| && s.routines[g].pc.Recording? then Goto(s, g, Fetching) else s
    case Quit(g) =>
      if g < |s.routines| && s.routines[g].pc.Recording? && Cancelled(s, g) then Goto(s, g, Exited) else s
    case Panic(g) => if Live(s, g) then Goto(s, g, Panicking) else s
    case Recover(g) =>
      if g < |s.routines| && s.routines[g].pc.Panicking? then Goto(StopLocked(s, s.routines[g].cam), g, Exited) else s
  }

  function Run(s: State, events: seq<Event>): State
    decreases |events|
  {
    if events == [] then s else Run(Step(s, events[0]), events[1..])
  }

  function Initial(): State { State({}, map[], map[], [], {}, false) }

  // ---------------------------------------------------------------- the invariant

  predicate Registered(s: State, g: nat) {
    g < |s.routines| && s.routines[g].cam in s.cancels && s.cancels[s.routines[g].cam] == g
  }

  predicate MapsAgree(s: State) { s.cancels.Keys == s.active && s.segments.Keys <= s.active }

  ghost predicate CancelsPoint(s: State) {
    forall id :: id in s.cancels ==>
      s.cancels[id] < |s.routines| && s.routines[s.cancels[id]].cam == id && s.cancels[id] !in s.cancelled
  }

  ghost predicate OthersCancelled(s: State) {
    forall g :: 0 <= g < |s.routines| ==> g in s.cancelled || Registered(s, g) || s.routines[g].pc.Exited?
  }

  ghost predicate CancelledExist(s: State) { forall g :: g in s.cancelled ==> g < |s.routines| }

  // What every step keeps.
  ghost predicate Base(s: State) { MapsAgree(s) && CancelsPoint(s) && OthersCancelled(s) && CancelledExist(s) }

  // The record that a goroutine works with is that of its own camera.
  predicate OwnCamera(r: Goroutine) {
    r.pc.Checking? || r.pc.Deciding? || r.pc.Recording? ==> r.pc.cur.id == r.cam
  }

  ghost predicate AllOwn(s: State) {
    forall g :: 0 <= g < |s.routines| && g !in s.cancelled ==> OwnCamera(s.routines[g])
  }

  ghost predicate Staffed(s: State) {
    forall id :: id in s.cancels && s.cancels[id] < |s.routines| && s.routines[s.cancels[id]].pc.Exited? ==> s.shutdown
  }

  // What is kept besides, as long as refreshed records are those of the camera asked for.
  ghost predicate Inv(s: State) { Base(s) && AllOwn(s) && Staffed(s) }

  lemma StartInv(s: State, id: CameraId)
    requires Base(s.(segments := s.segments - {id})) && s.segments.Keys <= s.active + {id} && id !in s.active
    ensures Base(StartLocked(s, id))
    ensures AllOwn(s) && Staffed(s) ==> Inv(StartLocked(s, id))
  {
    var t := StartLocked(s, id);
    var s0 := s.(segments := s.segments - {id});
    forall g | 0 <= g < |t.routines| ensures g in t.cancelled || Registered(t, g) || t.routines[g].pc.Exited? {
      if g < |s.routines| {
        assert g in s0.cancelled || Registered(s0, g) || s0.routines[g].pc.Exited?;
      }
    }
  }

  lemma StopManyInv(s: State, ids: set<CameraId>)
    requires Base(s)
    ensures Base(StopMany(s, ids)) && (Inv(s) ==> Inv(StopMany(s, ids)))
  {
    var t := StopMany(s, ids);
    forall g | 0 <= g < |t.routines| ensures g in t.cancelled || Registered(t, g) || t.routines[g].pc.Exited? {
      assert g in s.cancelled || Registered(s, g) || s.routines[g].pc.Exited?;
    }
  }

  lemma StopIsStopMany(s: State, id: CameraId)
    ensures StopLocked(s, id) == StopMany(s, {id})
  {}

  lemma StopInv(s: State, id: CameraId)
    requires Base(s)
    ensures Base(StopLocked(s, id)) && (Inv(s) ==> Inv(StopLocked(s, id)))
  {
    StopIsStopMany(s, id);
    StopManyInv(s, {id});
  }

  // A goroutine may leave if it is cancelled or its camera is no longer registered with it.
  predicate MayBecome(s: State, g: nat, pc: Pc)
    requires g < |s.routines|
  {
    && (g in s.cancelled || OwnCamera(Goroutine(s.routines[g].cam, pc)))
    && (pc.Exited? ==> g in s.cancelled || s.shutdown || !Registered(s, g))
  }

  lemma GotoInv(s: State, g: nat, pc: Pc)
    requires Base(s) && g < |s.routines| && !s.routines[g].pc.Exited?
    ensures Base(Goto(s, g, pc)) && (Inv(s) && MayBecome(s, g, pc) ==> Inv(Goto(s, g, pc)))
  {
    var t := Goto(s, g, pc);
    forall h | 0 <= h < |t.routines| ensures h in t.cancelled || Registered(t, h) || t.routines[h].pc.Exited? {
      assert h in s.cancelled || Registered(s, h) || s.routines[h].pc.Exited?;
    }
  }

  lemma StopAndExit(s: State, g: nat, id: CameraId)
    requires Base(s) && Live(s, g)
    ensures var t := Goto(StopLocked(s, id), g, Exited);
            Base(t) && (Inv(s) && (g in s.cancelled || id == s.routines[g].cam) ==> Inv(t))
  {
    StopInv(s, id);
    GotoInv(StopLocked(s, id), g, Exited);
  }

  lemma CommandInv(s: State, cam: Camera, seconds: int)
    requires Base(s)
    ensures Base(StartCommand(s, cam, seconds)) && (Inv(s) ==> Inv(StartCommand(s, cam, seconds)))
  {
    if CameraIsEnabled(cam) {
      var t := if seconds > 0 then s.(segments := s.segments[cam.id := seconds]) else s;
      if cam.id in s.active {
        assert forall g :: Registered(t, g) <==> Registered(s, g);
      } else {
        assert t.(segments := t.segments - {cam.id}) == s;
        StartInv(t, cam.id);
      }
    }
  }

  lemma ReconcileOneInv(s: State, cam: Camera)
    requires Base(s)
    ensures Base(ReconcileOne(s, cam)) && (Inv(s) ==> Inv(ReconcileOne(s, cam)))
  {
    if CameraIsRecordable(cam) {
      if cam.id !in s.active {
        assert s.(segments := s.segments - {cam.id}) == s;
        StartInv(s, cam.id);
      }
    } else if cam.id in s.active {
      StopInv(s, cam.id);
    }
  }

  // A refresh carries the goroutine's own camera, unless the goroutine is cancelled already.
  predicate Honest(s: State, e: Event) {
    e.Fetch? && e.g < |s.routines| && s.routines[e.g].pc.Fetching? && e.g !in s.cancelled ==>
      e.cur.id == s.routines[e.g].cam
  }

  lemma CheckInv(s: State, g: nat)
    requires Base(s)
    ensures Base(Step(s, Check(g))) && (Inv(s) ==> Inv(Step(s, Check(g))))
  {
    if g < |s.routines| && s.routines[g].pc.Checking? {
      assert AllOwn(s) ==> g in s.cancelled || OwnCamera(s.routines[g]);
      var cur := s.routines[g].pc.cur;
      GotoInv(s, g, if cur.id in s.active then Deciding(cur) else Exited);
    }
  }

  lemma FetchInv(s: State, g: nat, cur: Camera)
    requires Base(s)
    ensures Base(Step(s, Fetch(g, cur))) && (Inv(s) && Honest(s, Fetch(g, cur)) ==> Inv(Step(s, Fetch(g, cur))))
  {
    if g < |s.routines| && s.routines[g].pc.Fetching? { GotoInv(s, g, Checking(cur)); }
  }

  lemma LoopInv(s: State, g: nat)
    requires Base(s)
    ensures Base(Step(s, Loop(g))) && (Inv(s) ==> Inv(Step(s, Loop(g))))
  {
    if g < |s.routines| && s.routines[g].pc.Recording? { GotoInv(s, g, Fetching); }
  }

  lemma QuitInv(s: State, g: nat)
    requires Base(s)
    ensures Base(Step(s, Quit(g))) && (Inv(s) ==> Inv(Step(s, Quit(g))))
  {
    if g < |s.routines| && s.routines[g].pc.Recording? && Cancelled(s, g) { GotoInv(s, g, Exited); }
  }

  lemma PanicInv(s: State, g: nat)
    requires Base(s)
    ensures Base(Step(s, Panic(g))) && (Inv(s) ==> Inv(Step(s, Panic(g))))
  {
    if Live(s, g) { GotoInv(s, g, Panicking); }
  }

  lemma DecideInv(s: State, g: nat)
    requires Base(s)
    ensures Base(Step(s, Decide(g))) && (Inv(s) ==> Inv(Step(s, Decide(g))))
  {
    if g < |s.routines| && s.routines[g].pc.Deciding? {
      assert AllOwn(s) ==> g in s.cancelled || OwnCamera(s.routines[g]);
      var cur := s.routines[g].pc.cur;
      if CameraIsEnabled(cur) { GotoInv(s, g, Recording(cur)); } else { StopAndExit(s, g, cur.id); }
    }
  }

  lemma StepInv(s: State, e: Event)
    requires Base(s)
    ensures Base(Step(s, e)) && (Inv(s) && Honest(s, e) ==> Inv(Step(s, e)))
  {
    match e
    case Tick(cameras) => StopManyInv(s, s.active - Ids(cameras));
    case TickCamera(cam) => ReconcileOneInv(s, cam);
    case CommandStart(cam, seconds) => CommandInv(s, cam, seconds);
    case CommandStop(id) => StopInv(s, id);
    case Shutdown => assert forall g :: Registered(s.(shutdown := true), g) <==> Registered(s, g);
    case StopAll => StopManyInv(s, s.active);
    case Decide(g) => DecideInv(s, g);
    case Recover(g) => if g < |s.routines| && s.routines[g].pc.Panicking? { StopAndExit(s, g, s.routines[g].cam); }
    case Fetch(g, cur) => FetchInv(s, g, cur);
    case Check(g) => CheckInv(s, g);
    case Loop(g) => LoopInv(s, g);
    case Quit(g) => QuitInv(s, g);
    case Panic(g) => PanicInv(s, g);
  }

  ghost predicate HonestRun(s: State, events: seq<Event>)
    decreases |events|
  {
    events == [] || (Honest(s, events[0]) && HonestRun(Step(s, events[0]), events[1..]))
  }

  lemma {:induction false} RunInv(s: State, events: seq<Event>)
    requires Base(s)
    ensures Base(Run(s, events)) && (Inv(s) && HonestRun(s, events) ==> Inv(Run(s, events)))
    decreases |events|
  {
    if events != [] {
      StepInv(s, events[0]);
      RunInv(Step(s, events[0]), events[1..]);
    }
  }

  // ---------------------------------------------------------------- what it means

  predicate Working(s: State, g: nat) { Live(s, g) && !Cancelled(s, g) }

  /** In every interleaving of ticks, commands, refreshes, self-stops and panics, whatever the
      refreshed records say, the three maps agree. */
  lemma MapsAlwaysAgree(events: seq<Event>)
    ensures var s := Run(Initial(), events); s.cancels.Keys == s.active && s.segments.Keys <= s.active
  {
    RunInv(Initial(), events);
  }

  /** In every such interleaving a camera has at most one live uncancelled goroutine, and then it
      is active and that goroutine is the one whose cancel function is registered. */
  lemma NeverTwoGoroutines(events: seq<Event>, g: nat)
    ensures var s := Run(Initial(), events);
            Working(s, g) ==> var id := s.routines[g].cam; id in s.active && id in s.cancels && s.cancels[id] == g
  {
    RunInv(Initial(), events);
    var s := Run(Initial(), events);
    if Working(s, g) { assert Registered(s, g); }
  }

  ghost predicate Reachable(s: State) {
    exists events :: HonestRun(Initial(), events) && Run(Initial(), events) == s
  }

  lemma OneWorker(s: State, id: CameraId, g: nat)
    requires Inv(s) && !s.shutdown
    ensures Working(s, g) && s.routines[g].cam == id <==> id in s.active && id in s.cancels && g == s.cancels[id]
  {
    if Working(s, g) { assert Registered(s, g); }
  }

  /** Until shutdown, an active camera has exactly one live uncancelled goroutine, the one
      whose cancel function is registered; any other camera has none. */
  lemma OneGoroutinePerActiveCamera(s: State, id: CameraId, g: nat)
    requires Reachable(s) && !s.shutdown
    ensures Working(s, g) && s.routines[g].cam == id <==> id in s.active && id in s.cancels && g == s.cancels[id]
  {
    var events :| HonestRun(Initial(), events) && Run(Initial(), events) == s;
    RunInv(Initial(), events);
    OneWorker(s, id, g);
  }

  // ---------------------------------------------------------------- the record that a refresh brings

  ghost predicate HasWorker(s: State, id: CameraId) { exists g: nat :: Working(s, g) && s.routines[g].cam == id }

  // Until shutdown, every active camera is being recorded by some goroutine.
  ghost predicate Manned(s: State) { !s.shutdown ==> forall id :: id in s.active ==> HasWorker(s, id) }

  // Whatever honest events follow, every active camera is being recorded.
  ghost predicate SafeFrom(s: State) { forall events :: HonestRun(s, events) ==> Manned(Run(s, events)) }

  lemma InvIsManned(s: State)
    requires Inv(s)
    ensures Manned(s)
  {
    if !s.shutdown {
      forall id | id in s.active ensures HasWorker(s, id) { OneWorker(s, id, s.cancels[id]); }
    }
  }

  lemma RunTwo(s: State, e: Event, f: Event)
    ensures Run(s, [e, f]) == Step(Step(s, e), f)
    ensures HonestRun(s, [e, f]) <==> Honest(s, e) && Honest(Step(s, e), f)
  {
    var events := [e, f];
    assert events[1..] == [f] && [f][1..] == [];
    assert Run(Step(s, e), [f]) == Run(Step(Step(s, e), f), []);
    assert HonestRun(Step(s, e), [f]) <==> Honest(Step(s, e), f) && HonestRun(Step(Step(s, e), f), []);
  }

  // With another camera's record, one stop of that camera makes the goroutine leave its own.
  lemma ForeignStopOrphans(s: State, g: nat, cur: Camera)
    requires Inv(s) && !s.shutdown && g < |s.routines| && s.routines[g].pc.Fetching?
    requires g !in s.cancelled && cur.id != s.routines[g].cam
    ensures var t := Step(Step(Step(s, Fetch(g, cur)), CommandStop(cur.id)), Check(g));
            !t.shutdown && s.routines[g].cam in t.active && !HasWorker(t, s.routines[g].cam)
  {
    var t := Step(Step(Step(s, Fetch(g, cur)), CommandStop(cur.id)), Check(g));
    var id := s.routines[g].cam;
    assert Registered(s, g);
    assert t.routines[g].pc.Exited?;
    forall h: nat | h < |s.routines| && h != g && s.routines[h].cam == id
      ensures h in t.cancelled || t.routines[h].pc.Exited?
    {
      assert h in s.cancelled || Registered(s, h) || s.routines[h].pc.Exited?;
    }
  }

  /** Exactly when a refresh is harmless: whatever honest events follow it, every active camera keeps
      its goroutine if and only if the record is that of the goroutine's own camera, or the goroutine
      is cancelled already. */
  lemma FetchIsSafeIff(s: State, g: nat, cur: Camera)
    requires Inv(s) && !s.shutdown && g < |s.routines| && s.routines[g].pc.Fetching?
    ensures SafeFrom(Step(s, Fetch(g, cur))) <==> cur.id == s.routines[g].cam || g in s.cancelled
  {
    var t := Step(s, Fetch(g, cur));
    StepInv(s, Fetch(g, cur));
    if cur.id == s.routines[g].cam || g in s.cancelled {
      forall events | HonestRun(t, events) ensures Manned(Run(t, events)) {
        RunInv(t, events);
        InvIsManned(Run(t, events));
      }
    } else {
      var events := [CommandStop(cur.id), Check(g)];
      RunTwo(t, events[0], events[1]);
      ForeignStopOrphans(s, g, cur);
      assert HonestRun(t, events) && !Manned(Run(t, events));
    }
  }

  /** The smallest failing run: a goroutine that is handed the record of a camera that is not
      active leaves at once, while its own camera stays registered. */
  lemma ForeignRecordOrphansCamera()
    ensures var s := Run(Initial(), [TickCamera(Camera("a", None, true)), Fetch(0, Camera("b", None, true)), Check(0)]);
            "a" in s.active && !s.shutdown && forall g :: !Working(s, g)
  {
    var a, b := Camera("a", None, true), Camera("b", None, true);
    var s1 := Step(Initial(), TickCamera(a));
    var s2 := Step(s1, Fetch(0, b));
    var s3 := Step(s2, Check(0));
    assert s1.routines == [Goroutine("a", Fetching)];
    assert s2.routines == [Goroutine("a", Checking(b))] && s2.active == {"a"};
    assert "b" != "a";
    assert s3.routines == [Goroutine("a", Exited)];
    var events := [TickCamera(a), Fetch(0, b), Check(0)];
    assert events[1..] == [Fetch(0, b), Check(0)];
    RunTwo(s1, Fetch(0, b), Check(0));
  }

  // ---------------------------------------------------------------- one reconcile pass

  // Recordable according to its last occurrence in the list.
  function Wanted(cameras: seq<Camera>): set<CameraId> {
    if cameras == [] then {}
    else
      var cam := cameras[|cameras| - 1];
      var before := Wanted(cameras[..|cameras| - 1]);
      if CameraIsRecordable(cam) then before + {cam.id} else before - {cam.id}
  }

  function ReconcilePass(s: State, cameras: seq<Camera>): State {
    ReconcileEach(RemoveMissing(s, cameras), cameras)
  }

  lemma IdsSnoc(cameras: seq<Camera>, cam: Camera)
    ensures Ids(cameras + [cam]) == Ids(cameras) + {cam.id}
  {
    var all := cameras + [cam];
    assert all[|cameras|] == cam;
    assert forall i :: 0 <= i < |cameras| ==> all[i] == cameras[i];
  }

  lemma {:induction false} EachActive(s: State, cameras: seq<Camera>)
    ensures ReconcileEach(s, cameras).active == (s.active - Ids(cameras)) + Wanted(cameras)
    ensures Wanted(cameras) <= Ids(cameras)
  {
    if cameras != [] {
      var last := |cameras| - 1;
      assert cameras == cameras[..last] + [cameras[last]];
      IdsSnoc(cameras[..last], cameras[last]);
      EachActive(s, cameras[..last]);
    }
  }

  /** One uninterrupted pass over any list leaves exactly the recordable cameras active. */
  lemma PassLeavesRecordable(s: State, cameras: seq<Camera>)
    ensures ReconcilePass(s, cameras).active == Wanted(cameras)
  {
    EachActive(RemoveMissing(s, cameras), cameras);
  }

  // Occurrence i of the id is recordable, and no later one has that id.
  ghost predicate LastIsRecordable(cameras: seq<Camera>, id: CameraId, i: int) {
    && 0 <= i < |cameras| && cameras[i].id == id
    && cameras[i].enabled != Some(false) && cameras[i].recordingEnabled
    && forall j :: i < j < |cameras| ==> cameras[j].id != id
  }

  lemma LastIsRecordableSnoc(before: seq<Camera>, cam: Camera, id: CameraId, i: int)
    ensures LastIsRecordable(before + [cam], id, i) <==>
            if cam.id == id then i == |before| && CameraIsRecordable(cam) else LastIsRecordable(before, id, i)
  {
    var all := before + [cam];
    assert all[|before|] == cam && forall j :: 0 <= j < |before| ==> all[j] == before[j];
  }

  /** Wanted are the cameras whose last occurrence in the list is recordable. */
  lemma {:induction false} WantedExactly(cameras: seq<Camera>, id: CameraId)
    ensures id in Wanted(cameras) <==> exists i :: LastIsRecordable(cameras, id, i)
  {
    if cameras != [] {
      var before, cam := cameras[..|cameras| - 1], cameras[|cameras| - 1];
      assert cameras == before + [cam];
      WantedExactly(before, id);
      forall i { LastIsRecordableSnoc(before, cam, id, i); }
      if cam.id == id && CameraIsRecordable(cam) { assert LastIsRecordable(cameras, id, |before|); }
      if i :| LastIsRecordable(before, id, i) && cam.id != id { assert LastIsRecordable(cameras, id, i); }
    }
  }

  lemma {:induction false} EachKeeps(s: State, cameras: seq<Camera>, id: CameraId)
    requires Base(s) && id in s.active
    requires forall i :: 0 <= i < |cameras| && cameras[i].id == id ==> CameraIsRecordable(cameras[i])
    ensures var t := ReconcileEach(s, cameras);
            Base(t) && id in t.active && t.cancels[id] == s.cancels[id]
  {
    if cameras != [] {
      var last := |cameras| - 1;
      EachKeeps(s, cameras[..last], id);
      ReconcileOneInv(ReconcileEach(s, cameras[..last]), cameras[last]);
    }
  }

  /** A recording that is wanted throughout is not restarted: the pass keeps its goroutine. */
  lemma PassKeepsRunning(s: State, cameras: seq<Camera>, id: CameraId)
    requires Base(s) && id in s.active && id in Ids(cameras)
    requires forall i :: 0 <= i < |cameras| && cameras[i].id == id ==> CameraIsRecordable(cameras[i])
    ensures var t := ReconcilePass(s, cameras);
            Base(t) && id in t.active && t.cancels[id] == s.cancels[id]
  {
    StopManyInv(s, s.active - Ids(cameras));
    EachKeeps(RemoveMissing(s, cameras), cameras, id);
  }

  // ---------------------------------------------------------------- what a command does

  // Nothing about any other camera changes, and no goroutine but a new one is touched.
  ghost predicate OthersKept(s: State, t: State, id: CameraId) {
    && (forall other :: other != id ==> (other in t.active <==> other in s.active))
    && t.cancels - {id} == s.cancels - {id} && t.segments - {id} == s.segments - {id}
    && s.routines <= t.routines && t.shutdown == s.shutdown
    && (forall g :: g in t.cancelled ==> g in s.cancelled || (id in s.cancels && g == s.cancels[id]))
  }

  // The camera is active, and its registered goroutine is its own and not cancelled: the one it had, or
  // else a new one.
  ghost predicate Recorded(s: State, t: State, id: CameraId) {
    && id in t.active && id in t.cancels && t.cancelled == s.cancelled
    && var g := t.cancels[id];
       && g < |t.routines| && t.routines[g].cam == id && g !in t.cancelled
       && if id in s.active then id in s.cancels && g == s.cancels[id] && t.routines == s.routines
          else g == |s.routines| && t.routines == s.routines + [Goroutine(id, Fetching)]
  }

  lemma StartsRecording(s: State, t: State, id: CameraId)
    requires Base(s) && id !in s.active && t.active == s.active + {id} && t.cancels == s.cancels[id := |s.routines|]
    requires t.routines == s.routines + [Goroutine(id, Fetching)] && t.cancelled == s.cancelled
    ensures Recorded(s, t, id) && t.cancels - {id} == s.cancels - {id}
  {
    assert |s.routines| !in s.cancelled;
    assert t.cancels - {id} == s.cancels - {id};
  }

  lemma StartCommandFields(s: State, cam: Camera, seconds: int)
    requires cam.enabled != Some(false)
    ensures var t := StartCommand(s, cam, seconds);
            && t.segments == (if seconds > 0 then s.segments[cam.id := seconds] else s.segments)
            && t.active == s.active + {cam.id} && t.cancelled == s.cancelled && t.shutdown == s.shutdown
            && t.cancels == (if cam.id in s.active then s.cancels else s.cancels[cam.id := |s.routines|])
            && t.routines == s.routines + if cam.id in s.active then [] else [Goroutine(cam.id, Fetching)]
  {}

  /** A start command makes a camera recorded unless it is disabled: then it does nothing at all.  A
      positive length of segments is remembered, and no other camera is affected. */
  lemma StartCommandRecords(s: State, cam: Camera, seconds: int)
    requires Base(s)
    ensures var t := StartCommand(s, cam, seconds);
            if cam.enabled == Some(false) then t == s
            else
              && Recorded(s, t, cam.id) && OthersKept(s, t, cam.id)
              && t.segments == if seconds > 0 then s.segments[cam.id := seconds] else s.segments
  {
    var t := StartCommand(s, cam, seconds);
    if cam.enabled != Some(false) {
      StartCommandFields(s, cam, seconds);
      if cam.id !in s.active { StartsRecording(s, t, cam.id); }
      assert t.segments - {cam.id} == s.segments - {cam.id};
    }
  }

  /** So, until shutdown, an enabled camera is being recorded after it. */
  lemma StartCommandMans(s: State, cam: Camera, seconds: int)
    requires Inv(s) && !s.shutdown && cam.enabled != Some(false)
    ensures HasWorker(StartCommand(s, cam, seconds), cam.id)
  {
    var t := StartCommand(s, cam, seconds);
    CommandInv(s, cam, seconds);
    StartCommandFields(s, cam, seconds);
    OneWorker(t, cam.id, t.cancels[cam.id]);
  }

  // The camera is in none of the maps, and the goroutine it had is cancelled.
  ghost predicate Stopped(s: State, t: State, id: CameraId) {
    && id !in t.active && id !in t.cancels && id !in t.segments && t.routines == s.routines
    && s.cancelled <= t.cancelled && (id in s.cancels ==> s.cancels[id] in t.cancelled)
  }

  /** A stop command leaves nothing of the camera but its cancelled goroutine, and the others alone. */
  lemma StopCommandStops(s: State, id: CameraId)
    requires Base(s)
    ensures var t := StopCommand(s, id); Stopped(s, t, id) && OthersKept(s, t, id)
    ensures id !in s.active ==> StopCommand(s, id) == s
  {}

  // The length of the next segment of a camera: five minutes unless a command asked for another one.
  function SegmentSeconds(s: State, id: CameraId): int {
    if id in s.segments && s.segments[id] > 0 then s.segments[id] else 300
  }

  /** A length that was asked for is that of the camera's segments until it is stopped. */
  lemma SegmentsAsAsked(s: State, cam: Camera, seconds: int, id: CameraId)
    requires cam.enabled != Some(false)
    ensures var t := StartCommand(s, cam, seconds);
            && SegmentSeconds(t, id) == (if id == cam.id && seconds > 0 then seconds else SegmentSeconds(s, id))
            && (id in t.active ==> SegmentSeconds(StopCommand(t, id), id) == 300)
  {}

  // ---------------------------------------------------------------- what a goroutine does

  // Goroutine g is at this place, and nothing else differs.
  ghost predicate MovedTo(s: State, t: State, g: nat, pc: Pc)
    requires g < |s.routines|
  {
    t == s.(routines := s.routines[g := Goroutine(s.routines[g].cam, pc)])
  }

  /** One turn of a goroutine with the record it fetched: it leaves if that camera is not active, stops the
      camera and leaves if it is disabled, and records otherwise. */
  lemma TurnOfGoroutine(s: State, g: nat, cur: Camera)
    requires g < |s.routines| && s.routines[g].pc == Fetching
    ensures var t := Step(Step(Step(s, Fetch(g, cur)), Check(g)), Decide(g));
            if cur.id !in s.active then MovedTo(s, t, g, Exited)
            else if cur.enabled == Some(false) then MovedTo(StopLocked(s, cur.id), t, g, Exited)
            else MovedTo(s, t, g, Recording(cur))
  {
    var s1 := Step(s, Fetch(g, cur));
    var s2 := Step(s1, Check(g));
    assert s1.routines[g] == Goroutine(s.routines[g].cam, Checking(cur));
    assert s2.routines == s.routines[g := s2.routines[g]];
  }

  /** A recording goroutine goes on to fetch its record again, or leaves exactly when its context is
      cancelled, on its own or by the shutdown. */
  lemma RecordingGoesOn(s: State, g: nat, cur: Camera)
    requires g < |s.routines| && s.routines[g].pc == Recording(cur)
    ensures MovedTo(s, Step(s, Loop(g)), g, Fetching)
    ensures if g in s.cancelled || s.shutdown then MovedTo(s, Step(s, Quit(g)), g, Exited) else Step(s, Quit(g)) == s
    ensures MovedTo(Step(s, Shutdown), Step(Step(s, Shutdown), Quit(g)), g, Exited)
  {}

  /** A goroutine that panics stops its own camera and leaves; nobody else is affected. */
  lemma PanicStopsOwnCamera(s: State, g: nat)
    requires Base(s) && g < |s.routines| && s.routines[g].pc != Exited
    ensures var id := s.routines[g].cam;
            var t := Step(Step(s, Panic(g)), Recover(g));
            && MovedTo(StopLocked(s, id), t, g, Exited)
            && Stopped(s, StopLocked(s, id), id) && OthersKept(s, StopLocked(s, id), id)
  {
    var s1 := Step(s, Panic(g));
    assert s1.routines[g] == Goroutine(s.routines[g].cam, Panicking);
  }

  /** The last pass of the program leaves no recording registered and every goroutine that was cancelled. */
  lemma StopAllStopsAll(s: State)
    requires Base(s)
    ensures var t := Step(s, StopAll);
            && t.active == {} && t.cancels == map[] && t.segments == map[] && t.routines == s.routines
            && forall g :: 0 <= g < |t.routines| && t.routines[g].pc != Exited ==> g in t.cancelled
  {
    var t := Step(s, StopAll);
    assert t.cancels.Keys == {} && t.segments.Keys == {};
    forall g | 0 <= g < |t.routines| && t.routines[g].pc != Exited ensures g in t.cancelled {
      assert g in s.cancelled || Registered(s, g);
    }
  }

  // ---------------------------------------------------------------- the code under the lock

  class Supervisor {
    var active: set<CameraId>
    var cancels: map<CameraId, nat>
    var segments: map<CameraId, int>
    var routines: seq<Goroutine>
    var cancelled: set<nat>
    var shutdown: bool

    ghost function View(): State
      reads this
    {
      State(active, cancels, segments, routines, cancelled, shutdown)
    }

    constructor ()
      ensures View() == Initial()
    {
      active, cancels, segments, routines, cancelled, shutdown := {}, map[], map[], [], {}, false;
    }

    method StartRecordingLocked(id: CameraId)
      modifies this
      ensures View() == StartLocked(old(View()), id)
    {
      var g := |routines|;
      active := active + {id};
      cancels := cancels[id := g];
      routines := routines + [Goroutine(id, Fetching)];
    }

    method StopRecordingLocked(id: CameraId)
      modifies this
      ensures View() == StopLocked(old(View()), id)
    {
      if id in cancels {
        cancelled := cancelled + {cancels[id]};
      }
      cancels := cancels - {id};
      active := active - {id};
      segments := segments - {id};
    }

    // `for id := range activeRecordings`, in any order, while entries are deleted.
    method StopMissing(current: set<CameraId>)
      modifies this
      ensures View() == StopMany(old(View()), old(active) - current)
    {
      var todo := active - current;
      ghost var before, gone, done := View(), todo, {};
      StopNone(before);
      while todo != {}
        invariant done + todo == gone && done !! todo
        invariant View() == StopMany(before, done)
        decreases |todo|
      {
        var id :| id in todo;
        StopRecordingLocked(id);
        StopOneMore(before, done, id);
        todo, done := todo - {id}, done + {id};
      }
      assert done == gone;
    }

    method Reconcile(cameras: seq<Camera>)
      modifies this
      ensures View() == ReconcilePass(old(View()), cameras)
      ensures active == Wanted(cameras)
    {
      var current := set i | 0 <= i < |cameras| :: cameras[i].id;
      StopMissing(current);
      ghost var cleaned := View();
      for i := 0 to |cameras|
        invariant View() == ReconcileEach(cleaned, cameras[..i])
      {
        assert cameras[..i + 1][..i] == cameras[..i];
        var cam := cameras[i];
        if CameraIsRecordable(cam) {
          if cam.id !in active {
            StartRecordingLocked(cam.id);
          }
        } else {
          if cam.id in active {
            StopRecordingLocked(cam.id);
          }
        }
      }
      assert cameras[..|cameras|] == cameras;
      PassLeavesRecordable(old(View()), cameras);
    }

    // A command from the queue; `fetched` is what the API answers about its camera.
    method HandleCommand(action: string, id: CameraId, fetched: Option<Camera>, segmentSeconds: int)
      modifies this
      ensures var (before, act) := (old(View()), Text.Lower(action));
              View() == if id == "" then before
                        else if act == "start" && fetched.Some? then StartCommand(before, fetched.value, segmentSeconds)
                        else if act == "stop" then StopCommand(before, id)
                        else before
    {
      if id == "" {
        return;
      }
      var act := Text.Lower(action);
      if act == "start" {
        if fetched.None? {
          return;
        }
        HandleStart(fetched.value, segmentSeconds);
      } else if act == "stop" {
        HandleStop(id);
      }
    }

    method HandleStart(cam: Camera, segmentSeconds: int)
      modifies this
      ensures View() == StartCommand(old(View()), cam, segmentSeconds)
    {
      if !CameraIsEnabled(cam) {
        return;
      }
      if segmentSeconds > 0 {
        segments := segments[cam.id := segmentSeconds];
      }
      if cam.id !in active {
        StartRecordingLocked(cam.id);
      }
    }

    method HandleStop(id: CameraId)
      modifies this
      ensures View() == StopCommand(old(View()), id)
    {
      if id in active {
        StopRecordingLocked(id);
      }
    }
  }

  lemma StopNone(s: State)
    ensures StopMany(s, {}) == s
  {
    var r := StopMany(s, {});
    assert r.active == s.active && r.cancels == s.cancels && r.segments == s.segments && r.cancelled == s.cancelled;
  }

  lemma StopOneMore(s: State, done: set<CameraId>, id: CameraId)
    requires id !in done
    ensures StopLocked(StopMany(s, done), id) == StopMany(s, done + {id})
  {
    assert s.active - done - {id} == s.active - (done + {id});
    assert s.cancels - done - {id} == s.cancels - (done + {id});
    assert s.segments - done - {id} == s.segments - (done + {id});
    var before := set x | x in done && x in s.cancels :: s.cancels[x];
    var after := set x | x in done + {id} && x in s.cancels :: s.cancels[x];
    assert after == if id in s.cancels then before + {s.cancels[id]} else before;
  }
}
