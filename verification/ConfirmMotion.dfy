/** services/ai-service-python/confirm_motion.py: confirmation of motion in a thread, with a
    semaphore that is held until the thread really ends and a deadline for the answer.  Every
    step of every request may interleave with those of all others. */
module ConfirmMotion {
  import opened Basics
  import opened Optional

  // ---------------------------------------------------------------- the blocking call

  datatype Detected = Detected(name: string)

  // `confirmed` None means "do not know": the caller records.
  datatype Verdict = Verdict(confirmed: Option<bool>, reason: Option<string>, labels: seq<string>)

  const TIMEOUT := "timeout"
  const NO_FRAME := "no_frame"
  const NO_OBJECT := "no_object"
  const ERROR := "error:"

  const READS := 5
  const READ_SECONDS: real := 5.0

  // A frame is known only by its number here; the detector says what it shows.
  type Frame = nat

  datatype Read = Failed(why: string) | Nothing | Got(frame: Frame)

  // What the camera and the detector do: `shots[k]` is the k-th read, `clock[k]` the seconds since
  // the start right after it.
  datatype Scene = Scene(opening: Option<string>, shots: seq<Read>, clock: seq<real>,
                         infer: Frame -> Option<seq<Detected>>)

  predicate Complete(s: Scene) { |s.shots| == READS && |s.clock| == READS }

  function Failsafe(reason: string): Verdict { Verdict(None, Some(reason), []) }

  // The reads that are made: up to the first one that ends later than the limit.
  function Made(clock: seq<real>): (n: nat)
    ensures n <= |clock|
    ensures forall k :: 0 <= k < n - 1 ==> clock[k] <= READ_SECONDS
    ensures n == |clock| || (n > 0 && clock[n - 1] > READ_SECONDS)
  {
    if clock == [] then 0 else if clock[0] > READ_SECONDS then 1 else 1 + Made(clock[1..])
  }

  lemma MadeStops(clock: seq<real>, k: nat)
    requires 0 < k <= Made(clock) && clock[k - 1] > READ_SECONDS
    ensures k == Made(clock)
  {}

  predicate Fails(shots: seq<Read>) { exists k :: 0 <= k < |shots| && shots[k].Failed? }

  // The frame is the last one obtained.
  predicate LastFrame(shots: seq<Read>, frame: Frame) {
    exists k :: 0 <= k < |shots| && shots[k] == Got(frame) && forall j :: k < j < |shots| ==> !shots[j].Got?
  }

  function Names(objects: seq<Detected>): (r: seq<string>)
    ensures |r| == |objects| && forall k :: 0 <= k < |r| ==> r[k] == objects[k].name
  {
    seq(|objects|, k requires 0 <= k < |objects| => objects[k].name)
  }

  // An empty list of labels accepts everything.
  predicate Accepts(accept: seq<string>, name: string) { accept == [] || name in accept }

  predicate Relevant(accept: seq<string>, labels: seq<string>) {
    exists k :: 0 <= k < |labels| && Accepts(accept, labels[k])
  }

  method RelevantLabels(accept: seq<string>, labels: seq<string>) returns (relevant: seq<string>)
    ensures relevant != [] <==> Relevant(accept, labels)
  {
    relevant := [];
    for k := 0 to |labels|
      invariant relevant != [] <==> exists j :: 0 <= j < k && Accepts(accept, labels[j])
    {
      if Accepts(accept, labels[k]) { relevant := relevant + [labels[k]]; }
    }
  }

  // The reads of a scene that are made.
  function Shots(s: Scene): seq<Read>
    requires Complete(s)
  {
    s.shots[..Made(s.clock)]
  }

  function FirstFailure(shots: seq<Read>): (r: Option<string>)
    ensures r.Some? <==> Fails(shots)
  {
    if shots == [] then None
    else if shots[0].Failed? then Some(shots[0].why)
    else
      assert shots == [shots[0]] + shots[1..];
      FirstFailure(shots[1..])
  }

  lemma FirstFailureAt(shots: seq<Read>, k: nat)
    requires k < |shots| && shots[k].Failed? && forall j :: 0 <= j < k ==> !shots[j].Failed?
    ensures FirstFailure(shots) == Some(shots[k].why)
  {
    if k > 0 { FirstFailureAt(shots[1..], k - 1); }
  }

  function LastGot(shots: seq<Read>): Option<Frame> {
    if shots == [] then None
    else if shots[|shots| - 1].Got? then Some(shots[|shots| - 1].frame)
    else LastGot(shots[..|shots| - 1])
  }

  lemma LastGotSnoc(before: seq<Read>, r: Read)
    ensures LastGot(before + [r]) == if r.Got? then Some(r.frame) else LastGot(before)
  {
    assert (before + [r])[..|before|] == before;
  }

  lemma LastFrameBefore(shots: seq<Read>, last: Read, f: Frame)
    requires !last.Got?
    ensures LastFrame(shots + [last], f) <==> LastFrame(shots, f)
  {
    var all := shots + [last];
    assert all[|shots|] == last && forall k :: 0 <= k < |shots| ==> all[k] == shots[k];
    if LastFrame(all, f) {
      var k :| 0 <= k < |all| && all[k] == Got(f) && forall j :: k < j < |all| ==> !all[j].Got?;
      assert shots[k] == Got(f);
    }
    if LastFrame(shots, f) {
      var k :| 0 <= k < |shots| && shots[k] == Got(f) && forall j :: k < j < |shots| ==> !shots[j].Got?;
      assert all[k] == Got(f);
    }
  }

  lemma {:induction false} LastGotIsLast(shots: seq<Read>, f: Frame)
    ensures LastFrame(shots, f) <==> LastGot(shots) == Some(f)
  {
    if shots != [] {
      var before, last := shots[..|shots| - 1], shots[|shots| - 1];
      assert shots == before + [last];
      if last.Got? {
        assert LastFrame(shots, last.frame);
      } else {
        LastFrameBefore(before, last, f);
        LastGotIsLast(before, f);
      }
    }
  }

  // After k reads none failed, and this is the last frame among them.
  ghost predicate ReadSoFar(shots: seq<Read>, k: nat, frame: Option<Frame>) {
    k <= |shots| && (forall j :: 0 <= j < k ==> !shots[j].Failed?) && frame == LastGot(shots[..k])
  }

  lemma ReadOneMore(shots: seq<Read>, k: nat, frame: Option<Frame>)
    requires ReadSoFar(shots, k, frame) && k < |shots| && !shots[k].Failed?
    ensures ReadSoFar(shots, k + 1, if shots[k].Got? then Some(shots[k].frame) else frame)
  {
    LastGotSnoc(shots[..k], shots[k]);
    assert shots[..k + 1] == shots[..k] + [shots[k]];
  }

  lemma ReadToTheEnd(shots: seq<Read>, frame: Option<Frame>)
    requires ReadSoFar(shots, |shots|, frame)
    ensures FirstFailure(shots) == None && frame == LastGot(shots)
  {
    assert shots[..|shots|] == shots;
  }

  // The loop keeps the last frame, gives up at the first failure, and stops when time is over.
  method ReadFrames(s: Scene) returns (failure: Option<string>, frame: Option<Frame>)
    requires Complete(s)
    ensures failure == FirstFailure(Shots(s))
    ensures failure.None? ==> frame == LastGot(Shots(s))
  {
    failure, frame := None, None;
    ghost var made := Shots(s);
    var k := 0;
    while k < READS
      invariant 0 <= k <= READS && ReadSoFar(made, k, frame)
      invariant k < |made| || k == READS
    {
      match s.shots[k] {
        case Failed(why) =>
          FirstFailureAt(made, k);
          return Some(why), None;
        case Nothing => ReadOneMore(made, k, frame);
        case Got(f) =>
          ReadOneMore(made, k, frame);
          frame := Some(f);
      }
      k := k + 1;
      if s.clock[k - 1] > READ_SECONDS {
        MadeStops(s.clock, k);
        break;
      }
    }
    ReadToTheEnd(made, frame);
  }

  // What the blocking call returns.
  function VerdictOf(s: Scene, accept: seq<string>): Verdict
    requires Complete(s)
  {
    if s.opening.Some? then Failsafe(ERROR + s.opening.value)
    else if FirstFailure(Shots(s)).Some? then Failsafe(ERROR + FirstFailure(Shots(s)).value)
    else match LastGot(Shots(s))
      case None => Failsafe(NO_FRAME)
      case Some(f) =>
        match s.infer(f)
        case None => Failsafe(ERROR)
        case Some(objects) =>
          var labels := Names(objects);
          if Relevant(accept, labels) then Verdict(Some(true), None, labels)
          else Verdict(Some(false), Some(NO_OBJECT), labels)
  }

  method CaptureAndDetect(s: Scene, accept: seq<string>) returns (v: Verdict)
    requires Complete(s)
    ensures v == VerdictOf(s, accept)
  {
    if s.opening.Some? { return Failsafe(ERROR + s.opening.value); }
    var failure, frame := ReadFrames(s);
    if failure.Some? { return Failsafe(ERROR + failure.value); }
    if frame.None? { return Failsafe(NO_FRAME); }
    var objects := s.infer(frame.value);
    if objects.None? { return Failsafe(ERROR); }
    var labels := Names(objects.value);
    var relevant := RelevantLabels(accept, labels);
    v := Verdict(Some(relevant != []), if relevant != [] then None else Some(NO_OBJECT), labels);
  }

  // Some object has one of the labels asked for; when none is asked for, any object will do.
  ghost predicate ShowsRelevant(accept: seq<string>, objects: seq<Detected>) {
    exists k :: 0 <= k < |objects| && (accept == [] || objects[k].name in accept)
  }

  lemma RelevantAt(accept: seq<string>, labels: seq<string>, k: nat)
    requires k < |labels| && Accepts(accept, labels[k])
    ensures Relevant(accept, labels)
  {}

  lemma RelevantIff(accept: seq<string>, objects: seq<Detected>)
    ensures Relevant(accept, Names(objects)) <==> ShowsRelevant(accept, objects)
  {
    var labels := Names(objects);
    if k :| 0 <= k < |labels| && Accepts(accept, labels[k]) { assert labels[k] == objects[k].name; }
    if ShowsRelevant(accept, objects) {
      var k :| 0 <= k < |objects| && (accept == [] || objects[k].name in accept);
      assert labels[k] == objects[k].name;
      RelevantAt(accept, labels, k);
    }
  }

  // Nothing failed, a frame was read, and the last one read does, or does not, show a relevant object.
  ghost predicate Seen(s: Scene, accept: seq<string>, relevant: bool)
    requires Complete(s)
  {
    && s.opening.None? && !Fails(Shots(s))
    && exists f :: LastFrame(Shots(s), f) && s.infer(f).Some?
           && (ShowsRelevant(accept, s.infer(f).value) <==> relevant)
  }

  // A definite verdict is about the last frame read, and there is one whenever that frame was judged.
  lemma VerdictIsAboutLastFrame(s: Scene, accept: seq<string>, relevant: bool)
    requires Complete(s)
    ensures VerdictOf(s, accept).confirmed == Some(relevant) <==> Seen(s, accept, relevant)
    ensures VerdictOf(s, accept).confirmed == Some(false) ==> VerdictOf(s, accept).reason == Some("no_object")
    ensures VerdictOf(s, accept).confirmed == Some(true) ==> VerdictOf(s, accept).reason == None
  {
    forall f { LastGotIsLast(Shots(s), f); }
    forall accept, objects { RelevantIff(accept, objects); }
  }

  /** Why the verdict is open: the first failure, no frame at all, or a detector that failed. */
  lemma OpenVerdicts(s: Scene, accept: seq<string>)
    requires Complete(s) && VerdictOf(s, accept).confirmed == None
    ensures var v, shots := VerdictOf(s, accept), Shots(s);
            && v.labels == []
            && (s.opening.Some? ==> v.reason == Some("error:" + s.opening.value))
            && (s.opening.None? ==> forall k :: FirstFailedAt(shots, k) ==> v.reason == Some("error:" + shots[k].why))
            && (s.opening.None? && !Fails(shots) ==>
                  if forall k :: 0 <= k < |shots| ==> !shots[k].Got? then v.reason == Some("no_frame")
                  else v.reason == Some("error:"))
  {
    var shots := Shots(s);
    forall k | FirstFailedAt(shots, k) ensures FirstFailure(shots) == Some(shots[k].why) { FirstFailureAt(shots, k); }
    NothingGot(shots);
  }

  ghost predicate FirstFailedAt(shots: seq<Read>, k: int) {
    0 <= k < |shots| && shots[k].Failed? && forall j :: 0 <= j < k ==> !shots[j].Failed?
  }

  lemma {:induction false} NothingGot(shots: seq<Read>)
    ensures LastGot(shots) == None <==> forall k :: 0 <= k < |shots| ==> !shots[k].Got?
  {
    if shots != [] {
      var before, last := shots[..|shots| - 1], shots[|shots| - 1];
      assert shots == before + [last];
      NothingGot(before);
      assert forall k :: 0 <= k < |before| ==> before[k] == shots[k];
    }
  }

  // The labels of a definite verdict are those of all objects in the frame, relevant or not.
  lemma LabelsAreAll(s: Scene, accept: seq<string>, f: Frame)
    requires Complete(s) && VerdictOf(s, accept).confirmed.Some? && LastFrame(Shots(s), f)
    ensures s.infer(f).Some? && |VerdictOf(s, accept).labels| == |s.infer(f).value|
    ensures forall k :: 0 <= k < |s.infer(f).value| ==> VerdictOf(s, accept).labels[k] == s.infer(f).value[k].name
  {
    LastGotIsLast(Shots(s), f);
  }

  // ---------------------------------------------------------------- the semaphore and the deadline

  // How a call ends; an exception may itself be a timeout.
  datatype Outcome = Returned(verdict: Verdict) | Raised(isTimeout: bool, why: string)

  datatype Call = NotStarted | Running | Ended(outcome: Outcome)

  datatype Phase = Waiting             // for the semaphore
                 | Awaiting            // inside wait_for
                 | Draining            // past the deadline, waiting for the thread
                 | Answered(verdict: Verdict)

  datatype Request = Request(phase: Phase, call: Call)

  datatype State = State(permits: nat, requests: seq<Request>)

  datatype Event = Acquire(i: nat) | End(i: nat, outcome: Outcome) | Return(i: nat) | Deadline(i: nat) | Drained(i: nat)

  function Answer(late: bool, o: Outcome): Verdict {
    if late then Failsafe(TIMEOUT)
    else match o
      case Returned(v) => v
      case Raised(isTimeout, why) => Failsafe(if isTimeout then TIMEOUT else ERROR + why)
  }

  predicate Enabled(s: State, e: Event) {
    && e.i < |s.requests|
    && var r := s.requests[e.i];
       match e
       case Acquire(_) => r.phase == Waiting && s.permits > 0
       case End(_, _) => r.call == Running
       case Return(_) => r.phase == Awaiting && r.call.Ended?
       case Deadline(_) => r.phase == Awaiting  // the timer may also win after the call has ended
       case Drained(_) => r.phase == Draining && r.call.Ended?
  }

  function Step(s: State, e: Event): State
    requires Enabled(s, e)
  {
    var r := s.requests[e.i];
    match e
    case Acquire(i) => State(s.permits - 1, s.requests[i := Request(Awaiting, Running)])
    case End(i, o) => s.(requests := s.requests[i := r.(call := Ended(o))])
    case Return(i) => State(s.permits + 1, s.requests[i := r.(phase := Answered(Answer(false, r.call.outcome)))])
    case Deadline(i) => s.(requests := s.requests[i := r.(phase := Draining)])
    case Drained(i) => State(s.permits + 1, s.requests[i := r.(phase := Answered(Answer(true, r.call.outcome)))])
  }

  // Semaphore(max(1, concurrency)).
  function Size(concurrency: int): (n: nat)
    ensures n == Max(1, concurrency)
  {
    if concurrency >= 1 then concurrency else 1
  }

  function Start(size: nat, n: nat): State { State(size, seq(n, _ => Request(Waiting, NotStarted))) }

  ghost predicate IsRun(size: nat, n: nat, run: seq<Event>, states: seq<State>) {
    && |states| == |run| + 1 && states[0] == Start(size, n)
    && forall k :: 0 <= k < |run| ==> Enabled(states[k], run[k]) && states[k + 1] == Step(states[k], run[k])
  }

  // ---------------------------------------------------------------- permits

  predicate Holds(r: Request) { r.phase == Awaiting || r.phase == Draining }

  function Holders(rs: seq<Request>): nat {
    if rs == [] then 0 else Holders(rs[..|rs| - 1]) + (if Holds(rs[|rs| - 1]) then 1 else 0)
  }

  function Runnings(rs: seq<Request>): nat {
    if rs == [] then 0 else Runnings(rs[..|rs| - 1]) + (if rs[|rs| - 1].call == Running then 1 else 0)
  }

  lemma {:induction false} HoldersAfter(rs: seq<Request>, i: nat, r: Request)
    requires i < |rs|
    ensures Holders(rs[i := r]) == Holders(rs) - (if Holds(rs[i]) then 1 else 0) + (if Holds(r) then 1 else 0)
  {
    var last := |rs| - 1;
    if i == last {
      assert rs[i := r][..last] == rs[..last];
    } else {
      HoldersAfter(rs[..last], i, r);
      assert rs[i := r][..last] == rs[..last][i := r];
    }
  }

  // A call runs only while its request holds a permit.
  predicate Shape(r: Request) {
    && (r.call == NotStarted <==> r.phase == Waiting)
    && (r.phase.Answered? ==> r.call.Ended?)
  }

  predicate AllShaped(rs: seq<Request>) { forall i :: 0 <= i < |rs| ==> Shape(rs[i]) }

  predicate Inv(size: nat, s: State) { s.permits + Holders(s.requests) == size && AllShaped(s.requests) }

  lemma {:induction false} NoneHold(rs: seq<Request>)
    requires forall i :: 0 <= i < |rs| ==> !Holds(rs[i])
    ensures Holders(rs) == 0
  {
    if rs != [] { NoneHold(rs[..|rs| - 1]); }
  }

  lemma {:induction false} RunInv(size: nat, n: nat, run: seq<Event>, states: seq<State>, k: nat)
    requires IsRun(size, n, run, states) && k < |states|
    ensures Inv(size, states[k]) && |states[k].requests| == n
  {
    if k == 0 {
      NoneHold(states[0].requests);
    } else {
      RunInv(size, n, run, states, k - 1);
      var s, t, e := states[k - 1], states[k - 1 + 1], run[k - 1];
      assert t == Step(s, e);
      HoldersAfter(s.requests, e.i, t.requests[e.i]);
      assert t.requests == s.requests[e.i := t.requests[e.i]];
    }
  }

  lemma {:induction false} RunningsHold(rs: seq<Request>)
    requires AllShaped(rs)
    ensures Runnings(rs) <= Holders(rs)
  {
    if rs != [] {
      var last := |rs| - 1;
      assert AllShaped(rs[..last]);
      assert Shape(rs[last]);
      RunningsHold(rs[..last]);
    }
  }

  ghost predicate AllRunning(rs: seq<Request>, ids: set<nat>) {
    forall i :: i in ids ==> i < |rs| && rs[i].call == Running
  }

  lemma {:induction false} RunningIds(rs: seq<Request>, ids: set<nat>)
    requires AllRunning(rs, ids)
    ensures |ids| <= Runnings(rs)
  {
    if rs == [] {
      assert ids == {};
    } else {
      var last := |rs| - 1;
      RunningIds(rs[..last], ids - {last});
      assert ids - {last} == if last in ids then ids - {last} else ids;
    }
  }

  // However the steps interleave, never more calls run than the semaphore has places, also past
  // deadlines; and once every request is answered all permits are back.
  lemma ConcurrencyIsBounded(concurrency: int, n: nat, run: seq<Event>, states: seq<State>, k: nat, ids: set<nat>)
    requires IsRun(Size(concurrency), n, run, states) && k < |states|
    ensures |states[k].requests| == n
    ensures AllRunning(states[k].requests, ids) ==> |ids| <= Max(1, concurrency)
    ensures (forall i :: 0 <= i < n ==> states[k].requests[i].phase.Answered?) ==>
            states[k].permits == Max(1, concurrency)
  {
    RunInv(Size(concurrency), n, run, states, k);
    RunningsHold(states[k].requests);
    if AllRunning(states[k].requests, ids) { RunningIds(states[k].requests, ids); }
    if forall i :: 0 <= i < n ==> states[k].requests[i].phase.Answered? { NoneHold(states[k].requests); }
  }

  ghost function Holding(rs: seq<Request>): set<nat> { set i: nat | i < |rs| && Holds(rs[i]) }

  /** No request waits without need: it can start as soon as fewer calls than the semaphore has places
      are in progress. */
  lemma WaitsOnlyForOthers(concurrency: int, n: nat, run: seq<Event>, states: seq<State>, k: nat, i: nat)
    requires IsRun(Size(concurrency), n, run, states) && k < |states| && i < n
    ensures |states[k].requests| == n
    ensures states[k].requests[i].phase == Waiting ==>
              (Enabled(states[k], Acquire(i)) <==> |Holding(states[k].requests)| < Max(1, concurrency))
  {
    RunInv(Size(concurrency), n, run, states, k);
    HoldingCount(states[k].requests);
  }

  lemma {:induction false} HoldingCount(rs: seq<Request>)
    ensures |Holding(rs)| == Holders(rs)
  {
    if rs == [] {
      assert Holding(rs) == {};
    } else {
      var last: nat := |rs| - 1;
      HoldingCount(rs[..last]);
      assert Holding(rs) == Holding(rs[..last]) + if Holds(rs[last]) then {last} else {};
    }
  }

  lemma {:induction false} SomeoneHolds(rs: seq<Request>) returns (i: nat)
    requires Holders(rs) > 0
    ensures i < |rs| && Holds(rs[i])
  {
    var last := |rs| - 1;
    if Holds(rs[last]) { i := last; } else { i := SomeoneHolds(rs[..last]); }
  }

  // As long as a request is unanswered, some step is possible.
  lemma NeverStuck(concurrency: int, n: nat, run: seq<Event>, states: seq<State>, k: nat, i: nat) returns (e: Event)
    requires IsRun(Size(concurrency), n, run, states) && k < |states| && i < n
    requires |states[k].requests| == n && !states[k].requests[i].phase.Answered?
    ensures Enabled(states[k], e)
  {
    RunInv(Size(concurrency), n, run, states, k);
    var s := states[k];
    var j := i;
    if s.requests[i].phase == Waiting {
      if s.permits > 0 { return Acquire(i); }
      j := SomeoneHolds(s.requests);
    }
    assert Shape(s.requests[j]) && Holds(s.requests[j]);
    var r := s.requests[j];
    e := if r.call == Running then End(j, Raised(false, "")) else if r.phase == Awaiting then Return(j) else Drained(j);
  }

  // ---------------------------------------------------------------- every run ends

  // How many events a request can still take part in.
  function Ahead(r: Request): nat {
    match r.phase
    case Waiting => 4
    case Awaiting => if r.call == Running then 3 else 2
    case Draining => if r.call == Running then 2 else 1
    case Answered(_) => if r.call == Running then 1 else 0
  }

  function AllAhead(rs: seq<Request>): nat {
    if rs == [] then 0 else AllAhead(rs[1..]) + Ahead(rs[0])
  }

  lemma {:induction false} AheadAfter(rs: seq<Request>, i: nat, r: Request)
    requires i < |rs|
    ensures AllAhead(rs[i := r]) == AllAhead(rs) - Ahead(rs[i]) + Ahead(r)
  {
    if i == 0 {
      assert rs[i := r][1..] == rs[1..];
    } else {
      AheadAfter(rs[1..], i - 1, r);
      assert rs[i := r][1..] == rs[1..][i - 1 := r];
    }
  }

  lemma {:induction false} FourAhead(rs: seq<Request>)
    requires forall i :: 0 <= i < |rs| ==> rs[i].phase == Waiting
    ensures AllAhead(rs) == 4 * |rs|
  {
    if rs != [] { FourAhead(rs[1..]); }
  }

  lemma StepShortens(s: State, e: Event)
    requires Enabled(s, e) && AllShaped(s.requests)
    ensures AllAhead(Step(s, e).requests) < AllAhead(s.requests)
  {
    var r, t := s.requests[e.i], Step(s, e).requests;
    assert Shape(r) && t == s.requests[e.i := t[e.i]];
    assert Ahead(t[e.i]) < Ahead(r);
    AheadAfter(s.requests, e.i, t[e.i]);
  }

  lemma {:induction false} RunShortens(size: nat, n: nat, run: seq<Event>, states: seq<State>, k: nat)
    requires IsRun(size, n, run, states) && k < |states|
    ensures AllAhead(states[k].requests) + k <= 4 * n
  {
    if k == 0 {
      FourAhead(states[0].requests);
    } else {
      RunShortens(size, n, run, states, k - 1);
      RunInv(size, n, run, states, k - 1);
      assert states[k - 1 + 1] == Step(states[k - 1], run[k - 1]);
      StepShortens(states[k - 1], run[k - 1]);
    }
  }

  /** Every run is finite, whatever the scheduler does: at most four events a request.  One that cannot
      be extended has answered every request and given all permits back. */
  lemma EveryRequestIsAnswered(concurrency: int, n: nat, run: seq<Event>, states: seq<State>)
    requires IsRun(Size(concurrency), n, run, states)
    ensures |run| <= 4 * n
    ensures var s := states[|run|];
            && |s.requests| == n
            && ((forall e :: !Enabled(s, e)) ==>
                  (forall i :: 0 <= i < n ==> s.requests[i].phase.Answered?) && s.permits == Max(1, concurrency))
  {
    RunShortens(Size(concurrency), n, run, states, |run|);
    ConcurrencyIsBounded(concurrency, n, run, states, |run|, {});
    var s := states[|run|];
    if forall e :: !Enabled(s, e) {
      forall i | 0 <= i < n ensures s.requests[i].phase.Answered? {
        if !s.requests[i].phase.Answered? { var e := NeverStuck(concurrency, n, run, states, |run|, i); }
      }
    }
  }

  // ---------------------------------------------------------------- answers

  // What the events so far say about request i.
  ghost predicate Explained(run: seq<Event>, i: nat, r: Request) {
    && (r.phase == Waiting ==> r.call == NotStarted)
    && (r.phase == Waiting || r.phase == Awaiting ==> Deadline(i) !in run)
    && (r.phase == Draining ==> Deadline(i) in run)
    && (forall o :: End(i, o) in run <==> r.call == Ended(o))
    && (r.phase.Answered? ==> r.call.Ended? && r.phase.verdict == Answer(Deadline(i) in run, r.call.outcome))
  }

  lemma ExplainedStep(run: seq<Event>, e: Event, s: State, i: nat)
    requires Enabled(s, e) && i < |s.requests| && Explained(run, i, s.requests[i])
    ensures Explained(run + [e], i, Step(s, e).requests[i])
  {
    assert e in run + [e] && forall d :: d in run + [e] <==> d in run || d == e;
    if e.i == i { assert Step(s, e).requests[i] == Step(s, e).requests[e.i]; }
  }

  lemma {:induction false} RunExplains(size: nat, n: nat, run: seq<Event>, states: seq<State>, k: nat, i: nat)
    requires IsRun(size, n, run, states) && k < |states| && i < n
    ensures |states[k].requests| == n && Explained(run[..k], i, states[k].requests[i])
  {
    if k > 0 {
      RunExplains(size, n, run, states, k - 1, i);
      assert states[k - 1 + 1] == Step(states[k - 1], run[k - 1]);
      ExplainedStep(run[..k - 1], run[k - 1], states[k - 1], i);
      assert run[..k] == run[..k - 1] + [run[k - 1]];
    }
  }

  // What the caller is told when the call ended like this, in time or late.
  ghost predicate Tells(v: Verdict, late: bool, o: Outcome) {
    match o
    case Returned(own) => v == if late then Verdict(None, Some("timeout"), []) else own
    case Raised(isTimeout, why) =>
      v == Verdict(None, Some(if late || isTimeout then "timeout" else "error:" + why), [])
  }

  // Every answer is the outcome of the request's own call, or "do not know" past the deadline.
  lemma AnswersAreExact(size: nat, n: nat, run: seq<Event>, states: seq<State>, k: nat, i: nat)
    requires IsRun(size, n, run, states) && k < |states| && i < n
    requires |states[k].requests| == n && states[k].requests[i].phase.Answered?
    ensures exists o ::
              End(i, o) in run[..k] && Tells(states[k].requests[i].phase.verdict, Deadline(i) in run[..k], o)
    ensures forall o, p :: End(i, o) in run[..k] && End(i, p) in run[..k] ==> o == p
  {
    RunExplains(size, n, run, states, k, i);
    var r := states[k].requests[i];
    assert End(i, r.call.outcome) in run[..k];
  }

  // What request i looks at, and for what.
  datatype Work = Work(scene: Scene, accept: seq<string>)

  // The thread of request i ends with the verdict on its own scene, or with an exception.
  ghost predicate OwnScene(works: seq<Work>, e: Event) {
    e.End? && e.i < |works| && e.outcome.Returned? ==>
      Complete(works[e.i].scene) && e.outcome.verdict == VerdictOf(works[e.i].scene, works[e.i].accept)
  }

  ghost predicate OwnScenes(works: seq<Work>, run: seq<Event>) { forall e :: e in run ==> OwnScene(works, e) }

  // The call of request i returned, and its deadline did not pass before.
  ghost predicate InTime(run: seq<Event>, i: nat) {
    Deadline(i) !in run && exists v :: End(i, Returned(v)) in run
  }

  /** The fail-safe of the module, over every interleaving of all requests: an answer is a definite yes
      or no exactly when the call returned before the deadline and the last frame it read was judged so.
      Nothing else can suppress a recording. */
  lemma DefiniteOnlyIfSeen(size: nat, works: seq<Work>, run: seq<Event>, states: seq<State>, k: nat, i: nat,
                           relevant: bool)
    requires IsRun(size, |works|, run, states) && OwnScenes(works, run) && k < |states| && i < |works|
    requires |states[k].requests| == |works| && states[k].requests[i].phase.Answered? && Complete(works[i].scene)
    ensures states[k].requests[i].phase.verdict.confirmed == Some(relevant) <==>
            InTime(run[..k], i) && Seen(works[i].scene, works[i].accept, relevant)
  {
    AnswersAreExact(size, |works|, run, states, k, i);
    var o :| End(i, o) in run[..k] && Tells(states[k].requests[i].phase.verdict, Deadline(i) in run[..k], o);
    assert End(i, o) in run;
    assert OwnScene(works, End(i, o));
    VerdictIsAboutLastFrame(works[i].scene, works[i].accept, relevant);
    if o.Returned? { assert End(i, Returned(o.verdict)) in run[..k]; }
  }
}
