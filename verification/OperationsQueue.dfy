/** The remote operations of one installation (apps/central/src/operations.js): a bounded list
    in which at most one operation is open, leased to the installation by a token. */
module OperationsQueue {
  import opened Optional
  import opened Text

  datatype Status = Pending | Running | Succeeded | Failed | TimedOut

  // Times are milliseconds; an absent text is the empty string.
  datatype Operation = Operation(
    id: string, action: string, status: Status, requestedAt: int, startedAt: Option<int>,
    finishedAt: Option<int>, expiresAt: Option<int>, result: string, error: string, leaseToken: Option<string>)

  const MAX_HISTORY := 40
  const DEFAULT_TIMEOUT_MS := 5 * 60 * 1000
  const RESULT_LENGTH := 4000
  const ERROR_LENGTH := 1000
  const TIMED_OUT_MESSAGE :=
    "A instalação não confirmou o resultado dentro do prazo. Nenhuma repetição automática foi feita."

  // The known actions and how long each of them may run.
  type Timeouts = map<string, int>

  datatype Error = InvalidOperation | AlreadyPending | NotFound | NotRunning | InvalidLease | InvalidResult
  datatype Outcome = Ok | Err(error: Error)

  predicate Open(op: Operation) { op.status == Pending || op.status == Running }

  // ---------------------------------------------------------------- the four calls, as functions

  predicate Overdue(op: Operation, now: int) {
    op.status == Running && op.expiresAt.Some? && op.expiresAt.value <= now
  }

  function ExpireOne(op: Operation, now: int): Operation {
    if Overdue(op, now) then
      op.(status := TimedOut, finishedAt := Some(now), error := TIMED_OUT_MESSAGE, leaseToken := None)
    else op
  }

  function Expire(ops: seq<Operation>, now: int): (r: seq<Operation>)
    ensures |r| == |ops| && forall i :: 0 <= i < |ops| ==> r[i] == ExpireOne(ops[i], now)
  {
    seq(|ops|, i requires 0 <= i < |ops| => ExpireOne(ops[i], now))
  }

  function LastOnes(ops: seq<Operation>): seq<Operation> {
    if |ops| <= MAX_HISTORY then ops else ops[|ops| - MAX_HISTORY..]
  }

  function NewOperation(id: string, action: string, now: int): Operation {
    Operation(id, action, Pending, now, None, None, None, "", "", None)
  }

  predicate AnyOpen(ops: seq<Operation>) { exists i :: 0 <= i < |ops| && Open(ops[i]) }

  function Enqueue(ops: seq<Operation>, timeouts: Timeouts, id: string, action: string, now: int)
    : (seq<Operation>, Outcome)
  {
    if Trim(action) !in timeouts then (ops, Err(InvalidOperation))
    else if AnyOpen(ops) then (ops, Err(AlreadyPending))
    else (LastOnes(ops + [NewOperation(id, Trim(action), now)]), Ok)
  }

  // Array.prototype.find: the first index, or the length when there is none.
  function FirstPending(ops: seq<Operation>): (i: nat)
    ensures i <= |ops| && (i < |ops| ==> ops[i].status == Pending)
    ensures forall j :: 0 <= j < i ==> ops[j].status != Pending
  {
    if ops == [] || ops[0].status == Pending then 0 else 1 + FirstPending(ops[1..])
  }

  function FirstWithId(ops: seq<Operation>, id: string): (i: nat)
    ensures i <= |ops| && (i < |ops| ==> ops[i].id == id)
    ensures forall j :: 0 <= j < i ==> ops[j].id != id
  {
    if ops == [] || ops[0].id == id then 0 else 1 + FirstWithId(ops[1..], id)
  }

  function Leased(op: Operation, timeouts: Timeouts, token: string, now: int): Operation {
    var timeout := if op.action in timeouts then timeouts[op.action] else DEFAULT_TIMEOUT_MS;
    op.(status := Running, startedAt := Some(now), expiresAt := Some(now + timeout), leaseToken := Some(token))
  }

  function Claim(ops: seq<Operation>, timeouts: Timeouts, token: string, now: int)
    : (seq<Operation>, Option<Operation>)
  {
    var swept := Expire(ops, now);
    var i := FirstPending(swept);
    if i == |swept| then (swept, None)
    else (swept[i := Leased(swept[i], timeouts, token, now)], Some(Leased(swept[i], timeouts, token, now)))
  }

  predicate HoldsLease(op: Operation, token: string) {
    (if op.leaseToken.Some? then op.leaseToken.value else "") == token
  }

  function Finished(op: Operation, status: Status, result: string, error: string, now: int): Operation {
    op.(status := status, finishedAt := Some(now), result := Take(result, RESULT_LENGTH),
        error := Take(error, ERROR_LENGTH), leaseToken := None)
  }

  function Finish(ops: seq<Operation>, id: string, token: string, status: Status, result: string, error: string,
                  now: int)
    : (seq<Operation>, Outcome)
  {
    var i := FirstWithId(ops, id);
    if i == |ops| then (ops, Err(NotFound))
    else if ops[i].status != Running then (ops, Err(NotRunning))
    else if !HoldsLease(ops[i], token) then (ops, Err(InvalidLease))
    else if status != Succeeded && status != Failed then (ops, Err(InvalidResult))
    else (ops[i := Finished(ops[i], status, result, error, now)], Ok)
  }

  // ---------------------------------------------------------------- the calls, in place

  class Installation {
    var operations: seq<Operation>

    method ExpireTimedOut(now: int) returns (changed: bool)
      modifies this
      ensures operations == Expire(old(operations), now)
      ensures changed <==> exists i :: 0 <= i < |old(operations)| && Overdue(old(operations)[i], now)
    {
      changed := false;
      for i := 0 to |operations|
        invariant |operations| == |old(operations)|
        invariant forall k :: 0 <= k < i ==> operations[k] == ExpireOne(old(operations)[k], now)
        invariant forall k :: i <= k < |operations| ==> operations[k] == old(operations)[k]
        invariant changed <==> exists k :: 0 <= k < i && Overdue(old(operations)[k], now)
      {
        var operation := operations[i];
        if operation.status == Running && operation.expiresAt.Some? && operation.expiresAt.value <= now {
          operations := operations[i := operation.(status := TimedOut, finishedAt := Some(now),
                                                   error := TIMED_OUT_MESSAGE, leaseToken := None)];
          changed := true;
        }
      }
    }

    method EnqueueOperation(timeouts: Timeouts, id: string, action: string, now: int) returns (outcome: Outcome)
      modifies this
      ensures (operations, outcome) == Enqueue(old(operations), timeouts, id, action, now)
    {
      var normalized := Trim(action);
      if normalized !in timeouts {
        return Err(InvalidOperation);
      }
      if exists i :: 0 <= i < |operations| && Open(operations[i]) {
        return Err(AlreadyPending);
      }
      operations := LastOnes(operations + [NewOperation(id, normalized, now)]);
      outcome := Ok;
    }

    method ClaimOperation(timeouts: Timeouts, token: string, now: int) returns (claimed: Option<Operation>)
      modifies this
      ensures (operations, claimed) == Claim(old(operations), timeouts, token, now)
    {
      var changed := ExpireTimedOut(now);
      var i := FirstPending(operations);
      if i == |operations| {
        return None;
      }
      operations := operations[i := Leased(operations[i], timeouts, token, now)];
      claimed := Some(operations[i]);
    }

    method FinishOperation(id: string, token: string, status: Status, result: string, error: string, now: int)
      returns (outcome: Outcome)
      modifies this
      ensures (operations, outcome) == Finish(old(operations), id, token, status, result, error, now)
    {
      var i := FirstWithId(operations, id);
      if i == |operations| {
        return Err(NotFound);
      }
      if operations[i].status != Running {
        return Err(NotRunning);
      }
      if !HoldsLease(operations[i], token) {
        return Err(InvalidLease);
      }
      if status != Succeeded && status != Failed {
        return Err(InvalidResult);
      }
      operations := operations[i := Finished(operations[i], status, result, error, now)];
      outcome := Ok;
    }
  }

  // ---------------------------------------------------------------- whole runs

  datatype Event =
    | Sweep(now: int)
    | EnqueueCall(id: string, action: string, now: int)
    | ClaimCall(token: string, now: int)
    | FinishCall(id: string, token: string, status: Status, result: string, error: string, now: int)

  // The list together with everything that was ever granted: ids, leases, accepted results.
  datatype World = World(ops: seq<Operation>, ids: set<string>, claims: seq<(string, string)>,
                         finishes: seq<(string, string)>)

  function Next(timeouts: Timeouts, w: World, e: Event): World {
    match e
    case Sweep(now) => w.(ops := Expire(w.ops, now))
    case EnqueueCall(id, action, now) =>
      var (ops, outcome) := Enqueue(w.ops, timeouts, id, action, now);
      w.(ops := ops, ids := if outcome == Ok then w.ids + {id} else w.ids)
    case ClaimCall(token, now) =>
      var (ops, claimed) := Claim(w.ops, timeouts, token, now);
      w.(ops := ops, claims := if claimed.Some? then w.claims + [(claimed.value.id, token)] else w.claims)
    case FinishCall(id, token, status, result, error, now) =>
      var (ops, outcome) := Finish(w.ops, id, token, status, result, error, now);
      w.(ops := ops, finishes := if outcome == Ok then w.finishes + [(id, token)] else w.finishes)
  }

  const EMPTY := World([], {}, [], [])

  function Run(timeouts: Timeouts, events: seq<Event>): World {
    if events == [] then EMPTY
    else Next(timeouts, Run(timeouts, events[..|events| - 1]), events[|events| - 1])
  }

  // Every enqueue brings an id that no earlier operation had.
  ghost predicate FreshIds(timeouts: Timeouts, events: seq<Event>) {
    forall n :: 0 <= n < |events| && events[n].EnqueueCall? ==> events[n].id !in Run(timeouts, events[..n]).ids
  }

  // ---------------------------------------------------------------- the invariant

  ghost predicate OnlyLastOpen(ops: seq<Operation>) { forall i :: 0 <= i < |ops| && Open(ops[i]) ==> i == |ops| - 1 }

  predicate Sane(op: Operation) {
    && (op.leaseToken.Some? <==> op.status == Running)
    && (op.status == Running ==> op.expiresAt.Some?)
    && (op.status == TimedOut ==>
          op.expiresAt.Some? && op.finishedAt.Some? && op.finishedAt.value >= op.expiresAt.value)
  }

  ghost predicate ListInv(ops: seq<Operation>) {
    && |ops| <= MAX_HISTORY && OnlyLastOpen(ops)
    && (forall i :: 0 <= i < |ops| ==> Sane(ops[i]))
    && (forall i, j :: 0 <= i < j < |ops| ==> ops[i].id != ops[j].id)
  }

  ghost predicate Granted(log: seq<(string, string)>, id: string) { exists k :: 0 <= k < |log| && log[k].0 == id }

  ghost predicate OnceEach(log: seq<(string, string)>) { forall j, k :: 0 <= j < k < |log| ==> log[j].0 != log[k].0 }

  ghost predicate LogInv(w: World) {
    && (forall i :: 0 <= i < |w.ops| ==> w.ops[i].id in w.ids)
    && (forall k :: 0 <= k < |w.claims| ==> w.claims[k].0 in w.ids)
    && OnceEach(w.claims) && OnceEach(w.finishes)
    && (forall k :: 0 <= k < |w.finishes| ==> w.finishes[k] in w.claims)
    && (forall i :: 0 <= i < |w.ops| && w.ops[i].status == Pending ==> !Granted(w.claims, w.ops[i].id))
    && (forall i :: 0 <= i < |w.ops| && w.ops[i].status == Running ==>
          w.ops[i].leaseToken.Some? && (w.ops[i].id, w.ops[i].leaseToken.value) in w.claims
          && !Granted(w.finishes, w.ops[i].id))
  }

  ghost predicate Inv(w: World) { ListInv(w.ops) && LogInv(w) }

  lemma ExpireInv(w: World, now: int)
    requires Inv(w)
    ensures Inv(w.(ops := Expire(w.ops, now)))
  {}

  lemma EnqueueInv(timeouts: Timeouts, w: World, id: string, action: string, now: int)
    requires Inv(w) && id !in w.ids
    ensures Inv(Next(timeouts, w, EnqueueCall(id, action, now)))
  {
    var (ops, outcome) := Enqueue(w.ops, timeouts, id, action, now);
    if outcome == Ok {
      var op := NewOperation(id, Trim(action), now);
      AppendedList(w.ops, op, w.ids);
      AppendedLogs(w, op);
    }
  }

  // The new list is a run of old operations and then the new one.
  lemma Appended(ops: seq<Operation>, op: Operation) returns (cut: nat)
    ensures var r := LastOnes(ops + [op]);
            && cut <= |ops| && |r| == |ops| - cut + 1 <= MAX_HISTORY && r[|r| - 1] == op
            && (|ops| < MAX_HISTORY ==> cut == 0)
            && cut <= 1 + |ops| - (if |ops| < MAX_HISTORY then |ops| else MAX_HISTORY)
            && forall i :: 0 <= i < |r| - 1 ==> r[i] == ops[cut + i]
  {
    cut := if |ops| < MAX_HISTORY then 0 else |ops| + 1 - MAX_HISTORY;
  }

  lemma AppendedList(ops: seq<Operation>, op: Operation, ids: set<string>)
    requires ListInv(ops) && !AnyOpen(ops) && Sane(op) && op.id !in ids
    requires forall i :: 0 <= i < |ops| ==> ops[i].id in ids
    ensures ListInv(LastOnes(ops + [op]))
  {
    var cut := Appended(ops, op);
    assert forall i :: 0 <= i < |ops| ==> !Open(ops[i]);
  }

  lemma AppendedLogs(w: World, op: Operation)
    requires LogInv(w) && op.status == Pending && op.id !in w.ids
    ensures LogInv(w.(ops := LastOnes(w.ops + [op]), ids := w.ids + {op.id}))
  {
    var cut := Appended(w.ops, op);
    assert !Granted(w.claims, op.id);
  }

  lemma FinishesWereClaimed(w: World, id: string)
    requires forall k :: 0 <= k < |w.finishes| ==> w.finishes[k] in w.claims
    ensures Granted(w.finishes, id) ==> Granted(w.claims, id)
  {
    if k :| 0 <= k < |w.finishes| && w.finishes[k].0 == id {
      var c :| 0 <= c < |w.claims| && w.claims[c] == w.finishes[k];
      assert w.claims[c].0 == id;
    }
  }

  // Leasing the last operation keeps the list as it should be.
  lemma LeasedList(ops: seq<Operation>, i: nat, timeouts: Timeouts, token: string, now: int)
    requires ListInv(ops) && i == |ops| - 1 && ops[i].status == Pending
    ensures ListInv(ops[i := Leased(ops[i], timeouts, token, now)])
  {}

  lemma ClaimInv(timeouts: Timeouts, w: World, token: string, now: int)
    requires Inv(w)
    ensures Inv(Next(timeouts, w, ClaimCall(token, now)))
  {
    var w1 := w.(ops := Expire(w.ops, now));
    ExpireInv(w, now);
    var i := FirstPending(w1.ops);
    if i < |w1.ops| {
      LeaseInv(timeouts, w1, i, token, now);
    }
  }

  lemma LeaseInv(timeouts: Timeouts, w: World, i: nat, token: string, now: int)
    requires Inv(w) && i < |w.ops| && w.ops[i].status == Pending
    ensures Inv(w.(ops := w.ops[i := Leased(w.ops[i], timeouts, token, now)],
              claims := w.claims + [(w.ops[i].id, token)]))
  {
    var g := (w.ops[i].id, token);
    assert i == |w.ops| - 1;
    LeasedList(w.ops, i, timeouts, token, now);
    FinishesWereClaimed(w, g.0);
    var u := w.(ops := w.ops[i := Leased(w.ops[i], timeouts, token, now)], claims := w.claims + [g]);
    ClaimLogs(w, u, i, g);
  }

  lemma ClaimLogs(w: World, u: World, i: nat, g: (string, string))
    requires LogInv(w) && i < |w.ops| && i == |w.ops| - 1 && w.ops[i].status == Pending && g.0 == w.ops[i].id
    requires OnlyLastOpen(w.ops) && !Granted(w.finishes, g.0)
    requires |u.ops| == |w.ops| && (forall k :: 0 <= k < i ==> u.ops[k] == w.ops[k])
    requires u.ops[i].id == g.0 && u.ops[i].status == Running && u.ops[i].leaseToken == Some(g.1)
    requires u.ids == w.ids && u.claims == w.claims + [g] && u.finishes == w.finishes
    ensures LogInv(u)
  {
    assert u.claims[|w.claims|] == g;
    assert forall k :: 0 <= k < |w.claims| ==> u.claims[k] == w.claims[k];
    assert OnceEach(u.claims) by {
      forall k | 0 <= k < |w.claims| ensures u.claims[k].0 != g.0 {
        assert !Granted(w.claims, g.0);
      }
    }
  }

  lemma FinishInv(timeouts: Timeouts, w: World, e: Event)
    requires Inv(w) && e.FinishCall?
    ensures Inv(Next(timeouts, w, e))
  {
    var i := FirstWithId(w.ops, e.id);
    var u := Next(timeouts, w, e);
    if u.finishes != w.finishes {
      var g := (e.id, e.token);
      assert u.finishes == w.finishes + [g];
      assert w.ops[i].leaseToken == Some(e.token) && g in w.claims;
      assert forall k :: 0 <= k < |w.ops| && k != i ==> !Open(w.ops[k]);
      FinishLogs(w, u, i, g);
    }
  }

  lemma FinishLogs(w: World, u: World, i: nat, g: (string, string))
    requires LogInv(w) && i < |w.ops| && w.ops[i].status == Running && g.0 == w.ops[i].id && g in w.claims
    requires forall k :: 0 <= k < |w.ops| && k != i ==> !Open(w.ops[k])
    requires |u.ops| == |w.ops| && (forall k :: 0 <= k < |w.ops| && k != i ==> u.ops[k] == w.ops[k])
    requires u.ops[i].id == g.0 && !Open(u.ops[i])
    requires u.ids == w.ids && u.claims == w.claims && u.finishes == w.finishes + [g]
    ensures LogInv(u)
  {
    assert u.finishes[|w.finishes|] == g;
    assert forall k :: 0 <= k < |w.finishes| ==> u.finishes[k] == w.finishes[k];
    assert OnceEach(u.finishes) by {
      forall k | 0 <= k < |w.finishes| ensures u.finishes[k].0 != g.0 {
        assert !Granted(w.finishes, g.0);
      }
    }
  }

  lemma {:induction false} RunInv(timeouts: Timeouts, events: seq<Event>)
    requires FreshIds(timeouts, events)
    ensures Inv(Run(timeouts, events))
  {
    if events != [] {
      var n := |events| - 1;
      var e := events[n];
      assert FreshIds(timeouts, events[..n]) by {
        forall k | 0 <= k < n && events[k].EnqueueCall?
          ensures events[..n][k].id !in Run(timeouts, events[..n][..k]).ids
        {
          assert events[..n][..k] == events[..k];
        }
      }
      RunInv(timeouts, events[..n]);
      var w := Run(timeouts, events[..n]);
      match e
      case Sweep(now) => ExpireInv(w, now);
      case EnqueueCall(id, action, now) => EnqueueInv(timeouts, w, id, action, now);
      case ClaimCall(token, now) => ClaimInv(timeouts, w, token, now);
      case FinishCall(_, _, _, _, _, _) => FinishInv(timeouts, w, e);
    }
  }

  // ---------------------------------------------------------------- what it means

  /** Over any run with fresh ids the list holds at most 40 operations, at most one of them is
      open and it is the last one, and a lease token is present exactly while it runs. */
  lemma OneOpenAndLast(timeouts: Timeouts, events: seq<Event>)
    requires FreshIds(timeouts, events)
    ensures var ops := Run(timeouts, events).ops;
            |ops| <= MAX_HISTORY && forall i :: 0 <= i < |ops| ==>
              && (Open(ops[i]) ==> i == |ops| - 1)
              && (ops[i].leaseToken.Some? <==> ops[i].status == Running)
  {
    RunInv(timeouts, events);
  }

  /** An operation is claimed at most once and its result accepted at most once, and only with
      the token that its claim was given. */
  lemma ClaimedAndFinishedOnce(timeouts: Timeouts, events: seq<Event>)
    requires FreshIds(timeouts, events)
    ensures var w := Run(timeouts, events);
            && OnceEach(w.claims) && OnceEach(w.finishes)
            && forall k :: 0 <= k < |w.finishes| ==> w.finishes[k] in w.claims
  {
    RunInv(timeouts, events);
  }

  /** No event evicts the open operation, and an operation that is over never changes again
      while it stays in the list. */
  lemma OpenIsKeptOverIsFinal(timeouts: Timeouts, events: seq<Event>, e: Event)
    requires FreshIds(timeouts, events + [e])
    ensures var w := Run(timeouts, events); forall i :: 0 <= i < |w.ops| ==> Keeps(w.ops, Next(timeouts, w, e).ops, i)
  {
    var all := events + [e];
    assert all[..|events|] == events;
    assert e == all[|events|];
    assert FreshIds(timeouts, events) by {
      forall k | 0 <= k < |events| && events[k].EnqueueCall? ensures events[k].id !in Run(timeouts, events[..k]).ids {
        assert all[..k] == events[..k] && all[k] == events[k];
      }
    }
    RunInv(timeouts, events);
    var w := Run(timeouts, events);
    forall i | 0 <= i < |w.ops| ensures Keeps(w.ops, Next(timeouts, w, e).ops, i) { StepKeeps(timeouts, w, e, i); }
  }

  // The i-th operation stays in the list if it is open, and is unchanged if it is over and stays.
  ghost predicate Keeps(before: seq<Operation>, after: seq<Operation>, i: nat)
    requires i < |before|
  {
    && (Open(before[i]) ==> exists j :: 0 <= j < |after| && after[j].id == before[i].id)
    && (!Open(before[i]) ==> forall j :: 0 <= j < |after| && after[j].id == before[i].id ==> after[j] == before[i])
  }

  lemma StepKeeps(timeouts: Timeouts, w: World, e: Event, i: nat)
    requires Inv(w) && i < |w.ops| && (e.EnqueueCall? ==> e.id !in w.ids)
    ensures Keeps(w.ops, Next(timeouts, w, e).ops, i)
  {
    match e
    case Sweep(now) => SamePlaces(w.ops, Expire(w.ops, now), i);
    case EnqueueCall(id, action, now) => EnqueueKeeps(timeouts, w, id, action, now, i);
    case ClaimCall(token, now) => ClaimKeeps(timeouts, w.ops, token, now, i);
    case FinishCall(id, token, status, result, error, now) =>
      FinishKeeps(w.ops, id, token, status, result, error, now, i);
  }

  lemma EnqueueKeeps(timeouts: Timeouts, w: World, id: string, action: string, now: int, i: nat)
    requires Inv(w) && i < |w.ops| && id !in w.ids
    ensures Keeps(w.ops, Enqueue(w.ops, timeouts, id, action, now).0, i)
  {
    if Enqueue(w.ops, timeouts, id, action, now).1 == Ok {
      AppendKeeps(w.ops, NewOperation(id, Trim(action), now), i);
    } else {
      SamePlaces(w.ops, w.ops, i);
    }
  }

  lemma AppendKeeps(ops: seq<Operation>, op: Operation, i: nat)
    requires ListInv(ops) && !AnyOpen(ops) && i < |ops| && op.id != ops[i].id
    ensures Keeps(ops, LastOnes(ops + [op]), i)
  {
    var cut := Appended(ops, op);
    var r := LastOnes(ops + [op]);
    assert !Open(ops[i]);
    forall j | 0 <= j < |r| && r[j].id == ops[i].id ensures r[j] == ops[i] {
      assert j < |r| - 1 && r[j] == ops[cut + j];
    }
  }

  lemma ClaimKeeps(timeouts: Timeouts, ops: seq<Operation>, token: string, now: int, i: nat)
    requires ListInv(ops) && i < |ops|
    ensures Keeps(ops, Claim(ops, timeouts, token, now).0, i)
  {
    SamePlaces(ops, Claim(ops, timeouts, token, now).0, i);
  }

  lemma FinishKeeps(ops: seq<Operation>, id: string, token: string, status: Status, result: string, error: string,
                    now: int, i: nat)
    requires ListInv(ops) && i < |ops|
    ensures Keeps(ops, Finish(ops, id, token, status, result, error, now).0, i)
  {
    SamePlaces(ops, Finish(ops, id, token, status, result, error, now).0, i);
  }

  lemma SamePlaces(before: seq<Operation>, after: seq<Operation>, i: nat)
    requires |after| == |before| && i < |before| && (forall j :: 0 <= j < |before| ==> after[j].id == before[j].id)
    requires forall j, k :: 0 <= j < k < |before| ==> before[j].id != before[k].id
    requires !Open(before[i]) ==> after[i] == before[i]
    ensures Keeps(before, after, i)
  {
    assert after[i].id == before[i].id;
  }

  /** TIMED_OUT is only ever set at or after the deadline of the lease. */
  lemma TimedOutOnlyAfterDeadline(timeouts: Timeouts, events: seq<Event>)
    requires FreshIds(timeouts, events)
    ensures forall op :: op in Run(timeouts, events).ops && op.status == TimedOut ==>
              op.expiresAt.Some? && op.finishedAt.Some? && op.finishedAt.value >= op.expiresAt.value
  {
    RunInv(timeouts, events);
  }

  // ---------------------------------------------------------------- what each call does

  // Only the i-th operation differs.
  ghost predicate OnlyAt(before: seq<Operation>, after: seq<Operation>, i: nat) {
    i < |before| == |after| && forall j :: 0 <= j < |before| && j != i ==> after[j] == before[j]
  }

  /** A request is accepted exactly when the action is known and no operation is open; the new one is
      pending, comes last, and pushes out the oldest when there are more than 40. */
  lemma EnqueuedIff(timeouts: Timeouts, ops: seq<Operation>, id: string, action: string, now: int)
    requires |ops| <= MAX_HISTORY
    ensures var (r, outcome) := Enqueue(ops, timeouts, id, action, now);
            && (outcome == Ok <==> Trim(action) in timeouts && forall i :: 0 <= i < |ops| ==> !Open(ops[i]))
            && (outcome != Ok ==> r == ops)
            && (outcome == Err(InvalidOperation) <==> Trim(action) !in timeouts)
            && (outcome == Ok ==>
                  && |r| == (if |ops| < 40 then |ops| + 1 else 40) && r[..|r| - 1] == ops[|ops| - (|r| - 1)..]
                  && var op := r[|r| - 1];
                     && op.id == id && op.action == Trim(action) && op.status == Pending && op.requestedAt == now
                     && op.startedAt == op.finishedAt == op.expiresAt == None && op.leaseToken == None
                     && op.result == op.error == "")
  {
    var op := NewOperation(id, Trim(action), now);
    assert forall i :: 0 <= i < |ops| ==> (ops + [op])[i] == ops[i];
  }

  lemma FirstPendingIsLast(ops: seq<Operation>, now: int)
    requires ListInv(ops)
    ensures FirstPending(Expire(ops, now)) == if ops != [] && ops[|ops| - 1].status == Pending then |ops| - 1 else |ops|
    ensures ops != [] && ops[|ops| - 1].status == Pending ==> Expire(ops, now) == ops
  {
    assert forall j :: 0 <= j < |ops| - 1 ==> !Open(ops[j]);
  }

  /** A claim hands out the pending operation, if there is one: it runs from now on, under the token,
      until the time of its action is over, or five minutes for an action no longer known. */
  lemma ClaimedIff(timeouts: Timeouts, ops: seq<Operation>, token: string, now: int)
    requires ListInv(ops)
    ensures var (r, claimed) := Claim(ops, timeouts, token, now);
            if ops == [] || ops[|ops| - 1].status != Pending then claimed == None
            else
              var op, i := ops[|ops| - 1], |ops| - 1;
              && OnlyAt(ops, r, i) && claimed == Some(r[i])
              && r[i] == op.(status := Running, startedAt := Some(now), leaseToken := Some(token), expiresAt :=
                 Some(now + if op.action in timeouts then timeouts[op.action] else 300000))
  {
    FirstPendingIsLast(ops, now);
  }

  /** The sweep touches only a running operation whose deadline has come: it is timed out, finished now,
      with its message, and its token is gone. */
  lemma SweptIff(ops: seq<Operation>, now: int, i: nat)
    requires ListInv(ops) && i < |ops|
    ensures var op, r := ops[i], Expire(ops, now)[i];
            if op.status == Running && op.expiresAt.value <= now
            then r == op.(status := TimedOut, finishedAt := Some(now), error := TIMED_OUT_MESSAGE, leaseToken := None)
            else r == op
  {}

  /** After a sweep, and so after a claim, no running operation of the list is past its deadline. */
  lemma NothingOverdue(timeouts: Timeouts, w: World, now: int, e: Event)
    requires e == Sweep(now) || (e.ClaimCall? && e.now == now && forall a :: a in timeouts ==> timeouts[a] > 0)
    ensures forall op :: op in Next(timeouts, w, e).ops && op.status == Running ==>
              op.expiresAt == None || op.expiresAt.value > now
  {
    assert forall i :: 0 <= i < |w.ops| ==> !Overdue(Expire(w.ops, now)[i], now);
  }

  // The text, cut to a length.
  ghost predicate IsCut(r: string, text: string, length: nat) {
    r <= text && |r| == if |text| < length then |text| else length
  }

  /** An accepted result is stored as it was reported: status, time, and the beginnings of its texts;
      everything else about this operation, and all others, stay. */
  lemma FinishStores(ops: seq<Operation>, id: string, token: string, status: Status, result: string, error: string,
                     now: int, i: nat)
    requires ListInv(ops) && i < |ops| && ops[i].id == id
    requires Finish(ops, id, token, status, result, error, now).1 == Ok
    ensures var r := Finish(ops, id, token, status, result, error, now).0;
            && OnlyAt(ops, r, i) && Reported(r[i], status, result, error, now)
            && r[i].id == id && r[i].action == ops[i].action && r[i].requestedAt == ops[i].requestedAt
            && r[i].startedAt == ops[i].startedAt && r[i].expiresAt == ops[i].expiresAt
  {
    assert FirstWithId(ops, id) == i;
  }

  ghost predicate Reported(op: Operation, status: Status, result: string, error: string, now: int) {
    && op.status == status && op.finishedAt == Some(now) && op.leaseToken == None
    && IsCut(op.result, result, 4000) && IsCut(op.error, error, 1000)
  }

  // A refused result changes nothing, and the refusal says why.
  lemma RefusedFor(ops: seq<Operation>, id: string, token: string, status: Status, result: string, error: string,
                   now: int)
    requires ListInv(ops)
    ensures var (r, outcome) := Finish(ops, id, token, status, result, error, now);
            outcome != Ok ==>
              && r == ops
              && (outcome == Err(NotFound) <==> forall i :: 0 <= i < |ops| ==> ops[i].id != id)
              && forall i :: 0 <= i < |ops| && ops[i].id == id ==>
                   outcome == Err(if ops[i].status != Running then NotRunning
                                  else if ops[i].leaseToken != Some(token) then InvalidLease else InvalidResult)
  {
    forall i | 0 <= i < |ops| && ops[i].id == id ensures FirstWithId(ops, id) == i {}
  }

  // ---------------------------------------------------------------- what a run stores

  // Event k is an accepted result for this id.
  ghost predicate AcceptedAt(timeouts: Timeouts, events: seq<Event>, id: string, k: int) {
    && 0 <= k < |events| && events[k].FinishCall? && events[k].id == id
    && var e := events[k];
       Finish(Run(timeouts, events[..k]).ops, e.id, e.token, e.status, e.result, e.error, e.now).1 == Ok
  }

  ghost predicate StoredFrom(timeouts: Timeouts, events: seq<Event>, op: Operation, k: int) {
    AcceptedAt(timeouts, events, op.id, k) &&
    Reported(op, events[k].status, events[k].result, events[k].error, events[k].now)
  }

  ghost predicate IsOver(op: Operation) { op.status == Succeeded || op.status == Failed }

  // Accepted results are logged, what is over was reported so, and what has a logged result is over.
  ghost predicate Stored(timeouts: Timeouts, events: seq<Event>, w: World) {
    && (forall k, id :: AcceptedAt(timeouts, events, id, k) ==> Granted(w.finishes, id))
    && (forall op :: op in w.ops && IsOver(op) ==> exists k :: StoredFrom(timeouts, events, op, k))
    && (forall op :: op in w.ops && Granted(w.finishes, op.id) ==> IsOver(op))
  }

  lemma AcceptedBefore(timeouts: Timeouts, before: seq<Event>, e: Event, id: string, k: int)
    requires k < |before|
    ensures AcceptedAt(timeouts, before + [e], id, k) <==> AcceptedAt(timeouts, before, id, k)
  {
    if 0 <= k { assert (before + [e])[..k] == before[..k] && (before + [e])[k] == before[k]; }
  }

  lemma GrantedSnoc(log: seq<(string, string)>, g: (string, string), id: string)
    ensures Granted(log + [g], id) <==> Granted(log, id) || g.0 == id
  {
    var all := log + [g];
    assert all[|log|] == g && forall k :: 0 <= k < |log| ==> all[k] == log[k];
  }

  ghost predicate AcceptsNow(w: World, e: Event) {
    e.FinishCall? && Finish(w.ops, e.id, e.token, e.status, e.result, e.error, e.now).1 == Ok
  }

  // An operation after one event: unchanged, open before, or just enqueued.
  ghost predicate ComesFrom(w: World, e: Event, op: Operation) {
    || (exists i :: 0 <= i < |w.ops| && w.ops[i].id == op.id && (w.ops[i] == op || Open(w.ops[i])))
    || (e.EnqueueCall? && op.id == e.id && op.status == Pending && op.id !in w.ids)
  }

  // What became of an operation that had a place before.
  ghost predicate Became(was: Operation, op: Operation) {
    op.id == was.id && (op == was || (Open(was) && !IsOver(op)))
  }

  lemma SweepBecame(ops: seq<Operation>, now: int, j: nat)
    requires j < |ops|
    ensures Became(ops[j], Expire(ops, now)[j])
  {}

  lemma ClaimBecame(timeouts: Timeouts, ops: seq<Operation>, token: string, now: int, j: nat)
    requires ListInv(ops) && j < |ops|
    ensures var r := Claim(ops, timeouts, token, now).0; |r| == |ops| && Became(ops[j], r[j])
  {
    FirstPendingIsLast(ops, now);
    SweepBecame(ops, now, j);
  }

  lemma EnqueueAdds(timeouts: Timeouts, ops: seq<Operation>, id: string, action: string, now: int, op: Operation)
    requires op in Enqueue(ops, timeouts, id, action, now).0
    ensures op in ops || (op.id == id && op.status == Pending)
  {
    var added := NewOperation(id, Trim(action), now);
    if op !in ops { LastOnesAre(ops + [added], op); }
  }

  lemma LastOnesAre(ops: seq<Operation>, op: Operation)
    requires op in LastOnes(ops)
    ensures op in ops
  {}

  lemma FinishReplaces(ops: seq<Operation>, e: Event, op: Operation)
    requires ListInv(ops) && e.FinishCall?
    requires op in Finish(ops, e.id, e.token, e.status, e.result, e.error, e.now).0 && op !in ops
    ensures Finish(ops, e.id, e.token, e.status, e.result, e.error, e.now).1 == Ok
    ensures op.id == e.id && Reported(op, e.status, e.result, e.error, e.now)
    ensures exists i :: 0 <= i < |ops| && ops[i].id == op.id && Open(ops[i])
  {
    var after := Finish(ops, e.id, e.token, e.status, e.result, e.error, e.now).0;
    var i := FirstWithId(ops, e.id);
    FinishStores(ops, e.id, e.token, e.status, e.result, e.error, e.now, i);
    var j :| 0 <= j < |after| && after[j] == op;
    assert j == i && Open(ops[i]);
  }

  lemma EachComesFrom(timeouts: Timeouts, w: World, e: Event, op: Operation)
    requires Inv(w) && (e.EnqueueCall? ==> e.id !in w.ids) && op in Next(timeouts, w, e).ops
    ensures ComesFrom(w, e, op)
    ensures IsOver(op) && op !in w.ops ==>
              AcceptsNow(w, e) && op.id == e.id && Reported(op, e.status, e.result, e.error, e.now)
  {
    var after := Next(timeouts, w, e).ops;
    var j :| 0 <= j < |after| && after[j] == op;
    match e
    case Sweep(now) => SweepBecame(w.ops, now, j);
    case ClaimCall(token, now) => ClaimBecame(timeouts, w.ops, token, now, j);
    case EnqueueCall(id, action, now) => EnqueueAdds(timeouts, w.ops, id, action, now, op);
    case FinishCall(_, _, _, _, _, _) => if op !in w.ops { FinishReplaces(w.ops, e, op); }
  }

  lemma StaysLogged(timeouts: Timeouts, before: seq<Event>, w: World, e: Event, k: int, id: string)
    requires w == Run(timeouts, before) && Stored(timeouts, before, w) && AcceptedAt(timeouts, before + [e], id, k)
    ensures Granted(Next(timeouts, w, e).finishes, id)
  {
    var u := Next(timeouts, w, e);
    if k < |before| { AcceptedBefore(timeouts, before, e, id, k); } else { assert (before + [e])[..k] == before; }
    if e.FinishCall? { GrantedSnoc(w.finishes, (e.id, e.token), id); }
  }

  lemma StaysStored(timeouts: Timeouts, before: seq<Event>, w: World, e: Event, op: Operation)
    requires w == Run(timeouts, before) && Stored(timeouts, before, w) && Inv(w)
    requires e.EnqueueCall? ==> e.id !in w.ids
    requires op in Next(timeouts, w, e).ops && IsOver(op)
    ensures exists k :: StoredFrom(timeouts, before + [e], op, k)
  {
    var events := before + [e];
    if op in w.ops {
      var k :| StoredFrom(timeouts, before, op, k);
      AcceptedBefore(timeouts, before, e, op.id, k);
      assert events[k] == before[k] && StoredFrom(timeouts, events, op, k);
    } else {
      EachComesFrom(timeouts, w, e, op);
      assert events[..|before|] == before && events[|before|] == e;
      assert StoredFrom(timeouts, events, op, |before|);
    }
  }

  lemma LoggedIsOver(timeouts: Timeouts, w: World, e: Event, op: Operation)
    requires Inv(w) && (e.EnqueueCall? ==> e.id !in w.ids) && op in Next(timeouts, w, e).ops
    requires forall o :: o in w.ops && Granted(w.finishes, o.id) ==> IsOver(o)
    requires Granted(Next(timeouts, w, e).finishes, op.id)
    ensures IsOver(op)
  {
    EachComesFrom(timeouts, w, e, op);
    FinishesWereClaimed(w, op.id);
    if AcceptsNow(w, e) && op.id == e.id {
      var i := FirstWithId(w.ops, e.id);
      FinishStores(w.ops, e.id, e.token, e.status, e.result, e.error, e.now, i);
      FinishInv(timeouts, w, e);
      var after := Next(timeouts, w, e).ops;
      var j :| 0 <= j < |after| && after[j] == op;
      assert j == i;
    } else {
      if e.FinishCall? { GrantedSnoc(w.finishes, (e.id, e.token), op.id); }
      assert Granted(w.finishes, op.id);
    }
  }

  lemma {:induction false} RunStores(timeouts: Timeouts, events: seq<Event>)
    requires FreshIds(timeouts, events)
    ensures Stored(timeouts, events, Run(timeouts, events))
  {
    if events != [] {
      var before, e := events[..|events| - 1], events[|events| - 1];
      assert events == before + [e];
      FreshPrefix(timeouts, before, e);
      RunStores(timeouts, before);
      RunInv(timeouts, before);
      var w := Run(timeouts, before);
      var u := Next(timeouts, w, e);
      forall k, id | AcceptedAt(timeouts, events, id, k) ensures Granted(u.finishes, id) {
        StaysLogged(timeouts, before, w, e, k, id);
      }
      forall op | op in u.ops && IsOver(op) ensures exists k :: StoredFrom(timeouts, events, op, k) {
        StaysStored(timeouts, before, w, e, op);
      }
      forall op | op in u.ops && Granted(u.finishes, op.id) ensures IsOver(op) { LoggedIsOver(timeouts, w, e, op); }
    }
  }

  lemma FreshPrefix(timeouts: Timeouts, before: seq<Event>, e: Event)
    requires FreshIds(timeouts, before + [e])
    ensures FreshIds(timeouts, before) && (e.EnqueueCall? ==> e.id !in Run(timeouts, before).ids)
  {
    var all := before + [e];
    assert all[..|before|] == before && all[|before|] == e;
    forall k | 0 <= k < |before| && before[k].EnqueueCall? ensures before[k].id !in Run(timeouts, before[..k]).ids {
      assert all[..k] == before[..k] && all[k] == before[k];
    }
  }

  // No id has two accepted results.
  lemma AcceptedOnce(timeouts: Timeouts, events: seq<Event>, id: string, j: int, k: int)
    requires FreshIds(timeouts, events) && AcceptedAt(timeouts, events, id, j) && AcceptedAt(timeouts, events, id, k)
    ensures j == k
  {
    if j < k {
      AcceptedTwice(timeouts, events, id, j, k);
    } else if k < j {
      AcceptedTwice(timeouts, events, id, k, j);
    }
  }

  lemma AcceptedTwice(timeouts: Timeouts, events: seq<Event>, id: string, j: int, k: int)
    requires FreshIds(timeouts, events) && AcceptedAt(timeouts, events, id, j) && j < k
    ensures !AcceptedAt(timeouts, events, id, k)
  {
    if k < |events| {
      var past := events[..k];
      assert forall i :: 0 <= i < k ==> past[i] == events[i] && past[..i] == events[..i];
      RunStores(timeouts, past);
      RunInv(timeouts, past);
      assert AcceptedAt(timeouts, past, id, j);
    }
  }

  /** An operation is over in the list exactly as it was reported: it succeeded, or failed, if and only if
      the accepted result for its id said so, and it holds the time and the texts of that result. */
  lemma OverAsReported(timeouts: Timeouts, events: seq<Event>, op: Operation, status: Status)
    requires FreshIds(timeouts, events) && op in Run(timeouts, events).ops && (status == Succeeded || status == Failed)
    ensures op.status == status <==>
            exists k :: AcceptedAt(timeouts, events, op.id, k) && events[k].status == status
    ensures forall k :: AcceptedAt(timeouts, events, op.id, k) ==>
              Reported(op, events[k].status, events[k].result, events[k].error, events[k].now)
  {
    RunStores(timeouts, events);
    forall k | AcceptedAt(timeouts, events, op.id, k)
      ensures Reported(op, events[k].status, events[k].result, events[k].error, events[k].now)
    {
      var j :| StoredFrom(timeouts, events, op, j);
      AcceptedOnce(timeouts, events, op.id, j, k);
    }
    if op.status == status {
      var k :| StoredFrom(timeouts, events, op, k);
    }
  }

  lemma RunOneMore(timeouts: Timeouts, events: seq<Event>, e: Event)
    ensures Run(timeouts, events + [e]) == Next(timeouts, Run(timeouts, events), e)
  {
    assert (events + [e])[..|events|] == events;
  }

  // The last operation is this one, handed out under this token.
  ghost predicate LastRuns(ops: seq<Operation>, id: string, token: string, now: int) {
    && ops != []
    && var op := ops[|ops| - 1];
       op.id == id && op.status == Running && op.leaseToken == Some(token) && op.startedAt == Some(now)
  }

  lemma EnqueuedIsClaimed(timeouts: Timeouts, ops: seq<Operation>, e: Event, token: string, now: int)
    requires ListInv(ops) && e.EnqueueCall? && Trim(e.action) in timeouts && forall op :: op in ops ==> !Open(op)
    requires var r := Enqueue(ops, timeouts, e.id, e.action, e.now).0; ListInv(r)
    ensures var r := Enqueue(ops, timeouts, e.id, e.action, e.now).0;
            LastRuns(Claim(r, timeouts, token, now).0, e.id, token, now)
  {
    EnqueuedIff(timeouts, ops, e.id, e.action, e.now);
    ClaimedIff(timeouts, Enqueue(ops, timeouts, e.id, e.action, e.now).0, token, now);
  }

  /** An operation goes through: whatever happened before, once nothing is open a new one with a known action
      is enqueued, handed out to the next claim, and over as soon as its holder reports. */
  lemma OperationGoesThrough(timeouts: Timeouts, events: seq<Event>, enqueue: Event, claim: Event, finish: Event)
    requires enqueue.EnqueueCall? && claim.ClaimCall? && finish.FinishCall?
    requires FreshIds(timeouts, events + [enqueue]) && Trim(enqueue.action) in timeouts
    requires forall op :: op in Run(timeouts, events).ops ==> !Open(op)
    requires finish.id == enqueue.id && finish.token == claim.token
    requires finish.status == Succeeded || finish.status == Failed
    ensures var ops := Run(timeouts, events + [enqueue] + [claim] + [finish]).ops;
            && ops != [] && ops[|ops| - 1].id == enqueue.id && ops[|ops| - 1].startedAt == Some(claim.now)
            && Reported(ops[|ops| - 1], finish.status, finish.result, finish.error, finish.now)
  {
    FreshPrefix(timeouts, events, enqueue);
    RunInv(timeouts, events);
    RunInv(timeouts, events + [enqueue]);
    RunOneMore(timeouts, events, enqueue);
    RunOneMore(timeouts, events + [enqueue], claim);
    RunOneMore(timeouts, events + [enqueue] + [claim], finish);
    ThreeCalls(timeouts, Run(timeouts, events), enqueue, claim, finish);
  }

  lemma ThreeCalls(timeouts: Timeouts, w: World, enqueue: Event, claim: Event, finish: Event)
    requires enqueue.EnqueueCall? && claim.ClaimCall? && finish.FinishCall? && Trim(enqueue.action) in timeouts
    requires Inv(w) && Inv(Next(timeouts, w, enqueue)) && forall op :: op in w.ops ==> !Open(op)
    requires finish.id == enqueue.id && finish.token == claim.token
    requires finish.status == Succeeded || finish.status == Failed
    ensures var ops := Next(timeouts, Next(timeouts, Next(timeouts, w, enqueue), claim), finish).ops;
            && ops != [] && ops[|ops| - 1].id == enqueue.id && ops[|ops| - 1].startedAt == Some(claim.now)
            && Reported(ops[|ops| - 1], finish.status, finish.result, finish.error, finish.now)
  {
    var w1 := Next(timeouts, w, enqueue);
    EnqueuedIsClaimed(timeouts, w.ops, enqueue, claim.token, claim.now);
    ClaimInv(timeouts, w1, claim.token, claim.now);
    FinishesLast(Next(timeouts, w1, claim).ops, finish);
  }

  lemma FinishesLast(ops: seq<Operation>, e: Event)
    requires ListInv(ops) && ops != [] && e.FinishCall? && (e.status == Succeeded || e.status == Failed)
    requires exists now :: LastRuns(ops, e.id, e.token, now)
    ensures var r := Finish(ops, e.id, e.token, e.status, e.result, e.error, e.now).0;
            && |r| == |ops| && Reported(r[|r| - 1], e.status, e.result, e.error, e.now)
            && r[|r| - 1].id == e.id && r[|r| - 1].startedAt == ops[|ops| - 1].startedAt
  {
    var i := |ops| - 1;
    assert FirstWithId(ops, e.id) == i;
    FinishStores(ops, e.id, e.token, e.status, e.result, e.error, e.now, i);
  }

  /** A result is accepted exactly from the holder of the running operation's token: the clock
      plays no part, so a late result that no sweep preceded still counts. */
  lemma AcceptedIff(timeouts: Timeouts, events: seq<Event>, id: string, token: string, status: Status,
                    result: string, error: string, now: int)
    requires FreshIds(timeouts, events)
    ensures Finish(Run(timeouts, events).ops, id, token, status, result, error, now).1 == Ok <==>
            (status == Succeeded || status == Failed) &&
            exists i :: 0 <= i < |Run(timeouts, events).ops| && Run(timeouts, events).ops[i].id == id
                        && Run(timeouts, events).ops[i].leaseToken == Some(token)
  {
    RunInv(timeouts, events);
    var ops := Run(timeouts, events).ops;
    var f := FirstWithId(ops, id);
    if f < |ops| {
      assert forall i :: 0 <= i < |ops| && ops[i].id == id ==> i == f;
    }
  }
}
