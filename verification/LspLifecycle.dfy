/** Requests, crashes, restarts and disposal of the language client. */
module LspLifecycle {
  import opened Wrappers

  const MAX_PENDING := 128
  const MAX_CRASH_RESTARTS := 1

  datatype Settlement = Resolved(id: nat) | Rejected(id: nat)

  /**
     The client's fields, and what the outside world saw: the promises handed out, the calls that settled
     them, the promises dropped without one, and how many children and restarts there were.
   */
  datatype Client = Client(
    child: Option<nat>, started: bool, disposed: bool, stopping: bool,
    nextId: nat, pending: seq<nat>, restartAttempts: nat, timer: bool,
    issued: seq<nat>, settled: seq<Settlement>, dropped: seq<nat>, spawned: nat, manual: nat, automatic: nat)

  const NEW_CLIENT := Client(None, false, false, false, 1, [], 0, false, [], [], [], 0, 0, 0)

  datatype Event =
    | Start(spawns: bool, writes: bool)
    | Request(cancelled: bool, writes: bool)
    | Response(id: nat, isError: bool)
    | Expire(id: nat, writes: bool) // a timeout or a cancellation
    | StdinError(child: nat)
    | ChildError(child: nat)
    | ProtocolFailure
    | Exit(child: nat)
    | TimerFires(spawns: bool, writes: bool)
    | Restart(spawns: bool, writes: bool)
    | Dispose

  function Remove(s: seq<nat>, x: nat): (r: seq<nat>)
    ensures forall y | y in r :: y in s
    ensures forall y | y in s && y != x :: y in r
  {
    if s == [] then [] else if s[0] == x then s[1..] else [s[0]] + Remove(s[1..], x)
  }

  function Rejections(ids: seq<nat>): (r: seq<Settlement>)
    ensures |r| == |ids|
  {
    seq(|ids|, i requires 0 <= i < |ids| => Rejected(ids[i]))
  }

  function Failed(c: Client): Client
  {
    c.(pending := [], settled := c.settled + Rejections(c.pending))
  }

  function Stopped(c: Client): Client { c.(child := None, started := false) }

  /** A promise is handed out unless the client is not running, the token is cancelled, or too much is pending. */
  function Requested(c: Client, cancelled: bool, writes: bool): Client
  {
    if c.child.None? || !c.started then c
    else
      var id, d := c.nextId, c.(nextId := c.nextId + 1);
      if cancelled || |c.pending| >= MAX_PENDING then d
      else if writes then d.(pending := c.pending + [id], issued := c.issued + [id])
      else d.(issued := c.issued + [id], settled := c.settled + [Rejected(id)])
  }

  function StartedUp(c: Client, spawns: bool, writes: bool): Client
  {
    if c.started || c.disposed || !spawns then c
    else Requested(c.(child := Some(c.spawned), started := true, spawned := c.spawned + 1), false, writes)
  }

  function Answered(c: Client, id: nat, isError: bool): Client
  {
    if id !in c.pending then c
    else c.(pending := Remove(c.pending, id), settled := c.settled + [if isError then Rejected(id) else Resolved(id)])
  }

  /** The server is notified before the promise is rejected: if that write throws, nothing rejects it. */
  function Expired(c: Client, id: nat, writes: bool): Client
  {
    if id !in c.pending then c
    else if c.child.Some? && !writes then c.(pending := Remove(c.pending, id), dropped := c.dropped + [id])
    else c.(pending := Remove(c.pending, id), settled := c.settled + [Rejected(id)])
  }

  function Exited(c: Client, child: nat): Client
  {
    if c.child != Some(child) then c
    else
      var d := Failed(Stopped(c));
      if c.disposed || c.stopping || c.restartAttempts >= MAX_CRASH_RESTARTS then d
      else d.(restartAttempts := c.restartAttempts + 1, timer := true)
  }

  /** Everything pending rejected, the child gone, the crash window fresh. */
  function Readied(c: Client): Client
  {
    Stopped(Failed(c)).(restartAttempts := 0, timer := false, stopping := false, manual := c.manual + 1)
  }

  function Restarted(c: Client, spawns: bool, writes: bool): Client
  {
    if c.disposed then c else StartedUp(Readied(c), spawns, writes)
  }

  function Disposed(c: Client): Client
  {
    Failed(Stopped(c.(disposed := true, stopping := true, timer := false)))
  }

  function Step(c: Client, e: Event): Client
  {
    match e
    case Start(spawns, writes) => StartedUp(c, spawns, writes)
    case Request(cancelled, writes) => Requested(c, cancelled, writes)
    case Response(id, isError) => Answered(c, id, isError)
    case Expire(id, writes) => Expired(c, id, writes)
    case StdinError(child) => if c.child == Some(child) && !c.stopping then Failed(c) else c
    case ChildError(child) => if c.child == Some(child) then Failed(c) else c
    case ProtocolFailure => Stopped(Failed(c))
    case Exit(child) => Exited(c, child)
    case TimerFires(spawns, writes) =>
      if c.timer then StartedUp(c.(timer := false, automatic := c.automatic + 1), spawns, writes) else c
    case Restart(spawns, writes) => Restarted(c, spawns, writes)
    case Dispose => Disposed(c)
  }

  class CPlusLspClient {
    var child: Option<nat>
    var started: bool
    var disposed: bool
    var stopping: bool
    var nextId: nat
    var pending: seq<nat>
    var restartAttempts: nat
    var timer: bool
    ghost var issued: seq<nat>
    ghost var settled: seq<Settlement>
    ghost var dropped: seq<nat>
    var spawned: nat
    ghost var manual: nat
    ghost var automatic: nat

    constructor ()
      ensures State() == NEW_CLIENT
    {
      child, started, disposed, stopping := None, false, false, false;
      nextId, pending, restartAttempts, timer := 1, [], 0, false;
      issued, settled, dropped, spawned, manual, automatic := [], [], [], 0, 0, 0;
    }

    ghost function State(): Client
      reads this
    {
      Client(child, started, disposed, stopping, nextId, pending, restartAttempts, timer,
             issued, settled, dropped, spawned, manual, automatic)
    }

    /** Runs the start of a child process; the answer to "initialize" comes later. */
    method Start(spawns: bool, writes: bool)
      modifies this
      ensures State() == old(StartedUp(State(), spawns, writes))
    {
      if started { return; }
      if disposed || !spawns { return; }
      child := Some(spawned);
      spawned := spawned + 1;
      started := true;
      var _ := Request(false, writes);
    }

    method Request(cancelled: bool, writes: bool) returns (promise: Option<nat>)
      modifies this
      ensures State() == old(Requested(State(), cancelled, writes))
      ensures promise.Some? <==> issued != old(issued)
      ensures promise.Some? ==> issued == old(issued) + [promise.value]
    {
      promise := None;
      if child.None? || !started { return; }
      var id := nextId;
      nextId := nextId + 1;
      if cancelled { return; }
      if |pending| >= MAX_PENDING { return; }
      promise := Some(id);
      issued := issued + [id];
      if writes {
        pending := pending + [id];
      } else {
        settled := settled + [Rejected(id)];
      }
    }

    method Receive(id: nat, isError: bool)
      modifies this
      ensures State() == old(Answered(State(), id, isError))
    {
      if id !in pending { return; }
      pending := Remove(pending, id);
      settled := settled + [if isError then Rejected(id) else Resolved(id)];
    }

    method Expire(id: nat, writes: bool)
      modifies this
      ensures State() == old(Expired(State(), id, writes))
    {
      if id !in pending { return; }
      pending := Remove(pending, id);
      if child.Some? && !writes {
        dropped := dropped + [id];
        return;
      }
      settled := settled + [Rejected(id)];
    }

    method Fail()
      modifies this
      ensures State() == old(Failed(State()))
    {
      if pending == [] {
        assert settled + Rejections(pending) == settled;
        return;
      }
      var ids := pending;
      pending := [];
      ghost var before := settled;
      for i := 0 to |ids|
        invariant State() == old(State()).(pending := [], settled := before + Rejections(ids)[..i])
      {
        settled := settled + [Rejected(ids[i])];
      }
      assert Rejections(ids)[..|ids|] == Rejections(ids);
    }

    method StopProcess()
      modifies this
      ensures State() == old(Stopped(State()))
    {
      child := None;
      started := false;
    }

    method OnStdinError(from: nat)
      modifies this
      ensures State() == old(Step(State(), StdinError(from)))
    {
      if child == Some(from) && !stopping { Fail(); }
    }

    method OnError(from: nat)
      modifies this
      ensures State() == old(Step(State(), ChildError(from)))
    {
      if child == Some(from) { Fail(); }
    }

    method FailAndStop()
      modifies this
      ensures State() == old(Stopped(Failed(State())))
    {
      Fail();
      StopProcess();
    }

    method OnProtocolFailure()
      modifies this
      ensures State() == old(Step(State(), ProtocolFailure))
    {
      FailAndStop();
    }

    method OnExit(from: nat)
      modifies this
      ensures State() == old(Exited(State(), from))
    {
      if child != Some(from) { return; }
      child := None;
      started := false;
      Fail();
      if disposed || stopping || restartAttempts >= MAX_CRASH_RESTARTS { return; }
      restartAttempts := restartAttempts + 1;
      timer := true;
    }

    method OnTimer(spawns: bool, writes: bool)
      modifies this
      ensures State() == old(Step(State(), TimerFires(spawns, writes)))
    {
      if !timer { return; }
      timer := false;
      automatic := automatic + 1;
      Start(spawns, writes);
    }

    method Restart(spawns: bool, writes: bool)
      modifies this
      ensures State() == old(Restarted(State(), spawns, writes))
    {
      if disposed { return; }
      restartAttempts := 0;
      timer := false;
      stopping := true;
      FailAndStop();
      stopping := false;
      manual := manual + 1;
      assert State() == Readied(old(State()));
      Start(spawns, writes);
    }

    method Dispose()
      modifies this
      ensures State() == old(Disposed(State()))
    {
      disposed := true;
      stopping := true;
      timer := false;
      StopProcess();
      Fail();
    }
  }

  // Every reachable state.

  function Run(events: seq<Event>): Client
  {
    if events == [] then NEW_CLIENT else Step(Run(events[..|events| - 1]), events[|events| - 1])
  }

  predicate Ascending(s: seq<nat>, bound: nat)
  {
    (forall i | 0 <= i < |s| :: s[i] < bound) && forall i, j | 0 <= i < j < |s| :: s[i] < s[j]
  }

  predicate IdSettled(c: Client, id: nat) { exists i | 0 <= i < |c.settled| :: c.settled[i].id == id }

  /** Every promise is pending, settled, or dropped, and only one of these; each was settled at most once. */
  ghost predicate Accounted(c: Client)
  {
    && (forall id :: id in c.issued <==> id in c.pending || IdSettled(c, id) || id in c.dropped)
    && (forall id :: id in c.pending ==> !IdSettled(c, id) && id !in c.dropped)
    && (forall id :: id in c.dropped ==> !IdSettled(c, id))
    && (forall i, j | 0 <= i < j < |c.settled| :: c.settled[i].id != c.settled[j].id)
  }

  ghost predicate Good(c: Client)
  {
    && (c.started <==> c.child.Some?)
    && (c.child.None? ==> c.pending == [])
    && |c.pending| <= MAX_PENDING
    && Ascending(c.pending, c.nextId) && Ascending(c.issued, c.nextId)
    && Accounted(c)
    && (c.disposed ==> c.child.None? && !c.timer)
    && (c.timer ==> c.restartAttempts == 1)
    && c.restartAttempts <= MAX_CRASH_RESTARTS
    && c.automatic + (if c.timer then 1 else 0) <= c.manual + c.restartAttempts
    && (c.child.Some? ==> c.child.value < c.spawned)
  }

  lemma AscendingTail(s: seq<nat>, bound: nat)
    requires Ascending(s, bound) && s != []
    ensures Ascending(s[1..], bound) && s[0] < bound && forall y | y in s[1..] :: s[0] < y
  {
  }

  lemma AscendingCons(x: nat, s: seq<nat>, bound: nat)
    requires Ascending(s, bound) && x < bound && forall y | y in s :: x < y
    ensures Ascending([x] + s, bound)
  {
    assert forall i | 0 <= i < |s| :: s[i] in s;
  }

  lemma {:induction false} RemoveOne(s: seq<nat>, x: nat, bound: nat)
    requires Ascending(s, bound) && x in s
    ensures Ascending(Remove(s, x), bound) && |Remove(s, x)| == |s| - 1
    ensures x !in Remove(s, x)
  {
    AscendingTail(s, bound);
    if s[0] != x {
      RemoveOne(s[1..], x, bound);
      AscendingCons(s[0], Remove(s[1..], x), bound);
    }
  }

  lemma FailedIsAccounted(c: Client)
    requires Accounted(c) && Ascending(c.pending, c.nextId)
    ensures Accounted(Failed(c))
  {
    var d := Failed(c);
    forall id ensures IdSettled(d, id) <==> IdSettled(c, id) || id in c.pending {
      if IdSettled(c, id) {
        var i :| 0 <= i < |c.settled| && c.settled[i].id == id;
        assert d.settled[i].id == id;
      }
      if id in c.pending {
        var i :| 0 <= i < |c.pending| && c.pending[i] == id;
        assert d.settled[|c.settled| + i].id == id;
      }
    }
    forall i, j | 0 <= i < j < |d.settled| ensures d.settled[i].id != d.settled[j].id {
      if i < |c.settled| <= j {
        assert IdSettled(c, c.settled[i].id);
        assert d.settled[j].id == c.pending[j - |c.settled|];
      }
    }
  }

  /** One more call settles a promise that had none. */
  lemma SettleOne(c: Client, d: Client, s: Settlement)
    requires d.settled == c.settled + [s] && !IdSettled(c, s.id)
    requires forall i, j | 0 <= i < j < |c.settled| :: c.settled[i].id != c.settled[j].id
    ensures forall id :: IdSettled(d, id) <==> id == s.id || IdSettled(c, id)
    ensures forall i, j | 0 <= i < j < |d.settled| :: d.settled[i].id != d.settled[j].id
  {
    forall id ensures IdSettled(d, id) <==> id == s.id || IdSettled(c, id) {
      if IdSettled(c, id) {
        var i :| 0 <= i < |c.settled| && c.settled[i].id == id;
        assert d.settled[i].id == id;
      }
      assert d.settled[|c.settled|].id == s.id;
    }
    forall i, j | 0 <= i < j < |d.settled| ensures d.settled[i].id != d.settled[j].id {
      if j == |c.settled| { assert IdSettled(c, d.settled[i].id); }
    }
  }

  lemma RequestedIsGood(c: Client, cancelled: bool, writes: bool)
    requires Good(c)
    ensures Good(Requested(c, cancelled, writes))
  {
    var d := Requested(c, cancelled, writes);
    var id := c.nextId;
    if d.issued != c.issued {
      assert id !in c.pending && id !in c.issued;
      if !writes { SettleOne(c, d, Rejected(id)); }
      assert Accounted(d);
    } else {
      assert forall x :: IdSettled(d, x) <==> IdSettled(c, x);
    }
  }

  lemma AnsweredIsGood(c: Client, id: nat, isError: bool)
    requires Good(c)
    ensures Good(Answered(c, id, isError))
  {
    if id in c.pending {
      RemoveOne(c.pending, id, c.nextId);
      SettleOne(c, Answered(c, id, isError), if isError then Rejected(id) else Resolved(id));
    }
  }

  lemma ExpiredIsGood(c: Client, id: nat, writes: bool)
    requires Good(c)
    ensures Good(Expired(c, id, writes))
  {
    if id in c.pending {
      RemoveOne(c.pending, id, c.nextId);
      if writes {
        SettleOne(c, Expired(c, id, writes), Rejected(id));
      } else {
        assert forall x :: IdSettled(Expired(c, id, writes), x) <==> IdSettled(c, x);
      }
    }
  }

  lemma StoppedIsGood(c: Client)
    requires Good(c)
    ensures Good(Stopped(Failed(c))) && Good(Failed(c)) && Failed(Stopped(c)) == Stopped(Failed(c))
  {
    FailedIsAccounted(c);
    assert forall x :: IdSettled(Stopped(Failed(c)), x) <==> IdSettled(Failed(c), x);
  }

  /** What settles promises and hands them out is all that `Accounted` looks at. */
  lemma SameAccounts(c: Client, d: Client)
    requires c.issued == d.issued && c.pending == d.pending && c.settled == d.settled && c.dropped == d.dropped
    requires Accounted(c)
    ensures Accounted(d)
  {
    assert forall x :: IdSettled(d, x) <==> IdSettled(c, x);
  }

  lemma StartedUpIsGood(c: Client, spawns: bool, writes: bool)
    requires Good(c)
    ensures Good(StartedUp(c, spawns, writes))
  {
    if !c.started && !c.disposed && spawns {
      var d := c.(child := Some(c.spawned), started := true, spawned := c.spawned + 1);
      SameAccounts(c, d);
      RequestedIsGood(d, false, writes);
    }
  }

  lemma ExitedIsGood(c: Client, child: nat)
    requires Good(c)
    ensures Good(Exited(c, child))
  {
    StoppedIsGood(c);
    if c.child == Some(child) { SameAccounts(Stopped(Failed(c)), Exited(c, child)); }
  }

  lemma TimerIsGood(c: Client, spawns: bool, writes: bool)
    requires Good(c)
    ensures Good(Step(c, TimerFires(spawns, writes)))
  {
    if c.timer {
      var d := c.(timer := false, automatic := c.automatic + 1);
      SameAccounts(c, d);
      StartedUpIsGood(d, spawns, writes);
    }
  }

  lemma ReadiedIsGood(c: Client)
    requires Good(c)
    ensures Good(Readied(c))
  {
    StoppedIsGood(c);
    SameAccounts(Failed(c), Readied(c));
  }

  lemma RestartedIsGood(c: Client, spawns: bool, writes: bool)
    requires Good(c)
    ensures Good(Restarted(c, spawns, writes))
  {
    if !c.disposed {
      ReadiedIsGood(c);
      StartedUpIsGood(Readied(c), spawns, writes);
    }
  }

  lemma DisposedIsGood(c: Client)
    requires Good(c)
    ensures Good(Disposed(c))
  {
    StoppedIsGood(c);
    SameAccounts(Stopped(Failed(c)), Disposed(c));
  }

  lemma StepIsGood(c: Client, e: Event)
    requires Good(c)
    ensures Good(Step(c, e))
  {
    match e
    case Start(spawns, writes) => StartedUpIsGood(c, spawns, writes);
    case Request(cancelled, writes) => RequestedIsGood(c, cancelled, writes);
    case Response(id, isError) => AnsweredIsGood(c, id, isError);
    case Expire(id, writes) => ExpiredIsGood(c, id, writes);
    case StdinError(_) => StoppedIsGood(c);
    case ChildError(_) => StoppedIsGood(c);
    case ProtocolFailure => StoppedIsGood(c);
    case Exit(child) => ExitedIsGood(c, child);
    case TimerFires(spawns, writes) => TimerIsGood(c, spawns, writes);
    case Restart(spawns, writes) => RestartedIsGood(c, spawns, writes);
    case Dispose => DisposedIsGood(c);
  }

  lemma {:induction false} RunIsGood(events: seq<Event>)
    ensures Good(Run(events))
    decreases |events|
  {
    if events == [] {
      assert forall x :: !IdSettled(NEW_CLIENT, x);
    } else {
      RunIsGood(events[..|events| - 1]);
      StepIsGood(Run(events[..|events| - 1]), events[|events| - 1]);
    }
  }

  /**
   In every reachable state: promises handed out are pending, or settled by exactly one call, or dropped,
   and no id is handed out twice.
   */
  lemma PromisesAreAccounted(events: seq<Event>, id: nat)
    ensures var c := Run(events);
            && |c.pending| <= MAX_PENDING && (c.child.None? ==> c.pending == [])
            && (id in c.pending <==> id in c.issued && !IdSettled(c, id) && id !in c.dropped)
            && |set i | 0 <= i < |c.settled| && c.settled[i].id == id| <= 1
            && forall i, j | 0 <= i < j < |c.issued| :: c.issued[i] < c.issued[j]
  {
    RunIsGood(events);
    var c := Run(events);
    var calls := set i | 0 <= i < |c.settled| && c.settled[i].id == id;
    if IdSettled(c, id) {
      var i :| 0 <= i < |c.settled| && c.settled[i].id == id;
      assert calls == {i};
    } else {
      assert calls == {};
    }
  }

  /** A pending promise could not be withdrawn at the server. */
  predicate WriteFails(c: Client, e: Event)
  {
    e.Expire? && !e.writes && e.id in c.pending
  }

  lemma StepDrops(c: Client, e: Event)
    requires Good(c)
    ensures Step(c, e).dropped == c.dropped + if WriteFails(c, e) then [e.id] else []
  {
    match e
    case Expire(id, writes) =>
    case _ =>
  }

  /** Promises are dropped exactly when a timeout or cancellation could not be written to the server. */
  lemma {:induction false} DropsAreFailedWrites(events: seq<Event>)
    ensures Run(events).dropped == [] <==> NoWriteFails(events)
    decreases |events|
  {
    if events != [] {
      var before, last := events[..|events| - 1], events[|events| - 1];
      RunIsGood(before);
      StepDrops(Run(before), last);
      DropsAreFailedWrites(before);
      NoWriteFailsLast(events);
    }
  }

  ghost predicate NoWriteFails(events: seq<Event>)
  {
    forall k | 0 <= k < |events| :: !WriteFails(Run(events[..k]), events[k])
  }

  lemma NoWriteFailsLast(events: seq<Event>)
    requires events != []
    ensures var before := events[..|events| - 1];
            NoWriteFails(events) <==> NoWriteFails(before) && !WriteFails(Run(before), events[|events| - 1])
  {
    var before := events[..|events| - 1];
    assert forall k | 0 <= k < |before| :: before[..k] == events[..k] && before[k] == events[k];
  }

  /** Such a run: the first request of a started client times out, and telling the server so fails. */
  lemma FailedWriteDropsPromise()
    ensures var c := Run([Start(true, true), Expire(1, false)]);
            c.issued == [1] && c.pending == [] && c.settled == [] && c.dropped == [1]
  {
    var events := [Start(true, true), Expire(1, false)];
    assert events[..1] == [Start(true, true)] && events[..1][..0] == [];
    assert Run(events[..1]) == StartedUp(NEW_CLIENT, true, true);
  }

  lemma StepAfterDispose(c: Client, e: Event)
    requires Good(c) && c.disposed
    ensures Step(c, e).disposed && Step(c, e).spawned == c.spawned
  {
  }

  /** Nothing is spawned after disposal. */
  lemma {:induction false} NoSpawnAfterDispose(events: seq<Event>, more: seq<Event>)
    requires Run(events).disposed
    ensures Run(events + more).disposed && Run(events + more).spawned == Run(events).spawned
    decreases |more|
  {
    if more == [] {
      assert events + more == events;
    } else {
      var before := more[..|more| - 1];
      assert (events + more)[..|events + more| - 1] == events + before;
      NoSpawnAfterDispose(events, before);
      RunIsGood(events + before);
      StepAfterDispose(Run(events + before), more[|more| - 1]);
    }
  }

  /** Crashes restart the server at most once more than the user does. */
  lemma AutomaticRestartsAreBounded(events: seq<Event>)
    ensures Run(events).automatic <= Run(events).manual + 1
  {
    RunIsGood(events);
  }
}
