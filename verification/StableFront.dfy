// The blue/green TCP front as a transition system: one accept loop, any number of concurrent switch calls, a close
// call, and one relay thread per connection (scripts/smoke_podman_blue_green.py, class StableFront).
module StableFront {
  import opened Text

  const RECV: nat := 65536

  type Port = nat
  type Id = nat

  // ---- one direction of a connection -----------------------------------------------------------------------

  // What one end has sent, what the relay has read of it, what it has passed on, and the rest of the block it holds.
  datatype Flow = Flow(sent: Bytes, received: Bytes, delivered: Bytes, pending: Bytes)

  const QUIET: Flow := Flow([], [], [], [])

  ghost predicate FlowSound(f: Flow)
  {
    f.received <= f.sent && f.received == f.delivered + f.pending && |f.pending| <= RECV
  }

  predicate CanRead(f: Flow, n: nat)
  {
    1 <= n <= RECV && |f.received| + n <= |f.sent|
  }

  function ReadBlock(f: Flow, n: nat): Flow
    requires CanRead(f, n)
  {
    var block := f.sent[|f.received|..|f.received| + n];
    f.(received := f.received + block, pending := block)
  }

  predicate CanPass(f: Flow, n: nat)
  {
    1 <= n <= |f.pending|
  }

  function PassOn(f: Flow, n: nat): Flow
    requires CanPass(f, n)
  {
    f.(delivered := f.delivered + f.pending[..n], pending := f.pending[n..])
  }

  // ---- the whole system ------------------------------------------------------------------------------------

  // The port a connection is relayed to, and how many switches had completed when it was read.
  datatype Backend = Unknown | Backend(port: Port, after: nat)

  datatype Phase = Waiting | Relaying | Closed

  // `accepted` is how many switches had completed when the connection was accepted.
  datatype Conn = Conn(accepted: nat, backend: Backend, phase: Phase, up: Flow, down: Flow)

  // Where the accept loop is: at its stop test, blocked in accept, waiting for the lock, holding it, or holding it with
  // the target read.
  datatype Serve = Looping | Accepting | Accepted(id: Id) | Locked(id: Id) | Chosen(id: Id) | Ended

  // A switch call waits for the lock, holds it, has written, has left its critical section as number `place`, and has
  // returned to its caller.
  datatype Call =
    | Called(port: Port) | Holding(port: Port) | Written(port: Port)
    | Left(port: Port, place: nat) | Returned(port: Port, place: nat)

  datatype Holder = Nobody | Server | Switcher(caller: Id)

  // `completed` holds the initial port and then the ports of the switches that have left their critical section, in
  // order; `late` counts the connections accepted after the stop event was set.
  datatype State = State(target: Port, lock: Holder, serve: Serve, stopping: bool, listening: bool, late: nat,
                         calls: map<Id, Call>, conns: map<Id, Conn>, completed: seq<Port>)

  datatype Direction = Up | Down

  // `Close` covers every way a relay thread ends: no connection to the backend, end of stream, an idle selector, an
  // error while sending.
  datatype Step =
    | Poll | Accept(id: Id) | AcceptTimeout | End | Lock | Choose | Unlock
    | Switch(caller: Id, port: Port) | SwitchLock(caller: Id) | SwitchWrite(caller: Id) | SwitchUnlock(caller: Id)
    | SwitchReturn(caller: Id)
    | Stop | CloseListener
    | Connect(id: Id) | Close(id: Id)
    | Send(id: Id, direction: Direction, data: Bytes)
    | Receive(id: Id, direction: Direction, n: nat)
    | Deliver(id: Id, direction: Direction, n: nat)

  function Initial(port: Port): State
  {
    State(port, Nobody, Looping, false, true, 0, map[], map[], [port])
  }

  function FlowOf(c: Conn, d: Direction): Flow
  {
    if d.Up? then c.up else c.down
  }

  function WithFlow(c: Conn, d: Direction, f: Flow): Conn
  {
    if d.Up? then c.(up := f) else c.(down := f)
  }

  // The relay thread of a connection has been started.
  predicate Started(s: State, id: Id)
  {
    id in s.conns && s.conns[id].backend.Backend? && s.serve != Chosen(id)
  }

  predicate ServeEnabled(s: State, step: Step)
  {
    match step
    case Poll => s.serve.Looping? && !s.stopping
    case Accept(id) => s.serve.Accepting? && s.listening && id !in s.conns
    case AcceptTimeout => s.serve.Accepting?
    case End => (s.serve.Looping? && s.stopping) || s.serve.Accepting?
    case Lock => s.serve.Accepted? && s.lock.Nobody?
    case Choose => s.serve.Locked? && s.serve.id in s.conns
    case Unlock => s.serve.Chosen?
    case _ => false
  }

  predicate CallEnabled(s: State, step: Step)
  {
    match step
    case Switch(caller, _) => caller !in s.calls
    case SwitchLock(caller) => caller in s.calls && s.calls[caller].Called? && s.lock.Nobody?
    case SwitchWrite(caller) => caller in s.calls && s.calls[caller].Holding?
    case SwitchUnlock(caller) => caller in s.calls && s.calls[caller].Written?
    case SwitchReturn(caller) => caller in s.calls && s.calls[caller].Left?
    case Stop => true
    case CloseListener => s.stopping
    case _ => false
  }

  predicate RelayEnabled(s: State, step: Step)
  {
    match step
    case Connect(id) => Started(s, id) && s.conns[id].phase.Waiting?
    case Close(id) => Started(s, id)
    case Send(id, d, _) => id in s.conns && (d.Down? ==> s.conns[id].phase.Relaying?)
    case Receive(id, d, n) =>
      && id in s.conns && s.conns[id].phase.Relaying?
      && s.conns[id].up.pending == [] && s.conns[id].down.pending == []
      && CanRead(FlowOf(s.conns[id], d), n)
    case Deliver(id, d, n) => id in s.conns && s.conns[id].phase.Relaying? && CanPass(FlowOf(s.conns[id], d), n)
    case _ => false
  }

  predicate Enabled(s: State, step: Step)
  {
    ServeEnabled(s, step) || CallEnabled(s, step) || RelayEnabled(s, step)
  }

  function Serving(s: State, step: Step): State
    requires ServeEnabled(s, step)
  {
    match step
    case Poll => s.(serve := Accepting)
    case Accept(id) =>
      s.(serve := Accepted(id), late := if s.stopping then s.late + 1 else s.late,
         conns := s.conns[id := Conn(|s.completed|, Unknown, Waiting, QUIET, QUIET)])
    case AcceptTimeout => s.(serve := Looping)
    case End => s.(serve := Ended)
    case Lock => s.(serve := Locked(s.serve.id), lock := Server)
    case Choose =>
      var id := s.serve.id;
      s.(serve := Chosen(id), conns := s.conns[id := s.conns[id].(backend := Backend(s.target, |s.completed|))])
    case Unlock => s.(serve := Looping, lock := Nobody)
  }

  function Calling(s: State, step: Step): State
    requires CallEnabled(s, step)
  {
    match step
    case Switch(caller, port) => s.(calls := s.calls[caller := Called(port)])
    case SwitchLock(caller) => s.(calls := s.calls[caller := Holding(s.calls[caller].port)], lock := Switcher(caller))
    case SwitchWrite(caller) =>
      s.(calls := s.calls[caller := Written(s.calls[caller].port)], target := s.calls[caller].port)
    case SwitchUnlock(caller) =>
      s.(calls := s.calls[caller := Left(s.calls[caller].port, |s.completed|)], lock := Nobody,
         completed := s.completed + [s.calls[caller].port])
    case SwitchReturn(caller) => s.(calls := s.calls[caller := Returned(s.calls[caller].port, s.calls[caller].place)])
    case Stop => s.(stopping := true)
    case CloseListener => s.(listening := false)
  }

  function Relay(c: Conn, step: Step): Conn
    requires step.Receive? ==> CanRead(FlowOf(c, step.direction), step.n)
    requires step.Deliver? ==> CanPass(FlowOf(c, step.direction), step.n)
  {
    match step
    case Connect(_) => c.(phase := Relaying)
    case Close(_) => c.(phase := Closed)
    case Send(_, d, data) => WithFlow(c, d, FlowOf(c, d).(sent := FlowOf(c, d).sent + data))
    case Receive(_, d, n) => WithFlow(c, d, ReadBlock(FlowOf(c, d), n))
    case Deliver(_, d, n) => WithFlow(c, d, PassOn(FlowOf(c, d), n))
    case _ => c
  }

  function Do(s: State, step: Step): State
    requires Enabled(s, step)
  {
    if ServeEnabled(s, step) then Serving(s, step)
    else if CallEnabled(s, step) then Calling(s, step)
    else s.(conns := s.conns[step.id := Relay(s.conns[step.id], step)])
  }

  // ---- the invariant ---------------------------------------------------------------------------------------

  ghost predicate ConnSound(c: Conn, completed: seq<Port>)
  {
    && FlowSound(c.up) && FlowSound(c.down) && (c.up.pending == [] || c.down.pending == [])
    && 1 <= c.accepted <= |completed|
    && match c.backend
       case Unknown => c.phase.Waiting? && c.up.received == [] && c.down.received == []
       case Backend(port, after) => c.accepted <= after <= |completed| && port == completed[after - 1]
  }

  // The lock is held by the thread inside its critical section, and by no other.
  ghost predicate LockSound(s: State)
  {
    && (s.lock.Server? <==> s.serve.Locked? || s.serve.Chosen?)
    && (s.lock.Switcher? ==> s.lock.caller in s.calls)
    && forall caller | caller in s.calls ::
         (s.calls[caller].Holding? || s.calls[caller].Written? <==> s.lock == Switcher(caller))
         && (s.calls[caller].Left? || s.calls[caller].Returned? ==>
               s.calls[caller].place < |s.completed| && s.completed[s.calls[caller].place] == s.calls[caller].port)
  }

  // Outside a critical section that has written, the target is the port of the last completed switch.
  ghost predicate TargetSound(s: State)
  {
    && s.completed != []
    && s.target == if s.lock.Switcher? && s.lock.caller in s.calls && s.calls[s.lock.caller].Written?
                   then s.calls[s.lock.caller].port else s.completed[|s.completed| - 1]
  }

  ghost predicate ServeSound(s: State)
  {
    && (s.serve.Accepted? || s.serve.Locked? ==> s.serve.id in s.conns && s.conns[s.serve.id].backend.Unknown?)
    && (s.serve.Chosen? ==> s.serve.id in s.conns && s.conns[s.serve.id].backend.Backend?)
    && (!s.listening ==> s.stopping) && (!s.stopping ==> s.late == 0)
    && s.late <= 1 && (s.late == 1 ==> !s.serve.Accepting?)
  }

  ghost predicate ConnsSound(s: State)
  {
    forall id | id in s.conns :: ConnSound(s.conns[id], s.completed)
  }

  ghost predicate Inv(s: State)
  {
    LockSound(s) && TargetSound(s) && ServeSound(s) && ConnsSound(s)
  }

  lemma FlowSteps(f: Flow, n: nat)
    requires FlowSound(f)
    ensures CanRead(f, n) && f.pending == [] ==> FlowSound(ReadBlock(f, n))
    ensures CanPass(f, n) ==> FlowSound(PassOn(f, n))
  {
  }

  lemma RelayKeeps(s: State, step: Step)
    requires Inv(s) && RelayEnabled(s, step)
    ensures ConnSound(Relay(s.conns[step.id], step), s.completed)
  {
    var c := s.conns[step.id];
    assert ConnSound(c, s.completed);
    if step.Receive? || step.Deliver? {
      FlowSteps(FlowOf(c, step.direction), step.n);
    }
  }

  lemma ServeStepKeeps(s: State, step: Step)
    requires Inv(s) && ServeEnabled(s, step)
    ensures Inv(Serving(s, step))
  {
    assert s.serve.Locked? ==> ConnSound(s.conns[s.serve.id], s.completed);
  }

  lemma CallKeepsLock(s: State, step: Step)
    requires LockSound(s) && CallEnabled(s, step)
    ensures LockSound(Calling(s, step))
  {
  }

  lemma CallKeepsTarget(s: State, step: Step)
    requires LockSound(s) && TargetSound(s) && CallEnabled(s, step)
    ensures TargetSound(Calling(s, step))
  {
  }

  // A switch call leaves every connection as it is, and adds at most one completed switch.
  lemma CallKeepsConns(s: State, step: Step)
    requires ServeSound(s) && ConnsSound(s) && CallEnabled(s, step)
    ensures ServeSound(Calling(s, step)) && ConnsSound(Calling(s, step))
  {
    hide FlowSound;
    var t := Calling(s, step);
    forall id | id in t.conns
      ensures ConnSound(t.conns[id], t.completed)
    {
      assert ConnSound(s.conns[id], s.completed);
    }
  }

  lemma CallStepKeeps(s: State, step: Step)
    requires Inv(s) && CallEnabled(s, step)
    ensures Inv(Calling(s, step))
  {
    hide LockSound, TargetSound, ServeSound, ConnsSound, CallEnabled, Calling;
    CallKeepsLock(s, step);
    CallKeepsTarget(s, step);
    CallKeepsConns(s, step);
  }

  // Every step keeps the invariant.
  lemma StepKeeps(s: State, step: Step)
    requires Inv(s) && Enabled(s, step)
    ensures Inv(Do(s, step))
  {
    if ServeEnabled(s, step) {
      ServeStepKeeps(s, step);
    } else if CallEnabled(s, step) {
      CallStepKeeps(s, step);
    } else {
      RelayKeeps(s, step);
    }
  }

  // ---- runs ------------------------------------------------------------------------------------------------

  // Every interleaving of the threads, from the start.
  ghost predicate Run(port: Port, states: seq<State>, steps: seq<Step>)
  {
    && |states| == |steps| + 1 && states[0] == Initial(port)
    && forall i | 0 <= i < |steps| :: Leads(states[i], steps[i], states[i + 1])
  }

  ghost predicate Leads(s: State, step: Step, t: State)
  {
    Enabled(s, step) && t == Do(s, step)
  }

  lemma {:induction false} Reached(port: Port, states: seq<State>, steps: seq<Step>, i: nat)
    requires Run(port, states, steps) && i < |states|
    ensures Inv(states[i])
    decreases i
  {
    if i > 0 {
      Reached(port, states, steps, i - 1);
      assert Leads(states[i - 1], steps[i - 1], states[i]);
      StepKeeps(states[i - 1], steps[i - 1]);
    }
  }

  // What only grows: the completed switches, and of each connection its choice of backend and what it has delivered.
  ghost predicate Grows(c: Conn, d: Conn)
  {
    && d.accepted == c.accepted && (c.backend.Backend? ==> d.backend == c.backend)
    && (c.phase.Closed? ==> d.phase.Closed?)
    && c.up.delivered <= d.up.delivered && c.down.delivered <= d.down.delivered
  }

  ghost predicate Extends(s: State, t: State)
  {
    && s.completed <= t.completed && (s.stopping ==> t.stopping)
    && (!s.listening ==> !t.listening && t.conns.Keys == s.conns.Keys)
    && forall id | id in s.conns :: id in t.conns && Grows(s.conns[id], t.conns[id])
  }

  lemma ServeStepExtends(s: State, step: Step)
    requires Inv(s) && ServeEnabled(s, step)
    ensures Extends(s, Serving(s, step))
  {
    hide LockSound, TargetSound, ConnsSound;
  }

  lemma CallStepExtends(s: State, step: Step)
    requires CallEnabled(s, step)
    ensures Extends(s, Calling(s, step))
  {
  }

  lemma StepExtends(s: State, step: Step)
    requires Inv(s) && Enabled(s, step)
    ensures Extends(s, Do(s, step))
  {
    hide Inv;
    if ServeEnabled(s, step) {
      ServeStepExtends(s, step);
    } else if CallEnabled(s, step) {
      CallStepExtends(s, step);
    } else {
      assert Do(s, step).conns.Keys == s.conns.Keys;
    }
  }

  lemma {:induction false} RunExtends(port: Port, states: seq<State>, steps: seq<Step>, i: nat, j: nat)
    requires Run(port, states, steps) && i <= j < |states|
    ensures Extends(states[i], states[j])
    decreases j - i
  {
    hide Inv, Enabled, Do;
    if i < j {
      Reached(port, states, steps, i);
      assert Leads(states[i], steps[i], states[i + 1]);
      StepExtends(states[i], steps[i]);
      RunExtends(port, states, steps, i + 1, j);
    }
  }

  // ---- what every run guarantees ---------------------------------------------------------------------------

  // A connection's backend never changes once it has been read.
  lemma BackendFixed(port: Port, states: seq<State>, steps: seq<Step>, i: nat, j: nat, id: Id)
    requires Run(port, states, steps) && i <= j < |states|
    requires id in states[i].conns && states[i].conns[id].backend.Backend?
    ensures id in states[j].conns && states[j].conns[id].backend == states[i].conns[id].backend
  {
    hide Run, Inv;
    RunExtends(port, states, steps, i, j);
  }

  // The backend is read once, between the accept and the relay, and is the port of the last completed switch.
  lemma LatestSwitch(port: Port, states: seq<State>, steps: seq<Step>, i: nat, id: Id)
    requires Run(port, states, steps) && i < |steps| && steps[i] == Choose && states[i].serve == Locked(id)
    ensures id in states[i].conns && states[i].conns[id].backend.Unknown? && states[i].completed != []
    ensures id in states[i + 1].conns
    ensures states[i + 1].conns[id].backend ==
            Backend(states[i].completed[|states[i].completed| - 1], |states[i].completed|)
  {
    Reached(port, states, steps, i);
    assert Leads(states[i], steps[i], states[i + 1]);
  }

  // A connection goes to the port of the last switch completed before it was accepted, or to that of a later one; with
  // no later one it goes to exactly that port.
  lemma NeverOlder(port: Port, states: seq<State>, steps: seq<Step>, i: nat, j: nat, id: Id)
    requires Run(port, states, steps) && i < |steps| && i < j < |states| && steps[i] == Accept(id)
    ensures id in states[j].conns && states[i].completed != [] && states[i].completed <= states[j].completed
    ensures var c := states[j].conns[id]; var n := |states[i].completed|;
            c.backend.Backend? ==>
              && c.backend.port in states[j].completed[n - 1..]
              && (states[j].completed == states[i].completed ==> c.backend.port == states[i].completed[n - 1])
  {
    hide Run, LockSound, TargetSound, ServeSound, ConnSound;
    Opens(port, states, steps, i, id);
    Reached(port, states, steps, j);
    RunExtends(port, states, steps, i, j);
    RunExtends(port, states, steps, i + 1, j);
    GoesOn(states[j].conns[id], states[j].completed);
  }

  // So a connection accepted after a switch call has returned never goes to an older port than that call's, in whatever
  // order calls return.
  lemma AfterReturn(port: Port, states: seq<State>, steps: seq<Step>, i: nat, j: nat, id: Id, caller: Id)
    requires Run(port, states, steps) && i < |steps| && i < j < |states| && steps[i] == Accept(id)
    requires caller in states[i].calls && states[i].calls[caller].Returned?
    ensures id in states[j].conns && states[i].calls[caller].place < |states[j].completed|
    ensures states[j].completed[states[i].calls[caller].place] == states[i].calls[caller].port
    ensures var c := states[j].conns[id];
            c.backend.Backend? ==> c.backend.port in states[j].completed[states[i].calls[caller].place..]
  {
    hide Run, TargetSound, ServeSound, ConnSound;
    NeverOlder(port, states, steps, i, j, id);
    Reached(port, states, steps, i);
    var c, done, place := states[j].conns[id], states[j].completed, states[i].calls[caller].place;
    if c.backend.Backend? {
      var n := |states[i].completed|;
      var k :| 0 <= k < |done[n - 1..]| && done[n - 1..][k] == c.backend.port;
      assert done[place..][n - 1 - place + k] == c.backend.port;
    }
  }

  lemma GoesOn(c: Conn, done: seq<Port>)
    requires ConnSound(c, done)
    ensures 1 <= c.accepted <= |done|
    ensures c.backend.Backend? ==>
              && c.backend.port in done[c.accepted - 1..]
              && (c.accepted == |done| ==> c.backend.port == done[c.accepted - 1])
  {
  }

  lemma Opens(port: Port, states: seq<State>, steps: seq<Step>, i: nat, id: Id)
    requires Run(port, states, steps) && i < |steps| && steps[i] == Accept(id)
    ensures id in states[i + 1].conns && states[i + 1].conns[id].accepted == |states[i].completed|
  {
  }

  // Once the listener is closed nobody connects, and between the stop event and that moment at most one client does.
  lemma NoLateClients(port: Port, states: seq<State>, steps: seq<Step>, i: nat, j: nat)
    requires Run(port, states, steps) && i <= j < |states|
    ensures states[j].late <= 1
    ensures !states[i].listening ==> states[j].conns.Keys == states[i].conns.Keys
    ensures states[i].late == 1 ==> states[j].late == 1 && states[j].conns.Keys == states[i].conns.Keys
    decreases j - i
  {
    hide LockSound, TargetSound, ConnsSound;
    Reached(port, states, steps, j);
    RunExtends(port, states, steps, i, j);
    if i < j {
      Reached(port, states, steps, i);
      assert Leads(states[i], steps[i], states[i + 1]);
      if states[i].late == 1 {
        LateIsLast(states[i], steps[i]);
      }
      NoLateClients(port, states, steps, i + 1, j);
    }
  }

  lemma LateIsLast(s: State, step: Step)
    requires Inv(s) && Enabled(s, step) && s.late == 1
    ensures Do(s, step).late == 1 && Do(s, step).conns.Keys == s.conns.Keys
  {
    hide LockSound, TargetSound, ConnsSound;
  }

  // ---- bytes -----------------------------------------------------------------------------------------------

  // The bytes one end of one connection has sent in the course of a run.
  ghost function SentBy(steps: seq<Step>, id: Id, d: Direction): Bytes
  {
    if steps == [] then [] else SentBy(steps[..|steps| - 1], id, d) + SentAt(steps[|steps| - 1], id, d)
  }

  ghost function SentIn(s: State, id: Id, d: Direction): Bytes
  {
    if id in s.conns then FlowOf(s.conns[id], d).sent else []
  }

  ghost function SentAt(step: Step, id: Id, d: Direction): Bytes
  {
    if step.Send? && step.id == id && step.direction == d then step.data else []
  }

  lemma RelaySends(s: State, step: Step, id: Id, d: Direction)
    requires RelayEnabled(s, step)
    ensures SentIn(s.(conns := s.conns[step.id := Relay(s.conns[step.id], step)]), id, d) ==
            SentIn(s, id, d) + SentAt(step, id, d)
  {
    if id != step.id || id !in s.conns {
      assert SentIn(s, id, d) + [] == SentIn(s, id, d);
    }
  }

  lemma OthersSendNothing(s: State, step: Step, id: Id, d: Direction)
    ensures ServeEnabled(s, step) ==> SentIn(Serving(s, step), id, d) == SentIn(s, id, d) && SentAt(step, id, d) == []
    ensures CallEnabled(s, step) ==> SentIn(Calling(s, step), id, d) == SentIn(s, id, d) && SentAt(step, id, d) == []
  {
  }

  lemma StepSends(s: State, step: Step, id: Id, d: Direction)
    requires Enabled(s, step)
    ensures SentIn(Do(s, step), id, d) == SentIn(s, id, d) + SentAt(step, id, d)
  {
    hide SentIn, SentAt, ServeEnabled, CallEnabled, RelayEnabled, Serving, Calling, Relay;
    OthersSendNothing(s, step, id, d);
    if !ServeEnabled(s, step) && !CallEnabled(s, step) {
      RelaySends(s, step, id, d);
    }
  }

  lemma SentByOneMore(steps: seq<Step>, i: nat, id: Id, d: Direction)
    requires 0 < i <= |steps|
    ensures SentBy(steps[..i], id, d) == SentBy(steps[..i - 1], id, d) + SentAt(steps[i - 1], id, d)
  {
    assert steps[..i][..i - 1] == steps[..i - 1];
  }

  lemma NothingSent(port: Port, states: seq<State>, steps: seq<Step>, id: Id, d: Direction)
    requires Run(port, states, steps)
    ensures SentIn(states[0], id, d) == SentBy(steps[..0], id, d)
  {
  }

  lemma LeadsAt(port: Port, states: seq<State>, steps: seq<Step>, i: nat)
    requires Run(port, states, steps) && i < |steps|
    ensures Enabled(states[i], steps[i]) && states[i + 1] == Do(states[i], steps[i])
  {
    assert Leads(states[i], steps[i], states[i + 1]);
  }

  lemma {:induction false} SentIs(port: Port, states: seq<State>, steps: seq<Step>, i: nat, id: Id, d: Direction)
    requires Run(port, states, steps) && |states| == |steps| + 1 && i < |states|
    ensures SentIn(states[i], id, d) == SentBy(steps[..i], id, d)
    decreases i
  {
    hide Run, SentIn, SentBy, SentAt, Enabled, Do;
    if i == 0 {
      NothingSent(port, states, steps, id, d);
    } else {
      SentIs(port, states, steps, i - 1, id, d);
      LeadsAt(port, states, steps, i - 1);
      StepSends(states[i - 1], steps[i - 1], id, d);
      SentByOneMore(steps, i, id, d);
    }
  }

  // In each direction, whatever other connections and switches do, what is delivered is a prefix of what the other end
  // of the same connection has sent, and trails what the relay has read of it by at most one block.
  lemma RelayedInOrder(port: Port, states: seq<State>, steps: seq<Step>, i: nat, id: Id, d: Direction)
    requires Run(port, states, steps) && i < |states| && id in states[i].conns
    ensures var f := FlowOf(states[i].conns[id], d);
            && f.delivered <= f.received <= SentBy(steps[..i], id, d)
            && |f.received| - |f.delivered| <= 65536
  {
    Reached(port, states, steps, i);
    SentIs(port, states, steps, i, id, d);
    assert ConnSound(states[i].conns[id], states[i].completed);
  }

  // ---- how much, and how far -------------------------------------------------------------------------------

  // The bytes that the steps of a run read from one end of one connection, and those they pass on to the other.
  ghost function ReadBy(steps: seq<Step>, id: Id, d: Direction): nat
  {
    if steps == [] then 0 else ReadBy(steps[..|steps| - 1], id, d) + ReadAt(steps[|steps| - 1], id, d)
  }

  ghost function PassedBy(steps: seq<Step>, id: Id, d: Direction): nat
  {
    if steps == [] then 0 else PassedBy(steps[..|steps| - 1], id, d) + PassedAt(steps[|steps| - 1], id, d)
  }

  ghost function ReadAt(step: Step, id: Id, d: Direction): nat
  {
    if step.Receive? && step.id == id && step.direction == d then step.n else 0
  }

  ghost function PassedAt(step: Step, id: Id, d: Direction): nat
  {
    if step.Deliver? && step.id == id && step.direction == d then step.n else 0
  }

  ghost function ReadIn(s: State, id: Id, d: Direction): nat
  {
    if id in s.conns then |FlowOf(s.conns[id], d).received| else 0
  }

  ghost function PassedIn(s: State, id: Id, d: Direction): nat
  {
    if id in s.conns then |FlowOf(s.conns[id], d).delivered| else 0
  }

  ghost predicate SameCounts(s: State, t: State, id: Id, d: Direction)
  {
    ReadIn(t, id, d) == ReadIn(s, id, d) && PassedIn(t, id, d) == PassedIn(s, id, d)
  }

  lemma RelayCounts(s: State, step: Step, id: Id, d: Direction)
    requires RelayEnabled(s, step)
    ensures var t := s.(conns := s.conns[step.id := Relay(s.conns[step.id], step)]);
            && ReadIn(t, id, d) == ReadIn(s, id, d) + ReadAt(step, id, d)
            && PassedIn(t, id, d) == PassedIn(s, id, d) + PassedAt(step, id, d)
  {
  }

  lemma OthersCountNothing(s: State, step: Step, id: Id, d: Direction)
    ensures ServeEnabled(s, step) ==> SameCounts(s, Serving(s, step), id, d)
    ensures CallEnabled(s, step) ==> SameCounts(s, Calling(s, step), id, d)
    ensures ServeEnabled(s, step) || CallEnabled(s, step) ==> ReadAt(step, id, d) == PassedAt(step, id, d) == 0
  {
  }

  lemma StepCounts(s: State, step: Step, id: Id, d: Direction)
    requires Enabled(s, step)
    ensures ReadIn(Do(s, step), id, d) == ReadIn(s, id, d) + ReadAt(step, id, d)
    ensures PassedIn(Do(s, step), id, d) == PassedIn(s, id, d) + PassedAt(step, id, d)
  {
    hide ReadIn, ReadAt, PassedIn, PassedAt, ServeEnabled, CallEnabled, RelayEnabled, Serving, Calling, Relay;
    OthersCountNothing(s, step, id, d);
    if !ServeEnabled(s, step) && !CallEnabled(s, step) {
      RelayCounts(s, step, id, d);
    }
  }

  lemma CountedOneMore(steps: seq<Step>, i: nat, id: Id, d: Direction)
    requires 0 < i <= |steps|
    ensures ReadBy(steps[..i], id, d) == ReadBy(steps[..i - 1], id, d) + ReadAt(steps[i - 1], id, d)
    ensures PassedBy(steps[..i], id, d) == PassedBy(steps[..i - 1], id, d) + PassedAt(steps[i - 1], id, d)
  {
    assert steps[..i][..i - 1] == steps[..i - 1];
  }

  lemma {:induction false} CountsAre(port: Port, states: seq<State>, steps: seq<Step>, i: nat, id: Id, d: Direction)
    requires Run(port, states, steps) && |states| == |steps| + 1 && i < |states|
    ensures ReadIn(states[i], id, d) == ReadBy(steps[..i], id, d)
    ensures PassedIn(states[i], id, d) == PassedBy(steps[..i], id, d)
    decreases i
  {
    hide Enabled, Do, ReadAt, PassedAt;
    if i > 0 {
      CountsAre(port, states, steps, i - 1, id, d);
      LeadsAt(port, states, steps, i - 1);
      StepCounts(states[i - 1], steps[i - 1], id, d);
      CountedOneMore(steps, i, id, d);
    }
  }

  // The bytes delivered are exactly the first so many bytes sent as the relay has passed on.
  lemma DeliveredExactly(port: Port, states: seq<State>, steps: seq<Step>, i: nat, id: Id, d: Direction)
    requires Run(port, states, steps) && i < |states| && id in states[i].conns
    ensures var sent, n := SentBy(steps[..i], id, d), PassedBy(steps[..i], id, d);
            n <= |sent| && FlowOf(states[i].conns[id], d).delivered == sent[..n]
    ensures var sent, n := SentBy(steps[..i], id, d), ReadBy(steps[..i], id, d);
            n <= |sent| && FlowOf(states[i].conns[id], d).received == sent[..n]
  {
    hide Run, SentBy, PassedBy, ReadBy, ConnSound;
    RunLength(port, states, steps);
    RelayedInOrder(port, states, steps, i, id, d);
    CountsAre(port, states, steps, i, id, d);
  }

  lemma RunLength(port: Port, states: seq<State>, steps: seq<Step>)
    requires Run(port, states, steps)
    ensures |states| == |steps| + 1
  {
  }

  // ---- what can still happen -------------------------------------------------------------------------------

  // These steps lead from s to t.
  ghost predicate Goes(s: State, steps: seq<Step>, t: State)
    decreases |steps|
  {
    if steps == [] then s == t else Enabled(s, steps[0]) && Goes(Do(s, steps[0]), steps[1..], t)
  }

  lemma GoesOne(s: State, step: Step)
    requires Enabled(s, step)
    ensures Goes(s, [step], Do(s, step))
  {
    assert [step][1..] == [];
  }

  lemma {:induction false} GoesThen(s: State, first: seq<Step>, t: State, more: seq<Step>, u: State)
    requires Goes(s, first, t) && Goes(t, more, u)
    ensures Goes(s, first + more, u)
    decreases |first|
  {
    hide Enabled, Do;
    if first == [] {
      assert first + more == more;
    } else {
      GoesThen(Do(s, first[0]), first[1..], t, more, u);
      assert (first + more)[1..] == first[1..] + more;
    }
  }

  // Relay steps of one connection.
  ghost predicate Relays(steps: seq<Step>, id: Id)
  {
    forall i | 0 <= i < |steps| :: (steps[i].Receive? || steps[i].Deliver?) && steps[i].id == id
  }

  ghost function Undelivered(f: Flow): int
  {
    2 * (|f.sent| - |f.received|) + |f.pending|
  }

  // The next block of what has been sent.
  function Block(f: Flow): int
  {
    if |f.sent| - |f.received| < RECV then |f.sent| - |f.received| else RECV
  }

  lemma FlowNext(f: Flow)
    requires FlowSound(f)
    ensures 0 <= Undelivered(f) && (f.pending == [] && f.received == f.sent ==> f.delivered == f.sent)
    ensures f.pending != [] ==>
              && CanPass(f, |f.pending|) && PassOn(f, |f.pending|).sent == f.sent
              && 0 <= Undelivered(PassOn(f, |f.pending|)) < Undelivered(f)
    ensures f.pending == [] && f.received != f.sent ==>
              && Block(f) >= 0 && CanRead(f, Block(f)) && ReadBlock(f, Block(f)).sent == f.sent
              && 0 <= Undelivered(ReadBlock(f, Block(f))) < Undelivered(f)
  {
    if f.pending == [] {
      assert f.delivered + f.pending == f.delivered;
    }
    assert |f.received| == |f.sent| ==> f.received == f.sent;
  }

  lemma RelayStepIs(s: State, step: Step)
    requires RelayEnabled(s, step)
    ensures Enabled(s, step) && Do(s, step) == s.(conns := s.conns[step.id := Relay(s.conns[step.id], step)])
  {
  }

  // The next relay step of a connection that has not delivered everything, and what it leaves to do.
  lemma RelayNext(s: State, id: Id) returns (step: Step)
    requires Inv(s) && id in s.conns && s.conns[id].phase.Relaying?
    requires s.conns[id].up.delivered != s.conns[id].up.sent || s.conns[id].down.delivered != s.conns[id].down.sent
    ensures Enabled(s, step) && Relays([step], id) && id in Do(s, step).conns
    ensures var c, e := s.conns[id], Do(s, step).conns[id];
            && e.phase.Relaying? && e.up.sent == c.up.sent && e.down.sent == c.down.sent
            && 0 <= Undelivered(e.up) + Undelivered(e.down) < Undelivered(c.up) + Undelivered(c.down)
  {
    hide LockSound, TargetSound, ServeSound, FlowSound, Undelivered, PassOn, ReadBlock, CanPass, CanRead, Block,
         Enabled, Do;
    var c := s.conns[id];
    assert ConnSound(c, s.completed);
    FlowNext(c.up);
    FlowNext(c.down);
    step := if c.up.pending != [] then Deliver(id, Up, |c.up.pending|)
            else if c.down.pending != [] then Deliver(id, Down, |c.down.pending|)
            else if c.up.received != c.up.sent then Receive(id, Up, Block(c.up))
            else Receive(id, Down, Block(c.down));
    RelayStepIs(s, step);
  }

  lemma {:induction false} RelayAll(s: State, id: Id) returns (steps: seq<Step>, t: State)
    requires Inv(s) && id in s.conns && s.conns[id].phase.Relaying?
    ensures Goes(s, steps, t) && Relays(steps, id) && id in t.conns && t.conns[id].phase.Relaying?
    ensures t.conns[id].up.delivered == s.conns[id].up.sent && t.conns[id].down.delivered == s.conns[id].down.sent
    decreases Undelivered(s.conns[id].up) + Undelivered(s.conns[id].down)
  {
    hide Inv, Enabled, Do, Undelivered;
    if s.conns[id].up.delivered == s.conns[id].up.sent && s.conns[id].down.delivered == s.conns[id].down.sent {
      steps, t := [], s;
    } else {
      var step := RelayNext(s, id);
      StepKeeps(s, step);
      var more;
      more, t := RelayAll(Do(s, step), id);
      steps := [step] + more;
      assert steps[1..] == more;
    }
  }

  // Whatever has happened, a connection that is still relayed can deliver everything both its ends have sent, by steps
  // of its own relay alone.
  lemma EverythingArrives(port: Port, states: seq<State>, steps: seq<Step>, id: Id)
    returns (more: seq<Step>, t: State)
    requires Run(port, states, steps) && |states| == |steps| + 1
    requires id in states[|steps|].conns && states[|steps|].conns[id].phase.Relaying?
    ensures Goes(states[|steps|], more, t) && Relays(more, id) && id in t.conns
    ensures forall d :: FlowOf(t.conns[id], d).delivered == SentBy(steps, id, d)
  {
    hide Inv, Run, Goes, SentBy;
    Reached(port, states, steps, |steps|);
    more, t := RelayAll(states[|steps|], id);
    assert steps[..|steps|] == steps;
    SentIs(port, states, steps, |steps|, id, Up);
    SentIs(port, states, steps, |steps|, id, Down);
  }

  lemma GoesFirst(s: State, step: Step, rest: seq<Step>, t: State)
    requires Enabled(s, step) && Goes(Do(s, step), rest, t)
    ensures Goes(s, [step] + rest, t)
  {
    assert ([step] + rest)[1..] == rest;
  }

  // Whoever holds the lock can leave its critical section, and nothing else changes for those who wait.
  ghost predicate Waited(s: State, t: State)
  {
    && Inv(t) && t.lock.Nobody? && s.completed <= t.completed
    && t.stopping == s.stopping && t.listening == s.listening && t.conns.Keys == s.conns.Keys
    && t.calls.Keys == s.calls.Keys
    && t.serve == if s.serve.Locked? || s.serve.Chosen? then Looping else s.serve
  }

  lemma LockFreed(s: State) returns (steps: seq<Step>, t: State)
    requires Inv(s)
    ensures Goes(s, steps, t) && Waited(s, t)
  {
    hide ConnSound;
    steps, t := [], s;
    if s.serve.Locked? {
      var s1 := Do(s, Choose);
      t := Do(s1, Unlock);
      steps := [Choose, Unlock];
      GoesTwo(s, Choose, Unlock);
      StepKeeps(s, Choose);
      StepKeeps(s1, Unlock);
    } else if s.serve.Chosen? {
      t := Do(s, Unlock);
      steps := [Unlock];
      GoesOne(s, Unlock);
      StepKeeps(s, Unlock);
    } else if s.lock.Switcher? {
      steps, t := SwitcherLeaves(s, s.lock.caller);
    }
  }

  lemma GoesTwo(s: State, a: Step, b: Step)
    requires Enabled(s, a) && Enabled(Do(s, a), b)
    ensures Goes(s, [a, b], Do(Do(s, a), b))
  {
    hide Enabled, Do;
    GoesOne(Do(s, a), b);
    GoesFirst(s, a, [b], Do(Do(s, a), b));
    assert [a] + [b] == [a, b];
  }

  lemma SwitcherLeaves(s: State, caller: Id) returns (steps: seq<Step>, t: State)
    requires Inv(s) && s.lock == Switcher(caller)
    ensures Goes(s, steps, t) && Waited(s, t)
  {
    hide ConnsSound, TargetSound, ServeSound, Goes, Enabled, Do;
    var unlock := SwitchUnlock(caller);
    if s.calls[caller].Holding? {
      var write := SwitchWrite(caller);
      CallStepIs(s, write);
      CallStepIs(Do(s, write), unlock);
      steps, t := [write, unlock], Do(Do(s, write), unlock);
      GoesTwo(s, write, unlock);
    } else {
      CallStepIs(s, unlock);
      steps, t := [unlock], Do(s, unlock);
      GoesOne(s, unlock);
    }
  }

  // Whatever has happened, a new switch call can run to its return, and its port is then the last completed one.
  lemma SwitchReturns(s: State, caller: Id, port: Port) returns (steps: seq<Step>, t: State)
    requires Inv(s) && caller !in s.calls
    ensures Goes(s, steps, t) && Inv(t) && s.completed < t.completed && t.completed[|t.completed| - 1] == port
    ensures caller in t.calls && t.calls[caller] == Returned(port, |t.completed| - 1) && t.lock.Nobody?
    ensures t.stopping == s.stopping && t.listening == s.listening && t.conns.Keys == s.conns.Keys
    ensures t.serve == if s.serve.Locked? || s.serve.Chosen? then Looping else s.serve
  {
    hide Inv, Goes;
    var first, s0 := LockFreed(s);
    var more;
    more, t := SwitchAlone(s0, caller, port);
    GoesThen(s, first, s0, more, t);
    steps := first + more;
  }

  lemma SwitchAlone(s: State, caller: Id, port: Port) returns (steps: seq<Step>, t: State)
    requires Inv(s) && caller !in s.calls && s.lock.Nobody?
    ensures Goes(s, steps, t) && Inv(t) && t.completed == s.completed + [port]
    ensures caller in t.calls && t.calls[caller] == Returned(port, |s.completed|) && t.lock.Nobody?
    ensures t.stopping == s.stopping && t.listening == s.listening && t.conns == s.conns && t.serve == s.serve
  {
    hide Inv, Goes, Enabled, Do;
    var a, b, c, d, e := Switch(caller, port), SwitchLock(caller), SwitchWrite(caller), SwitchUnlock(caller),
                         SwitchReturn(caller);
    CallStepIs(s, a);
    var s1 := Do(s, a);
    CallStepIs(s1, b);
    var s2 := Do(s1, b);
    CallStepIs(s2, c);
    var s3 := Do(s2, c);
    CallStepIs(s3, d);
    var s4 := Do(s3, d);
    CallStepIs(s4, e);
    t := Do(s4, e);
    steps := [a, b] + ([c, d] + [e]);
    GoesTwo(s, a, b);
    GoesTwo(s2, c, d);
    GoesOne(s4, e);
    GoesThen(s2, [c, d], s4, [e], t);
    GoesThen(s, [a, b], s2, [c, d] + [e], t);
  }

  lemma CallStepIs(s: State, step: Step)
    requires Inv(s) && CallEnabled(s, step)
    ensures Enabled(s, step) && Do(s, step) == Calling(s, step) && Inv(Do(s, step))
  {
    hide Inv;
    StepKeeps(s, step);
  }

  // The accept loop is at its stop test and nobody holds the lock.
  ghost predicate AtRest(s: State)
  {
    Inv(s) && s.serve.Looping? && s.lock.Nobody?
  }

  lemma Rests(s: State) returns (steps: seq<Step>, t: State)
    requires Inv(s) && !s.serve.Ended?
    ensures Goes(s, steps, t) && AtRest(t) && s.completed <= t.completed
    ensures t.stopping == s.stopping && t.listening == s.listening && t.conns.Keys == s.conns.Keys
  {
    hide Inv, Goes;
    var first, s0 := LockFreed(s);
    var more;
    more, t := LoopsAgain(s0);
    GoesThen(s, first, s0, more, t);
    steps := first + more;
  }

  lemma LoopsAgain(s: State) returns (steps: seq<Step>, t: State)
    requires Inv(s) && s.lock.Nobody? && (s.serve.Looping? || s.serve.Accepting? || s.serve.Accepted?)
    ensures Goes(s, steps, t) && AtRest(t) && t.completed == s.completed
    ensures t.stopping == s.stopping && t.listening == s.listening && t.conns.Keys == s.conns.Keys
  {
    hide Goes, ConnSound;
    steps, t := [], s;
    GoesNowhere(s);
    if s.serve.Accepting? {
      t := Do(s, AcceptTimeout);
      steps := [AcceptTimeout];
      GoesOne(s, AcceptTimeout);
      StepKeeps(s, AcceptTimeout);
    } else if s.serve.Accepted? {
      steps, t := Chooses(s);
    }
  }

  lemma GoesNowhere(s: State)
    ensures Goes(s, [], s)
  {
  }

  // An accepted connection gets the port of the last completed switch.
  lemma Chooses(s: State) returns (steps: seq<Step>, t: State)
    requires Inv(s) && s.lock.Nobody? && s.serve.Accepted?
    ensures Goes(s, steps, t) && AtRest(t) && t.completed == s.completed && s.completed != []
    ensures t.stopping == s.stopping && t.listening == s.listening && t.conns.Keys == s.conns.Keys
    ensures s.serve.id in s.conns
    ensures t.conns[s.serve.id] ==
            s.conns[s.serve.id].(backend := Backend(s.completed[|s.completed| - 1], |s.completed|))
  {
    hide Goes, ConnSound;
    var s1 := Do(s, Lock);
    var s2 := Do(s1, Choose);
    t := Do(s2, Unlock);
    steps := [Lock, Choose] + [Unlock];
    StepKeeps(s, Lock);
    StepKeeps(s1, Choose);
    StepKeeps(s2, Unlock);
    GoesTwo(s, Lock, Choose);
    GoesOne(s2, Unlock);
    GoesThen(s, [Lock, Choose], s2, [Unlock], t);
  }

  // As long as the front listens, is not stopped and its loop has not broken off, a new client can connect and is then
  // relayed to the port of the last completed switch.
  lemma ClientServed(s: State, id: Id) returns (steps: seq<Step>, t: State)
    requires Inv(s) && s.listening && !s.stopping && !s.serve.Ended? && id !in s.conns
    ensures Goes(s, steps, t) && s.completed <= t.completed && t.completed != [] && id in t.conns
    ensures t.conns[id].phase.Relaying? && t.conns[id].backend.Backend?
    ensures t.conns[id].backend.port == t.completed[|t.completed| - 1]
  {
    hide Inv, Goes;
    var first, s0 := Rests(s);
    var more;
    more, t := ClientAtRest(s0, id);
    GoesThen(s, first, s0, more, t);
    steps := first + more;
  }

  lemma ClientAtRest(s: State, id: Id) returns (steps: seq<Step>, t: State)
    requires AtRest(s) && s.listening && !s.stopping && id !in s.conns
    ensures Goes(s, steps, t) && t.completed == s.completed && t.completed != [] && id in t.conns
    ensures t.conns[id].phase.Relaying? && t.conns[id].backend.Backend?
    ensures t.conns[id].backend == Backend(t.completed[|t.completed| - 1], |t.completed|)
  {
    hide Goes, Inv;
    var s1 := Do(s, Poll);
    var s2 := Do(s1, Accept(id));
    StepKeeps(s, Poll);
    StepKeeps(s1, Accept(id));
    GoesTwo(s, Poll, Accept(id));
    var more, s3 := Chooses(s2);
    t := Do(s3, Connect(id));
    GoesOne(s3, Connect(id));
    GoesThen(s2, more, s3, [Connect(id)], t);
    GoesThen(s, [Poll, Accept(id)], s2, more + [Connect(id)], t);
    steps := [Poll, Accept(id)] + (more + [Connect(id)]);
  }

  // A blue/green upgrade works from every reachable state of a listening front: switch to a port, and the next client
  // is relayed to it.
  lemma UpgradeWorks(port: Port, states: seq<State>, steps: seq<Step>, caller: Id, green: Port, id: Id)
    returns (more: seq<Step>, t: State)
    requires Run(port, states, steps) && |states| == |steps| + 1
    requires var s := states[|steps|];
             s.listening && !s.stopping && !s.serve.Ended? && caller !in s.calls && id !in s.conns
    ensures Goes(states[|steps|], more, t) && id in t.conns && t.conns[id].phase.Relaying?
    ensures t.conns[id].backend.Backend? && t.conns[id].backend.port == green
  {
    hide Inv, Run, Goes;
    var s := states[|steps|];
    Reached(port, states, steps, |steps|);
    var first, s1 := SwitchReturns(s, caller, green);
    var second, s2 := LoopsAgain(s1);
    var third;
    third, t := ClientAtRest(s2, id);
    GoesThen(s1, second, s2, third, t);
    GoesThen(s, first, s1, second + third, t);
    more := first + (second + third);
  }

  // A front that has just started relays its first client to the port it was given.
  lemma FirstClient(port: Port, id: Id) returns (steps: seq<Step>, t: State)
    ensures Goes(Initial(port), steps, t) && id in t.conns && t.conns[id].phase.Relaying?
    ensures t.conns[id].backend == Backend(port, 1)
  {
    hide Goes;
    Reached(port, [Initial(port)], [], 0);
    steps, t := ClientAtRest(Initial(port), id);
  }

  // Whatever has happened, a close call can end the accept loop, with the listener closed.
  lemma Closes(s: State) returns (steps: seq<Step>, t: State)
    requires Inv(s) && !s.serve.Ended?
    ensures Goes(s, steps, t) && t.serve.Ended? && t.stopping && !t.listening && t.conns.Keys == s.conns.Keys
  {
    hide Inv, Goes;
    if s.serve.Accepting? {
      steps, t := ClosesNow(s);
    } else {
      var first, s1 := Rests(s);
      var more;
      more, t := ClosesNow(s1);
      GoesThen(s, first, s1, more, t);
      steps := first + more;
    }
  }

  // At its stop test the loop sees the event; blocked in accept it sees the closed listener.
  lemma ClosesNow(s: State) returns (steps: seq<Step>, t: State)
    requires Inv(s) && (s.serve.Looping? || s.serve.Accepting?)
    ensures Goes(s, steps, t) && t.serve.Ended? && t.stopping && !t.listening && t.conns == s.conns
  {
    hide Inv, Goes;
    var s1 := Do(s, Stop);
    var s2 := Do(s1, CloseListener);
    t := Do(s2, End);
    GoesTwo(s, Stop, CloseListener);
    GoesOne(s2, End);
    GoesThen(s, [Stop, CloseListener], s2, [End], t);
    steps := [Stop, CloseListener] + [End];
  }
}
