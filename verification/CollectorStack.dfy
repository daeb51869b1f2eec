// Containers owned by the collector gate, on an engine where any command may fail (scripts/collector_stack.py).
module CollectorStack {

  // How a command ends: as it should, with an error the cleanup loop catches, or with one it does not (output that
  // cannot be decoded).
  datatype Reply = Ok | Failed | Raised

  datatype Event = Recorded(name: string) | Requested(name: string) | Tried(name: string, reply: Reply)

  // Replies to come; once they run out every command ends well.
  function ReplyAt(replies: seq<Reply>, i: nat): Reply
  {
    if i < |replies| then replies[i] else Ok
  }

  function RepliesFrom(replies: seq<Reply>, i: nat): seq<Reply>
  {
    if i <= |replies| then replies[i..] else []
  }

  lemma RepliesOn(replies: seq<Reply>, i: nat)
    ensures ReplyAt(RepliesFrom(replies, i), 0) == ReplyAt(replies, i)
    ensures RepliesFrom(RepliesFrom(replies, i), 1) == RepliesFrom(replies, i + 1)
  {
  }

  // The engine holds containers by name. A command that fails may have taken effect all the same.  `bindings` are the
  // host ports it reports for the published ones.
  class Engine {
    const bindings: map<nat, nat>
    ghost var holds: set<string>
    ghost var log: seq<Event>
    var replies: seq<Reply>

    constructor (replies: seq<Reply>, bindings: map<nat, nat>)
      ensures holds == {} && log == [] && this.replies == replies && this.bindings == bindings
    {
      holds, log, this.replies, this.bindings := {}, [], replies, bindings;
    }

    method Run(name: string) returns (reply: Reply)
      modifies this
      ensures reply == ReplyAt(old(replies), 0) && replies == RepliesFrom(old(replies), 1)
      ensures log == old(log) + [Requested(name)]
      ensures holds == old(holds) || holds == old(holds) + {name}
      ensures reply.Ok? ==> name in holds
    {
      reply, replies := ReplyAt(replies, 0), RepliesFrom(replies, 1);
      var effect: bool := *;
      log := log + [Requested(name)];
      if effect || reply.Ok? {
        holds := holds + {name};
      }
    }

    method Inspect() returns (reply: Reply)
      modifies `replies
      ensures reply == ReplyAt(old(replies), 0) && replies == RepliesFrom(old(replies), 1)
    {
      reply, replies := ReplyAt(replies, 0), RepliesFrom(replies, 1);
    }

    method Remove(name: string) returns (reply: Reply)
      modifies this
      ensures reply == ReplyAt(old(replies), 0) && replies == RepliesFrom(old(replies), 1)
      ensures log == old(log) + [Tried(name, reply)]
      ensures holds == old(holds) || holds == old(holds) - {name}
      ensures reply.Ok? ==> name !in holds
    {
      reply, replies := ReplyAt(replies, 0), RepliesFrom(replies, 1);
      var effect: bool := *;
      log := log + [Tried(name, reply)];
      if effect || reply.Ok? {
        holds := holds - {name};
      }
    }
  }

  predicate RoleStart(c: char)
  {
    'a' <= c <= 'z'
  }

  predicate RoleRest(c: char)
  {
    'a' <= c <= 'z' || '0' <= c <= '9' || c == '-'
  }

  // One letter and at most 31 letters, digits and hyphens.
  predicate GoodRole(role: string)
  {
    1 <= |role| <= 32 && RoleStart(role[0]) && forall i | 1 <= i < |role| :: RoleRest(role[i])
  }

  lemma GoodRoleExactly(role: string)
    ensures GoodRole(role) <==>
            && 0 < |role| < 33 && 'a' <= role[0] <= 'z'
            && forall c | c in role :: 'a' <= c <= 'z' || '0' <= c <= '9' || c == '-'
  {
    if GoodRole(role) {
      assert forall i | 0 <= i < |role| :: RoleRest(role[i]);
    } else if 0 < |role| < 33 {
      assert forall i | 0 <= i < |role| :: role[i] in role;
    }
  }

  datatype Owned = Owned(role: string, name: string)

  datatype Started = Running(name: string) | BadRole | NoNamespaceOwner | CommandFailed

  // How cleanup ends: nothing left, an error that names what could not be removed, or some other error.
  datatype Closed = Gone | Leftover(names: seq<string>) | Interrupted

  function NamesOf(owned: seq<Owned>): (names: seq<string>)
    ensures |names| == |owned| && forall i | 0 <= i < |owned| :: names[i] == owned[i].name
  {
    seq(|owned|, i requires 0 <= i < |owned| => owned[i].name)
  }

  function Reversed(names: seq<string>): (r: seq<string>)
    ensures |r| == |names| && forall i | 0 <= i < |names| :: r[i] == names[|names| - 1 - i]
  {
    seq(|names|, i requires 0 <= i < |names| => names[|names| - 1 - i])
  }

  // The containers asked for, in order.
  ghost function Requests(log: seq<Event>): seq<string>
  {
    if log == [] then []
    else
      var last := log[|log| - 1];
      Requests(log[..|log| - 1]) + if last.Requested? then [last.name] else []
  }

  ghost predicate RecordedFirst(log: seq<Event>)
  {
    forall i | 0 <= i < |log| && log[i].Requested? :: Recorded(log[i].name) in log[..i]
  }

  // Removals that failed, in the order they were tried.
  function Failures(tried: seq<Event>): seq<string>
  {
    if tried == [] then []
    else
      var last := tried[|tried| - 1];
      Failures(tried[..|tried| - 1]) + if last.Tried? && last.reply.Failed? then [last.name] else []
  }

  ghost predicate RaisedAt(tried: seq<Event>, i: nat)
    requires i < |tried|
  {
    tried[i].Tried? && tried[i].reply.Raised?
  }

  // What cleanup does: the removals go through the names in order and stop early only after an uncaught error.
  ghost predicate Cleanup(names: seq<string>, tried: seq<Event>, r: Closed)
  {
    && |tried| <= |names|
    && (forall i | 0 <= i < |tried| :: tried[i].Tried? && tried[i].name == names[i])
    && (forall i | 0 <= i < |tried| - 1 :: !RaisedAt(tried, i))
    && if tried != [] && RaisedAt(tried, |tried| - 1) then r.Interrupted?
       else |tried| == |names| && r == if Failures(tried) == [] then Gone else Leftover(Failures(tried))
  }

  // Which containers may still be there.
  ghost function MayRemain(names: seq<string>, tried: seq<Event>): set<string>
    requires |tried| <= |names|
  {
    (set i | 0 <= i < |tried| && tried[i].Tried? && !tried[i].reply.Ok? :: tried[i].name) +
    (set i | |tried| <= i < |names| :: names[i])
  }

  // Roles are valid and distinct, and with two containers or more the first one owns the shared namespace.
  ghost predicate NamesSound(prefix: string, names: seq<Owned>)
  {
    && (forall i | 0 <= i < |names| :: GoodRole(names[i].role) && names[i].name == prefix + "-" + names[i].role)
    && (forall i, j | 0 <= i < j < |names| :: names[i].role != names[j].role)
    && (|names| >= 2 ==> names[0].role == "php")
  }

  // Everything asked for was recorded first, and everything the engine may hold is recorded.
  ghost predicate Tracked(names: seq<string>, log: seq<Event>, holds: set<string>)
  {
    RecordedFirst(log) && Requests(log) == names && forall name | name in holds :: name in names
  }

  lemma NameAdded(prefix: string, names: seq<Owned>, role: string)
    requires NamesSound(prefix, names) && GoodRole(role)
    requires forall i | 0 <= i < |names| :: names[i].role != role
    requires names != [] ==> exists i | 0 <= i < |names| :: names[i].role == "php"
    ensures NamesSound(prefix, names + [Owned(role, prefix + "-" + role)])
  {
  }

  lemma TrackedAdded(names: seq<string>, log: seq<Event>, holds: set<string>, after: set<string>, name: string)
    requires Tracked(names, log, holds) && after <= holds + {name}
    ensures Tracked(names + [name], log + [Recorded(name)] + [Requested(name)], after)
  {
    var recorded := log + [Recorded(name)];
    var requested := recorded + [Requested(name)];
    assert recorded[..|log|] == log && requested[..|recorded|] == recorded;
    forall i | 0 <= i < |requested| && requested[i].Requested?
      ensures Recorded(requested[i].name) in requested[..i]
    {
      if i < |log| {
        assert log[i] == requested[i] && log[..i] == requested[..i];
      } else {
        assert requested[..i][|log|] == Recorded(name);
      }
    }
  }

  lemma TrackedTried(names: seq<string>, log: seq<Event>, holds: set<string>, after: set<string>,
                     name: string, reply: Reply)
    requires Tracked(names, log, holds) && after <= holds
    ensures Tracked(names, log + [Tried(name, reply)], after)
  {
  }

  // Whether a start command and what follows it end well, and how many replies they take.
  ghost predicate Publishes(replies: seq<Reply>, bindings: map<nat, nat>, published: seq<nat>)
  {
    && ReplyAt(replies, 0).Ok?
    && (published != [] ==> ReplyAt(replies, 1).Ok? && forall p | p in published :: p in bindings)
  }

  ghost function Asked(replies: seq<Reply>, published: seq<nat>): nat
  {
    if published != [] && ReplyAt(replies, 0).Ok? then 2 else 1
  }

  class Stack {
    const prefix: string
    const engine: Engine
    var names: seq<Owned>
    var ports: map<nat, nat>

    ghost predicate Valid()
      reads this, engine
    {
      NamesSound(prefix, names) && Tracked(NamesOf(names), engine.log, engine.holds)
    }

    constructor (prefix: string, engine: Engine)
      requires engine.holds == {} && engine.log == []
      ensures Valid() && this.prefix == prefix && this.engine == engine && names == [] && ports == map[]
    {
      this.prefix, this.engine, names, ports := prefix, engine, [], map[];
    }

    predicate HasRole(role: string)
      reads this
    {
      exists i | 0 <= i < |names| :: names[i].role == role
    }

    // Refused without a trace, or recorded and then asked for; a failing command leaves it recorded.  It runs exactly
    // when the command ends well and, if ports are to be published, the engine reports each of them.
    method Start(role: string, published: seq<nat>) returns (r: Started)
      requires Valid()
      modifies this, engine
      ensures Valid()
      ensures r.BadRole? <==> !GoodRole(role) || old(HasRole(role))
      ensures r.NoNamespaceOwner? <==> GoodRole(role) && !old(HasRole(role)) && old(names != [] && !HasRole("php"))
      ensures if r.BadRole? || r.NoNamespaceOwner?
              then unchanged(this) && unchanged(engine)
              else && names == old(names) + [Owned(role, prefix + "-" + role)]
                   && engine.log == old(engine.log) + [Recorded(prefix + "-" + role)] + [Requested(prefix + "-" + role)]
                   && (r.Running? <==> Publishes(old(engine.replies), engine.bindings, published))
                   && engine.replies == RepliesFrom(old(engine.replies), Asked(old(engine.replies), published))
      ensures r.Running? ==> r.name == prefix + "-" + role && r.name in engine.holds
      ensures if r.Running? && published != []
              then ports.Keys == (set p | p in published) && forall p | p in published :: ports[p] == engine.bindings[p]
              else ports == old(ports)
    {
      hide NamesSound, Tracked, GoodRole, ReplyAt, RepliesFrom;
      if !GoodRole(role) || HasRole(role) {
        return BadRole;
      }
      var name := prefix + "-" + role;
      if names != [] && !HasRole("php") {
        return NoNamespaceOwner;
      }
      NameAdded(prefix, names, role);
      names := names + [Owned(role, name)];
      engine.log := engine.log + [Recorded(name)];
      var reply := engine.Run(name);
      RepliesOn(old(engine.replies), 1);
      assert NamesOf(names) == old(NamesOf(names)) + [name];
      TrackedAdded(old(NamesOf(names)), old(engine.log), old(engine.holds), engine.holds, name);
      if !reply.Ok? { return CommandFailed; }
      if published != [] {
        reply := engine.Inspect();
        if !reply.Ok? || exists p | p in published :: p !in engine.bindings { return CommandFailed; }
        ports := map p | p in published :: engine.bindings[p];
      }
      return Running(name);
    }

    // A removal is tried for every recorded container, newest first, whatever the others do, and the error names
    // exactly those that failed; only an error the loop does not catch stops it.
    method Close() returns (r: Closed)
      requires Valid()
      modifies engine
      ensures Valid() && old(engine.log) <= engine.log
      ensures var order, tried := Reversed(NamesOf(names)), engine.log[|old(engine.log)|..];
              && Cleanup(order, tried, r) && engine.holds <= MayRemain(order, tried)
              && forall i | 0 <= i < |tried| :: tried[i].Tried? && tried[i].reply == ReplyAt(old(engine.replies), i)
    {
      hide NamesSound, Tracked, MayRemain, InOrder, Failures, Cleanup, NamesOf, Reversed, ReplyAt, RepliesFrom;
      var order := Reversed(NamesOf(names));
      var failures, i := [], 0;
      ghost var start, tried := engine.log, [];
      NothingTried(order);
      FromTheStart(engine.replies);
      AllRemain(NamesOf(names), engine.log, engine.holds);
      while i < |order|
        invariant 0 <= i <= |order| && |tried| == i && engine.log == start + tried
        invariant Tracked(NamesOf(names), engine.log, engine.holds)
        invariant InOrder(order, tried) && failures == Failures(tried)
        invariant engine.holds <= MayRemain(order, tried) && engine.replies == RepliesFrom(old(engine.replies), i)
        invariant forall j | 0 <= j < i :: tried[j].Tried? && tried[j].reply == ReplyAt(old(engine.replies), j)
      {
        RepliesOn(old(engine.replies), i);
        ghost var holds := engine.holds;
        var reply := engine.Remove(order[i]);
        TrackedTried(NamesOf(names), start + tried, holds, engine.holds, order[i], reply);
        MoreTried(order, tried, holds, engine.holds, reply);
        FailuresNext(tried, order[i], reply);
        ghost var before := tried;
        tried := before + [Tried(order[i], reply)];
        assert engine.log == start + tried;
        if reply.Raised? {
          TriedLast(order, before);
          assert engine.log[|start|..] == tried;
          return Interrupted;
        }
        TriedNext(order, before, reply);
        if reply.Failed? {
          failures := failures + [order[i]];
        }
        i := i + 1;
      }
      assert engine.log[|start|..] == tried;
      TriedAll(order, tried);
      r := if failures == [] then Gone else Leftover(failures);
    }
  }

  // The first names have been tried and none of the errors escaped.
  ghost predicate InOrder(names: seq<string>, tried: seq<Event>)
  {
    && |tried| <= |names|
    && forall i | 0 <= i < |tried| :: tried[i].Tried? && tried[i].name == names[i] && !tried[i].reply.Raised?
  }

  lemma FromTheStart(replies: seq<Reply>)
    ensures RepliesFrom(replies, 0) == replies
  {
  }

  lemma NothingTried(names: seq<string>)
    ensures InOrder(names, []) && Failures([]) == []
  {
  }

  lemma TriedNext(names: seq<string>, tried: seq<Event>, reply: Reply)
    requires InOrder(names, tried) && |tried| < |names| && !reply.Raised?
    ensures InOrder(names, tried + [Tried(names[|tried|], reply)])
  {
  }

  lemma TriedLast(names: seq<string>, tried: seq<Event>)
    requires InOrder(names, tried) && |tried| < |names|
    ensures Cleanup(names, tried + [Tried(names[|tried|], Raised)], Interrupted)
  {
  }

  lemma FailuresNext(tried: seq<Event>, name: string, reply: Reply)
    ensures Failures(tried + [Tried(name, reply)]) == Failures(tried) + if reply.Failed? then [name] else []
  {
  }

  lemma TriedAll(names: seq<string>, tried: seq<Event>)
    requires InOrder(names, tried) && |tried| == |names|
    ensures Cleanup(names, tried, if Failures(tried) == [] then Gone else Leftover(Failures(tried)))
  {
  }

  lemma MoreTried(names: seq<string>, tried: seq<Event>, holds: set<string>, after: set<string>, reply: Reply)
    requires |tried| < |names| && holds <= MayRemain(names, tried)
    requires after == holds || after == holds - {names[|tried|]}
    requires reply.Ok? ==> names[|tried|] !in after
    ensures after <= MayRemain(names, tried + [Tried(names[|tried|], reply)])
  {
    var name := names[|tried|];
    var more := tried + [Tried(name, reply)];
    forall x | x in after
      ensures x in MayRemain(names, more)
    {
      if i :| 0 <= i < |tried| && tried[i].Tried? && !tried[i].reply.Ok? && tried[i].name == x {
        assert more[i] == tried[i];
      } else {
        var i :| |tried| <= i < |names| && names[i] == x;
        assert more[|tried|] == Tried(name, reply);
      }
    }
  }

  lemma AllRemain(names: seq<string>, log: seq<Event>, holds: set<string>)
    requires Tracked(names, log, holds)
    ensures holds <= MayRemain(Reversed(names), [])
  {
    forall name | name in holds
      ensures name in MayRemain(Reversed(names), [])
    {
      var i :| 0 <= i < |names| && names[i] == name;
      assert Reversed(names)[|names| - 1 - i] == name;
    }
  }

  // What a caller of cleanup may conclude about the engine.
  lemma CleanupMeans(names: seq<string>, tried: seq<Event>, r: Closed)
    requires Cleanup(names, tried, r) && !r.Interrupted?
    ensures if r.Gone? then MayRemain(names, tried) == {}
            else r.names != [] && forall name :: name in MayRemain(names, tried) <==> name in r.names
    ensures |tried| == |names|
  {
    FailuresAre(tried, |tried|);
    assert tried[..|tried|] == tried;
    forall name
      ensures name in MayRemain(names, tried) <==> name in Failures(tried)
    {
      if i :| 0 <= i < |tried| && !tried[i].reply.Ok? && tried[i].name == name {
        assert !RaisedAt(tried, i);
      }
    }
  }

  lemma {:induction false} FailuresAre(tried: seq<Event>, n: nat)
    requires n <= |tried|
    ensures forall name :: name in Failures(tried[..n]) <==>
              exists i | 0 <= i < n :: tried[i].Tried? && tried[i].reply.Failed? && tried[i].name == name
  {
    if n > 0 {
      FailuresAre(tried, n - 1);
      assert tried[..n][..n - 1] == tried[..n - 1];
    }
  }

  // Whether every container gets a removal attempt depends only on how the commands would end, name by name: no command
  // before the last one may end with an error that is not caught.
  lemma EveryoneTried(names: seq<string>, replies: seq<Reply>, tried: seq<Event>, r: Closed)
    requires Cleanup(names, tried, r) && |replies| == |names|
    requires forall i | 0 <= i < |tried| :: tried[i].reply == replies[i]
    ensures |tried| == |names| <==> forall i | 0 <= i < |names| - 1 :: !replies[i].Raised?
  {
    if |tried| < |names| {
      assert RaisedAt(tried, |tried| - 1);
      assert replies[|tried| - 1].Raised?;
    } else {
      forall i | 0 <= i < |names| - 1
        ensures !replies[i].Raised?
      {
        assert !RaisedAt(tried, i);
      }
    }
  }

  // Given what was asked for, in order, how a run ends on the engine: its last events are the removals tried.
  ghost predicate Ends(prefix: string, asked: seq<string>, log: seq<Event>, tried: seq<Event>, holds: set<string>,
                       r: Closed)
  {
    && RecordedFirst(log) && Requests(log) == asked
    && (|asked| >= 2 ==> asked[0] == prefix + "-php")
    && |tried| <= |log| && log[|log| - |tried|..] == tried
    && Cleanup(Reversed(asked), tried, r) && holds <= MayRemain(Reversed(asked), tried)
    && (r.Gone? ==> holds == {})
    && (r.Leftover? ==> r.names != [] && forall name | name in holds :: name in r.names)
  }

  lemma RunEnds(prefix: string, names: seq<Owned>, before: seq<Event>, log: seq<Event>, holds: set<string>, r: Closed)
    requires NamesSound(prefix, names) && Tracked(NamesOf(names), log, holds) && before <= log
    requires var order, tried := Reversed(NamesOf(names)), log[|before|..];
             Cleanup(order, tried, r) && holds <= MayRemain(order, tried)
    ensures Ends(prefix, NamesOf(names), log, log[|before|..], holds, r)
  {
    hide Cleanup, MayRemain, RecordedFirst;
    var order, tried := Reversed(NamesOf(names)), log[|before|..];
    if !r.Interrupted? {
      CleanupMeans(order, tried, r);
    }
  }

  datatype Service = Service(role: string, ports: seq<nat>)

  function OwnedOf(prefix: string, services: seq<Service>): seq<Owned>
  {
    seq(|services|, i requires 0 <= i < |services| => Owned(services[i].role, prefix + "-" + services[i].role))
  }

  // Good roles without a repetition, the namespace owner first, and every port published.
  ghost predicate WellPlanned(services: seq<Service>, bindings: map<nat, nat>)
  {
    && (forall i | 0 <= i < |services| :: GoodRole(services[i].role))
    && (forall i, j | 0 <= i < j < |services| :: services[i].role != services[j].role)
    && (|services| >= 2 ==> services[0].role == "php")
    && forall i, p | 0 <= i < |services| && p in services[i].ports :: p in bindings
  }

  lemma NextPlanned(prefix: string, services: seq<Service>, bindings: map<nat, nat>, n: nat)
    requires WellPlanned(services, bindings) && n < |services|
    ensures var owned, role := OwnedOf(prefix, services[..n]), services[n].role;
            && GoodRole(role) && (forall i | 0 <= i < |owned| :: owned[i].role != role)
            && (owned != [] ==> owned[0].role == "php") && Publishes([], bindings, services[n].ports)
    ensures RepliesFrom([], Asked([], services[n].ports)) == []
  {
  }

  // A whole run of the gate: containers are started until one does not run, and then everything is cleaned up.  On an
  // engine where every command ends well all of a good plan runs and nothing is left.
  method Gate(stack: Stack, services: seq<Service>) returns (running: nat, r: Closed, ghost tried: seq<Event>)
    requires stack.Valid() && stack.names == []
    modifies stack, stack.engine
    ensures stack.Valid() && running <= |services|
    ensures Ends(stack.prefix, NamesOf(stack.names), stack.engine.log, tried, stack.engine.holds, r)
    ensures || stack.names == OwnedOf(stack.prefix, services[..running])
            || (running < |services| && stack.names == OwnedOf(stack.prefix, services[..running + 1]))
    ensures WellPlanned(services, stack.engine.bindings) && old(stack.engine.replies) == [] ==>
              running == |services| && r.Gone? && stack.names == OwnedOf(stack.prefix, services)
  {
    hide NamesSound, Tracked, Cleanup, MayRemain, Ends, NamesOf, Reversed, WellPlanned, GoodRole, Publishes, Asked,
         RepliesFrom;
    running := 0;
    ghost var good := WellPlanned(services, stack.engine.bindings) && stack.engine.replies == [];
    var failed := false;
    while running < |services| && !failed
      invariant running <= |services| && stack.Valid()
      invariant !failed ==> stack.names == OwnedOf(stack.prefix, services[..running])
      invariant failed ==> running < |services| && !good
      invariant failed && stack.names != OwnedOf(stack.prefix, services[..running]) ==>
                  stack.names == OwnedOf(stack.prefix, services[..running + 1])
      invariant good ==> stack.engine.replies == []
      decreases |services| - running, !failed
    {
      if good {
        NextPlanned(stack.prefix, services, stack.engine.bindings, running);
      }
      OneMoreOwned(stack.prefix, services, running);
      var s := stack.Start(services[running].role, services[running].ports);
      if s.Running? {
        running := running + 1;
      } else {
        failed := true;
      }
    }
    assert services[..|services|] == services;
    ghost var before := stack.engine.log;
    r := stack.Close();
    tried := stack.engine.log[|before|..];
    RunEnds(stack.prefix, stack.names, before, stack.engine.log, stack.engine.holds, r);
    if good {
      AllGone(Reversed(NamesOf(stack.names)), tried, r);
    }
  }

  lemma OneMoreOwned(prefix: string, services: seq<Service>, n: nat)
    requires n < |services|
    ensures OwnedOf(prefix, services[..n + 1]) ==
            OwnedOf(prefix, services[..n]) + [Owned(services[n].role, prefix + "-" + services[n].role)]
  {
  }

  // When every removal ends well nothing is left.
  lemma AllGone(names: seq<string>, tried: seq<Event>, r: Closed)
    requires Cleanup(names, tried, r) && forall i | 0 <= i < |tried| :: tried[i].Tried? && tried[i].reply.Ok?
    ensures r.Gone?
  {
    NoFailures(tried);
  }

  lemma {:induction false} NoFailures(tried: seq<Event>)
    requires forall i | 0 <= i < |tried| :: tried[i].Tried? && tried[i].reply.Ok?
    ensures Failures(tried) == []
  {
    if tried != [] {
      NoFailures(tried[..|tried| - 1]);
    }
  }

  lemma TwoRoles()
    ensures GoodRole("php") && GoodRole("logs")
    ensures "run" + "-" + "php" == "run-php" && "run" + "-" + "logs" == "run-logs"
  {
  }

  // Two containers, both asked for with success or without.
  method TwoStarted(replies: seq<Reply>) returns (stack: Stack)
    ensures fresh(stack) && fresh(stack.engine) && stack.Valid()
    ensures stack.names == [Owned("php", "run-php"), Owned("logs", "run-logs")]
    ensures stack.engine.log == [Recorded("run-php"), Requested("run-php"), Recorded("run-logs"), Requested("run-logs")]
    ensures stack.engine.replies == RepliesFrom(replies, 2)
  {
    hide NamesSound, Tracked, GoodRole, RepliesFrom;
    TwoRoles();
    RepliesOn(replies, 1);
    var engine := new Engine(replies, map[]);
    stack := new Stack("run", engine);
    var _ := stack.Start("php", []);
    assert stack.names == [Owned("php", "run-php")] && stack.names[0].role == "php";
    var _ := stack.Start("logs", []);
  }

  // Undecodable output while the newer of two containers is removed leaves the namespace owner without an attempt.
  method OwnerNotTried() returns (stack: Stack, r: Closed)
    ensures r.Interrupted? && NamesOf(stack.names) == ["run-php", "run-logs"]
    ensures stack.engine.log == [Recorded("run-php"), Requested("run-php"), Recorded("run-logs"),
                                 Requested("run-logs"), Tried("run-logs", Raised)]
  {
    hide NamesSound, Tracked, MayRemain, Failures, Cleanup, GoodRole;
    stack := TwoStarted([Ok, Ok, Raised]);
    ghost var before := stack.engine.log;
    assert ReplyAt(stack.engine.replies, 0) == Raised;
    r := stack.Close();
    StoppedAtOnce(Reversed(NamesOf(stack.names)), stack.engine.log[|before|..], r);
    assert stack.engine.log == before + stack.engine.log[|before|..];
  }

  lemma StoppedAtOnce(names: seq<string>, tried: seq<Event>, r: Closed)
    requires Cleanup(names, tried, r) && names != [] && (tried != [] ==> RaisedAt(tried, 0))
    ensures r.Interrupted? && tried == [Tried(names[0], Raised)]
  {
    hide Failures;
  }
}
