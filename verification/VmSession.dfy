// Whole sessions: any sequence of checkpoint and restore runs and of work in the VM, each run failing or dying at
// any step (scripts/windows_qemu_state.py, main).
module VmSession {
  import opened Disks
  import opened Baseline
  import opened Pacing
  import opened VmCopies
  import opened VmHost
  import opened VmPlaces
  import opened VmCheckpoint
  import opened VmRestore

  // Save, Check and Load are the actions of the tool; Work is anything that happens to the working VM between runs.
  datatype Command = Save(name: string) | Check(name: string) | Load(name: string) | Work(tree: Tree)

  // No state retained by an earlier restore is lost or changed.
  ghost predicate RetainedKept(home: Path, d: Tree, e: Tree)
  {
    forall x {:trigger home + [x]} | RETAINED <= x && home + [x] in d ::
      home + [x] in e && Sub(e, home + [x]) == Sub(d, home + [x])
  }

  // The state t is whole under some retained name.
  ghost predicate Retains(home: Path, e: Tree, t: Tree)
  {
    exists x {:trigger home + [x]} :: RETAINED <= x && home + [x] in e && Sub(e, home + [x]) == t
  }

  // What one command does, from disk d to disk e.
  ghost predicate Ran(env: Env, home: Path, c: Command, d: Tree, e: Tree, done: bool, faulted: bool)
  {
    && RetainedKept(home, d, e)
    && match c
    case Save(n) =>
      && Sub(e, Root(home)) == Sub(d, Root(home))
      && (done ==> CheckpointOf(Sub(e, Target(home, n)), Sub(d, Root(home))) && Target(home, n) in e && Selectable(n))
      && (done ==> SaveAllowed(home, d, n)) && (!done && !faulted && Lawful(env) ==> !SaveAllowed(home, d, n))
    case Check(n) =>
      && e == d && (done ==> Sound(env, home, d, n)) && (!done && !faulted ==> !Sound(env, home, d, n))
    case Load(n) =>
      && (done ==> Sub(e, Root(home)) == CopyOf(Sub(d, Target(home, n))))
      && (done ==> LoadAllowed(env, home, d, n))
      && (done ==> Retains(home, e, Sub(d, Root(home))))
      && (!done ==> Sub(e, Root(home)) == Sub(d, Root(home))
                    || (faulted && Root(home) !in e && Retains(home, e, Sub(d, Root(home)))))
      && (!done && !faulted ==> !LoadAllowed(env, home, d, n))
    case Work(t) =>
      done && e == if IsDir(d, Root(home)) then Replaced(d, Root(home), t) else d
  }

  // The commands that the disk d allows.
  ghost predicate Allowed(env: Env, home: Path, c: Command, d: Tree)
  {
    match c
    case Save(n) => SaveAllowed(home, d, n)
    case Check(n) => Sound(env, home, d, n)
    case Load(n) => LoadAllowed(env, home, d, n)
    case Work(_) => true
  }

  // A session over the disk history h: marks[i] is where command i starts in h and marks[i + 1] where it ends.
  ghost predicate SessionRun(env: Env, home: Path, h: seq<Tree>, commands: seq<Command>, done: seq<bool>,
                             faults: seq<bool>, marks: seq<nat>)
  {
    && |done| == |faults| == |commands| && |marks| == |commands| + 1
    && (forall i | 0 <= i < |marks| :: marks[i] < |h|)
    && (forall i, j | 0 <= i <= j < |marks| :: marks[i] <= marks[j])
    && forall i | 0 <= i < |commands| ::
         Ran(env, home, commands[i], h[marks[i]], h[marks[i + 1]], done[i], faults[i])
  }

  // Command i drew the fates from draws[i] to draws[i + 1], and failed or died only where one of them was a trouble.
  ghost predicate FaultsDrawn(vm: Host, draws: seq<nat>, faults: seq<bool>)
  {
    && |draws| == |faults| + 1
    && (forall i, j | 0 <= i <= j < |draws| :: vm.Troubles(draws[i]) <= vm.Troubles(draws[j]))
    && forall i | 0 <= i < |faults| && faults[i] :: vm.Troubles(draws[i]) < vm.Troubles(draws[i + 1])
  }

  lemma FaultsDrawnMore(vm: Host, draws: seq<nat>, faults: seq<bool>, drawn: nat, faulted: bool)
    requires FaultsDrawn(vm, draws, faults)
    requires vm.Troubles(draws[|faults|]) <= vm.Troubles(drawn)
    requires faulted ==> vm.Troubles(draws[|faults|]) < vm.Troubles(drawn)
    ensures FaultsDrawn(vm, draws + [drawn], faults + [faulted])
  {
    hide Host.Troubles;
    var draws', faults' := draws + [drawn], faults + [faulted];
    forall i, j | 0 <= i <= j < |draws'|
      ensures vm.Troubles(draws'[i]) <= vm.Troubles(draws'[j])
    {
      assert i < |draws| ==> vm.Troubles(draws[i]) <= vm.Troubles(draws[|faults|]);
    }
    assert draws'[|faults|] == draws[|faults|];
  }

  // Without a failure or a death, a command does what it was asked exactly when the disk allows it.
  lemma RanAllowed(env: Env, home: Path, c: Command, d: Tree, e: Tree, done: bool)
    requires Ran(env, home, c, d, e, done, false) && Lawful(env)
    ensures done <==> Allowed(env, home, c, d)
  {
    hide RetainedKept, SaveAllowed, Sound, LoadAllowed, Lawful, Sub, CopyOf, CheckpointOf, Retains, IsDir, Replaced;
  }

  // A session that draws no trouble does every command that the disk allows at that point, however many came before.
  lemma QuietSession(vm: Host, h: seq<Tree>, commands: seq<Command>, done: seq<bool>, faults: seq<bool>,
                     marks: seq<nat>, draws: seq<nat>)
    requires SessionRun(vm.env, vm.home, h, commands, done, faults, marks) && FaultsDrawn(vm, draws, faults)
    requires Lawful(vm.env) && vm.Troubles(draws[|commands|]) == vm.Troubles(draws[0])
    ensures forall i | 0 <= i < |commands| ::
              !faults[i] && (done[i] <==> Allowed(vm.env, vm.home, commands[i], h[marks[i]]))
  {
    hide Ran, Allowed, Lawful, Host.Troubles;
    forall i | 0 <= i < |commands|
      ensures !faults[i] && (done[i] <==> Allowed(vm.env, vm.home, commands[i], h[marks[i]]))
    {
      assert vm.Troubles(draws[0]) <= vm.Troubles(draws[i]) <= vm.Troubles(draws[i + 1]);
      assert vm.Troubles(draws[i + 1]) <= vm.Troubles(draws[|commands|]);
      assert Ran(vm.env, vm.home, commands[i], h[marks[i]], h[marks[i + 1]], done[i], faults[i]);
      RanAllowed(vm.env, vm.home, commands[i], h[marks[i]], h[marks[i + 1]], done[i]);
    }
  }

  // As long as nothing fails there is a working directory.
  lemma RootStaysDir(env: Env, home: Path, h: seq<Tree>, commands: seq<Command>, done: seq<bool>, faults: seq<bool>,
                     marks: seq<nat>, j: nat)
    requires SessionRun(env, home, h, commands, done, faults, marks) && j <= |commands|
    requires IsDir(h[marks[0]], Root(home)) && forall i | 0 <= i < j :: !faults[i]
    requires forall i | 0 <= i < j && commands[i].Work? :: IsDir(commands[i].tree, [])
    ensures IsDir(h[marks[j]], Root(home))
  {
    hide Ran, IsDir;
    if j > 0 {
      RootStaysDir(env, home, h, commands, done, faults, marks, j - 1);
      assert Ran(env, home, commands[j - 1], h[marks[j - 1]], h[marks[j]], done[j - 1], faults[j - 1]);
      RanRootDir(env, home, commands[j - 1], h[marks[j - 1]], h[marks[j]], done[j - 1]);
    }
  }

  lemma RanRootDir(env: Env, home: Path, c: Command, d: Tree, e: Tree, done: bool)
    requires Ran(env, home, c, d, e, done, false) && IsDir(d, Root(home)) && (c.Work? ==> IsDir(c.tree, []))
    ensures IsDir(e, Root(home))
  {
    hide RetainedKept, SaveAllowed, Sound, LoadAllowed, CheckpointOf, Retains, Sub, Replaced, StateOf;
    RootDirIs(d, Root(home));
    RootDirIs(e, Root(home));
    match c {
      case Work(t) => ReplacedIs(d, Root(home), t);
      case _ =>
    }
  }

  // What was checkpointed can be restored: a later restore of that name that does not fail succeeds, as long as there
  // is a working directory to put aside, and puts back the state the VM had when it was checkpointed.
  lemma SavedLoads(env: Env, home: Path, h: seq<Tree>, commands: seq<Command>, done: seq<bool>, faults: seq<bool>,
                   marks: seq<nat>, i: nat, j: nat)
    requires SessionRun(env, home, h, commands, done, faults, marks) && Chain(env, home, h, marks[0])
    requires i < j < |commands| && done[i] && !faults[j] && IsDir(h[marks[j]], Root(home))
    requires commands[i].Save? && commands[j].Load? && commands[i].name == commands[j].name
    ensures done[j] && StateOf(Sub(h[marks[j + 1]], Root(home))) == StateOf(Sub(h[marks[i]], Root(home)))
  {
    hide Preserves, StateOf, CopyOf, CheckpointOf, Archivable, Sub, Verifies, Selectable, IsDir, RetainedKept, Retains;
    var n := commands[i].name;
    var before, after, late := h[marks[i]], h[marks[i + 1]], h[marks[j]];
    assert Ran(env, home, commands[i], before, after, done[i], faults[i]);
    assert Ran(env, home, commands[j], late, h[marks[j + 1]], done[j], faults[j]);
    assert Preserves(env, home, before, after) && Preserves(env, home, after, late);
    CheckpointAppears(env, home, before, after, n);
    CheckpointStays(env, home, after, late, n);
    RoundTrip(env, home, h, commands, done, faults, marks, i, j);
  }

  lemma CheckpointAppears(env: Env, home: Path, d: Tree, e: Tree, n: string)
    requires Preserves(env, home, d, e) && Selectable(n) && Target(home, n) !in d && Target(home, n) in e
    ensures Verifies(env, Sub(e, Target(home, n)))
  {
  }

  // Every directory that can be selected verifies.
  ghost predicate AllVerify(env: Env, home: Path, d: Tree)
  {
    forall n {:trigger Selectable(n)} | Selectable(n) && Target(home, n) in d :: Verifies(env, Sub(d, Target(home, n)))
  }

  lemma KeptPreserves(env: Env, home: Path, h: seq<Tree>, k: seq<Tree>, d: Tree, e: Tree, zone: Path)
    requires Kept(env, home, h, k, d, e, zone) && h[|h| - 1] == d && k != [] && k[|k| - 1] == e
    ensures Preserves(env, home, d, e) && Chain(env, home, k, |h| - 1)
  {
  }

  // A copy of a state, with or without a manifest, has that state.
  lemma StateOfCopy(t: Tree, c: Tree)
    ensures StateOf(CopyOf(t)) == StateOf(t)
    ensures CheckpointOf(c, t) ==> StateOf(c) == StateOf(t)
  {
  }

  // The round trip, over any session: what a successful restore puts back under a name is byte for byte the state
  // the VM had when that name was checkpointed, whatever ran, failed or died in between.
  lemma RoundTrip(env: Env, home: Path, h: seq<Tree>, commands: seq<Command>, done: seq<bool>, faults: seq<bool>,
                  marks: seq<nat>, i: nat, j: nat)
    requires SessionRun(env, home, h, commands, done, faults, marks) && Chain(env, home, h, marks[0])
    requires i < j < |commands| && done[i] && done[j]
    requires commands[i].Save? && commands[j].Load? && commands[i].name == commands[j].name
    ensures StateOf(Sub(h[marks[j + 1]], Root(home))) == StateOf(Sub(h[marks[i]], Root(home)))
  {
    hide Preserves, StateOf, CopyOf, CheckpointOf, Archivable, CheckpointAllowed, LoadAllowed, Sound, Sub, Verifies;
    var n := commands[i].name;
    var before, after, late := h[marks[i]], h[marks[i + 1]], h[marks[j]];
    assert Ran(env, home, commands[i], before, after, done[i], faults[i]);
    assert Ran(env, home, commands[j], late, h[marks[j + 1]], done[j], faults[j]);
    assert Preserves(env, home, h[marks[i + 1]], h[marks[j]]);
    CheckpointStays(env, home, after, late, n);
    StateOfCopy(Sub(before, Root(home)), Sub(after, Target(home, n)));
    StateOfCopy(Sub(late, Target(home, n)), map[]);
  }

  // What a restore puts aside stays aside, whole, through the rest of the session; this also holds for a restore that
  // failed between its renames and left no root.
  lemma RetainedForever(env: Env, home: Path, h: seq<Tree>, commands: seq<Command>, done: seq<bool>,
                        faults: seq<bool>, marks: seq<nat>, i: nat, j: nat)
    requires SessionRun(env, home, h, commands, done, faults, marks) && i < j <= |commands| && commands[i].Load?
    requires done[i] || Sub(h[marks[i + 1]], Root(home)) != Sub(h[marks[i]], Root(home))
    ensures Retains(home, h[marks[j]], Sub(h[marks[i]], Root(home)))
    decreases j
  {
    hide Sub, Root, Ran, Retains, RetainedKept;
    var t := Sub(h[marks[i]], Root(home));
    if j == i + 1 {
      assert Ran(env, home, commands[i], h[marks[i]], h[marks[i + 1]], done[i], faults[i]);
      LoadRetains(env, home, commands[i], h[marks[i]], h[marks[j]], done[i], faults[i]);
    } else {
      var k := j - 1;
      RetainedForever(env, home, h, commands, done, faults, marks, i, k);
      assert Ran(env, home, commands[k], h[marks[k]], h[marks[k + 1]], done[k], faults[k]);
      RanRetains(env, home, commands[k], h[marks[k]], h[marks[k + 1]], done[k], faults[k]);
      StillRetains(home, h[marks[k]], h[marks[j]], t);
    }
  }

  lemma LoadRetains(env: Env, home: Path, c: Command, d: Tree, e: Tree, done: bool, faulted: bool)
    requires Ran(env, home, c, d, e, done, faulted) && c.Load?
    requires done || Sub(e, Root(home)) != Sub(d, Root(home))
    ensures Retains(home, e, Sub(d, Root(home)))
  {
    hide Sub, CopyOf, LoadAllowed, Root, Retains, RetainedKept;
  }

  lemma RanRetains(env: Env, home: Path, c: Command, d: Tree, e: Tree, done: bool, faulted: bool)
    requires Ran(env, home, c, d, e, done, faulted)
    ensures RetainedKept(home, d, e)
  {
    hide RetainedKept;
  }

  lemma StillRetains(home: Path, d: Tree, e: Tree, t: Tree)
    requires Retains(home, d, t) && RetainedKept(home, d, e)
    ensures Retains(home, e, t)
  {
  }

  lemma ElsewhereRetained(home: Path, d: Tree, e: Tree, name: string)
    requires SameOutside(d, e, home + [name]) && !(RETAINED <= name)
    ensures RetainedKept(home, d, e)
  {
    forall x | RETAINED <= x && home + [x] in d
      ensures home + [x] in e && Sub(e, home + [x]) == Sub(d, home + [x])
    {
      Siblings(home, name, x);
      SubFrame(d, e, home + [name], home + [x]);
    }
  }

  lemma NamesNotRetained()
    ensures !(RETAINED <= ROOT_NAME) && !(RETAINED <= BASELINES_NAME)
  {
    assert |RETAINED| == 31 && |ROOT_NAME| == 21 && |BASELINES_NAME| == 28;
  }

  lemma BesideRetained(home: Path, d: Tree, e: Tree)
    requires BesideKept(home, d, e)
    ensures RetainedKept(home, d, e)
  {
    NamesNotRetained();
  }

  lemma CheckpointStays(env: Env, home: Path, d: Tree, e: Tree, n: string)
    requires Preserves(env, home, d, e) && Selectable(n) && Target(home, n) in d
    ensures Sub(e, Target(home, n)) == Sub(d, Target(home, n))
  {
  }

  lemma RunExtends(env: Env, home: Path, h: seq<Tree>, k: seq<Tree>, commands: seq<Command>, done: seq<bool>,
                   faults: seq<bool>, marks: seq<nat>, c: Command, ok: bool, faulted: bool, d: Tree, e: Tree)
    requires SessionRun(env, home, h, commands, done, faults, marks) && h <= k && marks[|commands|] == |h| - 1
    requires h[|h| - 1] == d && k[|k| - 1] == e && Ran(env, home, c, d, e, ok, faulted)
    ensures SessionRun(env, home, k, commands + [c], done + [ok], faults + [faulted], marks + [|k| - 1])
  {
    hide Ran;
    var commands', done', faults', marks' := commands + [c], done + [ok], faults + [faulted], marks + [|k| - 1];
    forall i | 0 <= i < |commands'|
      ensures Ran(env, home, commands'[i], k[marks'[i]], k[marks'[i + 1]], done'[i], faults'[i])
    {
      assert marks'[i] == marks[i] && k[marks[i]] == h[marks[i]];
      if i < |commands| {
        assert marks'[i + 1] == marks[i + 1] && k[marks[i + 1]] == h[marks[i + 1]];
        assert Ran(env, home, commands[i], h[marks[i]], h[marks[i + 1]], done[i], faults[i]);
      }
    }
  }

  // Anything may happen to the working VM.
  method Use(vm: Host, t: Tree)
    requires vm.Valid() && TreeShaped(t) && IsDir(t, [])
    modifies vm`disk, vm`history
    ensures vm.Valid() && Kept(vm.env, vm.home, old(vm.history), vm.history, old(vm.disk), vm.disk, vm.home)
    ensures RetainedKept(vm.home, old(vm.disk), vm.disk)
    ensures vm.disk ==
            if IsDir(old(vm.disk), Root(vm.home)) then Replaced(old(vm.disk), Root(vm.home), t) else old(vm.disk)
  {
    hide Kept, Preserves, TreeShaped, SameCheckpoints, SameOutside;
    RetainedSame(vm.home, vm.disk);
    if IsDir(vm.disk, Root(vm.home)) {
      var g := ComputeGraft(t, Root(vm.home));
      ReplacedShaped(vm.disk, Root(vm.home), t);
      vm.disk := Prune(vm.disk, Root(vm.home)) + g;
      vm.history := vm.history + [vm.disk];
      UseKept(vm.env, vm.home, old(vm.disk), vm.disk);
      NamesNotRetained();
      ElsewhereRetained(vm.home, old(vm.disk), vm.disk, ROOT_NAME);
    }
    StepKept(vm.env, vm.home, old(vm.history), vm.history, old(vm.disk), vm.disk, vm.home);
  }

  lemma RetainedSame(home: Path, d: Tree)
    ensures RetainedKept(home, d, d)
  {
  }

  lemma UseKept(env: Env, home: Path, d: Tree, e: Tree)
    requires SameOutside(d, e, Root(home))
    ensures Preserves(env, home, d, e) && SameOutside(d, e, home)
  {
    assert |ROOT_NAME| != |BASELINES_NAME|;
    BesideBaselines(home, ROOT_NAME);
    SameOutsidePreserves(env, home, d, e, Root(home));
    SameOutsideTrans(d, d, e, home, Root(home));
  }

  // The verify action.
  method CheckOne(vm: Host, name: string) returns (done: bool)
    requires vm.Valid() && vm.meter.Valid() && vm.meter.Unused() && !vm.faulted
    modifies vm`alive, vm`faulted, vm`drawn, vm.meter
    ensures vm.Valid() && RetainedKept(vm.home, vm.disk, vm.disk)
    ensures Kept(vm.env, vm.home, vm.history, vm.history, vm.disk, vm.disk, vm.home)
    ensures done ==> Sound(vm.env, vm.home, vm.disk, name)
    ensures !done && !vm.faulted ==> !Sound(vm.env, vm.home, vm.disk, name)
    ensures vm.Drew(old(vm.Now()), vm.Now())
    ensures vm.meter.Valid() && vm.meter.AffordableSince(Ledger(0, 0, 0, [])) && vm.meter.missed == 0
  {
    hide Kept, Preserves, TreeShaped, Meter.Valid, Verified, Paced, Meter.AffordableSince, RetainedKept, HashedBytes;
    RetainedSame(vm.home, vm.disk);
    StepKept(vm.env, vm.home, vm.history, vm.history, vm.disk, vm.disk, vm.home);
    PacedSame(vm.meter.Books(), true);
    done := false;
    if Selectable(name) {
      var r := vm.Verify(Target(vm.home, name));
      done := r.Done?;
      vm.meter.Stretch(old(vm.meter.Books()), !r.Fault?);
    } else {
      vm.meter.Stretch(old(vm.meter.Books()), true);
    }
  }

  // One command of a session, run to success, refusal, failure or death.
  method Step(vm: Host, c: Command) returns (done: bool)
    requires vm.Valid()
    requires c.Work? ==> TreeShaped(c.tree) && IsDir(c.tree, [])
    modifies vm, vm.meter
    ensures vm.Valid() && Kept(vm.env, vm.home, old(vm.history), vm.history, old(vm.disk), vm.disk, vm.home)
    ensures Ran(vm.env, vm.home, c, old(vm.disk), vm.disk, done, vm.faulted)
    ensures old(vm.drawn) <= vm.drawn && vm.Troubles(old(vm.drawn)) <= vm.Troubles(vm.drawn)
    ensures vm.Troubles(vm.drawn) == vm.Troubles(old(vm.drawn)) ==> !vm.faulted
    ensures !vm.faulted && Lawful(vm.env) ==> (done <==> Allowed(vm.env, vm.home, c, old(vm.disk)))
    ensures vm.meter.Valid() && vm.meter.AffordableSince(Ledger(0, 0, 0, [])) && (!vm.faulted ==> vm.meter.missed == 0)
  {
    hide Kept, Preserves, TreeShaped, SameCheckpoints, Meter.Valid, Sub, CopyOf, CheckpointOf, CheckpointAllowed;
    hide Verifies, Archivable, Selectable, Lawful, AlwaysSafe, BesideKept, Replaced, RetainedKept, Paced;
    hide Meter.AffordableSince, Host.Troubles, Host.Drew, LoadAllowed, SaveAllowed;
    vm.alive, vm.faulted := true, false;
    ghost var c0 := vm.Now();
    vm.DrewNone(c0);
    vm.meter.Restart();
    PacedSame(vm.meter.Books(), true);
    vm.meter.Stretch(vm.meter.Books(), true);
    match c {
      case Save(name) =>
        var r := Checkpoint(vm, name);
        WidenKept(vm.env, vm.home, old(vm.history), vm.history, old(vm.disk), vm.disk);
        RootKept(vm.env, vm.home, old(vm.history), vm.history, old(vm.disk), vm.disk);
        AllowedSelectable(old(vm.disk), vm.home, name);
        SaveRetained(vm.env, vm.home, old(vm.history), vm.history, old(vm.disk), vm.disk);
        done := r.Done?;
      case Check(name) =>
        done := CheckOne(vm, name);
      case Load(name) =>
        var r, archived, stranded := Restore(vm, name);
        BesideRetained(vm.home, old(vm.disk), vm.disk);
        done := r.Done?;
      case Work(tree) =>
        Use(vm, tree);
        done := true;
    }
    vm.DrewHealthy(c0, vm.Now());
  }

  lemma AllowedSelectable(d: Tree, home: Path, name: string)
    ensures SaveAllowed(home, d, name) ==> Selectable(name)
  {
  }

  lemma SaveRetained(env: Env, home: Path, h: seq<Tree>, k: seq<Tree>, d: Tree, e: Tree)
    requires Kept(env, home, h, k, d, e, Base(home))
    ensures RetainedKept(home, d, e)
  {
    hide Chain, RetainedKept, SameOutside;
    NamesNotRetained();
    ElsewhereRetained(home, d, e, BASELINES_NAME);
  }

  lemma WidenKept(env: Env, home: Path, h: seq<Tree>, k: seq<Tree>, d: Tree, e: Tree)
    requires Kept(env, home, h, k, d, e, Base(home))
    ensures Kept(env, home, h, k, d, e, home)
  {
  }

  // Over a whole session no checkpoint is ever lost or changed, and every checkpoint that appears verifies at once
  // and for good.  RoundTrip and RetainedForever say what this means for the states put back and put aside.  Each
  // command keeps to the rate.
  method Session(vm: Host, commands: seq<Command>)
    returns (done: seq<bool>, ghost faults: seq<bool>, ghost marks: seq<nat>, ghost accounts: seq<Account>,
             ghost draws: seq<nat>)
    requires vm.Valid()
    requires forall i | 0 <= i < |commands| && commands[i].Work? ::
               TreeShaped(commands[i].tree) && IsDir(commands[i].tree, [])
    modifies vm, vm.meter
    ensures vm.Valid() && old(vm.history) <= vm.history
    ensures SessionRun(vm.env, vm.home, vm.history, commands, done, faults, marks)
    ensures |faults| == |commands| && |marks| == |commands| + 1
    ensures marks[0] == |old(vm.history)| - 1 && marks[|commands|] == |vm.history| - 1
    ensures Chain(vm.env, vm.home, vm.history, |old(vm.history)| - 1)
    ensures FaultsDrawn(vm, draws, faults) && draws[0] == old(vm.drawn) && draws[|commands|] == vm.drawn
    ensures vm.Troubles(vm.drawn) == vm.Troubles(old(vm.drawn)) && Lawful(vm.env) ==>
              forall i | 0 <= i < |commands| ::
                !faults[i] && (done[i] <==> Allowed(vm.env, vm.home, commands[i], vm.history[marks[i]]))
    ensures |accounts| == |commands| && forall i | 0 <= i < |commands| :: KeptToRate(accounts[i], faults[i])
    ensures AllVerify(vm.env, vm.home, old(vm.disk)) ==>
              forall i | |old(vm.history)| <= i < |vm.history| :: AllVerify(vm.env, vm.home, vm.history[i])
  {
    hide Kept, Preserves, TreeShaped, Meter.Valid, AllVerify, Ran, KeptToRate, SessionRun, FaultsDrawn, Lawful, Allowed,
         Host.Troubles;
    done, faults, marks, accounts, draws := [], [], [|vm.history| - 1], [], [vm.drawn];
    NothingDrawn(vm, vm.drawn);
    NoCommands(vm.env, vm.home, vm.history);
    StepKept(vm.env, vm.home, vm.history, vm.history, vm.disk, vm.disk, vm.home);
    for i := 0 to |commands|
      invariant vm.Valid() && Kept(vm.env, vm.home, old(vm.history), vm.history, old(vm.disk), vm.disk, vm.home)
      invariant SessionRun(vm.env, vm.home, vm.history, commands[..i], done, faults, marks)
      invariant |faults| == i && |marks| == i + 1
      invariant marks[0] == |old(vm.history)| - 1 && marks[i] == |vm.history| - 1
      invariant FaultsDrawn(vm, draws, faults) && |draws| == i + 1
      invariant draws[0] == old(vm.drawn) && draws[i] == vm.drawn
      invariant |accounts| == i && forall j | 0 <= j < i :: KeptToRate(accounts[j], faults[j])
    {
      ghost var d1, h1 := vm.disk, vm.history;
      var ok := Step(vm, commands[i]);
      KeptGrows(vm.env, vm.home, h1, vm.history, d1, vm.disk);
      RunExtends(vm.env, vm.home, h1, vm.history, commands[..i], done, faults, marks,
                 commands[i], ok, vm.faulted, d1, vm.disk);
      KeptThen(vm.env, vm.home, old(vm.history), h1, vm.history, old(vm.disk), d1, vm.disk, vm.home);
      assert commands[..i] + [commands[i]] == commands[..i + 1];
      ghost var account := AccountOf(vm.meter, vm.faulted);
      FaultsDrawnMore(vm, draws, faults, vm.drawn, vm.faulted);
      draws := draws + [vm.drawn];
      done, faults, marks := done + [ok], faults + [vm.faulted], marks + [|vm.history| - 1];
      accounts := accounts + [account];
    }
    assert commands[..|commands|] == commands;
    KeptPreserves(vm.env, vm.home, old(vm.history), vm.history, old(vm.disk), vm.disk, vm.home);
    SessionVerify(vm.env, vm.home, old(vm.history), vm.history, old(vm.disk), vm.disk);
    SessionLengths(vm.env, vm.home, vm.history, commands, done, faults, marks);
    if vm.Troubles(vm.drawn) == vm.Troubles(old(vm.drawn)) && Lawful(vm.env) {
      QuietSession(vm, vm.history, commands, done, faults, marks, draws);
    }
  }

  lemma NothingDrawn(vm: Host, drawn: nat)
    ensures FaultsDrawn(vm, [drawn], [])
  {
  }

  lemma SessionLengths(env: Env, home: Path, h: seq<Tree>, commands: seq<Command>, done: seq<bool>,
                       faults: seq<bool>, marks: seq<nat>)
    requires SessionRun(env, home, h, commands, done, faults, marks)
    ensures |done| == |commands| && forall i | 0 <= i < |marks| :: marks[i] < |h|
  {
    hide Ran;
  }

  lemma NoCommands(env: Env, home: Path, h: seq<Tree>)
    requires h != []
    ensures SessionRun(env, home, h, [], [], [], [|h| - 1])
  {
  }

  // What the meter of one process shows in the end.
  datatype Account = Account(throttled: bool, start: real, slept: real, moved: nat, log: seq<Moment>, missed: nat)

  // At every moment the bytes moved are within rate times elapsed time and one chunk counted twice, and as much again
  // for each file a directory copy went on without; without a failure there is no such file.  And the command asks for
  // no more sleep than all its bytes take at that rate; for none at all when it is not throttled.
  ghost predicate KeptToRate(a: Account, faulted: bool)
  {
    && (!faulted ==> a.missed == 0)
    && (a.throttled ==> forall i | 0 <= i < |a.log| :: Affordable(a.start, a.log[i], a.missed))
    && 0.0 <= a.slept && Rate() * a.slept <= a.moved as real && (a.throttled || a.slept == 0.0)
  }

  lemma AccountOf(meter: Meter, faulted: bool) returns (a: Account)
    requires meter.Valid() && meter.AffordableSince(Ledger(0, 0, 0, [])) && (!faulted ==> meter.missed == 0)
    ensures a == Account(meter.throttled, meter.start, meter.slept, meter.moved, meter.log, meter.missed)
    ensures KeptToRate(a, faulted)
  {
    a := Account(meter.throttled, meter.start, meter.slept, meter.moved, meter.log, meter.missed);
  }

  lemma KeptGrows(env: Env, home: Path, h: seq<Tree>, k: seq<Tree>, d: Tree, e: Tree)
    requires Kept(env, home, h, k, d, e, home)
    ensures h <= k
  {
  }

  lemma SessionVerify(env: Env, home: Path, h: seq<Tree>, k: seq<Tree>, d: Tree, e: Tree)
    requires Kept(env, home, h, k, d, e, home) && h[|h| - 1] == d
    ensures h <= k
    ensures AllVerify(env, home, d) ==> forall i | |h| <= i < |k| :: AllVerify(env, home, k[i])
  {
  }
}
