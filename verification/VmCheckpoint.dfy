// The checkpoint command (scripts/windows_qemu_state.py, checkpoint).
module VmCheckpoint {
  import opened Disks
  import opened Baseline
  import opened Pacing
  import opened VmCopies
  import opened VmHost
  import opened VmPlaces

  // A checkpoint of the tree t: its state, and a manifest.
  ghost predicate CheckpointOf(c: Tree, t: Tree)
  {
    MANIFEST in c && c[MANIFEST].File? && c == CopyOf(t)[MANIFEST := c[MANIFEST]]
  }

  // Write the inventory of the staged copy as its manifest.
  method WriteManifest(vm: Host, staging: Path, m: Listing) returns (ok: bool)
    requires vm.Valid() && IsDir(vm.disk, staging) && MANIFEST !in Sub(vm.disk, staging)
    modifies vm`disk, vm`alive, vm`faulted, vm`drawn, vm`history
    ensures vm.Valid() && Confined(old(vm.history), vm.history, old(vm.disk), vm.disk, staging)
    ensures ok ==> Sub(vm.disk, staging) == Sub(old(vm.disk), staging)[MANIFEST := File(vm.env.dumps(m))]
    ensures !ok ==> vm.faulted
    ensures vm.Drew(old(vm.Now()), vm.Now())
  {
    var path := staging + MANIFEST;
    assert MANIFEST in Sub(vm.disk, staging) <==> path in vm.disk;
    assert Parent(path) == staging && GoodName(path[|path| - 1]);
    ok := vm.Make(path, File([]));
    ConfinedThen(old(vm.history), old(vm.history), vm.history, old(vm.disk), old(vm.disk), vm.disk, staging, path);
    if !ok { return; }
    ghost var h1, d1 := vm.history, vm.disk;
    var text := vm.env.dumps(m);
    var written;
    ok, written := vm.Append(path, text);
    ConfinedThen(old(vm.history), h1, vm.history, old(vm.disk), d1, vm.disk, staging, path);
    if ok {
      assert [] + text[..written] == text;
      assert vm.disk == old(vm.disk)[path := File(text)];
      SubUpdate(old(vm.disk), staging, MANIFEST, File(text));
    }
  }

  // Copy the state and write its inventory next to it.
  method StageCopy(vm: Host, root: Path, staging: Path) returns (r: Outcome<Listing>)
    requires vm.Valid() && vm.meter.Valid() && Apart(root, staging)
    requires Sub(vm.disk, staging) == map[[] := Dir]
    modifies vm`disk, vm`alive, vm`faulted, vm`drawn, vm`history
    modifies vm.meter`now, vm.meter`slept, vm.meter`moved, vm.meter`aborted, vm.meter`missed
    modifies vm.meter`transfers, vm.meter`log
    ensures vm.Valid() && Confined(old(vm.history), vm.history, old(vm.disk), vm.disk, staging)
    ensures r.Done? ==> Copyable(Sub(old(vm.disk), root)) && IsListing(vm.env, CopyOf(Sub(old(vm.disk), root)), r.value)
    ensures r.Done? ==>
              Sub(vm.disk, staging) == CopyOf(Sub(old(vm.disk), root))[MANIFEST := File(vm.env.dumps(r.value))]
    ensures r.Refused? ==> !Copyable(Sub(old(vm.disk), root))
    ensures r.Fault? ==> vm.faulted
    ensures vm.Drew(old(vm.Now()), vm.Now())
    ensures vm.meter.Valid() && Paced(old(vm.meter.Books()), vm.meter.Books(), !r.Fault?)
    ensures r.Done? ==> vm.meter.moved == old(vm.meter.moved) + 3 * StateBytes(Sub(old(vm.disk), root))
  {
    hide Meter.Valid, TreeShaped, Confined, HoldsPart, IsListing, Ordinary, Copyable, CopyOf, Paced, HashedBytes;
    EmptyPart(vm.disk, staging, Sub(vm.disk, root));
    var copied := vm.CopyState(root, staging);
    if !copied.Done? { return if copied.Refused? then Refused else Fault; }
    NoManifestYet(vm.disk, staging, Sub(old(vm.disk), root));
    HashedCopy(Sub(old(vm.disk), root), []);
    ghost var books := vm.meter.Books();
    r := vm.Inventory(staging);
    PacedThen(old(vm.meter.Books()), books, vm.meter.Books(), !r.Fault?);
    PacedEither(old(vm.meter.Books()), vm.meter.Books(), !r.Fault?);
    if !r.Done? { return; }
    ghost var h1, d1 := vm.history, vm.disk;
    var ok := WriteManifest(vm, staging, r.value);
    ConfinedThen(old(vm.history), h1, vm.history, old(vm.disk), d1, vm.disk, staging, staging);
    if !ok { return Fault; }
  }

  // ... and verify the result, all inside the staging directory.
  method Stage(vm: Host, root: Path, staging: Path) returns (r: Outcome<Listing>)
    requires vm.Valid() && vm.meter.Valid() && Apart(root, staging)
    requires Sub(vm.disk, staging) == map[[] := Dir]
    modifies vm`disk, vm`alive, vm`faulted, vm`drawn, vm`history
    modifies vm.meter`now, vm.meter`slept, vm.meter`moved, vm.meter`aborted, vm.meter`missed
    modifies vm.meter`transfers, vm.meter`log
    ensures vm.Valid() && Confined(old(vm.history), vm.history, old(vm.disk), vm.disk, staging)
    ensures r.Done? ==> Archivable(Sub(old(vm.disk), root)) && Verified(vm.env, Sub(vm.disk, staging), r.value)
    ensures r.Done? ==> CheckpointOf(Sub(vm.disk, staging), Sub(old(vm.disk), root))
    ensures r.Refused? && Lawful(vm.env) ==> !Archivable(Sub(old(vm.disk), root))
    ensures r.Fault? ==> vm.faulted
    ensures vm.Drew(old(vm.Now()), vm.Now())
    ensures vm.meter.Valid() && Paced(old(vm.meter.Books()), vm.meter.Books(), !r.Fault?)
    ensures r.Done? ==> vm.meter.moved == old(vm.meter.moved) + 4 * StateBytes(Sub(old(vm.disk), root))
  {
    hide Host.Valid, Meter.Valid, Sub, Apart, Confined, GoodTree, IsListing,
         Copyable, CopyOf, Archivable, Verified, Lawful, Paced, HashedBytes, StateBytes;
    vm.GoodBelow(root);
    r := StageCopy(vm, root, staging);
    if !r.Done? {
      ArchivableCopyable(Sub(old(vm.disk), root));
      return;
    }
    StagedVerdict(vm.env, Sub(old(vm.disk), root), r.value);
    HashedCopy(Sub(old(vm.disk), root), vm.env.dumps(r.value));
    ghost var books := vm.meter.Books();
    r := vm.Verify(staging);
    PacedThen(old(vm.meter.Books()), books, vm.meter.Books(), !r.Fault?);
  }

  lemma ArchivableCopyable(t: Tree)
    ensures Archivable(t) ==> Copyable(t)
  {
  }

  lemma NoManifestYet(d: Tree, dst: Path, t: Tree)
    requires Sub(d, dst) == CopyOf(t) && Copyable(t)
    ensures IsDir(d, dst) && MANIFEST !in Sub(d, dst) && Ordinary(Sub(d, dst))
  {
    assert dst + [] == dst && [] in Sub(d, dst);
    assert MANIFEST[0] !in STATE;
  }

  // Whether the staged copy verifies is settled by the state alone.
  lemma StagedVerdict(env: Env, t: Tree, m: Listing)
    requires GoodTree(t) && Copyable(t) && IsListing(env, CopyOf(t), m)
    ensures var c := CopyOf(t)[MANIFEST := File(env.dumps(m))];
            && (Verifies(env, c) ==> Archivable(t))
            && (Lawful(env) && Archivable(t) ==> Verifies(env, c))
  {
    var c := CopyOf(t)[MANIFEST := File(env.dumps(m))];
    if Verifies(env, c) {
      var n :| Verified(env, c, n);
      OnlyArchivableVerifies(env, t, env.dumps(m), n);
    }
    if Lawful(env) && Archivable(t) {
      FreshManifestVerifies(env, t, m);
    }
  }

  // checkpoint_path and the checks before anything is written.
  predicate CheckpointAllowed(d: Tree, home: Path, name: string)
  {
    && Selectable(name) && IsDir(d, Root(home))
    && (Base(home) in d ==> d[Base(home)].Dir?) && Target(home, name) !in d
  }

  // What a checkpoint asks of the disk: besides that, a state that can be archived.
  ghost predicate SaveAllowed(home: Path, d: Tree, name: string)
  {
    CheckpointAllowed(d, home, name) && Archivable(Sub(d, Root(home)))
  }

  // The baselines directory exists from here on.
  method EnsureBase(vm: Host) returns (ok: bool)
    requires vm.Valid() && IsDir(vm.disk, Root(vm.home)) && (Base(vm.home) in vm.disk ==> vm.disk[Base(vm.home)].Dir?)
    modifies vm`disk, vm`alive, vm`faulted, vm`drawn, vm`history
    ensures vm.Valid()
    ensures Kept(vm.env, vm.home, old(vm.history), vm.history, old(vm.disk), vm.disk, Base(vm.home))
    ensures SameCheckpoints(vm.home, old(vm.disk), vm.disk)
    ensures if ok then IsDir(vm.disk, Base(vm.home)) else vm.faulted
    ensures vm.Drew(old(vm.Now()), vm.Now())
  {
    hide Kept, Preserves, TreeShaped, SameCheckpoints;
    ok := true;
    CheckpointsSame(vm.home, vm.disk);
    if Base(vm.home) !in vm.disk {
      InsideDir(vm.disk, vm.home, ROOT_NAME);
      BaseMadePreserves(vm.env, vm.home, vm.disk);
      assert Parent(Base(vm.home)) == vm.home && GoodName(BASELINES_NAME);
      ok := vm.Make(Base(vm.home), Dir);
    }
    StepKept(vm.env, vm.home, old(vm.history), vm.history, old(vm.disk), vm.disk, Base(vm.home));
  }

  // Publish the verified staging directory under its name.
  method Publish(vm: Host, name: string, staged: string, ghost t: Tree) returns (ok: bool)
    requires vm.Valid() && Selectable(name) && INCOMPLETE <= staged
    requires IsDir(vm.disk, Base(vm.home)) && Target(vm.home, name) !in vm.disk
    requires CheckpointOf(Sub(vm.disk, Target(vm.home, staged)), t) &&
             Verifies(vm.env, Sub(vm.disk, Target(vm.home, staged)))
    modifies vm`disk, vm`alive, vm`faulted, vm`drawn, vm`history
    ensures vm.Valid()
    ensures Kept(vm.env, vm.home, old(vm.history), vm.history, old(vm.disk), vm.disk, Base(vm.home))
    ensures ok ==> Target(vm.home, name) in vm.disk
    ensures ok ==> Sub(vm.disk, Target(vm.home, name)) == Sub(old(vm.disk), Target(vm.home, staged))
    ensures !ok ==> vm.disk == old(vm.disk) && vm.faulted
    ensures vm.Drew(old(vm.Now()), vm.Now())
  {
    hide CheckpointOf, Verifies, TreeShaped, Selectable, Kept, Preserves, SameOutside, CanRename, Renamed, Sub;
    CanPublish(vm, name, staged, t);
    PublishedIs(vm.disk, vm.env, vm.home, name, staged);
    RenamedInside(vm.disk, Target(vm.home, staged), Target(vm.home, name), Base(vm.home));
    ok := vm.Rename(Target(vm.home, staged), Target(vm.home, name));
    StepKept(vm.env, vm.home, old(vm.history), vm.history, old(vm.disk), vm.disk, Base(vm.home));
  }

  lemma CanPublish(vm: Host, name: string, staged: string, t: Tree)
    requires vm.Valid() && Selectable(name) && INCOMPLETE <= staged
    requires IsDir(vm.disk, Base(vm.home)) && Target(vm.home, name) !in vm.disk
    requires CheckpointOf(Sub(vm.disk, Target(vm.home, staged)), t)
    ensures CanRename(vm.disk, Target(vm.home, staged), Target(vm.home, name))
    ensures [] in Sub(vm.disk, Target(vm.home, staged))
  {
    hide TreeShaped, CanRename;
    var a := Target(vm.home, staged);
    assert a + [] == a && [] in Sub(vm.disk, a);
    SelectableIsGood(name);
    IncompleteNeverSelectable(vm.home, staged);
    SiblingRename(vm.disk, Base(vm.home), staged, name);
  }

  lemma SelectableIsGood(name: string)
    requires Selectable(name)
    ensures GoodName(name)
  {
  }

  lemma PublishedIs(d: Tree, env: Env, home: Path, name: string, staged: string)
    requires Selectable(name) && INCOMPLETE <= staged && Target(home, name) !in d
    requires Verifies(env, Sub(d, Target(home, staged))) && [] in Sub(d, Target(home, staged))
    ensures Apart(Target(home, staged), Target(home, name))
    ensures var e := Renamed(d, Target(home, staged), Target(home, name));
            && Preserves(env, home, d, e) && Target(home, name) in e
            && Sub(e, Target(home, name)) == Sub(d, Target(home, staged))
  {
    hide Verifies;
    var a, b := Target(home, staged), Target(home, name);
    IncompleteNeverSelectable(home, staged);
    RenamedMoves(d, a, b);
    var e := Renamed(d, a, b);
    assert b + [] == b && [] in Sub(e, b);
    forall n | Selectable(n) && n != name
      ensures Sub(e, Target(home, n)) == Sub(d, Target(home, n))
      ensures Target(home, n) in e <==> Target(home, n) in d
    {
      Siblings(Base(home), name, n);
      RenamedElsewhere(d, a, b, Target(home, n));
    }
  }

  // Working only in a staging directory keeps every checkpoint, at every step.
  lemma PreparedKeeps(env: Env, home: Path, h: seq<Tree>, k: seq<Tree>, d: Tree, e: Tree, name: string)
    requires h != [] && h[|h| - 1] == d && INCOMPLETE <= name && IsDir(d, Base(home))
    requires Confined(h, k, d, e, Target(home, name))
    ensures Kept(env, home, h, k, d, e, Base(home)) && SameCheckpoints(home, d, e) && IsDir(e, Base(home))
  {
    hide Chain, Preserves, SameCheckpoints, Selectable;
    IncompleteNeverSelectable(home, name);
    ChainOne(env, home, h);
    ChainConfined(env, home, h, k, |h| - 1, d, e, Target(home, name));
    SameOutsidePreserves(env, home, d, e, Target(home, name));
    assert SameOutside(d, d, Base(home)) && Confined(h, h, d, d, Base(home));
    ConfinedThen(h, h, k, d, d, e, Base(home), Target(home, name));
    assert !(Target(home, name) <= Base(home));
  }

  // Copy and verify in a fresh staging directory next to the checkpoints.
  method Prepare(vm: Host) returns (r: Outcome<Listing>, staged: string)
    requires vm.Valid() && vm.meter.Valid() && IsDir(vm.disk, Base(vm.home))
    modifies vm`disk, vm`alive, vm`faulted, vm`drawn, vm`history
    modifies vm.meter`now, vm.meter`slept, vm.meter`moved, vm.meter`aborted, vm.meter`missed
    modifies vm.meter`transfers, vm.meter`log
    ensures vm.Valid() && INCOMPLETE <= staged
    ensures Confined(old(vm.history), vm.history, old(vm.disk), vm.disk, Target(vm.home, staged))
    ensures r.Done? ==> Archivable(Sub(old(vm.disk), Root(vm.home)))
    ensures r.Done? ==> Verified(vm.env, Sub(vm.disk, Target(vm.home, staged)), r.value)
    ensures r.Done? ==> CheckpointOf(Sub(vm.disk, Target(vm.home, staged)), Sub(old(vm.disk), Root(vm.home)))
    ensures r.Refused? && Lawful(vm.env) ==> !Archivable(Sub(old(vm.disk), Root(vm.home)))
    ensures r.Fault? ==> vm.faulted
    ensures vm.Drew(old(vm.Now()), vm.Now())
    ensures vm.meter.Valid() && Paced(old(vm.meter.Books()), vm.meter.Books(), !r.Fault?)
    ensures r.Done? ==> vm.meter.moved == old(vm.meter.moved) + 4 * StateBytes(Sub(old(vm.disk), Root(vm.home)))
  {
    hide Meter.Valid, TreeShaped, SameOutside, Apart, Archivable, CheckpointOf, Verified, Lawful, CanCreate,
         Paced, StateBytes, GoodName;
    PrefixesGood();
    PacedSame(vm.meter.Books(), false);
    var made := Mkdtemp(vm, Base(vm.home), INCOMPLETE);
    staged := if made.Done? then made.value else INCOMPLETE;
    ConfinedSame(vm.history, vm.disk, Target(vm.home, staged));
    if !made.Done? { return Fault, staged; }
    ghost var h1, d1 := vm.history, vm.disk;
    RootApart(vm.home, staged);
    ConfinedFrame(old(vm.history), vm.history, old(vm.disk), vm.disk, Target(vm.home, staged), Root(vm.home));
    r := Stage(vm, Root(vm.home), Target(vm.home, staged));
    ConfinedThen(old(vm.history), h1, vm.history, old(vm.disk), d1, vm.disk,
                 Target(vm.home, staged), Target(vm.home, staged));
  }

  // checkpoint, from the staging directory on.
  method Build(vm: Host, name: string) returns (r: Outcome<()>)
    requires vm.Valid() && vm.meter.Valid() && Selectable(name)
    requires IsDir(vm.disk, Base(vm.home)) && Target(vm.home, name) !in vm.disk
    modifies vm`disk, vm`alive, vm`faulted, vm`drawn, vm`history
    modifies vm.meter`now, vm.meter`slept, vm.meter`moved, vm.meter`aborted, vm.meter`missed
    modifies vm.meter`transfers, vm.meter`log
    ensures vm.Valid()
    ensures Kept(vm.env, vm.home, old(vm.history), vm.history, old(vm.disk), vm.disk, Base(vm.home))
    ensures r.Done? ==> Archivable(Sub(old(vm.disk), Root(vm.home)))
    ensures r.Done? ==> Target(vm.home, name) in vm.disk && Verifies(vm.env, Sub(vm.disk, Target(vm.home, name)))
    ensures r.Done? ==> CheckpointOf(Sub(vm.disk, Target(vm.home, name)), Sub(old(vm.disk), Root(vm.home)))
    ensures !r.Done? ==> SameCheckpoints(vm.home, old(vm.disk), vm.disk)
    ensures r.Refused? && Lawful(vm.env) ==> !Archivable(Sub(old(vm.disk), Root(vm.home)))
    ensures r.Fault? ==> vm.faulted
    ensures vm.Drew(old(vm.Now()), vm.Now())
    ensures vm.meter.Valid() && Paced(old(vm.meter.Books()), vm.meter.Books(), !r.Fault?)
    ensures r.Done? ==> vm.meter.moved == old(vm.meter.moved) + 4 * StateBytes(Sub(old(vm.disk), Root(vm.home)))
  {
    hide Meter.Valid, TreeShaped, Kept, Confined, Preserves, Archivable, CheckpointOf, Verified, Lawful, Sub, IsDir,
         Paced, StateBytes;
    var made, staged := Prepare(vm);
    PreparedKeeps(vm.env, vm.home, old(vm.history), vm.history, old(vm.disk), vm.disk, staged);
    if !made.Done? { return if made.Refused? then Refused else Fault; }
    ghost var h1, d1 := vm.history, vm.disk;
    // protect(staging, readonly=True): permission bits are not modelled, but setting them can fail.
    PacedEither(old(vm.meter.Books()), vm.meter.Books(), true);
    var trouble := vm.Trouble();
    if trouble { return Fault; }
    var ok := Publish(vm, name, staged, Sub(old(vm.disk), Root(vm.home)));
    KeptThen(vm.env, vm.home, old(vm.history), h1, vm.history, old(vm.disk), d1, vm.disk, Base(vm.home));
    return if ok then Done(()) else Fault;
  }

  // checkpoint
  method Checkpoint(vm: Host, name: string) returns (r: Outcome<()>)
    requires vm.Valid() && vm.meter.Valid()
    modifies vm`disk, vm`alive, vm`faulted, vm`drawn, vm`history
    modifies vm.meter`now, vm.meter`slept, vm.meter`moved, vm.meter`aborted, vm.meter`missed
    modifies vm.meter`transfers, vm.meter`log
    ensures vm.Valid()
    ensures Kept(vm.env, vm.home, old(vm.history), vm.history, old(vm.disk), vm.disk, Base(vm.home))
    ensures r.Done? ==> SaveAllowed(vm.home, old(vm.disk), name)
    ensures r.Done? ==> Target(vm.home, name) in vm.disk && Verifies(vm.env, Sub(vm.disk, Target(vm.home, name)))
    ensures r.Done? ==> CheckpointOf(Sub(vm.disk, Target(vm.home, name)), Sub(old(vm.disk), Root(vm.home)))
    ensures !r.Done? ==> SameCheckpoints(vm.home, old(vm.disk), vm.disk)
    ensures r.Refused? && Lawful(vm.env) ==> !SaveAllowed(vm.home, old(vm.disk), name)
    ensures r.Fault? ==> vm.faulted
    ensures vm.Drew(old(vm.Now()), vm.Now())
    ensures vm.Untroubled(old(vm.Now()), vm.Now()) && Lawful(vm.env) ==>
              (r.Done? <==> SaveAllowed(vm.home, old(vm.disk), name))
    ensures vm.meter.Valid() && Paced(old(vm.meter.Books()), vm.meter.Books(), !r.Fault?)
    ensures vm.meter.AffordableSince(old(vm.meter.Books()))
    ensures !vm.faulted ==> vm.meter.aborted == old(vm.meter.aborted) && vm.meter.missed == old(vm.meter.missed)
    ensures r.Done? ==> vm.meter.moved == old(vm.meter.moved) + 4 * StateBytes(Sub(old(vm.disk), Root(vm.home)))
  {
    hide Meter.Valid, TreeShaped, Kept, Preserves, Archivable, CheckpointOf, Verifies, Lawful, Sub, Paced, StateBytes,
         Meter.AffordableSince, Host.Drew, Host.Untroubled, Host.Troubles, CheckpointAllowed;
    ghost var c0 := vm.Now();
    vm.DrewNone(c0);
    CheckpointsSame(vm.home, vm.disk);
    PacedSame(vm.meter.Books(), true);
    PacedSame(vm.meter.Books(), false);
    StepKept(vm.env, vm.home, vm.history, vm.history, vm.disk, vm.disk, Base(vm.home));
    r := Refused;
    if CheckpointAllowed(vm.disk, vm.home, name) {
      AllowedParts(vm.disk, vm.home, name);
      var ok := EnsureBase(vm);
      ghost var c1 := vm.Now();
      RootKept(vm.env, vm.home, old(vm.history), vm.history, old(vm.disk), vm.disk);
      r := Fault;
      if ok {
        // Too little free space for the copy and the reserve.
        var trouble := vm.Trouble();
        ghost var c2 := vm.Now();
        vm.DrewThen(c0, c1, c2);
        if !trouble {
          ghost var h1, d1 := vm.history, vm.disk;
          r := Build(vm, name);
          vm.DrewThen(c0, c2, vm.Now());
          KeptThen(vm.env, vm.home, old(vm.history), h1, vm.history, old(vm.disk), d1, vm.disk, Base(vm.home));
        }
      }
    }
    vm.meter.Stretch(old(vm.meter.Books()), !r.Fault?);
    vm.DrewHealthy(c0, vm.Now());
  }

  // Where there is no baselines directory yet, every name of lower-case letters is free.
  lemma FirstAllowed(d: Tree, home: Path, name: string)
    requires TreeShaped(d) && IsDir(d, Root(home)) && Base(home) !in d
    requires 1 <= |name| <= 64 && forall i | 0 <= i < |name| :: 'a' <= name[i] <= 'z'
    ensures CheckpointAllowed(d, home, name)
  {
    if Target(home, name) in d {
      InsideDir(d, Base(home), name);
    }
  }

  // The first checkpoint makes the baselines directory itself.
  method FirstCheckpoint(vm: Host, name: string) returns (r: Outcome<()>)
    requires vm.Valid() && vm.meter.Valid() && vm.alive && !vm.faulted && Lawful(vm.env)
    requires IsDir(vm.disk, Root(vm.home)) && Archivable(Sub(vm.disk, Root(vm.home))) && Base(vm.home) !in vm.disk
    requires 1 <= |name| <= 64 && forall i | 0 <= i < |name| :: 'a' <= name[i] <= 'z'
    modifies vm`disk, vm`alive, vm`faulted, vm`drawn, vm`history
    modifies vm.meter`now, vm.meter`slept, vm.meter`moved, vm.meter`aborted, vm.meter`missed
    modifies vm.meter`transfers, vm.meter`log
    ensures vm.Valid() && vm.meter.Valid()
    ensures vm.Troubles(vm.drawn) == vm.Troubles(old(vm.drawn)) ==>
              r.Done? && CheckpointOf(Sub(vm.disk, Target(vm.home, name)), Sub(old(vm.disk), Root(vm.home)))
  {
    hide Meter.Valid, TreeShaped, Archivable, CheckpointOf, Lawful, Sub, Host.Troubles, CheckpointAllowed, Kept;
    FirstAllowed(vm.disk, vm.home, name);
    r := Checkpoint(vm, name);
  }

  lemma AllowedParts(d: Tree, home: Path, name: string)
    requires CheckpointAllowed(d, home, name)
    ensures Selectable(name) && IsDir(d, Root(home)) && Target(home, name) !in d
    ensures Base(home) in d ==> d[Base(home)].Dir?
  {
  }
}
