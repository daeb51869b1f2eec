// The restore command: copy, compare, and swap by two renames (scripts/windows_qemu_state.py, restore).
module VmRestore {
  import opened Disks
  import opened Baseline
  import opened Pacing
  import opened VmCopies
  import opened VmHost
  import opened VmPlaces

  // The complete previous state t is at the root or at the retained name.
  ghost predicate StateSafe(s: Tree, home: Path, archived: string, t: Tree)
  {
    Sub(s, Root(home)) == t || Sub(s, home + [archived]) == t
  }

  // The disks that the swap goes through: the root retained; the staged copy made the root; the swap undone.
  ghost function Retired(d: Tree, home: Path, archived: string): Tree
  {
    Renamed(d, Root(home), home + [archived])
  }

  ghost function Swapped(d: Tree, home: Path, staged: string, archived: string): Tree
  {
    Renamed(Retired(d, home, archived), home + [staged], Root(home))
  }

  ghost predicate Swappable(d: Tree, home: Path, staged: string, archived: string)
  {
    && TreeShaped(d) && IsDir(d, Root(home)) && IsDir(d, home + [staged])
    && RESTORING <= staged && RETAINED <= archived && GoodName(archived) && home + [archived] !in d
  }

  lemma ThreePlaces(home: Path, staged: string, archived: string)
    requires RESTORING <= staged && RETAINED <= archived
    ensures Apart(Root(home), home + [archived]) && Apart(home + [archived], Root(home))
    ensures Apart(home + [staged], Root(home)) && Apart(Root(home), home + [staged])
    ensures Apart(home + [staged], home + [archived]) && Apart(home + [archived], home + [staged])
  {
    WorkingNames(staged);
    WorkingNames(archived);
    Siblings(home, ROOT_NAME, archived);
    Siblings(home, archived, ROOT_NAME);
    Siblings(home, staged, ROOT_NAME);
    Siblings(home, ROOT_NAME, staged);
    Siblings(home, staged, archived);
    Siblings(home, archived, staged);
  }

  lemma RetiredIs(d: Tree, home: Path, staged: string, archived: string)
    requires Swappable(d, home, staged, archived)
    ensures CanRename(d, Root(home), home + [archived])
    ensures Sub(Retired(d, home, archived), home + [archived]) == Sub(d, Root(home))
    ensures Sub(Retired(d, home, archived), Root(home)) == map[]
    ensures Sub(Retired(d, home, archived), home + [staged]) == Sub(d, home + [staged])
    ensures Root(home) !in Retired(d, home, archived)
  {
    hide TreeShaped, Apart, Renamed, CanRename;
    var a, b := Root(home), home + [archived];
    ThreePlaces(home, staged, archived);
    RenamedMoves(d, a, b);
    RenamedElsewhere(d, a, b, home + [staged]);
    WorkingNames(archived);
    SiblingRename(d, home, ROOT_NAME, archived);
    assert a + [] == a;
    assert [] !in Sub(Retired(d, home, archived), a);
  }

  // After the root is retired either rename to the root can be made; one restores, the other undoes.
  lemma SwapCanGoOn(d: Tree, home: Path, staged: string, archived: string)
    requires Swappable(d, home, staged, archived) && TreeShaped(Retired(d, home, archived))
    ensures CanRename(Retired(d, home, archived), home + [staged], Root(home))
    ensures CanRename(Retired(d, home, archived), home + [archived], Root(home))
  {
    hide TreeShaped, Apart, Retired, CanRename;
    var d1 := Retired(d, home, archived);
    RetiredIs(d, home, staged, archived);
    SameRootDir(d, d1, home + [staged], home + [staged]);
    SameRootDir(d, d1, Root(home), home + [archived]);
    WorkingNames(staged);
    WorkingNames(archived);
    assert GoodName(ROOT_NAME);
    SiblingRename(d1, home, staged, ROOT_NAME);
    SiblingRename(d1, home, archived, ROOT_NAME);
  }

  lemma SwappedIs(d: Tree, home: Path, staged: string, archived: string)
    requires Swappable(d, home, staged, archived)
    ensures Sub(Swapped(d, home, staged, archived), Root(home)) == Sub(d, home + [staged])
    ensures Sub(Swapped(d, home, staged, archived), home + [archived]) == Sub(d, Root(home))
    ensures Renamed(Retired(d, home, archived), home + [archived], Root(home)) == d
  {
    hide TreeShaped, Apart, Renamed, CanRename;
    var a, b, c := Root(home), home + [archived], home + [staged];
    ThreePlaces(home, staged, archived);
    RetiredIs(d, home, staged, archived);
    RenamedMoves(Retired(d, home, archived), c, a);
    RenamedElsewhere(Retired(d, home, archived), c, a, b);
    RenamedBack(d, a, b);
  }

  // A rename between two places beside the baselines directory keeps every checkpoint.
  lemma MoveKept(env: Env, home: Path, h: seq<Tree>, d: Tree, x: string, y: string)
    requires h != [] && h[|h| - 1] == d && x != y && x != BASELINES_NAME && y != BASELINES_NAME
    ensures var e := Renamed(d, home + [x], home + [y]);
            Kept(env, home, h, h + [e], d, e, home) && SameCheckpoints(home, d, e)
  {
    hide Kept, Renamed, Apart, Verifies;
    var a, b := home + [x], home + [y];
    var e := Renamed(d, a, b);
    Siblings(home, x, y);
    BesideBaselines(home, x);
    BesideBaselines(home, y);
    forall n | Selectable(n)
      ensures (Target(home, n) in d <==> Target(home, n) in e) && Sub(e, Target(home, n)) == Sub(d, Target(home, n))
    {
      RenamedElsewhere(d, a, b, Target(home, n));
    }
    RenamedInside(d, a, b, home);
    StepKept(env, home, h, h + [e], d, e, home);
  }

  // The only states a swap passes through.
  ghost predicate SwapStates(h: seq<Tree>, k: seq<Tree>, d: Tree, home: Path, staged: string, archived: string)
  {
    h <= k && forall i | |h| <= i < |k| ::
      k[i] == d || k[i] == Retired(d, home, archived) || k[i] == Swapped(d, home, staged, archived)
  }

  // Retire the root, put the staged copy in its place, and undo the first rename if the second fails.
  method Swap(vm: Host, staged: string, archived: string) returns (r: Outcome<()>, stranded: bool)
    requires vm.Valid() && Swappable(vm.disk, vm.home, staged, archived)
    modifies vm`disk, vm`alive, vm`faulted, vm`drawn, vm`history
    ensures vm.Valid() && SwapStates(old(vm.history), vm.history, old(vm.disk), vm.home, staged, archived)
    ensures SameCheckpoints(vm.home, old(vm.disk), vm.disk)
    ensures Kept(vm.env, vm.home, old(vm.history), vm.history, old(vm.disk), vm.disk, vm.home)
    ensures r.Done? ==> !stranded && vm.disk == Swapped(old(vm.disk), vm.home, staged, archived)
    ensures !r.Done? && !stranded ==> vm.disk == old(vm.disk)
    ensures stranded ==> r.Fault? && vm.disk == Retired(old(vm.disk), vm.home, archived)
    ensures stranded && vm.alive ==> vm.Troubles(vm.drawn) >= vm.Troubles(old(vm.drawn)) + 2
    ensures !r.Refused? && (r.Fault? ==> vm.faulted)
    ensures vm.Drew(old(vm.Now()), vm.Now())
  {
    hide TreeShaped, Kept, Swappable, Renamed, CanRename, IsDir, Sub, SameCheckpoints;
    ghost var d0, h0 := vm.disk, vm.history;
    NamesApart(staged, archived, vm.disk, vm.home);
    RetiredIs(d0, vm.home, staged, archived);
    var ok := MoveBeside(vm, ROOT_NAME, archived);
    if !ok { return Fault, false; }
    ghost var d1, h1 := vm.disk, vm.history;
    SwapCanGoOn(d0, vm.home, staged, archived);
    SwappedIs(d0, vm.home, staged, archived);
    ok := MoveBeside(vm, staged, ROOT_NAME);
    if ok {
      r, stranded := Done(()), false;
    } else {
      ok := MoveBeside(vm, archived, ROOT_NAME);
      r, stranded := Fault, !ok;
    }
    KeptThen(vm.env, vm.home, h0, h1, vm.history, d0, d1, vm.disk, vm.home);
    SameCheckpointsTrans(vm.home, d0, d1, vm.disk);
  }

  method MoveBeside(vm: Host, x: string, y: string) returns (ok: bool)
    requires vm.Valid() && x != y && x != BASELINES_NAME && y != BASELINES_NAME
    modifies vm`disk, vm`alive, vm`faulted, vm`drawn, vm`history
    ensures vm.Valid() && Kept(vm.env, vm.home, old(vm.history), vm.history, old(vm.disk), vm.disk, vm.home)
    ensures SameCheckpoints(vm.home, old(vm.disk), vm.disk)
    ensures ok ==> CanRename(old(vm.disk), vm.home + [x], vm.home + [y])
    ensures ok ==> vm.disk == Renamed(old(vm.disk), vm.home + [x], vm.home + [y])
    ensures ok ==> vm.history == old(vm.history) + [vm.disk]
    ensures !ok ==> vm.disk == old(vm.disk) && vm.history == old(vm.history)
    ensures !ok && CanRename(old(vm.disk), vm.home + [x], vm.home + [y]) ==>
              vm.faulted && vm.Hit(old(vm.Now()), vm.Now())
    ensures vm.Drew(old(vm.Now()), vm.Now())
  {
    hide TreeShaped, Kept, Renamed, CanRename, SameCheckpoints;
    MoveKept(vm.env, vm.home, vm.history, vm.disk, x, y);
    CheckpointsSame(vm.home, vm.disk);
    StepKept(vm.env, vm.home, vm.history, vm.history, vm.disk, vm.disk, vm.home);
    ok := vm.Rename(vm.home + [x], vm.home + [y]);
  }

  lemma NamesApart(staged: string, archived: string, d: Tree, home: Path)
    requires Swappable(d, home, staged, archived)
    ensures staged != ROOT_NAME && archived != ROOT_NAME && ROOT_NAME != BASELINES_NAME
    ensures staged != BASELINES_NAME && archived != BASELINES_NAME
  {
    WorkingNames(staged);
    WorkingNames(archived);
  }

  // Two inventories agree: that of a copy of a verified checkpoint, and its manifest.
  lemma CopyMatches(env: Env, t: Tree, found: Listing, m: Listing)
    requires GoodTree(t) && Verified(env, t, m) && IsListing(env, CopyOf(t), found)
    ensures found == m
  {
    hide Verified, IsListing, GoodTree, CopyOf;
    CopyKeepsListing(env, t, m);
    ListingUnique(env, CopyOf(t), found, m);
  }

  // Copy a verified checkpoint into a new directory, and compare inventories before going on.
  method CopyIn(vm: Host, target: Path, staging: Path, ghost m: Listing) returns (r: Outcome<()>)
    requires vm.Valid() && vm.meter.Valid() && Apart(target, staging) && Apart(staging, target)
    requires Sub(vm.disk, staging) == map[[] := Dir] && Verified(vm.env, Sub(vm.disk, target), m)
    modifies vm`disk, vm`alive, vm`faulted, vm`drawn, vm`history
    modifies vm.meter`now, vm.meter`slept, vm.meter`moved, vm.meter`aborted, vm.meter`missed
    modifies vm.meter`transfers, vm.meter`log
    ensures vm.Valid() && Confined(old(vm.history), vm.history, old(vm.disk), vm.disk, staging)
    ensures r.Done? ==> Sub(vm.disk, staging) == CopyOf(Sub(old(vm.disk), target))
    ensures !r.Refused? && (r.Fault? ==> vm.faulted)
    ensures vm.Drew(old(vm.Now()), vm.Now())
    ensures vm.meter.Valid() && Paced(old(vm.meter.Books()), vm.meter.Books(), !r.Fault?)
    ensures r.Done? ==> vm.meter.moved == old(vm.meter.moved) + 4 * StateBytes(Sub(old(vm.disk), target))
  {
    hide Host.Valid, Meter.Valid, Sub, Apart, Confined, GoodTree, IsListing,
         Copyable, CopyOf, Verified, HoldsPart, Ordinary, Paced, HashedBytes, StateBytes, Meter.AffordableSince;
    ghost var t := Sub(vm.disk, target);
    vm.GoodBelow(target);
    CopyKeepsListing(vm.env, t, m);
    EmptyPart(vm.disk, staging, t);
    r := vm.CopyState(target, staging);
    if !r.Done? { return; }
    HashedCopy(t, []);
    HashedCheckpoint(vm.env, t, m);
    ConfinedFrame(old(vm.history), vm.history, old(vm.disk), vm.disk, staging, target);
    ghost var copied := vm.meter.Books();
    var found := vm.Inventory(staging);
    PacedThen(old(vm.meter.Books()), copied, vm.meter.Books(), !found.Fault?);
    PacedEither(old(vm.meter.Books()), vm.meter.Books(), !found.Fault?);
    if !found.Done? { return Fault; }
    ghost var listed := vm.meter.Books();
    var again := vm.Verify(target);
    PacedThen(old(vm.meter.Books()), listed, vm.meter.Books(), !again.Fault?);
    PacedEither(old(vm.meter.Books()), vm.meter.Books(), !again.Fault?);
    if !again.Done? {
      VerifiedVerifies(vm.env, t, m);
      return Fault;
    }
    CopyMatches(vm.env, t, found.value, again.value);
    if found.value != again.value { return Refused; }
  }

  // restore, up to the point where nothing but a new directory has been made.
  method Receive(vm: Host, name: string) returns (r: Outcome<()>, staged: string)
    requires vm.Valid() && vm.meter.Valid() && IsDir(vm.disk, Root(vm.home))
    modifies vm`disk, vm`alive, vm`faulted, vm`drawn, vm`history
    modifies vm.meter`now, vm.meter`slept, vm.meter`moved, vm.meter`aborted, vm.meter`missed
    modifies vm.meter`transfers, vm.meter`log
    ensures vm.Valid() && RESTORING <= staged
    ensures Confined(old(vm.history), vm.history, old(vm.disk), vm.disk, vm.home + [staged])
    ensures r.Done? ==> Verifies(vm.env, Sub(old(vm.disk), Target(vm.home, name)))
    ensures r.Done? ==> Sub(vm.disk, vm.home + [staged]) == CopyOf(Sub(old(vm.disk), Target(vm.home, name)))
    ensures r.Done? ==> vm.home + [staged] !in old(vm.disk)
    ensures BesideKept(vm.home, old(vm.disk), vm.disk)
    ensures r.Refused? ==> !Verifies(vm.env, Sub(old(vm.disk), Target(vm.home, name)))
    ensures r.Fault? ==> vm.faulted
    ensures vm.Drew(old(vm.Now()), vm.Now())
    ensures vm.meter.Valid() && Paced(old(vm.meter.Books()), vm.meter.Books(), !r.Fault?)
    ensures r.Done? ==> vm.meter.moved == old(vm.meter.moved) + 5 * StateBytes(Sub(old(vm.disk), Target(vm.home, name)))
  {
    hide Meter.Valid, TreeShaped, SameOutside, Apart, Verified, Verifies, CopyOf, BesideKept, Paced;
    hide HashedBytes, StateBytes, GoodTree, GoodName, Host.Drew;
    PrefixesGood();
    ghost var c0 := vm.Now();
    vm.DrewNone(c0);
    PacedSame(vm.meter.Books(), true);
    PacedSame(vm.meter.Books(), false);
    staged := RESTORING;
    BesideSame(vm.home, vm.disk);
    ConfinedSame(vm.history, vm.disk, vm.home + [staged]);
    var target := Target(vm.home, name);
    var m := vm.Verify(target);
    if !m.Done? { return if m.Refused? then Refused else Fault, staged; }
    VerifiedVerifies(vm.env, Sub(vm.disk, target), m.value);
    vm.GoodBelow(target);
    HashedCheckpoint(vm.env, Sub(vm.disk, target), m.value);
    PacedEither(old(vm.meter.Books()), vm.meter.Books(), true);
    // Too little free space to keep the current state next to the restored one.
    ghost var c1 := vm.Now();
    var trouble := vm.Trouble();
    ghost var c2 := vm.Now();
    vm.DrewThen(c0, c1, c2);
    if trouble { return Fault, staged; }
    InsideDir(vm.disk, vm.home, ROOT_NAME);
    var made := Mkdtemp(vm, vm.home, RESTORING);
    ghost var c3 := vm.Now();
    vm.DrewThen(c0, c2, c3);
    if !made.Done? { return Fault, staged; }
    staged := made.value;
    ghost var h1, d1 := vm.history, vm.disk;
    StagedApart(vm.home, staged, name);
    ConfinedFrame(old(vm.history), vm.history, old(vm.disk), vm.disk, vm.home + [staged], target);
    ghost var books := vm.meter.Books();
    r := CopyIn(vm, target, vm.home + [staged], m.value);
    vm.DrewThen(c0, c3, vm.Now());
    PacedThen(old(vm.meter.Books()), books, vm.meter.Books(), !r.Fault?);
    ConfinedThen(old(vm.history), h1, vm.history, old(vm.disk), d1, vm.disk, vm.home + [staged], vm.home + [staged]);
    StagingBesideKept(vm.home, old(vm.disk), vm.disk, staged);
  }

  lemma StagedApart(home: Path, staged: string, name: string)
    requires RESTORING <= staged
    ensures Apart(home + [staged], Target(home, name)) && Apart(Target(home, name), home + [staged])
  {
    WorkingNames(staged);
    Siblings(home, staged, BASELINES_NAME);
    ApartBelow(home + [staged], Base(home), Target(home, name));
    ApartSym(home + [staged], Target(home, name));
  }

  // Everything beside the root - checkpoints, states retained earlier - is as it was.
  ghost predicate BesideKept(home: Path, d: Tree, e: Tree)
  {
    forall x {:trigger home + [x]} | x != ROOT_NAME && home + [x] in d ::
      home + [x] in e && Sub(e, home + [x]) == Sub(d, home + [x])
  }

  lemma BesideSame(home: Path, d: Tree)
    ensures BesideKept(home, d, d)
  {
  }

  lemma StagingBesideKept(home: Path, d: Tree, e: Tree, staged: string)
    requires SameOutside(d, e, home + [staged]) && home + [staged] !in d
    ensures BesideKept(home, d, e)
  {
    forall x | x != ROOT_NAME && home + [x] in d
      ensures home + [x] in e && Sub(e, home + [x]) == Sub(d, home + [x])
    {
      Siblings(home, staged, x);
      SubFrame(d, e, home + [staged], home + [x]);
    }
  }

  lemma SwapBesideKept(d0: Tree, d: Tree, home: Path, staged: string, archived: string)
    requires Swappable(d, home, staged, archived) && BesideKept(home, d0, d) && home + [staged] !in d0
    ensures BesideKept(home, d0, Retired(d, home, archived))
    ensures BesideKept(home, d0, Swapped(d, home, staged, archived))
  {
    hide TreeShaped, Apart, Renamed;
    ThreePlaces(home, staged, archived);
    forall x | x != ROOT_NAME && home + [x] in d0
      ensures var p := home + [x];
              && p in Retired(d, home, archived) && Sub(Retired(d, home, archived), p) == Sub(d0, p)
              && p in Swapped(d, home, staged, archived) && Sub(Swapped(d, home, staged, archived), p) == Sub(d0, p)
    {
      assert x != staged && x != archived;
      Siblings(home, ROOT_NAME, x);
      Siblings(home, staged, x);
      Siblings(home, archived, x);
      RenamedElsewhere(d, Root(home), home + [archived], home + [x]);
      RenamedElsewhere(Retired(d, home, archived), home + [staged], Root(home), home + [x]);
    }
  }

  ghost predicate AlwaysSafe(h: seq<Tree>, k: seq<Tree>, home: Path, archived: string, t: Tree)
  {
    h <= k && forall i | |h| <= i < |k| :: StateSafe(k[i], home, archived, t)
  }

  lemma StagingSafe(h: seq<Tree>, k: seq<Tree>, d: Tree, e: Tree, home: Path, staged: string, archived: string)
    requires Confined(h, k, d, e, home + [staged]) && RESTORING <= staged
    ensures AlwaysSafe(h, k, home, archived, Sub(d, Root(home))) && Sub(e, Root(home)) == Sub(d, Root(home))
    ensures IsDir(d, Root(home)) ==> IsDir(e, Root(home))
  {
    hide Sub, Apart;
    WorkingNames(staged);
    Siblings(home, staged, ROOT_NAME);
    SubFrame(d, e, home + [staged], Root(home));
    SameRootDir(d, e, Root(home), Root(home));
    forall i | |h| <= i < |k|
      ensures StateSafe(k[i], home, archived, Sub(d, Root(home)))
    {
      SubFrame(d, k[i], home + [staged], Root(home));
    }
  }

  lemma SwapSafe(h: seq<Tree>, k: seq<Tree>, l: seq<Tree>, d: Tree, home: Path,
                 staged: string, archived: string, t: Tree)
    requires AlwaysSafe(h, k, home, archived, t) && SwapStates(k, l, d, home, staged, archived)
    requires Swappable(d, home, staged, archived) && t == Sub(d, Root(home))
    ensures AlwaysSafe(h, l, home, archived, t)
  {
    hide Sub, Swappable, Retired, Swapped;
    RetiredIs(d, home, staged, archived);
    SwappedIs(d, home, staged, archived);
    forall i | |h| <= i < |l|
      ensures StateSafe(l[i], home, archived, t)
    {
      if i < |k| {
        assert l[i] == k[i];
      }
    }
  }

  // The staged copy keeps every checkpoint, at every step.
  lemma ReceivedKeeps(env: Env, home: Path, h: seq<Tree>, k: seq<Tree>, d: Tree, e: Tree, staged: string)
    requires h != [] && h[|h| - 1] == d && RESTORING <= staged
    requires Confined(h, k, d, e, home + [staged])
    ensures Kept(env, home, h, k, d, e, home) && SameCheckpoints(home, d, e)
  {
    hide Chain, Preserves, SameCheckpoints, Selectable;
    WorkingNames(staged);
    BesideBaselines(home, staged);
    ChainOne(env, home, h);
    ChainConfined(env, home, h, k, |h| - 1, d, e, home + [staged]);
    SameOutsidePreserves(env, home, d, e, home + [staged]);
    ConfinedSame(h, d, home);
    ConfinedThen(h, h, k, d, d, e, home, home + [staged]);
  }

  // What a restore asks of the disk: a working directory, and a checkpoint of that name that verifies.
  ghost predicate LoadAllowed(env: Env, home: Path, d: Tree, n: string)
  {
    IsDir(d, Root(home)) && Sound(env, home, d, n)
  }

  ghost predicate Sound(env: Env, home: Path, d: Tree, n: string)
  {
    Selectable(n) && Verifies(env, Sub(d, Target(home, n)))
  }

  // restore, from the point where the staged copy is ready.
  method Exchange(vm: Host, staged: string, ghost d0: Tree, ghost c: Tree)
    returns (r: Outcome<()>, archived: string, stranded: bool)
    requires vm.Valid() && IsDir(vm.disk, Root(vm.home)) && RESTORING <= staged
    requires Sub(vm.disk, vm.home + [staged]) == CopyOf(c)
    requires BesideKept(vm.home, d0, vm.disk) && vm.home + [staged] !in d0
    modifies vm`disk, vm`alive, vm`faulted, vm`drawn, vm`history
    ensures vm.Valid() && RETAINED <= archived
    ensures Kept(vm.env, vm.home, old(vm.history), vm.history, old(vm.disk), vm.disk, vm.home)
    ensures SameCheckpoints(vm.home, old(vm.disk), vm.disk) && BesideKept(vm.home, d0, vm.disk)
    ensures AlwaysSafe(old(vm.history), vm.history, vm.home, archived, Sub(old(vm.disk), Root(vm.home)))
    ensures r.Done? ==> !stranded && Sub(vm.disk, Root(vm.home)) == CopyOf(c)
    ensures r.Done? || stranded ==>
              vm.home + [archived] in vm.disk && Sub(vm.disk, vm.home + [archived]) == Sub(old(vm.disk), Root(vm.home))
    ensures stranded ==> r.Fault? && Root(vm.home) !in vm.disk
    ensures stranded && vm.alive ==> vm.Troubles(vm.drawn) >= vm.Troubles(old(vm.drawn)) + 2
    ensures !r.Done? && !stranded ==> Sub(vm.disk, Root(vm.home)) == Sub(old(vm.disk), Root(vm.home))
    ensures !r.Refused? && (r.Fault? ==> vm.faulted)
    ensures vm.Drew(old(vm.Now()), vm.Now())
  {
    hide TreeShaped, Kept, SameCheckpoints, CopyOf, BesideKept, AlwaysSafe, Sub, Renamed, IsDir, Swappable,
         GoodName, Host.Drew;
    vm.DrewNone(vm.Now());
    ghost var d1, h1 := vm.disk, vm.history;
    ghost var t := Sub(d1, Root(vm.home));
    NothingDone(vm, RETAINED);
    archived, stranded := RETAINED, false;
    // protect(staging, readonly=False) and the chmod of the firmware: not modelled, but they can fail.
    var trouble := vm.Trouble();
    if trouble { return Fault, archived, stranded; }
    ghost var c1 := vm.Now();
    PrefixesGood();
    archived := FreeName(vm.disk, vm.home, RETAINED);
    ReadyToSwap(vm, staged, archived, c);
    SafeStart(h1, vm.home, archived, t);
    r, stranded := Swap(vm, staged, archived);
    vm.DrewThen(old(vm.Now()), c1, vm.Now());
    SwapSafe(h1, h1, vm.history, d1, vm.home, staged, archived, t);
    SwapBesideKept(d0, d1, vm.home, staged, archived);
    RetiredIs(d1, vm.home, staged, archived);
    SwappedIs(d1, vm.home, staged, archived);
    RootStays(d1, vm.disk, Root(vm.home), vm.home + [archived]);
  }

  lemma SafeStart(h: seq<Tree>, home: Path, archived: string, t: Tree)
    ensures AlwaysSafe(h, h, home, archived, t)
  {
  }

  // restore, once there is a name and a root.
  method Reload(vm: Host, name: string) returns (r: Outcome<()>, archived: string, stranded: bool)
    requires vm.Valid() && vm.meter.Valid() && IsDir(vm.disk, Root(vm.home))
    modifies vm`disk, vm`alive, vm`faulted, vm`drawn, vm`history
    modifies vm.meter`now, vm.meter`slept, vm.meter`moved, vm.meter`aborted, vm.meter`missed
    modifies vm.meter`transfers, vm.meter`log
    ensures vm.Valid()
    ensures Kept(vm.env, vm.home, old(vm.history), vm.history, old(vm.disk), vm.disk, vm.home)
    ensures SameCheckpoints(vm.home, old(vm.disk), vm.disk) && BesideKept(vm.home, old(vm.disk), vm.disk)
    ensures AlwaysSafe(old(vm.history), vm.history, vm.home, archived, Sub(old(vm.disk), Root(vm.home)))
    ensures r.Done? ==> Verifies(vm.env, Sub(old(vm.disk), Target(vm.home, name))) && !stranded
    ensures r.Done? ==> Sub(vm.disk, Root(vm.home)) == CopyOf(Sub(old(vm.disk), Target(vm.home, name)))
    ensures RETAINED <= archived && (r.Done? || stranded ==> vm.home + [archived] in vm.disk)
    ensures r.Done? || stranded ==> Sub(vm.disk, vm.home + [archived]) == Sub(old(vm.disk), Root(vm.home))
    ensures stranded ==> r.Fault? && Root(vm.home) !in vm.disk
    ensures stranded && vm.alive ==> vm.Troubles(vm.drawn) >= vm.Troubles(old(vm.drawn)) + 2
    ensures !r.Done? && !stranded ==> Sub(vm.disk, Root(vm.home)) == Sub(old(vm.disk), Root(vm.home))
    ensures r.Refused? ==> !Verifies(vm.env, Sub(old(vm.disk), Target(vm.home, name)))
    ensures r.Fault? ==> vm.faulted
    ensures vm.Drew(old(vm.Now()), vm.Now())
    ensures vm.meter.Valid() && Paced(old(vm.meter.Books()), vm.meter.Books(), !r.Fault?)
    ensures r.Done? ==> vm.meter.moved == old(vm.meter.moved) + 5 * StateBytes(Sub(old(vm.disk), Target(vm.home, name)))
  {
    hide Meter.Valid, TreeShaped, Kept, SameCheckpoints, Verifies, CopyOf, BesideKept, AlwaysSafe,
         Sub, Confined, IsDir, Paced, StateBytes, Host.Drew, Host.Valid, Host.Troubles;
    ghost var d0, h0, c0 := vm.disk, vm.history, vm.Now();
    NothingDone(vm, RETAINED);
    archived, stranded := RETAINED, false;
    var staged;
    r, staged := Receive(vm, name);
    ghost var d1, h1, c1 := vm.disk, vm.history, vm.Now();
    ReceivedKeeps(vm.env, vm.home, h0, h1, d0, d1, staged);
    StagingSafe(h0, h1, d0, d1, vm.home, staged, archived);
    if !r.Done? { return; }
    PacedEither(old(vm.meter.Books()), vm.meter.Books(), true);
    r, archived, stranded := Exchange(vm, staged, d0, Sub(d0, Target(vm.home, name)));
    vm.DrewThen(c0, c1, vm.Now());
    KeptThen(vm.env, vm.home, h0, h1, vm.history, d0, d1, vm.disk, vm.home);
    SameCheckpointsTrans(vm.home, d0, d1, vm.disk);
    StagingSafe(h0, h1, d0, d1, vm.home, staged, archived);
    SafeThen(h0, h1, vm.history, vm.home, archived, Sub(d0, Root(vm.home)));
    PacedEither(old(vm.meter.Books()), vm.meter.Books(), !r.Fault?);
  }

  // restore
  method Restore(vm: Host, name: string) returns (r: Outcome<()>, archived: string, stranded: bool)
    requires vm.Valid() && vm.meter.Valid()
    modifies vm`disk, vm`alive, vm`faulted, vm`drawn, vm`history
    modifies vm.meter`now, vm.meter`slept, vm.meter`moved, vm.meter`aborted, vm.meter`missed
    modifies vm.meter`transfers, vm.meter`log
    ensures vm.Valid()
    ensures Kept(vm.env, vm.home, old(vm.history), vm.history, old(vm.disk), vm.disk, vm.home)
    ensures SameCheckpoints(vm.home, old(vm.disk), vm.disk) && BesideKept(vm.home, old(vm.disk), vm.disk)
    ensures AlwaysSafe(old(vm.history), vm.history, vm.home, archived, Sub(old(vm.disk), Root(vm.home)))
    ensures r.Done? ==> LoadAllowed(vm.env, vm.home, old(vm.disk), name) && !stranded
    ensures r.Done? ==> Sub(vm.disk, Root(vm.home)) == CopyOf(Sub(old(vm.disk), Target(vm.home, name)))
    ensures r.Done? || stranded ==> RETAINED <= archived && vm.home + [archived] in vm.disk
    ensures r.Done? || stranded ==> Sub(vm.disk, vm.home + [archived]) == Sub(old(vm.disk), Root(vm.home))
    ensures stranded ==> r.Fault? && Root(vm.home) !in vm.disk
    ensures stranded && vm.alive ==> vm.Troubles(vm.drawn) >= vm.Troubles(old(vm.drawn)) + 2
    ensures !r.Done? && !stranded ==> Sub(vm.disk, Root(vm.home)) == Sub(old(vm.disk), Root(vm.home))
    ensures r.Refused? ==> !LoadAllowed(vm.env, vm.home, old(vm.disk), name)
    ensures r.Fault? ==> vm.faulted
    ensures vm.Drew(old(vm.Now()), vm.Now())
    ensures vm.Untroubled(old(vm.Now()), vm.Now()) ==> (r.Done? <==> LoadAllowed(vm.env, vm.home, old(vm.disk), name))
    ensures vm.meter.Valid() && Paced(old(vm.meter.Books()), vm.meter.Books(), !r.Fault?)
    ensures vm.meter.AffordableSince(old(vm.meter.Books()))
    ensures !vm.faulted ==> vm.meter.aborted == old(vm.meter.aborted) && vm.meter.missed == old(vm.meter.missed)
    ensures r.Done? ==> vm.meter.moved == old(vm.meter.moved) + 5 * StateBytes(Sub(old(vm.disk), Target(vm.home, name)))
  {
    hide Meter.Valid, TreeShaped, Kept, SameCheckpoints, Verifies, CopyOf, BesideKept, AlwaysSafe,
         Sub, Selectable, IsDir, Paced, StateBytes, Meter.AffordableSince, Host.Drew, Host.Untroubled, Host.Valid,
         Host.Troubles;
    vm.DrewNone(vm.Now());
    PacedSame(vm.meter.Books(), true);
    NothingDone(vm, RETAINED);
    r, archived, stranded := Refused, RETAINED, false;
    if Selectable(name) && IsDir(vm.disk, Root(vm.home)) {
      r, archived, stranded := Reload(vm, name);
    }
    vm.meter.Stretch(old(vm.meter.Books()), !r.Fault?);
    vm.DrewHealthy(old(vm.Now()), vm.Now());
  }

  lemma SafeThen(h: seq<Tree>, k: seq<Tree>, l: seq<Tree>, home: Path, archived: string, t: Tree)
    requires AlwaysSafe(h, k, home, archived, t) && AlwaysSafe(k, l, home, archived, t)
    ensures AlwaysSafe(h, l, home, archived, t)
  {
    hide StateSafe;
  }

  lemma RootStays(d: Tree, e: Tree, p: Path, q: Path)
    requires IsDir(d, p)
    ensures Sub(e, q) == Sub(d, p) ==> q in e
  {
    RootDirIs(d, p);
    RootDirIs(e, q);
  }

  lemma ReadyToSwap(vm: Host, staged: string, archived: string, c: Tree)
    requires vm.Valid() && IsDir(vm.disk, Root(vm.home)) && Sub(vm.disk, vm.home + [staged]) == CopyOf(c)
    requires RESTORING <= staged && RETAINED <= archived && GoodName(archived) && vm.home + [archived] !in vm.disk
    ensures Swappable(vm.disk, vm.home, staged, archived)
  {
    hide Sub;
    RootDirIs(vm.disk, vm.home + [staged]);
  }

  lemma NothingDone(vm: Host, archived: string)
    requires vm.Valid()
    ensures vm.history != [] && vm.history[|vm.history| - 1] == vm.disk
    ensures Kept(vm.env, vm.home, vm.history, vm.history, vm.disk, vm.disk, vm.home)
    ensures SameCheckpoints(vm.home, vm.disk, vm.disk) && BesideKept(vm.home, vm.disk, vm.disk)
    ensures AlwaysSafe(vm.history, vm.history, vm.home, archived, Sub(vm.disk, Root(vm.home)))
  {
  }
}
