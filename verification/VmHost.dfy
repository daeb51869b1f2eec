// The host that runs the checkpoint tool (scripts/windows_qemu_state.py): one disk, changed step by step.
// Any step may fail and the process may die at any step; `history` records every state the disk goes through.
module VmHost {
  import opened Text
  import opened Disks
  import opened Baseline
  import opened Pacing
  import opened VmCopies

  // How a step or a command ends: it is done, the tool itself refuses, or the environment failed it.
  datatype Outcome<+T> = Done(value: T) | Refused | Fault

  method Admit(entries: map<string, Option<string>>) returns (r: Outcome<Listing>)
    ensures !r.Fault?
    ensures r.Done? ==> Lift(r.value) == entries && r.value != map[]
    ensures r.Done? ==> forall name | name in r.value :: NameAllowed(name) && Hex64(r.value[name])
    ensures forall m: Listing |
              && m != map[] && Lift(m) == entries
              && (forall name | name in m :: NameAllowed(name) && Hex64(m[name])) :: r == Done(m)
  {
    if entries == map[] {
      assert forall m: Listing | Lift(m) == map[] :: m.Keys == Lift(m).Keys;
      return Refused;
    }
    if exists name | name in entries :: entries[name].None? {
      assert forall m: Listing | Lift(m) == entries :: m.Keys == Lift(m).Keys;
      return Refused;
    }
    var expected := map name | name in entries :: entries[name].value;
    LiftBack(entries, expected);
    if exists name | name in expected :: !NameAllowed(name) || !Hex64(expected[name]) { return Refused; }
    assert expected.Keys == entries.Keys;
    return Done(expected);
  }

  // What the environment does to one step: nothing, makes it fail, or kills the process in it.
  datatype Fate = Fine | Fails | Dies

  // How many fates have been drawn, whether the process lives, and whether any step of it was failed.
  datatype Condition = Condition(drawn: nat, alive: bool, faulted: bool)

  class Host {
    const home: Path
    const env: Env
    const meter: Meter
    const fates: nat -> Fate
    var disk: Tree
    var drawn: nat
    var alive: bool
    ghost var faulted: bool
    ghost var history: seq<Tree>

    constructor (home: Path, env: Env, disk: Tree, throttled: bool, fates: nat -> Fate)
      requires TreeShaped(disk)
      ensures Valid() && meter.Valid() && fresh(meter)
      ensures this.home == home && this.env == env && this.disk == disk && this.fates == fates && history == [disk]
      ensures drawn == 0 && alive && !faulted
    {
      this.home, this.env, this.disk, this.fates := home, env, disk, fates;
      drawn, alive, faulted, history := 0, true, false, [disk];
      meter := new Meter(throttled);
    }

    // How many of the first n fates are troubles.
    ghost function Troubles(n: nat): nat
    {
      if n == 0 then 0 else Troubles(n - 1) + if fates(n - 1).Fine? then 0 else 1
    }

    ghost function Now(): Condition
      reads `drawn, `alive, `faulted
    {
      Condition(drawn, alive, faulted)
    }

    // The process was healthy at a, and drew no trouble from a to b.
    ghost predicate Untroubled(a: Condition, b: Condition)
    {
      a.alive && !a.faulted && Troubles(b.drawn) == Troubles(a.drawn)
    }

    // Fates were drawn from a to b, and a healthy process stays healthy unless one of them was a trouble.
    ghost predicate Drew(a: Condition, b: Condition)
    {
      && a.drawn <= b.drawn && Troubles(a.drawn) <= Troubles(b.drawn)
      && (a.faulted ==> b.faulted) && (b.alive ==> a.alive)
      && (Untroubled(a, b) ==> b.alive && !b.faulted)
    }

    // A process that lives on has drawn a trouble from a to b.
    ghost predicate Hit(a: Condition, b: Condition)
    {
      b.alive ==> Troubles(a.drawn) < Troubles(b.drawn)
    }

    lemma DrewNone(a: Condition)
      ensures Drew(a, a)
    {
    }

    lemma DrewThen(a: Condition, b: Condition, c: Condition)
      requires Drew(a, b) && Drew(b, c)
      ensures Drew(a, c) && Troubles(a.drawn) <= Troubles(b.drawn) <= Troubles(c.drawn) && (b.faulted ==> c.faulted)
      ensures Hit(a, b) || Hit(b, c) ==> Hit(a, c)
    {
    }

    lemma HitMeans(a: Condition, b: Condition)
      requires Hit(a, b)
      ensures b.alive ==> Troubles(a.drawn) < Troubles(b.drawn)
    {
    }

    lemma DrewHealthy(a: Condition, b: Condition)
      requires Drew(a, b)
      ensures Untroubled(a, b) ==> b.alive && !b.faulted
      ensures a.drawn <= b.drawn && Troubles(a.drawn) <= Troubles(b.drawn)
    {
    }

    ghost predicate Valid()
      reads `disk, `history
    {
      TreeShaped(disk) && history != [] && history[|history| - 1] == disk
    }

    lemma GoodBelow(p: Path)
      requires Valid()
      ensures GoodTree(Sub(disk, p))
    {
      SubGood(disk, p);
    }

    // ---- single steps ------------------------------------------------------------------------------------------

    // The environment decides whether the next step fails, and whether the process dies with it.
    method Trouble() returns (t: bool)
      modifies `alive, `faulted, `drawn
      ensures drawn == old(drawn) + 1 && alive == (old(alive) && !fates(old(drawn)).Dies?)
      ensures t <==> !(old(alive) && fates(old(drawn)).Fine?)
      ensures t ==> faulted && Hit(old(Now()), Now())
      ensures !t ==> alive && faulted == old(faulted)
      ensures Drew(old(Now()), Now())
    {
      var fate := fates(drawn);
      t := !alive || !fate.Fine?;
      alive := alive && !fate.Dies?;
      drawn := drawn + 1;
      if t {
        faulted := true;
      }
    }

    // Opening a file for reading.
    method Readable(p: Path) returns (ok: bool)
      modifies `alive, `faulted, `drawn
      ensures ok ==> p in disk && disk[p].File?
      ensures !ok ==> (faulted && Hit(old(Now()), Now())) || p !in disk || !disk[p].File?
      ensures Drew(old(Now()), Now())
      ensures (ok ==> alive) && (alive ==> old(alive))
    {
      var trouble := Trouble();
      ok := !trouble && p in disk && disk[p].File?;
    }

    // mkdir, or an exclusive open: a new directory or a new empty file.
    method Make(p: Path, node: Node) returns (ok: bool)
      requires Valid() && p != []
      modifies `disk, `alive, `faulted, `drawn, `history
      ensures Valid() && Confined(old(history), history, old(disk), disk, p)
      ensures ok ==> CanCreate(old(disk), p) && disk == old(disk)[p := node] && history == old(history) + [disk]
      ensures !ok ==> disk == old(disk) && history == old(history)
      ensures !ok && CanCreate(old(disk), p) ==> faulted && Hit(old(Now()), Now())
      ensures Drew(old(Now()), Now())
      ensures (ok ==> alive) && (alive ==> old(alive))
    {
      var trouble := Trouble();
      ok := !trouble && CanCreate(disk, p);
      if ok {
        LeafShaped(disk, p, node);
        disk := disk[p := node];
        history := history + [disk];
      }
    }

    // Write at the end of an open file; when the write fails, any part of it may have reached the file.
    method Append(p: Path, block: Bytes) returns (ok: bool, written: nat)
      requires Valid() && p in disk && disk[p].File?
      modifies `disk, `alive, `faulted, `drawn, `history
      ensures Valid() && Confined(old(history), history, old(disk), disk, p)
      ensures written <= |block| && disk == old(disk)[p := File(old(disk)[p].data + block[..written])]
      ensures if ok then written == |block| else faulted && Hit(old(Now()), Now())
      ensures Drew(old(Now()), Now())
      ensures (ok ==> alive) && (alive ==> old(alive))
    {
      var trouble := Trouble();
      ok, written := !trouble, |block|;
      if !ok {
        var part: nat := *;
        written := if 0 <= part < |block| then part else |block|;
      }
      var data := disk[p].data + block[..written];
      RewrittenShaped(disk, p, data);
      disk := disk[p := File(data)];
      history := history + [disk];
    }

    // rename(2) of a directory.
    method Rename(a: Path, b: Path) returns (ok: bool)
      requires Valid()
      modifies `disk, `alive, `faulted, `drawn, `history
      ensures Valid()
      ensures ok ==> CanRename(old(disk), a, b) && disk == Renamed(old(disk), a, b)
      ensures ok ==> history == old(history) + [disk]
      ensures !ok ==> disk == old(disk) && history == old(history)
      ensures !ok && CanRename(old(disk), a, b) ==> faulted && Hit(old(Now()), Now())
      ensures Drew(old(Now()), Now())
    {
      var trouble := Trouble();
      ok := !trouble && CanRename(disk, a, b);
      if ok {
        RenamedShaped(disk, a, b);
        disk := ComputeRenamed(disk, a, b);
        history := history + [disk];
      }
    }

    // ---- copying and hashing, paced ----------------------------------------------------------------------------

    // One turn of the copy loop: read a block, write it, charge for both.
    method CopyBlock(dst: Path, block: Bytes, budget: IOBudget) returns (ok: bool)
      requires Valid() && dst in disk && disk[dst].File? && |block| <= IO_CHUNK && meter.PaidUpTo(budget.deadline)
      modifies `disk, `alive, `faulted, `drawn, `history, budget
      modifies meter`now, meter`slept, meter`moved, meter`aborted, meter`transfers, meter`log
      ensures Valid() && Confined(old(history), history, old(disk), disk, dst)
      ensures Drew(old(Now()), Now())
      ensures (ok ==> alive) && (alive ==> old(alive))
      ensures meter.Valid() && Paced(old(meter.Books()), meter.Books(), ok)
      ensures dst in disk && disk[dst].File? && old(disk)[dst].data <= disk[dst].data
      ensures 2 * (|disk[dst].data| - |old(disk)[dst].data|) <= meter.moved - old(meter.moved)
      ensures ok ==> disk == old(disk)[dst := File(old(disk)[dst].data + block)]
      ensures ok ==> meter.moved == old(meter.moved) + 2 * |block| && meter.PaidUpTo(budget.deadline)
      ensures !ok ==> faulted && Hit(old(Now()), Now())
      ensures disk.Keys == old(disk).Keys
    {
      hide Meter.Valid, Meter.PaidUpTo, TreeShaped, Paced, Drew, Hit;
      var trouble := Trouble();
      ghost var after := Now();
      var read, written := 0, 0;
      ok := !trouble;
      if ok {
        read := |block|;
        ok, written := Append(dst, block);
        DrewThen(old(Now()), after, Now());
        assert block[..|block|] == block;
      }
      budget.Account(meter, read, written, ok);
    }

    // The copy loop, into a new and empty file.
    method CopyData(dst: Path, data: Bytes, budget: IOBudget) returns (ok: bool)
      requires Valid() && dst in disk && disk[dst] == File([]) && meter.PaidUpTo(budget.deadline) && alive
      modifies `disk, `alive, `faulted, `drawn, `history, budget
      modifies meter`now, meter`slept, meter`moved, meter`aborted, meter`transfers, meter`log
      ensures Valid() && Confined(old(history), history, old(disk), disk, dst)
      ensures if ok then disk == old(disk)[dst := File(data)] else faulted && Hit(old(Now()), Now())
      ensures disk.Keys == old(disk).Keys
      ensures Drew(old(Now()), Now())
      ensures ok ==> alive
      ensures meter.Valid() && Paced(old(meter.Books()), meter.Books(), ok)
      ensures dst in disk && disk[dst].File? && 2 * |disk[dst].data| <= meter.moved - old(meter.moved)
      ensures ok ==> meter.moved == old(meter.moved) + 2 * |data|
    {
      hide Meter.Valid, Meter.PaidUpTo, TreeShaped, Paced, Confined, Drew, Hit;
      DrewNone(Now());
      ok := true;
      PacedSame(meter.Books(), true);
      ConfinedSame(history, disk, dst);
      meter.PaidIsValid(budget.deadline);
      NextPrefix(disk, dst, data, 0, |data|);
      var i := 0;
      while i < |data| && ok
        invariant i <= |data| && Valid()
        invariant if ok then disk == old(disk)[dst := File(data[..i])] && alive else faulted && Hit(old(Now()), Now())
        invariant disk.Keys == old(disk).Keys
        invariant Confined(old(history), history, old(disk), disk, dst)
        invariant Drew(old(Now()), Now())
        invariant Paced(old(meter.Books()), meter.Books(), ok) && meter.Valid()
        invariant ok ==> meter.moved == old(meter.moved) + 2 * i && meter.PaidUpTo(budget.deadline)
        invariant dst in disk && disk[dst].File? && 2 * |disk[dst].data| <= meter.moved - old(meter.moved)
        decreases |data| - i, ok
      {
        var n := if |data| - i < IO_CHUNK then |data| - i else IO_CHUNK;
        ghost var h1, d1, books, before := history, disk, meter.Books(), Now();
        ok := CopyBlock(dst, data[i..i + n], budget);
        DrewThen(old(Now()), before, Now());
        PacedThen(old(meter.Books()), books, meter.Books(), ok);
        ConfinedThen(old(history), h1, history, old(disk), d1, disk, dst, dst);
        if ok {
          NextPrefix(old(disk), dst, data, i, i + n);
          i := i + n;
        }
      }
    }

    // copy_file
    method CopyFile(src: Path, dst: Path) returns (ok: bool)
      requires Valid() && meter.Valid() && dst != []
      modifies `disk, `alive, `faulted, `drawn, `history
      modifies meter`now, meter`slept, meter`moved, meter`aborted, meter`transfers, meter`log
      ensures Valid() && Confined(old(history), history, old(disk), disk, dst)
      ensures ok ==> src in old(disk) && old(disk)[src].File? && disk == old(disk)[dst := old(disk)[src]]
      ensures !ok && src in old(disk) && old(disk)[src].File? && CanCreate(old(disk), dst) ==>
                faulted && Hit(old(Now()), Now())
      ensures disk.Keys <= old(disk).Keys + {dst}
      ensures Drew(old(Now()), Now())
      ensures (ok ==> alive) && (!old(alive) ==> !alive && meter.Books() == old(meter.Books()))
      ensures meter.Valid() && Paced(old(meter.Books()), meter.Books(), ok)
      ensures dst !in old(disk) && dst in disk ==>
                disk[dst].File? && 2 * |disk[dst].data| <= meter.moved - old(meter.moved)
      ensures ok ==> meter.moved == old(meter.moved) + 2 * |old(disk)[src].data|
    {
      hide Meter.Valid, Meter.PaidUpTo, TreeShaped, Paced, Confined, Drew, Hit;
      PacedSame(meter.Books(), false);
      ConfinedSame(history, disk, dst);
      ok := Readable(src);
      ghost var read := Now();
      if !ok { return; }
      ok := Make(dst, File([]));
      ghost var made := Now();
      DrewThen(old(Now()), read, made);
      if !ok { return; }
      ghost var h1, d1 := history, disk;
      var data := disk[src].data;
      var budget := new IOBudget(meter);
      ok := CopyData(dst, data, budget);
      DrewThen(old(Now()), made, Now());
      ConfinedThen(old(history), h1, history, old(disk), d1, disk, dst, dst);
    }

    // digest
    method Digest(p: Path) returns (r: Outcome<string>)
      requires p in disk && disk[p].File? && meter.Valid()
      modifies `alive, `faulted, `drawn
      modifies meter`now, meter`slept, meter`moved, meter`aborted, meter`transfers, meter`log
      ensures r.Done? ==> r.value == env.sha256(disk[p].data)
      ensures r.Done? ==> meter.moved == old(meter.moved) + |disk[p].data|
      ensures !r.Refused? && (r.Fault? ==> faulted)
      ensures Drew(old(Now()), Now())
      ensures meter.Valid() && Paced(old(meter.Books()), meter.Books(), r.Done?)
    {
      hide Meter.Valid, Meter.PaidUpTo, Paced, Drew, Hit, Troubles;
      PacedSame(meter.Books(), true);
      PacedSame(meter.Books(), false);
      var ok := Readable(p);
      if !ok { return Fault; }
      var data := disk[p].data;
      var budget := new IOBudget(meter);
      var seen: Bytes := [];
      while |seen| < |data|
        invariant |seen| <= |data| && seen == data[..|seen|]
        invariant Drew(old(Now()), Now())
        invariant Paced(old(meter.Books()), meter.Books(), true)
        invariant meter.moved == old(meter.moved) + |seen|
        invariant meter.Valid() && meter.PaidUpTo(budget.deadline) && fresh(budget)
      {
        var n := if |data| - |seen| < IO_CHUNK then |data| - |seen| else IO_CHUNK;
        ghost var books, before := meter.Books(), Now();
        var trouble := Trouble();
        DrewThen(old(Now()), before, Now());
        budget.Account(meter, if trouble then 0 else n, 0, !trouble);
        PacedThen(old(meter.Books()), books, meter.Books(), !trouble);
        if trouble { return Fault; }
        PrefixGrows(data, |seen|, n);
        seen := seen + data[|seen|..|seen| + n];
      }
      assert seen == data;
      return Done(env.sha256(seen));
    }

    // One entry of an inventory.
    method InventoryEntry(root: Path, q: Path, files: Listing, ghost t: Tree, ghost todo: set<Path>)
      returns (r: Outcome<Listing>)
      requires Valid() && meter.Valid() && t == Sub(disk, root) && q in t && q in todo && q != []
      requires GoodTree(t) && ListingSoFar(env, t, files, todo)
      modifies `alive, `faulted, `drawn
      modifies meter`now, meter`slept, meter`moved, meter`aborted, meter`transfers, meter`log
      ensures r.Done? ==> Plain(t[q]) && ListingSoFar(env, t, r.value, todo - {q})
      ensures r.Refused? ==> !Plain(t[q])
      ensures r.Fault? ==> faulted
      ensures Valid()
      ensures Drew(old(Now()), Now())
      ensures meter.Valid() && Paced(old(meter.Books()), meter.Books(), !r.Fault?)
      ensures r.Done? ==> meter.moved == old(meter.moved) + if q == MANIFEST then 0 else LengthAt(t, q)
    {
      hide Valid, Meter.Valid, ListingSoFar, GoodTree, Paced;
      PacedSame(meter.Books(), true);
      assert root + q in disk;
      var node := disk[root + q];
      if !Plain(node) { return Refused; }
      if node.File? && q != MANIFEST {
        var h := Digest(root + q);
        if h.Fault? { return Fault; }
        ListOneMore(env, t, files, todo, q);
        return Done(files[Join(q) := h.value]);
      }
      SkipOne(env, t, files, todo, q);
      return Done(files);
    }

    // inventory: entries are visited in any order.
    method Inventory(root: Path) returns (r: Outcome<Listing>)
      requires Valid() && meter.Valid()
      modifies `alive, `faulted, `drawn
      modifies meter`now, meter`slept, meter`moved, meter`aborted, meter`transfers, meter`log
      ensures r.Done? ==> Ordinary(Sub(disk, root)) && IsListing(env, Sub(disk, root), r.value)
      ensures r.Refused? ==> !Ordinary(Sub(disk, root))
      ensures r.Fault? ==> faulted
      ensures Valid()
      ensures Drew(old(Now()), Now())
      ensures meter.Valid() && Paced(old(meter.Books()), meter.Books(), !r.Fault?)
      ensures r.Done? ==> meter.moved == old(meter.moved) + HashedBytes(Sub(disk, root))
    {
      hide Valid, Meter.Valid, IsListing, ListingSoFar, GoodTree, PlainSoFar, Ordinary, AreTails, Sub, Paced, Drew;
      DrewNone(Now());
      PacedSame(meter.Books(), true);
      ghost var t := Sub(disk, root);
      GoodBelow(root);
      NothingListed(env, t);
      PlainStart(t);
      var tails := ListTails(disk, root);
      TailsAreKeys(disk, root, tails);
      var todo := tails - {[]};
      var files: Listing := map[];
      HashedStart(t, tails);
      while todo != {}
        invariant Valid() && todo <= tails - {[]}
        invariant PlainSoFar(t, todo)
        invariant ListingSoFar(env, t, files, todo)
        invariant Drew(old(Now()), Now())
        invariant meter.Valid() && Paced(old(meter.Books()), meter.Books(), true)
        invariant meter.moved == old(meter.moved) + FileBytes(t, tails - {[], MANIFEST} - todo)
        decreases |todo|
      {
        var q :| q in todo;
        ghost var books, before := meter.Books(), Now();
        r := InventoryEntry(root, q, files, t, todo);
        DrewThen(old(Now()), before, Now());
        PacedThen(old(meter.Books()), books, meter.Books(), !r.Fault?);
        PlainStep(t, todo, q);
        HashedStep(t, tails, todo, q);
        if !r.Done? { return; }
        files, todo := r.value, todo - {q};
      }
      AllListed(env, t, files);
      PlainAll(t);
      assert tails - {[], MANIFEST} - todo == tails - {[], MANIFEST};
      return Done(files);
    }

    // The manifest as verify reads it.
    method ReadManifest(root: Path) returns (r: Outcome<Listing>)
      modifies `alive, `faulted, `drawn
      ensures r.Done? ==> Declares(env, Sub(disk, root), r.value)
      ensures !r.Fault? ==> forall m | Declares(env, Sub(disk, root), m) :: r == Done(m)
      ensures r.Fault? ==> faulted
      ensures Drew(old(Now()), Now())
    {
      ghost var t := Sub(disk, root);
      var manifest := root + MANIFEST;
      assert root + [] == root;
      assert [] in t <==> root + [] in disk;
      assert MANIFEST in t <==> manifest in disk;
      if !IsDir(disk, root) || manifest !in disk || !disk[manifest].File? { return Refused; }
      var ok := Readable(manifest);
      if !ok { return Fault; }
      var parsed := env.loads(disk[manifest].data);
      if parsed.None? { return Refused; }
      r := Admit(parsed.value);
    }

    method AllPresent(root: Path, names: seq<string>) returns (all: bool)
      ensures all <==> forall name | name in names :: [name] in Sub(disk, root)
    {
      for i := 0 to |names|
        invariant forall j | 0 <= j < i :: [names[j]] in Sub(disk, root)
      {
        assert [names[i]] in Sub(disk, root) <==> root + [names[i]] in disk;
        if root + [names[i]] !in disk { return false; }
      }
      return true;
    }

    // verify
    method Verify(root: Path) returns (r: Outcome<Listing>)
      requires Valid() && meter.Valid()
      modifies `alive, `faulted, `drawn
      modifies meter`now, meter`slept, meter`moved, meter`aborted, meter`transfers, meter`log
      ensures r.Done? ==> Verified(env, Sub(disk, root), r.value)
      ensures r.Refused? ==> !Verifies(env, Sub(disk, root))
      ensures r.Fault? ==> faulted
      ensures Valid()
      ensures Drew(old(Now()), Now())
      ensures meter.Valid() && Paced(old(meter.Books()), meter.Books(), !r.Fault?)
      ensures r.Done? ==> meter.moved == old(meter.moved) + HashedBytes(Sub(disk, root))
    {
      hide Meter.Valid, TreeShaped, IsListing, Declares, Ordinary, Paced, HashedBytes;
      PacedSame(meter.Books(), true);
      PacedSame(meter.Books(), false);
      ghost var t := Sub(disk, root);
      r := ReadManifest(root);
      if !r.Done? { return; }
      var expected := r.value;
      r := Inventory(root);
      if !r.Done? { return; }
      if r.value != expected {
        OtherListing(env, t, r.value, expected);
        return Refused;
      }
      var complete := AllPresent(root, STATE);
      if !complete { return Refused; }
    }

    // shutil.copytree with copy_file: parents first, otherwise in any order.  An entry that fails does not stop the
    // others; the whole copy then fails at the end.  It went on without the `lost` files, whose transfers had begun.
    method CopyTree(src: Path, dst: Path) returns (ok: bool, ghost lost: set<Path>, ghost spoiled: set<Path>)
      requires Valid() && meter.Valid() && dst != [] && Apart(src, dst)
      requires IsDir(disk, src) && forall q | q in Sub(disk, src) :: Plain(Sub(disk, src)[q])
      modifies `disk, `alive, `faulted, `drawn, `history
      modifies meter`now, meter`slept, meter`moved, meter`aborted, meter`missed, meter`transfers, meter`log
      ensures Valid() && Confined(old(history), history, old(disk), disk, dst)
      ensures ok ==> HoldsTree(disk, dst, Sub(old(disk), src), Sub(old(disk), src).Keys)
      ensures !ok ==> faulted || !CanCreate(old(disk), dst)
      ensures Drew(old(Now()), Now())
      ensures meter.Valid() && Paced(old(meter.Books()), meter.Books(), ok)
      ensures meter.missed == old(meter.missed) + |lost|
      ensures meter.aborted <= old(meter.aborted) + |lost| + if alive then 0 else 1
      ensures forall q | q in lost :: q in Sub(old(disk), src) && Sub(old(disk), src)[q].File?
      ensures ok ==> lost == {} && meter.moved == old(meter.moved) + 2 * TreeBytes(Sub(old(disk), src))
      ensures IsDir(disk, dst) && dst !in old(disk) ==>
                forall q | Spoiled(disk, dst, Sub(old(disk), src), q) :: q in spoiled
      ensures alive ==> Troubles(old(drawn)) + |spoiled| <= Troubles(drawn)
    {
      hide Meter.Valid, TreeShaped, HoldsTree, Confined, Apart, AreTails, Paced, TreeTally, TreeBytes, Sub;
      lost, spoiled := {}, {};
      PacedSame(meter.Books(), false);
      ghost var t := Sub(disk, src);
      assert src + [] == src && [] in t;
      var tails := ListTails(disk, src);
      TailsAreKeys(disk, src, tails);
      if CanCreate(disk, dst) {
        HoldsRoot(disk, dst, t);
      }
      ok := Make(dst, Dir);
      if !ok { return; }
      ghost var made := Now();
      ok, lost, spoiled := CopyEntries(src, dst, tails, old(disk), old(history), t);
      DrewThen(old(Now()), made, Now());
      HandledAll(disk, dst, t, spoiled);
      TreeTallyEnd(t, lost, old(meter.Books()), meter.Books(), ok, alive);
    }

    // The entries below a tree's root, once the root has been made.
    method CopyEntries(src: Path, dst: Path, tails: set<Path>, ghost d0: Tree, ghost h0: seq<Tree>, ghost t: Tree)
      returns (ok: bool, ghost lost: set<Path>, ghost spoiled: set<Path>)
      requires Valid() && meter.Valid() && TreeShaped(d0) && Apart(src, dst) && Confined(h0, history, d0, disk, dst)
      requires t == Sub(d0, src) && tails == t.Keys && IsDir(t, []) && HoldsTree(disk, dst, t, {[]}) && alive
      requires forall q | q in t :: Plain(t[q])
      modifies `disk, `alive, `faulted, `drawn, `history
      modifies meter`now, meter`slept, meter`moved, meter`aborted, meter`missed, meter`transfers, meter`log
      ensures Valid() && Confined(h0, history, d0, disk, dst)
      ensures if ok then HoldsTree(disk, dst, t, t.Keys) else faulted
      ensures Drew(old(Now()), Now())
      ensures meter.Valid() && TreeTally(t, t.Keys, lost, old(meter.Books()), meter.Books(), ok, alive)
      ensures Handled(disk, dst, t, t.Keys, spoiled)
      ensures alive ==> Troubles(old(drawn)) + |spoiled| <= Troubles(drawn)
    {
      hide Meter.Valid, TreeShaped, HoldsTree, Confined, Apart, TreeTally, Parted, Sub, Drew, Handled, Hit, Troubles,
           SameOutside;
      DrewNone(Now());
      HandledStart(disk, dst, t);
      ok, lost, spoiled := true, {}, {};
      var todo := tails - {[]};
      ghost var done: set<Path> := {[]};
      AllBut(tails, []);
      TreeTallyStart(t, meter.Books());
      while todo != {}
        invariant Parted(tails, todo, done) && [] in done
        invariant Valid() && Confined(h0, history, d0, disk, dst)
        invariant if ok then HoldsTree(disk, dst, t, done) else faulted
        invariant Drew(old(Now()), Now())
        invariant meter.Valid() && TreeTally(t, done, lost, old(meter.Books()), meter.Books(), ok, alive)
        invariant Handled(disk, dst, t, done, spoiled)
        invariant alive ==> Troubles(old(drawn)) + |spoiled| <= Troubles(drawn)
        decreases |todo|
      {
        PartedMeans(tails, todo, done, []);
        MinimalExists(todo);
        var q :| q in todo && Parent(q) !in todo;
        PartedMeans(tails, todo, done, q);
        PartedMeans(tails, todo, done, Parent(q));
        ghost var books, before, d1 := meter.Books(), Now(), disk;
        HandledNext(disk, dst, t, done, spoiled, q);
        CanMake(d0, disk, src, dst, q);
        var copied := CopyEntry(src + q, dst + q, d0, h0, src, dst, q, t, done, ok);
        HandledStep(d1, disk, dst, t, done, spoiled, q, copied);
        if !copied && IsDir(d1, dst + Parent(q)) {
          HitMeans(before, Now());
          spoiled := spoiled + {q};
        }
        DrewThen(old(Now()), before, Now());
        TreeTallyStep(t, done, lost, old(meter.Books()), books, meter.Books(), ok, before.alive, copied, alive, q);
        OneOver(tails, todo, done, q);
        done, lost := done + {q}, if meter.missed == books.missed then lost else lost + {q};
        ok := ok && copied;
        todo := todo - {q};
      }
      NoneLeft(tails, done);
    }

    // One entry of a tree, whose parent directory has been copied before it.
    method CopyEntry(from: Path, to: Path, ghost d0: Tree, ghost h0: seq<Tree>, ghost src: Path, ghost dst: Path,
                     ghost q: Path, ghost t: Tree, ghost done: set<Path>, ghost intact: bool)
      returns (ok: bool)
      requires Valid() && meter.Valid() && from == src + q && to == dst + q && q != []
      requires TreeShaped(d0) && t == Sub(d0, src) && q in t && Plain(t[q]) && q !in done && Parent(q) !in t.Keys - done
      requires Apart(src, dst) && Confined(h0, history, d0, disk, dst)
      requires intact ==> HoldsTree(disk, dst, t, done)
      modifies `disk, `alive, `faulted, `drawn, `history
      modifies meter`now, meter`slept, meter`moved, meter`aborted, meter`missed, meter`transfers, meter`log
      ensures Valid() && Confined(h0, history, d0, disk, dst)
      ensures ok && intact ==> HoldsTree(disk, dst, t, done + {q})
      ensures !ok && intact ==> faulted
      ensures SameOutside(old(disk), disk, to) && disk.Keys <= old(disk).Keys + {to}
      ensures ok ==> to in disk && disk[to] == t[q]
      ensures !ok && to !in old(disk) && IsDir(old(disk), dst + Parent(q)) ==> Hit(old(Now()), Now())
      ensures Drew(old(Now()), Now())
      ensures (ok ==> alive) && (!old(alive) ==> !alive && meter.Books() == old(meter.Books()))
      ensures meter.Valid() && Tallied(old(meter.Books()), meter.Books(), if alive then 0 else 1)
      ensures meter.missed == old(meter.missed) || (meter.missed == old(meter.missed) + 1 && !ok && t[q].File?)
      ensures ok ==> meter.moved == old(meter.moved) + 2 * LengthAt(t, q)
    {
      hide Meter.Valid, TreeShaped, HoldsTree, Tallied;
      TalliedSame(meter.Books(), 0);
      TalliedSame(meter.Books(), 1);
      SourceKept(d0, disk, src, dst, q);
      CanMake(d0, disk, src, dst, q);
      if intact {
        NextEntry(d0, disk, src, dst, t, done, q);
      }
      if disk[from].Dir? {
        ok := Make(to, Dir);
      } else {
        ok := CopyFile(from, to);
        ghost var books := meter.Books();
        if books.aborted > old(meter.aborted) && alive {
          meter.Miss();
        }
        FileTallied(old(meter.Books()), books, ok, alive);
      }
      ConfinedThen(h0, old(history), history, d0, old(disk), disk, dst, to);
    }

    // The body of copy_state's loop, for one entry.
    method CopyNamed(src: Path, dst: Path, name: string) returns (r: Outcome<()>)
      requires Valid() && meter.Valid() && IsDir(disk, dst) && Apart(src, dst) && dst + [name] !in disk
      modifies `disk, `alive, `faulted, `drawn, `history
      modifies meter`now, meter`slept, meter`moved, meter`aborted, meter`missed, meter`transfers, meter`log
      ensures Valid() && Confined(old(history), history, old(disk), disk, dst + [name])
      ensures r.Done? ==> PlainPart(Sub(old(disk), src), name) && SamePart(disk, dst, Sub(old(disk), src), name)
      ensures r.Refused? ==> !PlainPart(Sub(old(disk), src), name)
      ensures r.Fault? ==> faulted
      ensures Drew(old(Now()), Now())
      ensures meter.Valid() && Paced(old(meter.Books()), meter.Books(), !r.Fault?)
      ensures !IsDir(old(disk), src + [name]) ==> meter.missed == old(meter.missed)
      ensures r.Done? ==> meter.moved == old(meter.moved) + 2 * TreeBytes(Sub(old(disk), src + [name]))
    {
      hide Meter.Valid, TreeShaped, HoldsTree, SamePart, Paced;
      PacedSame(meter.Books(), true);
      var path := src + [name];
      ghost var t := Sub(disk, src);
      assert [name] in t <==> path in disk;
      if path !in disk || !Plain(disk[path]) { return Refused; }
      PartIsSub(disk, src, name);
      GoodPath(disk, src, [name], 0);
      assert Parent(dst + [name]) == dst && CanCreate(disk, dst + [name]);
      assert Apart(path, dst + [name]) by {
        ApartBelow(dst, src, path);
        ApartBelow(path, dst, dst + [name]);
      }
      var ok;
      if disk[path].Dir? {
        var tails := ListTails(disk, path);
        if exists q | q in tails :: !Plain(disk[path + q]) {
          var q :| q in tails && !Plain(disk[path + q]);
          assert q in Sub(disk, path);
          return Refused;
        }
        forall q | q in Sub(disk, path)
          ensures Plain(Sub(disk, path)[q])
        {
          assert q in tails;
        }
        ghost var lost, spoiled;
        ok, lost, spoiled := CopyTree(path, dst + [name]);
        if ok {
          TreeIsPart(disk, dst, old(disk), src, name);
        }
      } else {
        FileAlone(disk, path);
        HoldsFile(disk, dst + [name], Sub(disk, path));
        FileAloneBytes(disk[path]);
        ok := CopyFile(path, dst + [name]);
        if ok {
          TreeIsPart(disk, dst, old(disk), src, name);
        }
      }
      return if ok then Done(()) else Fault;
    }

    // copy_state
    method CopyState(src: Path, dst: Path) returns (r: Outcome<()>)
      requires Valid() && meter.Valid() && IsDir(disk, dst) && Apart(src, dst)
      requires HoldsPart(disk, dst, Sub(disk, src), [])
      modifies `disk, `alive, `faulted, `drawn, `history
      modifies meter`now, meter`slept, meter`moved, meter`aborted, meter`missed, meter`transfers, meter`log
      ensures Valid() && Confined(old(history), history, old(disk), disk, dst)
      ensures r.Done? ==> Copyable(Sub(old(disk), src)) && Sub(disk, dst) == CopyOf(Sub(old(disk), src))
      ensures r.Refused? ==> !Copyable(Sub(old(disk), src))
      ensures r.Fault? ==> faulted
      ensures Drew(old(Now()), Now())
      ensures meter.Valid() && Paced(old(meter.Books()), meter.Books(), !r.Fault?)
      ensures meter.AffordableSince(old(meter.Books()))
      ensures !faulted ==> meter.aborted == old(meter.aborted) && meter.missed == old(meter.missed)
      ensures r.Done? ==> meter.moved == old(meter.moved) + 2 * StateBytes(Sub(old(disk), src))
    {
      hide Meter.Valid, Meter.AffordableSince, TreeShaped, Confined, HoldsPart, PlainPart, Copyable, CopyOf, StateBytes;
      hide Apart, Paced;
      r := CopyNames(src, dst, STATE);
      ghost var t := Sub(old(disk), src);
      CopyableParts(t);
      NamedState(t);
      meter.Stretch(old(meter.Books()), !r.Fault?);
      if r.Done? {
        PartIsCopy(disk, dst, t);
      }
    }

    method CopyNames(src: Path, dst: Path, names: seq<string>) returns (r: Outcome<()>)
      requires Valid() && meter.Valid() && IsDir(disk, dst) && Apart(src, dst)
      requires HoldsPart(disk, dst, Sub(disk, src), [])
      requires forall i, j | 0 <= i < j < |names| :: names[i] != names[j]
      modifies `disk, `alive, `faulted, `drawn, `history
      modifies meter`now, meter`slept, meter`moved, meter`aborted, meter`missed, meter`transfers, meter`log
      ensures Valid() && Confined(old(history), history, old(disk), disk, dst)
      ensures r.Done? ==> HoldsPart(disk, dst, Sub(old(disk), src), names)
      ensures r.Done? ==> forall name | name in names :: PlainPart(Sub(old(disk), src), name)
      ensures r.Refused? ==> exists name | name in names :: !PlainPart(Sub(old(disk), src), name)
      ensures r.Fault? ==> faulted
      ensures Drew(old(Now()), Now())
      ensures meter.Valid() && Paced(old(meter.Books()), meter.Books(), !r.Fault?)
      ensures r.Done? ==>
                var t := Sub(old(disk), src); meter.moved == old(meter.moved) + 2 * FileBytes(t, Named(t, names))
    {
      hide Meter.Valid, TreeShaped, PlainPart, SamePart, Paced, Named, Drew, HoldsPart, Sub, FileBytes;
      DrewNone(Now());
      PacedSame(meter.Books(), true);
      ghost var t := Sub(disk, src);
      assert names[..0] == [];
      NamedState(t);
      for i := 0 to |names|
        invariant Valid() && Confined(old(history), history, old(disk), disk, dst)
        invariant HoldsPart(disk, dst, t, names[..i])
        invariant forall j | 0 <= j < i :: PlainPart(t, names[j])
        invariant Drew(old(Now()), Now())
        invariant meter.Valid() && Paced(old(meter.Books()), meter.Books(), true)
        invariant meter.moved == old(meter.moved) + 2 * FileBytes(t, Named(t, names[..i]))
      {
        PartReady(disk, dst, t, names[..i], names[i]);
        SubFrame(old(disk), disk, dst, src);
        ghost var h1, d1, books, before := history, disk, meter.Books(), Now();
        r := CopyNamed(src, dst, names[i]);
        DrewThen(old(Now()), before, Now());
        PacedThen(old(meter.Books()), books, meter.Books(), !r.Fault?);
        ConfinedThen(old(history), h1, history, old(disk), d1, disk, dst, dst + [names[i]]);
        if !r.Done? { return; }
        SubFrame(old(disk), d1, dst, src + [names[i]]);
        NamedBytes(old(disk), src, names[i]);
        NamedMore(t, names[..i], names[i]);
        PartStep(d1, disk, dst, t, names[..i], names[i]);
        assert names[..i] + [names[i]] == names[..i + 1];
      }
      assert names[..|names|] == names;
      return Done(());
    }
  }

  // A name with this prefix that is not in use: the random part of a temporary or retained name.
  method FreeName(d: Tree, dir: Path, prefix: string) returns (name: string)
    requires GoodName(prefix)
    ensures prefix <= name && GoodName(name) && dir + [name] !in d
  {
    hide GoodName;
    var random: string := *;
    name := if GoodName(prefix + random) then prefix + random else prefix;
    ghost var left := d.Keys;
    while dir + [name] in d
      invariant prefix <= name && GoodName(name)
      invariant Untried(d.Keys, left, dir, |name|)
      decreases |left|
    {
      FewerLeft(d.Keys, left, dir, name);
      LongerGood(name);
      left := left - {dir + [name]};
      name := name + "x";
    }
  }

  // Among these, no name of n characters or more has been tried.
  ghost predicate Untried(all: set<Path>, left: set<Path>, dir: Path, n: nat)
  {
    left <= all && forall x {:trigger dir + [x]} | |x| >= n && dir + [x] in all :: dir + [x] in left
  }

  lemma FewerLeft(all: set<Path>, left: set<Path>, dir: Path, name: string)
    requires Untried(all, left, dir, |name|) && dir + [name] in all
    ensures dir + [name] in left && Untried(all, left - {dir + [name]}, dir, |name| + 1)
  {
    forall x | |x| >= |name| + 1 && dir + [x] in all
      ensures dir + [x] in left - {dir + [name]}
    {
      assert (dir + [x])[|dir|] == x && (dir + [name])[|dir|] == name;
    }
  }

  lemma LongerGood(name: string)
    requires GoodName(name)
    ensures GoodName(name + "x")
  {
    assert (name + "x")[|name|] == 'x';
  }

  // tempfile.mkdtemp: a new empty directory whose name starts with the prefix.
  method Mkdtemp(vm: Host, dir: Path, prefix: string) returns (r: Outcome<string>)
    requires vm.Valid() && IsDir(vm.disk, dir) && GoodName(prefix)
    modifies vm`disk, vm`alive, vm`faulted, vm`drawn, vm`history
    ensures vm.Valid() && old(vm.history) <= vm.history
    ensures r.Done? ==> prefix <= r.value && CanCreate(old(vm.disk), dir + [r.value])
    ensures r.Done? ==> vm.disk == old(vm.disk)[dir + [r.value] := Dir]
    ensures r.Done? ==> Sub(vm.disk, dir + [r.value]) == map[[] := Dir]
    ensures r.Done? ==>
              Confined(old(vm.history), vm.history, old(vm.disk), vm.disk, dir + [r.value])
    ensures !r.Done? ==> r.Fault? && vm.faulted && vm.disk == old(vm.disk) && vm.history == old(vm.history)
    ensures vm.Drew(old(vm.Now()), vm.Now())
  {
    var name := FreeName(vm.disk, dir, prefix);
    assert Parent(dir + [name]) == dir;
    SubNew(vm.disk, dir + [name], Dir);
    var ok := vm.Make(dir + [name], Dir);
    return if ok then Done(name) else Fault;
  }
}
