// Where checkpoints, staging directories and the working VM lie, and what every step of a command keeps
// (scripts/windows_qemu_state.py).
module VmPlaces {
  import opened Disks
  import opened Baseline
  import opened VmCopies

  const ROOT_NAME: string := "windows11-fluxheim-vm"
  const BASELINES_NAME: string := "windows11-fluxheim-baselines"
  const INCOMPLETE: string := ".incomplete-"
  const RESTORING: string := ".fluxheim-restore-"
  const RETAINED: string := "windows11-fluxheim-vm-retained-"

  function Root(home: Path): Path { home + [ROOT_NAME] }

  function Base(home: Path): Path { home + [BASELINES_NAME] }

  function Target(home: Path, name: string): Path { Base(home) + [name] }

  // ---- what every step keeps ---------------------------------------------------------------------------------

  // From d to e no checkpoint is lost or changed, and every new one verifies.
  ghost predicate Preserves(env: Env, home: Path, d: Tree, e: Tree)
  {
    forall n {:trigger Selectable(n)} | Selectable(n) ::
      && (Target(home, n) in d ==> Target(home, n) in e && Sub(e, Target(home, n)) == Sub(d, Target(home, n)))
      && (Target(home, n) in e && Target(home, n) !in d ==> Verifies(env, Sub(e, Target(home, n))))
  }

  // The same checkpoints, each with the same contents.
  ghost predicate SameCheckpoints(home: Path, d: Tree, e: Tree)
  {
    forall n {:trigger Selectable(n)} | Selectable(n) ::
      (Target(home, n) in d <==> Target(home, n) in e) && Sub(e, Target(home, n)) == Sub(d, Target(home, n))
  }

  lemma SameCheckpointsTrans(home: Path, d: Tree, e: Tree, f: Tree)
    requires SameCheckpoints(home, d, e) && SameCheckpoints(home, e, f)
    ensures SameCheckpoints(home, d, f)
  {
  }

  lemma PreservesTrans(env: Env, home: Path, d: Tree, e: Tree, f: Tree)
    requires Preserves(env, home, d, e) && Preserves(env, home, e, f)
    ensures Preserves(env, home, d, f)
  {
  }

  // Between any two states of the history from `from` on, in order.
  ghost predicate Chain(env: Env, home: Path, h: seq<Tree>, from: nat)
  {
    forall i, j | from <= i <= j < |h| :: Preserves(env, home, h[i], h[j])
  }

  // p lies apart from every place a checkpoint can be selected at.
  ghost predicate OffLimits(home: Path, p: Path)
  {
    forall n {:trigger Selectable(n)} | Selectable(n) :: Apart(p, Target(home, n))
  }

  lemma SameOutsidePreserves(env: Env, home: Path, d: Tree, e: Tree, p: Path)
    requires SameOutside(d, e, p) && OffLimits(home, p)
    ensures SameCheckpoints(home, d, e) && Preserves(env, home, d, e)
  {
    forall n | Selectable(n)
      ensures Target(home, n) in d <==> Target(home, n) in e
      ensures Sub(e, Target(home, n)) == Sub(d, Target(home, n))
    {
      SubFrame(d, e, p, Target(home, n));
    }
  }

  lemma ChainConfined(env: Env, home: Path, h: seq<Tree>, k: seq<Tree>, from: nat, d: Tree, e: Tree, p: Path)
    requires from < |h| && h[|h| - 1] == d && Chain(env, home, h, from)
    requires Confined(h, k, d, e, p) && OffLimits(home, p)
    ensures Chain(env, home, k, from)
  {
    forall i, j | from <= i <= j < |k|
      ensures Preserves(env, home, k[i], k[j])
    {
      if j < |h| {
        assert k[i] == h[i] && k[j] == h[j];
      } else if i < |h| {
        assert k[i] == h[i];
        assert Preserves(env, home, h[i], h[|h| - 1]);
        SameOutsidePreserves(env, home, d, k[j], p);
        PreservesTrans(env, home, k[i], d, k[j]);
      } else {
        assert SameOutside(k[i], k[j], p);
        SameOutsidePreserves(env, home, k[i], k[j], p);
      }
    }
  }

  lemma ChainOne(env: Env, home: Path, h: seq<Tree>)
    requires h != []
    ensures Chain(env, home, h, |h| - 1)
  {
  }

  lemma ChainPush(env: Env, home: Path, h: seq<Tree>, from: nat, e: Tree)
    requires from < |h| && Chain(env, home, h, from) && Preserves(env, home, h[|h| - 1], e)
    ensures Chain(env, home, h + [e], from)
  {
  }

  lemma ChainJoin(env: Env, home: Path, h: seq<Tree>, k: seq<Tree>, from: nat)
    requires from < |h| && h <= k && Chain(env, home, h, from) && Chain(env, home, k, |h| - 1)
    ensures Chain(env, home, k, from)
  {
    hide Preserves;
    forall i, j | from <= i <= j < |k|
      ensures Preserves(env, home, k[i], k[j])
    {
      assert i < |h| ==> k[i] == h[i];
      assert k[|h| - 1] == h[|h| - 1];
      if i < |h| - 1 {
        if j < |h| {
          assert k[j] == h[j];
        } else {
          assert Preserves(env, home, h[i], h[|h| - 1]) && Preserves(env, home, k[|h| - 1], k[j]);
          PreservesTrans(env, home, k[i], k[|h| - 1], k[j]);
        }
      }
    }
  }

  // What a command has done to the disk so far: all its states, from the one it started in, keep the checkpoints,
  // and everything outside `zone` is as it was.
  ghost predicate Kept(env: Env, home: Path, h: seq<Tree>, k: seq<Tree>, d: Tree, e: Tree, zone: Path)
  {
    h != [] && Confined(h, k, d, e, zone) && Chain(env, home, k, |h| - 1)
  }

  lemma KeptThen(env: Env, home: Path, h: seq<Tree>, k: seq<Tree>, l: seq<Tree>, d: Tree, e: Tree, f: Tree, zone: Path)
    requires Kept(env, home, h, k, d, e, zone) && Kept(env, home, k, l, e, f, zone)
    ensures Kept(env, home, h, l, d, f, zone)
  {
    hide Chain;
    ConfinedThen(h, k, l, d, e, f, zone, zone);
    ChainJoin(env, home, k, l, |h| - 1);
  }

  lemma StepKept(env: Env, home: Path, h: seq<Tree>, k: seq<Tree>, d: Tree, e: Tree, zone: Path)
    requires h != [] && h[|h| - 1] == d
    requires (k == h && d == e) || (k == h + [e] && Preserves(env, home, d, e) && SameOutside(d, e, zone))
    ensures Kept(env, home, h, k, d, e, zone)
  {
    hide Chain, Preserves;
    ChainOne(env, home, h);
    if k == h + [e] {
      ChainPush(env, home, h, |h| - 1, e);
    }
  }

  // ---- where things lie --------------------------------------------------------------------------------------

  lemma Siblings(dir: Path, a: string, b: string)
    requires a != b
    ensures Apart(dir + [a], dir + [b])
  {
    assert (dir + [a])[|dir|] == a && (dir + [b])[|dir|] == b;
  }

  // No staging directory of a checkpoint can ever be selected.
  lemma IncompleteNeverSelectable(home: Path, name: string)
    requires INCOMPLETE <= name
    ensures !Selectable(name) && OffLimits(home, Base(home) + [name])
  {
    assert name[0] == INCOMPLETE[0] == '.';
    forall n | Selectable(n)
      ensures Apart(Base(home) + [name], Target(home, n))
    {
      Siblings(Base(home), name, n);
    }
  }

  lemma BesideBaselines(home: Path, name: string)
    requires name != BASELINES_NAME
    ensures OffLimits(home, home + [name])
  {
    Siblings(home, name, BASELINES_NAME);
    forall n | Selectable(n)
      ensures Apart(home + [name], Target(home, n))
    {
      ApartBelow(home + [name], Base(home), Target(home, n));
    }
  }

  lemma WorkingNames(name: string)
    requires RESTORING <= name || RETAINED <= name
    ensures name != BASELINES_NAME && name != ROOT_NAME && ROOT_NAME != BASELINES_NAME
    ensures RESTORING <= name ==> !(RETAINED <= name)
  {
    assert RESTORING <= name ==> name[0] == RESTORING[0];
    assert RETAINED <= name ==> name[19] == RETAINED[19];
    assert BASELINES_NAME[19] == 'b' && RETAINED[19] == 'v' && ROOT_NAME[19] == 'v';
    assert RETAINED[0] == 'w' && ROOT_NAME[0] == 'w' && BASELINES_NAME[0] == 'w' && RESTORING[0] == '.';
    assert |ROOT_NAME| == 21 && |RETAINED| == 31;
  }

  lemma PrefixesGood()
    ensures GoodName(INCOMPLETE) && GoodName(RESTORING) && GoodName(RETAINED)
  {
  }

  lemma InsideDir(d: Tree, dir: Path, name: string)
    requires TreeShaped(d) && dir + [name] in d
    ensures IsDir(d, dir)
  {
    assert Placed(d, dir + [name]) && Parent(dir + [name]) == dir;
  }

  // Creating the baselines directory.
  lemma BaseMadePreserves(env: Env, home: Path, d: Tree)
    requires TreeShaped(d) && Base(home) !in d
    ensures SameCheckpoints(home, d, d[Base(home) := Dir]) && Preserves(env, home, d, d[Base(home) := Dir])
  {
    var e := d[Base(home) := Dir];
    forall n | Selectable(n)
      ensures Target(home, n) !in d && Target(home, n) !in e
      ensures Sub(e, Target(home, n)) == Sub(d, Target(home, n))
    {
      forall q: Path
        ensures Target(home, n) + q !in d && Target(home, n) + q != Base(home)
      {
        NothingBelowMissing(d, Base(home), Target(home, n) + q);
      }
      NothingBelowMissing(d, Base(home), Target(home, n));
      assert Sub(e, Target(home, n)).Keys == {} == Sub(d, Target(home, n)).Keys;
    }
  }

  lemma SiblingRename(d: Tree, dir: Path, x: string, y: string)
    requires TreeShaped(d) && x != y && IsDir(d, dir + [x]) && dir + [y] !in d && GoodName(y)
    ensures CanRename(d, dir + [x], dir + [y])
  {
    hide TreeShaped;
    Siblings(dir, x, y);
    ApartBelow(dir + [x], dir + [y], dir + [y]);
    InsideDir(d, dir, x);
    EmptyIfMissing(d, dir + [y]);
    assert Parent(dir + [y]) == dir;
  }

  lemma RootDirIs(d: Tree, p: Path)
    ensures IsDir(d, p) <==> IsDir(Sub(d, p), [])
  {
    assert p + [] == p;
  }

  lemma SameRootDir(d: Tree, e: Tree, p: Path, q: Path)
    requires Sub(d, p) == Sub(e, q)
    ensures IsDir(d, p) <==> IsDir(e, q)
  {
    hide Sub, IsDir;
    RootDirIs(d, p);
    RootDirIs(e, q);
  }

  lemma EmptyIfMissing(d: Tree, p: Path)
    requires TreeShaped(d) && p !in d
    ensures forall k | k in d :: !(p <= k)
  {
    forall k | k in d
      ensures !(p <= k)
    {
      if p <= k {
        NothingBelowMissing(d, p, k);
      }
    }
  }

  lemma RootApart(home: Path, name: string)
    ensures Apart(Root(home), Base(home)) && Apart(Root(home), Target(home, name))
    ensures Apart(Base(home), Root(home)) && Apart(Target(home, name), Root(home))
  {
    assert |ROOT_NAME| != |BASELINES_NAME|;
    Siblings(home, ROOT_NAME, BASELINES_NAME);
    Siblings(home, BASELINES_NAME, ROOT_NAME);
    ApartBelow(Root(home), Base(home), Target(home, name));
  }

  lemma CheckpointsSame(home: Path, d: Tree)
    ensures SameCheckpoints(home, d, d)
  {
  }

  lemma RootKept(env: Env, home: Path, h: seq<Tree>, k: seq<Tree>, d: Tree, e: Tree)
    requires Kept(env, home, h, k, d, e, Base(home))
    ensures Sub(e, Root(home)) == Sub(d, Root(home)) && (Root(home) in d <==> Root(home) in e)
  {
    hide Chain;
    RootApart(home, "");
    SubFrame(d, e, Base(home), Root(home));
  }

  lemma VerifiedVerifies(env: Env, t: Tree, m: Listing)
    requires Verified(env, t, m)
    ensures Verifies(env, t)
  {
  }

  lemma EmptyPart(d: Tree, dst: Path, t: Tree)
    requires Sub(d, dst) == map[[] := Dir]
    ensures IsDir(d, dst) && HoldsPart(d, dst, t, [])
  {
    assert dst + [] == dst && [] in Sub(d, dst);
    forall q: Path
      ensures dst + q in d <==> q == []
      ensures q == [] ==> d[dst + q] == Dir
    {
      assert q in Sub(d, dst) <==> dst + q in d;
    }
  }
}
