// What the copy and inventory loops of the checkpoint tool have done so far, as facts about disks
// (scripts/windows_qemu_state.py, inventory and copy_state).
module VmCopies {
  import opened Text
  import opened Disks
  import opened Baseline
  import opened Pacing

  // d holds, at dst, the entries `done` of t and nothing else.
  ghost predicate HoldsTree(d: Tree, dst: Path, t: Tree, done: set<Path>)
  {
    forall q: Path {:trigger dst + q} ::
      && (dst + q in d <==> q in done)
      && (q in done ==> q in t && d[dst + q] == t[q])
  }

  // The entry q of t was to be made in a directory that is there, and is not there as in t.
  ghost predicate Spoiled(d: Tree, dst: Path, t: Tree, q: Path)
  {
    q in t && q != [] && IsDir(d, dst + Parent(q)) && !(dst + q in d && d[dst + q] == t[q])
  }

  // There is nothing below dst but entries that had their turn, parents before children, and of these only the ones in
  // `spoiled` can be spoiled.
  ghost predicate Handled(d: Tree, dst: Path, t: Tree, done: set<Path>, spoiled: set<Path>)
  {
    && [] in done && (forall q | q in done && q != [] :: Parent(q) in done)
    && (forall q: Path {:trigger dst + q} | dst + q in d :: q in done)
    && forall q | q in done && Spoiled(d, dst, t, q) :: q in spoiled
  }

  lemma HandledStart(d: Tree, dst: Path, t: Tree)
    requires HoldsTree(d, dst, t, {[]})
    ensures Handled(d, dst, t, {[]}, {})
  {
  }

  lemma {:induction false} ParentsFirst(done: set<Path>, q: Path, k: Path)
    requires (forall p | p in done && p != [] :: Parent(p) in done) && k in done && q <= k
    ensures q in done
    decreases |k|
  {
    if q != k {
      assert q <= Parent(k);
      ParentsFirst(done, q, Parent(k));
    }
  }

  lemma HandledStep(d: Tree, e: Tree, dst: Path, t: Tree, done: set<Path>, spoiled: set<Path>, q: Path, ok: bool)
    requires Handled(d, dst, t, done, spoiled) && q in t && q != [] && q !in done && Parent(q) in done
    requires SameOutside(d, e, dst + q) && e.Keys <= d.Keys + {dst + q}
    requires ok ==> dst + q in e && e[dst + q] == t[q]
    ensures Handled(e, dst, t, done + {q}, if ok || !IsDir(d, dst + Parent(q)) then spoiled else spoiled + {q})
  {
    hide Spoiled, SameOutside;
    var more := if ok || !IsDir(d, dst + Parent(q)) then spoiled else spoiled + {q};
    forall k: Path | dst + k in e
      ensures k in done + {q}
    {
      if dst + k == dst + q {
        assert k == (dst + k)[|dst|..] == q;
      }
    }
    forall k | k in done + {q} && Spoiled(e, dst, t, k)
      ensures k in more
    {
      if k != q && q <= k {
        ParentsFirst(done, q, k);
      }
      SpoiledBefore(d, e, dst, t, q, k, ok);
    }
  }

  lemma HandledNext(d: Tree, dst: Path, t: Tree, done: set<Path>, spoiled: set<Path>, q: Path)
    requires Handled(d, dst, t, done, spoiled) && q !in done
    ensures dst + q !in d
  {
  }

  lemma HandledAll(d: Tree, dst: Path, t: Tree, spoiled: set<Path>)
    requires Handled(d, dst, t, t.Keys, spoiled)
    ensures forall q | Spoiled(d, dst, t, q) :: q in spoiled
  {
  }

  // The next entry can be made wherever its directory is.
  lemma CanMake(d0: Tree, d: Tree, src: Path, dst: Path, q: Path)
    requires TreeShaped(d0) && q in Sub(d0, src) && q != []
    ensures Parent(dst + q) == dst + Parent(q) && Parent(q) in Sub(d0, src)
    ensures dst + q !in d && IsDir(d, dst + Parent(q)) ==> CanCreate(d, dst + q)
  {
    GoodPath(d0, src, q, |q| - 1);
    assert (dst + q)[|dst + q| - 1] == q[|q| - 1];
    assert Placed(d0, src + q) && Parent(src + q) == src + Parent(q);
  }

  lemma SpoiledBefore(d: Tree, e: Tree, dst: Path, t: Tree, q: Path, k: Path, ok: bool)
    requires SameOutside(d, e, dst + q) && q != [] && (k == q || !(q <= k)) && Spoiled(e, dst, t, k)
    requires ok ==> q in t && dst + q in e && e[dst + q] == t[q]
    ensures if k == q then !ok && IsDir(d, dst + Parent(q)) else Spoiled(d, dst, t, k)
  {
    NotBelow(dst, q, Parent(k));
    NotBelow(dst, q, k);
  }

  lemma NotBelow(dst: Path, q: Path, k: Path)
    ensures dst + q <= dst + k <==> q <= k
  {
    assert (dst + q)[|dst|..] == q && (dst + k)[|dst|..] == k;
    if dst + q <= dst + k {
      assert forall i | 0 <= i < |q| :: q[i] == (dst + q)[|dst| + i] == (dst + k)[|dst| + i] == k[i];
    }
  }

  lemma HoldsRoot(d: Tree, dst: Path, t: Tree)
    requires TreeShaped(d) && dst != [] && CanCreate(d, dst) && IsDir(t, [])
    ensures HoldsTree(d[dst := Dir], dst, t, {[]})
  {
    forall q: Path
      ensures dst + q !in d && (dst + q == dst ==> q == [])
    {
      NothingBelowMissing(d, dst, dst + q);
    }
    assert dst + [] == dst;
  }

  // Copying into dst leaves the source as it was.
  lemma SourceKept(d0: Tree, d: Tree, src: Path, dst: Path, q: Path)
    requires SameOutside(d0, d, dst) && Apart(src, dst)
    ensures src + q in d <==> src + q in d0
    ensures src + q in d ==> d[src + q] == d0[src + q]
  {
  }

  // Once its parent has been copied an entry can be copied, and the copy grows by just that entry.
  lemma NextEntry(d0: Tree, d: Tree, src: Path, dst: Path, t: Tree, done: set<Path>, q: Path)
    requires TreeShaped(d0) && t == Sub(d0, src) && HoldsTree(d, dst, t, done)
    requires q in t && q !in done && q != [] && Parent(q) !in t.Keys - done
    ensures CanCreate(d, dst + q) && HoldsTree(d[dst + q := t[q]], dst, t, done + {q})
  {
    GoodPath(d0, src, q, |q| - 1);
    assert Placed(d0, src + q) && Parent(src + q) == src + Parent(q);
    assert Parent(q) in t && Parent(q) in done;
    assert Parent(dst + q) == dst + Parent(q);
    forall r: Path | r != q
      ensures dst + r != dst + q
    {
      assert (dst + r)[|dst|..] == r && (dst + q)[|dst|..] == q;
    }
  }

  // What is still to do and what is done make up the whole.
  ghost predicate Parted<T>(all: set<T>, todo: set<T>, done: set<T>)
  {
    all == todo + done && todo !! done
  }

  lemma AllBut<T>(all: set<T>, x: T)
    requires x in all
    ensures Parted(all, all - {x}, {x})
  {
  }

  lemma PartedMeans<T>(all: set<T>, todo: set<T>, done: set<T>, x: T)
    requires Parted(all, todo, done)
    ensures x in done <==> x in all && x !in todo
    ensures x in todo ==> x in all && x !in done
  {
  }

  lemma OneOver<T>(all: set<T>, todo: set<T>, done: set<T>, x: T)
    requires Parted(all, todo, done) && x in todo
    ensures Parted(all, todo - {x}, done + {x})
  {
  }

  lemma NoneLeft<T>(all: set<T>, done: set<T>)
    requires Parted(all, {}, done)
    ensures done == all
  {
  }

  lemma MinimalExists(todo: set<Path>)
    requires todo != {} && [] !in todo
    ensures exists q :: q in todo && Parent(q) !in todo
  {
    var q :| q in todo;
    while Parent(q) in todo
      invariant q in todo
      decreases |q|
    {
      q := Parent(q);
    }
  }

  // e holds, at dst, a directory with the named entries of t and nothing else.
  ghost predicate HoldsPart(e: Tree, dst: Path, t: Tree, names: seq<string>)
  {
    forall q: Path {:trigger dst + q} ::
      && (dst + q in e <==> q == [] || (q in t && q[0] in names))
      && (dst + q in e ==> e[dst + q] == if q == [] then Dir else t[q])
  }

  // The entry exists and holds only files and directories.
  ghost predicate PlainPart(t: Tree, name: string)
  {
    [name] in t && forall q | q in t && q != [] && q[0] == name :: Plain(t[q])
  }

  // e holds, at dst, the named entry of t whole.
  ghost predicate SamePart(e: Tree, dst: Path, t: Tree, name: string)
  {
    forall r: Path {:trigger [name] + r} ::
      && (dst + ([name] + r) in e <==> [name] + r in t)
      && ([name] + r in t ==> e[dst + ([name] + r)] == t[[name] + r])
  }

  lemma SubCons(d: Tree, src: Path, name: string, r: Path)
    ensures [name] + r in Sub(d, src) <==> r in Sub(d, src + [name])
    ensures r in Sub(d, src + [name]) ==> Sub(d, src)[[name] + r] == Sub(d, src + [name])[r]
  {
    assert src + ([name] + r) == (src + [name]) + r;
  }

  lemma PartIsSub(d: Tree, src: Path, name: string)
    requires src + [name] in d
    ensures PlainPart(Sub(d, src), name) <==>
              forall q | q in Sub(d, src + [name]) :: Plain(Sub(d, src + [name])[q])
  {
    var t, u := Sub(d, src), Sub(d, src + [name]);
    if PlainPart(t, name) {
      forall r | r in u
        ensures Plain(u[r])
      {
        SubCons(d, src, name, r);
        assert ([name] + r)[0] == name;
      }
    } else {
      assert [name] in t;
      var q :| q in t && q != [] && q[0] == name && !Plain(t[q]);
      assert q == [name] + q[1..];
      SubCons(d, src, name, q[1..]);
      assert !Plain(u[q[1..]]);
    }
  }

  lemma TreeIsPart(e: Tree, dst: Path, d: Tree, src: Path, name: string)
    requires HoldsTree(e, dst + [name], Sub(d, src + [name]), Sub(d, src + [name]).Keys)
    ensures SamePart(e, dst, Sub(d, src), name)
  {
    hide Sub, HoldsTree;
    forall r: Path {:trigger [name] + r}
      ensures dst + ([name] + r) in e <==> [name] + r in Sub(d, src)
      ensures [name] + r in Sub(d, src) ==> e[dst + ([name] + r)] == Sub(d, src)[[name] + r]
    {
      TreeHoldsAt(e, dst + [name], Sub(d, src + [name]), r);
      SubCons(d, src, name, r);
      assert dst + ([name] + r) == (dst + [name]) + r;
    }
  }

  lemma TreeHoldsAt(e: Tree, dst: Path, t: Tree, q: Path)
    requires HoldsTree(e, dst, t, t.Keys)
    ensures (dst + q in e <==> q in t) && (q in t ==> e[dst + q] == t[q])
  {
  }

  lemma FileAlone(d: Tree, p: Path)
    requires TreeShaped(d) && p in d && !d[p].Dir?
    ensures Sub(d, p) == map[[] := d[p]]
  {
    assert p + [] == p;
    forall q: Path | q in Sub(d, p)
      ensures q == []
    {
      if q != [] {
        OnlyDirsHold(d, p, q);
      }
    }
  }

  lemma {:induction false} OnlyDirsHold(d: Tree, p: Path, q: Path)
    requires TreeShaped(d) && q != [] && p + q in d
    ensures IsDir(d, p)
  {
    assert Placed(d, p + q) && Parent(p + q) == p + Parent(q);
    if Parent(q) == [] {
      assert p + [] == p;
    } else {
      OnlyDirsHold(d, p, Parent(q));
    }
  }

  lemma HoldsFile(d: Tree, dst: Path, t: Tree)
    requires TreeShaped(d) && dst !in d && t.Keys == {[]}
    ensures HoldsTree(d[dst := t[[]]], dst, t, t.Keys)
  {
    assert dst + [] == dst;
    forall q: Path
      ensures dst + q !in d && (dst + q == dst ==> q == [])
    {
      NothingBelowMissing(d, dst, dst + q);
    }
  }

  lemma CopyableParts(t: Tree)
    ensures Copyable(t) <==> forall name | name in STATE :: PlainPart(t, name)
  {
    if forall name | name in STATE :: PlainPart(t, name) {
      forall q | q in StateOf(t) && q != []
        ensures Plain(StateOf(t)[q])
      {
        assert PlainPart(t, q[0]);
      }
    }
    if Copyable(t) {
      forall name | name in STATE
        ensures PlainPart(t, name)
      {
        assert forall q | q in t && q != [] && q[0] == name :: q in StateOf(t);
      }
    }
  }

  lemma PartIsCopy(e: Tree, dst: Path, t: Tree)
    requires HoldsPart(e, dst, t, STATE)
    ensures Sub(e, dst) == CopyOf(t)
  {
  }

  // The next part is still to come.
  lemma PartReady(d: Tree, dst: Path, t: Tree, names: seq<string>, name: string)
    requires HoldsPart(d, dst, t, names) && name !in names
    ensures IsDir(d, dst) && dst + [name] !in d
  {
    assert dst + [] == dst && [name][0] == name;
  }

  lemma PartStep(d: Tree, e: Tree, dst: Path, t: Tree, names: seq<string>, name: string)
    requires HoldsPart(d, dst, t, names) && name !in names
    requires SameOutside(d, e, dst + [name]) && SamePart(e, dst, t, name)
    ensures HoldsPart(e, dst, t, names + [name])
  {
    forall q: Path
      ensures dst + q in e <==> q == [] || (q in t && q[0] in names + [name])
      ensures dst + q in e ==> e[dst + q] == if q == [] then Dir else t[q]
    {
      if q != [] && q[0] == name {
        assert q == [name] + q[1..];
      } else {
        assert q != [] ==> (dst + q)[|dst|] == q[0];
        assert (dst + [name])[|dst|] == name;
        assert !(dst + [name] <= dst + q);
      }
    }
  }

  // files lists the inventoried files of t that are no longer in todo.
  ghost predicate ListingSoFar(env: Env, t: Tree, files: Listing, todo: set<Path>)
  {
    && (forall key {:trigger NamesFile(t, key)} | key in files :: NamesFile(t, key) && Split(key) !in todo)
    && (forall q {:trigger Lists(env, t, files, q)} | q !in todo :: Lists(env, t, files, q))
  }

  // Every entry of t that is no longer in todo is a file or a directory.
  ghost predicate PlainSoFar(t: Tree, todo: set<Path>)
  {
    forall q | q in t && q != [] && q !in todo :: Plain(t[q])
  }

  lemma PlainStart(t: Tree)
    ensures PlainSoFar(t, t.Keys - {[]})
  {
  }

  lemma PlainStep(t: Tree, todo: set<Path>, q: Path)
    requires PlainSoFar(t, todo) && q in t && q != []
    ensures if Plain(t[q]) then PlainSoFar(t, todo - {q}) else !Ordinary(t)
  {
  }

  lemma PlainAll(t: Tree)
    requires PlainSoFar(t, {})
    ensures Ordinary(t)
  {
  }

  lemma NothingListed(env: Env, t: Tree)
    ensures ListingSoFar(env, t, map[], t.Keys - {[]})
  {
  }

  lemma ListOneMore(env: Env, t: Tree, files: Listing, todo: set<Path>, q: Path)
    requires ListingSoFar(env, t, files, todo) && q in todo && Inventoried(t, q) && GoodTree(t)
    ensures ListingSoFar(env, t, files[Join(q) := env.sha256(t[q].data)], todo - {q})
  {
    var more := files[Join(q) := env.sha256(t[q].data)];
    PosixPartsOfJoin(q);
    forall key | key in more
      ensures NamesFile(t, key) && Split(key) !in todo - {q}
    {
      assert key in files ==> NamesFile(t, key);
    }
    forall p | p !in todo - {q}
      ensures Lists(env, t, more, p)
    {
      if p != q && Inventoried(t, p) {
        assert Lists(env, t, files, p);
        PosixPartsOfJoin(p);
      }
    }
  }

  lemma SkipOne(env: Env, t: Tree, files: Listing, todo: set<Path>, q: Path)
    requires ListingSoFar(env, t, files, todo) && !Inventoried(t, q)
    ensures ListingSoFar(env, t, files, todo - {q})
  {
    forall p | p !in todo - {q}
      ensures Lists(env, t, files, p)
    {
      assert p !in todo ==> Lists(env, t, files, p);
    }
    assert forall key {:trigger NamesFile(t, key)} | key in files :: NamesFile(t, key) && Split(key) !in todo - {q};
  }

  lemma AllListed(env: Env, t: Tree, files: Listing)
    requires ListingSoFar(env, t, files, {})
    ensures IsListing(env, t, files)
  {
  }

  lemma LiftBack(entries: map<string, Option<string>>, expected: Listing)
    requires forall name | name in entries :: entries[name].Some?
    requires expected == map name | name in entries :: entries[name].value
    ensures Lift(expected) == entries
    ensures forall m: Listing | Lift(m) == entries :: m == expected
  {
  }

  lemma OtherListing(env: Env, t: Tree, found: Listing, expected: Listing)
    requires IsListing(env, t, found) && found != expected
    ensures !IsListing(env, t, expected)
  {
    if IsListing(env, t, expected) {
      ListingUnique(env, t, found, expected);
    }
  }

  lemma PrefixGrows<T>(s: seq<T>, k: nat, n: nat)
    requires k + n <= |s|
    ensures s[..k] + s[k..k + n] == s[..k + n]
  {
  }

  lemma NextPrefix(d: Tree, p: Path, data: Bytes, i: nat, j: nat)
    requires i <= j <= |data|
    ensures data[..i] + data[i..j] == data[..j] && data[..|data|] == data
    ensures d[p := File(data[..i])][p := File(data[..j])] == d[p := File(data[..j])]
  {
  }

  // ---- how many bytes ----------------------------------------------------------------------------------------

  ghost function StateBytes(t: Tree): nat
  {
    TreeBytes(StateOf(t))
  }

  // The entries under these names.
  ghost function Named(t: Tree, names: seq<string>): set<Path>
  {
    set q | q in t && q != [] && q[0] in names
  }

  lemma {:induction false} Reindexed(t: Tree, u: Tree, name: string, part: set<Path>, moved: set<Path>)
    requires moved == set r | r in part :: [name] + r
    requires forall r | r in part :: LengthAt(t, [name] + r) == LengthAt(u, r)
    ensures FileBytes(t, moved) == FileBytes(u, part)
    decreases |part|
  {
    hide LengthAt;
    if part != {} {
      var r :| r in part;
      var fewer := set x | x in part - {r} :: [name] + x;
      assert moved - {[name] + r} == fewer by {
        assert forall x: Path, y: Path | [name] + x == [name] + y :: ([name] + x)[1..] == x && ([name] + y)[1..] == y;
      }
      BytesWithout(t, moved, [name] + r);
      BytesWithout(u, part, r);
      Reindexed(t, u, name, part - {r}, fewer);
    }
  }

  // The entries under one name are those of its own tree, one component deeper.
  lemma NamedPaths(t: Tree, u: Tree, name: string, moved: set<Path>)
    requires moved == set r | r in u.Keys :: [name] + r
    requires forall r {:trigger [name] + r} :: r in u <==> [name] + r in t
    ensures moved == Named(t, [name])
  {
    forall q | q in Named(t, [name])
      ensures q in moved
    {
      assert q == [name] + q[1..];
    }
  }

  lemma NamedLength(d: Tree, src: Path, name: string, r: Path)
    ensures r in Sub(d, src + [name]) <==> [name] + r in Sub(d, src)
    ensures LengthAt(Sub(d, src), [name] + r) == LengthAt(Sub(d, src + [name]), r)
  {
    hide Sub;
    SubCons(d, src, name, r);
  }

  lemma NamedBytes(d: Tree, src: Path, name: string)
    ensures FileBytes(Sub(d, src), Named(Sub(d, src), [name])) == TreeBytes(Sub(d, src + [name]))
  {
    hide Sub, FileBytes, Named, LengthAt;
    var t, u := Sub(d, src), Sub(d, src + [name]);
    var moved := set r | r in u.Keys :: [name] + r;
    forall r {:trigger [name] + r}
      ensures r in u <==> [name] + r in t
      ensures LengthAt(t, [name] + r) == LengthAt(u, r)
    {
      NamedLength(d, src, name, r);
    }
    NamedPaths(t, u, name, moved);
    Reindexed(t, u, name, u.Keys, moved);
  }

  lemma NamedMore(t: Tree, names: seq<string>, name: string)
    requires name !in names
    ensures FileBytes(t, Named(t, names + [name])) == FileBytes(t, Named(t, names)) + FileBytes(t, Named(t, [name]))
  {
    assert Named(t, names + [name]) == Named(t, names) + Named(t, [name]);
    BytesUnion(t, Named(t, names), Named(t, [name]));
  }

  lemma NamedState(t: Tree)
    ensures FileBytes(t, Named(t, [])) == 0
    ensures FileBytes(t, Named(t, STATE)) == StateBytes(t)
  {
    assert Named(t, []) == {};
    assert Named(t, STATE) == StateOf(t).Keys;
    BytesAgree(t, StateOf(t), Named(t, STATE));
  }

  // What an inventory reads: every file but the manifest.
  ghost function HashedBytes(t: Tree): nat
  {
    FileBytes(t, t.Keys - {[], MANIFEST})
  }

  // Hashing a copy, with or without a manifest, reads the bytes of the state ...
  lemma HashedCopy(t: Tree, data: Bytes)
    ensures HashedBytes(CopyOf(t)) == StateBytes(t)
    ensures HashedBytes(CopyOf(t)[MANIFEST := File(data)]) == StateBytes(t)
  {
    var s, c := StateOf(t), CopyOf(t);
    var v := c[MANIFEST := File(data)];
    assert [] !in s && MANIFEST !in s;
    assert c.Keys - {[], MANIFEST} == s.Keys && v.Keys - {[], MANIFEST} == s.Keys;
    BytesAgree(s, c, s.Keys);
    BytesAgree(s, v, s.Keys);
  }

  // ... and so does hashing any checkpoint that verifies.
  lemma HashedCheckpoint(env: Env, t: Tree, m: Listing)
    requires Verified(env, t, m) && GoodTree(t)
    ensures HashedBytes(t) == StateBytes(t)
  {
    hide Declares, IsListing, GoodTree;
    var s, all := StateOf(t), t.Keys - {[], MANIFEST};
    forall q | q in all - s.Keys
      ensures LengthAt(t, q) == 0
    {
      if t[q].File? {
        assert Inventoried(t, q);
        VerifiedFilesAreState(env, t, m, q);
      }
    }
    assert MANIFEST !in s;
    BytesAmong(t, s.Keys, all);
    BytesAgree(s, t, s.Keys);
  }

  lemma HashedStart(t: Tree, all: set<Path>)
    ensures FileBytes(t, all - {[], MANIFEST} - (all - {[]})) == 0
  {
    assert all - {[], MANIFEST} - (all - {[]}) == {};
  }

  lemma HashedStep(t: Tree, all: set<Path>, todo: set<Path>, q: Path)
    requires q in todo && todo <= all && q != []
    ensures FileBytes(t, all - {[], MANIFEST} - (todo - {q})) ==
            FileBytes(t, all - {[], MANIFEST} - todo) + if q == MANIFEST then 0 else LengthAt(t, q)
  {
    hide LengthAt;
    var before, after := all - {[], MANIFEST} - todo, all - {[], MANIFEST} - (todo - {q});
    if q == MANIFEST {
      assert before == after;
    } else {
      assert after == before + {q};
      BytesOneMore(t, before, q);
    }
  }

  lemma RootBytes(t: Tree)
    requires IsDir(t, [])
    ensures FileBytes(t, {[]}) == 0
  {
    var root: set<Path> := {[]};
    BytesWithout(t, root, []);
    assert root - {[]} == {};
  }

  lemma FileAloneBytes(n: Node)
    requires n.File?
    ensures TreeBytes(map[[] := n]) == |n.data|
  {
    var t: Tree := map[[] := n];
    assert t.Keys == {[]};
    var root: set<Path> := {[]};
    BytesWithout(t, root, []);
    assert root - {[]} == {};
  }

  // The account of a directory copy that has been through `done`, from a to b.  It went on without the `lost` files,
  // whose transfers had begun; when the process died one more may have been under way.
  ghost predicate TreeTally(t: Tree, done: set<Path>, lost: set<Path>, a: Ledger, b: Ledger, ok: bool, alive: bool)
  {
    && Tallied(a, b, if alive then 0 else 1) && b.missed == a.missed + |lost| && lost <= done
    && (forall q | q in lost :: q in t && t[q].File?)
    && (ok ==> alive && lost == {} && b.moved == a.moved + 2 * FileBytes(t, done))
  }

  lemma TreeTallyStart(t: Tree, a: Ledger)
    requires IsDir(t, [])
    ensures TreeTally(t, {[]}, {}, a, a, true, true)
  {
    RootBytes(t);
  }

  lemma TreeTallyStep(t: Tree, done: set<Path>, lost: set<Path>, a: Ledger, b: Ledger, c: Ledger, ok: bool,
                      lived: bool, copied: bool, lives: bool, q: Path)
    requires TreeTally(t, done, lost, a, b, ok, lived) && q in t && q !in done
    requires if lived then Tallied(b, c, if lives then 0 else 1) else c == b && !lives && !copied
    requires c.missed == b.missed || (c.missed == b.missed + 1 && !copied && t[q].File?)
    requires copied ==> lives && c.moved == b.moved + 2 * LengthAt(t, q)
    ensures TreeTally(t, done + {q}, if c.missed == b.missed then lost else lost + {q}, a, c, ok && copied, lives)
  {
    hide Tallied, LengthAt, FileBytes;
    if lived {
      TalliedThen(a, b, c, if lives then 0 else 1);
    }
    BytesOneMore(t, done, q);
  }

  lemma TreeTallyEnd(t: Tree, lost: set<Path>, a: Ledger, b: Ledger, ok: bool, alive: bool)
    requires TreeTally(t, t.Keys, lost, a, b, ok, alive)
    ensures Paced(a, b, ok) && b.aborted <= a.aborted + |lost| + (if alive then 0 else 1)
    ensures b.missed == a.missed + |lost| && forall q | q in lost :: q in t && t[q].File?
    ensures ok ==> lost == {} && b.moved == a.moved + 2 * TreeBytes(t)
  {
    TalliedIsPaced(a, b, if alive then 0 else 1, ok);
  }
}
