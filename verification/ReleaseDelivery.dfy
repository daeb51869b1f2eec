// From a staged release directory to the extracted payload: what scripts/create_release_archives.py writes,
// scripts/native_archive.py extracts.
module ReleaseDelivery {
  import opened Text
  import opened Disks
  import opened ArchiveNames
  import opened ArchiveInventory
  import opened ArchiveExtract
  import opened ReleaseArchives

  // Every staged path lies in a staged directory.
  ghost predicate StageShaped(stage: Stage)
  {
    forall p | p in stage && p != [] :: Parent(p) in stage && stage[Parent(p)].Folder?
  }

  // What lies above a staged path is a directory.
  lemma {:induction false} OnlyFoldersHold(stage: Stage, p: Path, q: Path)
    requires StageShaped(stage) && q in stage && p < q
    ensures p in stage && stage[p].Folder?
    decreases |q|
  {
    if |p| == |q| - 1 {
      assert p == Parent(q);
    } else {
      assert p <= Parent(q);
      OnlyFoldersHold(stage, p, Parent(q));
    }
  }

  // The files of the payload are the staged files, byte for byte.
  ghost predicate Delivers(stage: Stage, files: map<Path, Bytes>)
  {
    && (forall p | p in stage && stage[p].Doc? :: Holds(files, [PAYLOAD] + p, stage[p].data))
    && (forall f | f in files :: exists p :: p in stage && stage[p].Doc? && [PAYLOAD] + p == f)
  }

  ghost predicate Holds(files: map<Path, Bytes>, f: Path, data: Bytes)
  {
    f in files && files[f] == data
  }

  // What the ZIP shows of each staged path.
  ghost predicate Shown(stage: Stage, order: seq<Path>, ms: seq<Member>)
  {
    && |ms| == |order|
    && forall i | 0 <= i < |order| ::
         && order[i] in stage && Target(ms[i]) == [PAYLOAD] + order[i] && Exact(ms[i].payload, ms[i].size)
         && ms[i].directory == stage[order[i]].Folder?
         && (stage[order[i]].Doc? ==> ms[i].payload.data == stage[order[i]].data)
  }

  lemma ZipShows(stage: Stage, bundle: string, order: seq<Path>, tar: seq<TarEntry>, zip: seq<ZipEntry>)
    requires WroteBoth(stage, bundle, order, tar, zip) && NoSharedInodes(stage)
    ensures Shown(stage, order, ZipMembers(zip))
  {
    hide NameOf, SafeBundle, Key;
    HardLinksMean(stage, bundle, order, tar, zip);
    forall i | 0 <= i < |order|
      ensures Target(ZipMember(zip[i])) == [PAYLOAD] + order[i]
      ensures ZipMember(zip[i]).directory == stage[order[i]].Folder?
    {
      ViewsDiffer(stage, bundle, order, tar, zip, i);
      NameFacts(bundle, order[i]);
      KeyOfName(bundle, order[i]);
      assert TarEntryFor(stage, bundle, order, i, tar[i]) && ZipEntryFor(stage, bundle, order, i, zip[i]);
      assert ([bundle] + order[i])[1..] == order[i];
    }
    forall i | 0 <= i < |order|
      ensures stage[order[i]].Doc? ==> zip[i].data == stage[order[i]].data
    {
      assert ZipEntryFor(stage, bundle, order, i, zip[i]);
    }
  }

  lemma KeyOfName(bundle: string, p: Path)
    requires SafeBundle(bundle) && GoodParts(p)
    ensures Key(NameOf(bundle, p)) == NameOf(bundle, p)
  {
    hide NameOf, SafeBundle;
    NameFacts(bundle, p);
  }

  // No staged file is, or lies below, another.
  lemma NoFileInTheWay(stage: Stage, order: seq<Path>, ms: seq<Member>)
    requires StageShaped(stage) && Shown(stage, order, ms) && Enumerates(order, stage) && Writable(stage, order)
    ensures NoCollision(ms)
  {
    hide Target;
    forall i, j | 0 <= i < |ms| && 0 <= j < |ms| && i != j && !ms[i].directory && !ms[j].directory
      ensures !(Target(ms[i]) <= Target(ms[j]))
    {
      if Target(ms[i]) <= Target(ms[j]) {
        var p, q := order[i], order[j];
        assert ([PAYLOAD] + p)[1..] == p && ([PAYLOAD] + q)[1..] == q;
        assert p <= q && p != q;
        OnlyFoldersHold(stage, p, q);
      }
    }
  }

  lemma DeliversAll(stage: Stage, order: seq<Path>, ms: seq<Member>)
    requires Shown(stage, order, ms) && Enumerates(order, stage) && Writable(stage, order) && NoCollision(ms)
    ensures Delivers(stage, FilesOf(ms))
  {
    hide Target, FilesOf, NoCollision;
    var files := FilesOf(ms);
    forall p | p in stage && stage[p].Doc?
      ensures Holds(files, [PAYLOAD] + p, stage[p].data)
    {
      var i :| 0 <= i < |order| && order[i] == p;
      FilesOfValue(ms, i);
    }
    forall f | f in files
      ensures exists p :: p in stage && stage[p].Doc? && [PAYLOAD] + p == f
    {
      FilesOfKeys(ms, f);
      var i :| 0 <= i < |ms| && !ms[i].directory && Target(ms[i]) == f;
      assert order[i] in stage && !stage[order[i]].Odd?;
    }
  }

  // Members with distinct names have an inventory.
  lemma {:induction false} InventoryExists(tools: Tools, ms: seq<Member>, n: nat) returns (inv: Inventory)
    requires CaseDistinct(tools, ms) && n <= |ms|
    ensures Lists(tools, ms[..n], inv)
  {
    hide Lists;
    if n == 0 {
      inv := map[];
      NonePassed(tools, ms, "");
    } else {
      inv := InventoryExists(tools, ms, n - 1);
      if ms[n - 1].directory {
        ListsSkip(tools, ms, n - 1, inv);
      } else {
        ListsFile(tools, ms, n - 1, inv);
        inv := inv[Key(ms[n - 1].name) := (|ms[n - 1].payload.data|, tools.sha256(ms[n - 1].payload.data))];
      }
    }
  }

  // An unchanged archive fits its own inventory.
  lemma SameReadAccepted(tools: Tools, ms: seq<Member>, bundle: string, inv: Inventory)
    requires Admissible(tools, ms, bundle) && Lists(tools, ms, inv) && NoCollision(ms)
    ensures SecondReadAccepted(tools, ms, bundle, inv)
  {
    hide Key, MemberPath, NoCollision, TotalSize;
    forall i | 0 <= i < |ms|
      ensures MemberMatches(tools, ms[i], bundle, inv)
    {
      assert MemberAdmissible(ms[i], bundle);
    }
  }

  // Extracting what was released, from an unchanged ZIP, succeeds exactly when the tar is admissible and no directory
  // name has 1024 characters, and the payload then is exactly the staged files.
  lemma DeliveredExactly(tools: Tools, stage: Stage, bundle: string, order: seq<Path>, tar: seq<TarEntry>,
                         zip: seq<ZipEntry>)
    requires WroteBoth(stage, bundle, order, tar, zip) && NoSharedInodes(stage) && StageShaped(stage)
    ensures var a, b := TarMembers(tar), ZipMembers(zip);
            PairAccepted(tools, a, b, b, bundle, false) <==> Admissible(tools, a, bundle) && SlashFits(a)
    ensures Delivers(stage, FilesOf(ZipMembers(zip)))
  {
    hide Admissible, Lists, SecondReadAccepted, SlashFits, NoCollision, Shown, FilesOf, Delivers;
    hide TarMembers, ZipMembers;
    var a, b := TarMembers(tar), ZipMembers(zip);
    ConsumerAgrees(tools, stage, bundle, order, tar, zip);
    ZipShows(stage, bundle, order, tar, zip);
    NoFileInTheWay(stage, order, b);
    DeliversAll(stage, order, b);
    if Admissible(tools, b, bundle) {
      AdmissibleDistinct(tools, b, bundle);
      var inv := InventoryExists(tools, b, |b|);
      assert b[..|b|] == b;
      SameReadAccepted(tools, b, bundle, inv);
      assert Lists(tools, a, inv) && Lists(tools, b, inv) && SecondReadAccepted(tools, b, bundle, inv);
    }
  }

  lemma AdmissibleDistinct(tools: Tools, ms: seq<Member>, bundle: string)
    requires Admissible(tools, ms, bundle)
    ensures CaseDistinct(tools, ms)
  {
  }

  // Release and extract: the payload directory holds the staged files, the directories leading to them, and no more.
  method Deliver(tools: Tools, stage: Stage, bundle: string, order: seq<Path>)
    returns (ok: bool, tree: Tree, ghost tar: seq<TarEntry>, ghost zip: seq<ZipEntry>)
    requires SafeBundle(bundle) && Enumerates(order, stage) && StageShaped(stage)
    ensures (forall p | p in stage :: !stage[p].Odd?) && NoSharedInodes(stage) ==>
              WroteBoth(stage, bundle, order, tar, zip)
    ensures ok <==> (forall p | p in stage :: !stage[p].Odd?) && NoSharedInodes(stage)
                    && Admissible(tools, TarMembers(tar), bundle) && SlashFits(TarMembers(tar))
    ensures ok ==> Built(tree, FilesOf(ZipMembers(zip))) && Delivers(stage, FilesOf(ZipMembers(zip)))
  {
    hide Admissible, Built, Delivers, FilesOf, SlashFits, WroteBoth, TarMembers, ZipMembers, StageShaped, Enumerates;
    hide PairAccepted, NoSharedInodes;
    tree, tar, zip := map[], [], [];
    var r := Release(tools, stage, bundle, order);
    if r.None? { return false, tree, tar, zip; }
    tar, zip := r.value.0, r.value.1;
    var a, b := TarMembers(r.value.0), ZipMembers(r.value.1);
    DeliveredExactly(tools, stage, bundle, order, tar, zip);
    var written;
    ok, tree, written := ExtractPair(tools, a, b, b, bundle, false);
  }
}
