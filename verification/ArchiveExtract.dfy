// Extraction of a verified archive pair whose ZIP is read a second time and may have changed
// (scripts/native_archive.py, extract_pair).
module ArchiveExtract {
  import opened Text
  import opened Disks
  import opened ArchiveNames
  import opened ArchiveInventory
  import opened Streams

  const PAYLOAD: string := "payload"

  // payload.joinpath(*relative.parts[1:]), relative to the destination directory.
  function TargetOf(key: string): Path
  {
    [PAYLOAD] + Split(key)[1..]
  }

  function Target(m: Member): Path
  {
    TargetOf(Key(m.name))
  }

  // ---- the directory tree under the destination --------------------------------------------------------------

  ghost predicate LeadsTo(p: Path, files: map<Path, Bytes>)
  {
    exists f :: f in files && p <= f
  }

  // The tree holds exactly these files, the directories leading to them and the payload directory.
  ghost predicate Built(tree: Tree, files: map<Path, Bytes>)
  {
    && (forall p :: p in tree <==> p == [] || p == [PAYLOAD] || LeadsTo(p, files))
    && (forall p | p in tree :: tree[p] == if p in files then File(files[p]) else Dir)
  }

  // target.parent.mkdir(parents=True, exist_ok=True): fails only where a file is in the way.
  method MakeDirs(tree: Tree, dir: Path) returns (ok: bool, tree': Tree)
    ensures ok <==> forall i | 0 <= i <= |dir| && dir[..i] in tree :: tree[dir[..i]].Dir?
    ensures ok ==> forall p :: p in tree' <==> p in tree || p <= dir
    ensures ok ==> forall p | p in tree' :: tree'[p] == if p in tree then tree[p] else Dir
  {
    tree' := tree;
    for i := 0 to |dir| + 1
      invariant forall j | 0 <= j < i && dir[..j] in tree :: tree[dir[..j]].Dir?
      invariant forall p :: p in tree' <==> p in tree || (p <= dir && |p| < i)
      invariant forall p | p in tree' :: tree'[p] == if p in tree then tree[p] else Dir
    {
      var here := dir[..i];
      if here !in tree' {
        tree' := tree'[here := Dir];
      } else if !tree'[here].Dir? {
        assert here in tree;
        return false, tree';
      }
      assert forall p: Path {:trigger p in tree'} | p <= dir && |p| == i :: p == here;
    }
    return true, tree';
  }

  // Read one member a second time into a new file: what reaches the file, and whether it is what was declared.
  method CopyOut(tools: Tools, payload: Payload, size: nat, digest: string) returns (ok: bool, content: Bytes)
    ensures ok <==> Exact(payload, size) && tools.sha256(payload.data) == digest
    ensures ok ==> content == payload.data
    ensures |content| <= size
  {
    var stream := new Reader(payload);
    var remaining := size;
    content := [];
    while remaining > 0
      invariant 0 <= remaining <= size && |content| == size - remaining
      invariant payload.data == content + stream.rest && stream.broken == payload.broken
    {
      var block := stream.Read(if READ_CHUNK < remaining then READ_CHUNK else remaining);
      if block.None? || block.value == [] { return false, content; }
      remaining := remaining - |block.value|;
      content := content + block.value;
    }
    var extra := stream.Read(1);
    ok := extra == Some([]) && tools.sha256(content) == digest;
    assert extra == Some([]) ==> content == payload.data;
  }

  // ---- what the second read must be --------------------------------------------------------------------------

  ghost predicate Unchanged(tools: Tools, m: Member, expected: Inventory)
  {
    && Key(m.name) in expected && m.size == expected[Key(m.name)].0
    && Exact(m.payload, m.size) && tools.sha256(m.payload.data) == expected[Key(m.name)].1
  }

  ghost predicate MemberMatches(tools: Tools, m: Member, bundle: string, expected: Inventory)
  {
    MemberPath(m.name, bundle).Some? && (m.directory || Unchanged(tools, m, expected))
  }

  ghost predicate AllMatch(tools: Tools, ms: seq<Member>, bundle: string, expected: Inventory)
  {
    forall i | 0 <= i < |ms| :: MemberMatches(tools, ms[i], bundle, expected)
  }

  // No file member is, or lies below, another.
  ghost predicate NoCollision(ms: seq<Member>)
  {
    forall i, j | 0 <= i < |ms| && 0 <= j < |ms| && i != j && !ms[i].directory && !ms[j].directory ::
      !(Target(ms[i]) <= Target(ms[j]))
  }

  ghost predicate NothingLost(ms: seq<Member>, expected: Inventory)
  {
    forall key | key in expected :: exists i :: 0 <= i < |ms| && !ms[i].directory && Key(ms[i].name) == key
  }

  ghost predicate SecondReadAccepted(tools: Tools, ms: seq<Member>, bundle: string, expected: Inventory)
  {
    AllMatch(tools, ms, bundle, expected) && NoCollision(ms) && NothingLost(ms, expected)
  }

  // The files the members stand for.
  function FilesOf(ms: seq<Member>): map<Path, Bytes>
  {
    if ms == [] then map[]
    else
      var last, files := ms[|ms| - 1], FilesOf(ms[..|ms| - 1]);
      if last.directory then files else files[Target(last) := last.payload.data]
  }

  // ---- one member --------------------------------------------------------------------------------------------

  // No file is at, above or below the target.
  ghost predicate Clear(target: Path, files: map<Path, Bytes>)
  {
    forall f | f in files :: !(f <= target) && !(target <= f)
  }

  ghost predicate InPayload(target: Path)
  {
    |target| >= 2 && target[0] == PAYLOAD
  }

  // The directories leading to the target can be made if no file is above it.
  lemma WayIsClear(tree: Tree, files: map<Path, Bytes>, target: Path)
    requires Built(tree, files) && InPayload(target)
    ensures (forall i | 0 <= i <= |Parent(target)| && Parent(target)[..i] in tree :: tree[Parent(target)[..i]].Dir?)
            <==> forall f | f in files :: !(f <= Parent(target))
  {
    var dir := Parent(target);
    forall f | f in files && f <= dir
      ensures dir[..|f|] == f && f in tree && !tree[f].Dir?
    {
      assert LeadsTo(f, files);
    }
    if i :| 0 <= i <= |dir| && dir[..i] in tree && !tree[dir[..i]].Dir? {
      assert dir[..i] in files && dir[..i] <= dir;
    }
  }

  // A file is in the way exactly if it is above the target, or is the target, or the target leads to it.
  lemma ClearMeans(tree: Tree, files: map<Path, Bytes>, target: Path)
    requires Built(tree, files) && InPayload(target)
    ensures Clear(target, files) <==> target !in tree && forall f | f in files :: !(f <= Parent(target))
  {
  }

  lemma BuiltMore(tree: Tree, made: Tree, files: map<Path, Bytes>, target: Path, data: Bytes)
    requires Built(tree, files) && InPayload(target) && Clear(target, files)
    requires forall p :: p in made <==> p in tree || p <= Parent(target)
    requires forall p | p in made :: made[p] == if p in tree then tree[p] else Dir
    ensures Built(made[target := File(data)], files[target := data])
  {
    var after, more := made[target := File(data)], files[target := data];
    forall p
      ensures p in after <==> p == [] || p == [PAYLOAD] || LeadsTo(p, more)
      ensures p in after ==> after[p] == if p in more then File(more[p]) else Dir
    {
      if p <= target {
        assert target in more;
        assert LeadsTo(p, more);
        if |p| == |target| {
          assert p == target;
        } else {
          assert p <= Parent(target);
        }
      } else {
        assert !(p <= Parent(target));
        assert LeadsTo(p, more) <==> LeadsTo(p, files) by {
          if f :| f in files && p <= f {
            assert f in more;
          }
        }
      }
      assert p in files ==> !(p <= target);
    }
  }

  // The body of the extraction loop for a file member.
  method ExtractFile(tools: Tools, m: Member, expected: Inventory, seen: set<string>, tree: Tree,
                     ghost files: map<Path, Bytes>)
    returns (ok: bool, tree': Tree, written: nat)
    requires Built(tree, files) && (Key(m.name) in expected ==> InPayload(Target(m)))
    requires forall key | key in seen :: TargetOf(key) in files
    ensures ok <==> Unchanged(tools, m, expected) && Clear(Target(m), files)
    ensures ok ==> Key(m.name) !in seen && Built(tree', files[Target(m) := m.payload.data])
    ensures written > 0 ==> Key(m.name) in expected && Key(m.name) !in seen && written <= expected[Key(m.name)].0
  {
    hide Built, Key, Exact;
    var key := Key(m.name);
    var target := TargetOf(key);
    if key !in expected || m.size != expected[key].0 { return false, tree, 0; }
    if key in seen {
      assert target in files && target <= target;
      return false, tree, 0;
    }
    ClearMeans(tree, files, target);
    WayIsClear(tree, files, target);
    ok, tree' := MakeDirs(tree, Parent(target));
    if !ok || target in tree' { return false, tree', 0; }
    var content;
    ok, content := CopyOut(tools, m.payload, m.size, expected[key].1);
    if ok {
      BuiltMore(tree, tree', files, target, content);
    }
    tree' := tree'[target := File(content)];
    written := |content|;
  }

  // ---- all members -------------------------------------------------------------------------------------------

  lemma {:induction false} FilesOfKeys(ms: seq<Member>, p: Path)
    ensures p in FilesOf(ms) <==> exists i :: 0 <= i < |ms| && !ms[i].directory && Target(ms[i]) == p
  {
    if ms != [] {
      var n := |ms| - 1;
      var front := ms[..n];
      FilesOfKeys(front, p);
      if i :| 0 <= i < |ms| && !ms[i].directory && Target(ms[i]) == p {
        assert i < n ==> front[i] == ms[i];
      }
      if i :| 0 <= i < |front| && !front[i].directory && Target(front[i]) == p {
        assert front[i] == ms[i];
      }
    }
  }

  lemma {:induction false} FilesOfValue(ms: seq<Member>, i: nat)
    requires NoCollision(ms) && i < |ms| && !ms[i].directory
    ensures Target(ms[i]) in FilesOf(ms) && FilesOf(ms)[Target(ms[i])] == ms[i].payload.data
  {
    hide Target;
    var n := |ms| - 1;
    if i < n {
      var front := ms[..n];
      assert front[i] == ms[i];
      assert NoCollision(front) by {
        assert forall j | 0 <= j < n :: front[j] == ms[j];
      }
      FilesOfValue(front, i);
      assert !ms[n].directory ==> !(Target(ms[i]) <= Target(ms[n]));
    }
  }

  ghost predicate FitsSoFar(tools: Tools, ms: seq<Member>, bundle: string, expected: Inventory, i: nat)
    requires i <= |ms|
  {
    AllMatch(tools, ms[..i], bundle, expected) && NoCollision(ms[..i])
  }

  lemma CollisionStep(ms: seq<Member>, i: nat)
    requires i < |ms| && NoCollision(ms[..i])
    ensures NoCollision(ms[..i + 1]) <==> ms[i].directory || Clear(Target(ms[i]), FilesOf(ms[..i]))
  {
    hide Target, FilesOf;
    var front, more := ms[..i], ms[..i + 1];
    assert more[i] == ms[i] && forall j | 0 <= j < i :: more[j] == front[j];
    if NoCollision(more) && !ms[i].directory {
      forall f | f in FilesOf(front)
        ensures !(f <= Target(ms[i])) && !(Target(ms[i]) <= f)
      {
        FilesOfKeys(front, f);
        var j :| 0 <= j < i && !front[j].directory && Target(front[j]) == f;
        assert !(Target(more[j]) <= Target(more[i])) && !(Target(more[i]) <= Target(more[j]));
      }
    }
    if ms[i].directory || Clear(Target(ms[i]), FilesOf(front)) {
      forall j, k | 0 <= j <= i && 0 <= k <= i && j != k && !more[j].directory && !more[k].directory
        ensures !(Target(more[j]) <= Target(more[k]))
      {
        if j < i && k < i {
          assert !(Target(front[j]) <= Target(front[k]));
        } else if j == i {
          FilesOfKeys(front, Target(front[k]));
        } else {
          FilesOfKeys(front, Target(front[j]));
        }
      }
    }
  }

  lemma FitsStep(tools: Tools, ms: seq<Member>, bundle: string, expected: Inventory, i: nat)
    requires i < |ms| && FitsSoFar(tools, ms, bundle, expected, i)
    ensures FitsSoFar(tools, ms, bundle, expected, i + 1) <==>
              MemberMatches(tools, ms[i], bundle, expected)
              && (ms[i].directory || Clear(Target(ms[i]), FilesOf(ms[..i])))
    ensures FilesOf(ms[..i + 1]) == if ms[i].directory then FilesOf(ms[..i])
                                    else FilesOf(ms[..i])[Target(ms[i]) := ms[i].payload.data]
  {
    hide MemberMatches, NoCollision, Clear, Target;
    CollisionStep(ms, i);
    var more := ms[..i + 1];
    assert more[..i] == ms[..i] && more[i] == ms[i];
    assert AllMatch(tools, more, bundle, expected) <==> MemberMatches(tools, ms[i], bundle, expected) by {
      assert forall j | 0 <= j < i :: more[j] == ms[..i][j];
    }
  }

  lemma MisfitRefused(tools: Tools, ms: seq<Member>, bundle: string, expected: Inventory, i: nat)
    requires i <= |ms| && !FitsSoFar(tools, ms, bundle, expected, i)
    ensures !SecondReadAccepted(tools, ms, bundle, expected)
  {
  }

  function FileKeys(ms: seq<Member>): set<string>
  {
    set i | 0 <= i < |ms| && !ms[i].directory :: Key(ms[i].name)
  }

  // The files are exactly the expected ones, stripped of the bundle, with the expected sizes and digests.
  ghost predicate Extracted(tools: Tools, expected: Inventory, files: map<Path, Bytes>)
  {
    && (forall key | key in expected ::
          && TargetOf(key) in files && |files[TargetOf(key)]| == expected[key].0
          && tools.sha256(files[TargetOf(key)]) == expected[key].1)
    && (forall f | f in files :: exists key :: key in expected && TargetOf(key) == f)
  }

  lemma AcceptedIsExtracted(tools: Tools, ms: seq<Member>, bundle: string, expected: Inventory)
    requires SecondReadAccepted(tools, ms, bundle, expected)
    ensures Extracted(tools, expected, FilesOf(ms))
  {
    hide TargetOf, Key, FilesOf, MemberPath;
    forall key | key in expected
      ensures TargetOf(key) in FilesOf(ms) && |FilesOf(ms)[TargetOf(key)]| == expected[key].0
      ensures tools.sha256(FilesOf(ms)[TargetOf(key)]) == expected[key].1
    {
      var i :| 0 <= i < |ms| && !ms[i].directory && Key(ms[i].name) == key;
      assert MemberMatches(tools, ms[i], bundle, expected);
      FilesOfValue(ms, i);
    }
    forall f | f in FilesOf(ms)
      ensures exists key :: key in expected && TargetOf(key) == f
    {
      FilesOfKeys(ms, f);
      var i :| 0 <= i < |ms| && !ms[i].directory && Target(ms[i]) == f;
      assert MemberMatches(tools, ms[i], bundle, expected);
    }
  }

  // All keys lead into the payload directory: inventories have them rooted at the bundle with a part below it.
  ghost predicate KeysLand(expected: Inventory)
  {
    forall key | key in expected :: InPayload(TargetOf(key))
  }

  // The second pass over the ZIP.
  method ExtractAll(tools: Tools, ms: seq<Member>, bundle: string, expected: Inventory)
    returns (ok: bool, tree: Tree, ghost counted: seq<string>, written: nat)
    requires KeysLand(expected)
    ensures ok <==> SecondReadAccepted(tools, ms, bundle, expected)
    ensures ok ==> Built(tree, FilesOf(ms)) && Extracted(tools, expected, FilesOf(ms))
    ensures DistinctIn(counted, expected) && written <= SumSizes(expected, counted)
  {
    hide SecondReadAccepted, FitsSoFar, Built, MemberMatches, Clear, FilesOf, TargetOf, MemberPath, Key, Extracted;
    tree := map[[] := Dir, [PAYLOAD] := Dir];
    var seen: set<string> := {};
    counted, written := [], 0;
    EmptyStart(tools, ms, bundle, expected, tree);
    for i := 0 to |ms|
      invariant FitsSoFar(tools, ms, bundle, expected, i) && Built(tree, FilesOf(ms[..i]))
      invariant seen == FileKeys(ms[..i]) && (forall key | key in seen :: TargetOf(key) in FilesOf(ms[..i]))
      invariant DistinctIn(counted, expected) && written <= SumSizes(expected, counted)
      invariant forall key | key in counted :: key in seen
    {
      FitsStep(tools, ms, bundle, expected, i);
      FileKeysStep(ms, i);
      var m := ms[i];
      if MemberPath(m.name, bundle).None? {
        NoPathNoMatch(tools, m, bundle, expected);
        MisfitRefused(tools, ms, bundle, expected, i + 1);
        return false, tree, counted, written;
      }
      MatchMeans(tools, m, bundle, expected);
      if !m.directory {
        var done, more, bytes := ExtractFile(tools, m, expected, seen, tree, FilesOf(ms[..i]));
        tree, written := more, written + bytes;
        if bytes > 0 {
          SumOneMore(expected, counted, Key(m.name));
          counted := counted + [Key(m.name)];
        }
        if !done {
          MisfitRefused(tools, ms, bundle, expected, i + 1);
          return false, tree, counted, written;
        }
        seen := seen + {Key(m.name)};
      }
    }
    assert ms[..|ms|] == ms;
    LostMeans(tools, ms, bundle, expected);
    ok := seen == expected.Keys;
    if ok {
      AcceptedIsExtracted(tools, ms, bundle, expected);
    }
  }

  lemma EmptyStart(tools: Tools, ms: seq<Member>, bundle: string, expected: Inventory, tree: Tree)
    requires tree == map[[] := Dir, [PAYLOAD] := Dir]
    ensures FitsSoFar(tools, ms, bundle, expected, 0) && Built(tree, FilesOf(ms[..0]))
  {
  }

  lemma FileKeysStep(ms: seq<Member>, i: nat)
    requires i < |ms|
    ensures FileKeys(ms[..i + 1]) == FileKeys(ms[..i]) + if ms[i].directory then {} else {Key(ms[i].name)}
  {
  }

  lemma NoPathNoMatch(tools: Tools, m: Member, bundle: string, expected: Inventory)
    requires MemberPath(m.name, bundle).None?
    ensures !MemberMatches(tools, m, bundle, expected)
  {
  }

  lemma MatchMeans(tools: Tools, m: Member, bundle: string, expected: Inventory)
    requires MemberPath(m.name, bundle).Some?
    ensures MemberMatches(tools, m, bundle, expected) <==> m.directory || Unchanged(tools, m, expected)
  {
  }

  lemma LostMeans(tools: Tools, ms: seq<Member>, bundle: string, expected: Inventory)
    requires FitsSoFar(tools, ms, bundle, expected, |ms|)
    ensures SecondReadAccepted(tools, ms, bundle, expected) <==> FileKeys(ms) == expected.Keys
  {
    hide NoCollision, Key, MemberPath;
    assert ms[..|ms|] == ms;
  }

  // ---- how much is written -----------------------------------------------------------------------------------

  ghost predicate DistinctIn(keys: seq<string>, inv: Inventory)
  {
    && (forall i | 0 <= i < |keys| :: keys[i] in inv)
    && (forall i, j | 0 <= i < j < |keys| :: keys[i] != keys[j])
  }

  ghost function SumSizes(inv: Inventory, keys: seq<string>): nat
    requires DistinctIn(keys, inv)
  {
    if keys == [] then 0 else SumSizes(inv, keys[..|keys| - 1]) + inv[keys[|keys| - 1]].0
  }

  lemma SumOneMore(inv: Inventory, keys: seq<string>, key: string)
    requires DistinctIn(keys, inv) && key in inv && key !in keys
    ensures DistinctIn(keys + [key], inv) && SumSizes(inv, keys + [key]) == SumSizes(inv, keys) + inv[key].0
  {
  }

  lemma {:induction false} SumRemove(inv: Inventory, keys: seq<string>, a: nat)
    requires DistinctIn(keys, inv) && a < |keys|
    ensures DistinctIn(keys[..a] + keys[a + 1..], inv)
    ensures SumSizes(inv, keys) == SumSizes(inv, keys[..a] + keys[a + 1..]) + inv[keys[a]].0
  {
    var n := |keys| - 1;
    var rest := keys[..a] + keys[a + 1..];
    if a == n {
      LastDropped(keys);
    } else {
      var front := keys[..n];
      var less := front[..a] + front[a + 1..];
      SumRemove(inv, front, a);
      OtherDropped(keys, a);
      SumOneMore(inv, less, keys[n]);
    }
  }

  lemma LastDropped<T>(s: seq<T>)
    requires s != []
    ensures s[..|s| - 1] + s[|s|..] == s[..|s| - 1]
  {
  }

  lemma OtherDropped<T>(s: seq<T>, a: nat)
    requires a < |s| - 1 && forall i, j | 0 <= i < j < |s| :: s[i] != s[j]
    ensures var front := s[..|s| - 1];
            && s[..a] + s[a + 1..] == front[..a] + front[a + 1..] + [s[|s| - 1]]
            && s[|s| - 1] !in front[..a] + front[a + 1..]
  {
  }

  lemma {:induction false} SumWithout(inv: Inventory, keys: seq<string>, key: string)
    requires DistinctIn(keys, inv) && key !in keys
    ensures DistinctIn(keys, inv - {key}) && SumSizes(inv - {key}, keys) == SumSizes(inv, keys)
  {
    if keys != [] {
      SumWithout(inv, keys[..|keys| - 1], key);
    }
  }

  lemma ListsFront(tools: Tools, ms: seq<Member>, inv: Inventory)
    requires ms != [] && Lists(tools, ms, inv) && CaseDistinct(tools, ms)
    ensures var n := |ms| - 1;
            if ms[n].directory then Lists(tools, ms[..n], inv)
            else Key(ms[n].name) in inv && Lists(tools, ms[..n], inv - {Key(ms[n].name)})
  {
    hide Key;
    var n := |ms| - 1;
    var front := ms[..n];
    var less := if ms[n].directory then inv else inv - {Key(ms[n].name)};
    forall i | 0 <= i < |front| && !front[i].directory
      ensures Key(front[i].name) in less
      ensures less[Key(front[i].name)] == (|front[i].payload.data|, tools.sha256(front[i].payload.data))
    {
      assert front[i] == ms[i];
      assert tools.fold(Key(ms[i].name)) != tools.fold(Key(ms[n].name));
    }
    forall key | key in less
      ensures exists i :: 0 <= i < |front| && !front[i].directory && Key(front[i].name) == key
    {
      var i :| 0 <= i < |ms| && !ms[i].directory && Key(ms[i].name) == key;
      assert front[i] == ms[i];
    }
  }

  // The sizes in an inventory add up to no more than the sizes of the members it was taken from.
  lemma {:induction false} SizesAddUp(tools: Tools, ms: seq<Member>, bundle: string, inv: Inventory, keys: seq<string>)
    requires AllAdmissible(ms, bundle) && CaseDistinct(tools, ms) && Lists(tools, ms, inv) && DistinctIn(keys, inv)
    ensures SumSizes(inv, keys) <= TotalSize(ms)
    decreases |ms|
  {
    hide MemberPath, Key, Lists;
    if ms == [] {
      NothingListed(tools, inv);
      return;
    }
    var n := |ms| - 1;
    assert forall i | 0 <= i < n :: ms[..n][i] == ms[i];
    assert MemberAdmissible(ms[n], bundle);
    ListsFront(tools, ms, inv);
    if ms[n].directory {
      SizesAddUp(tools, ms[..n], bundle, inv, keys);
    } else {
      var key := Key(ms[n].name);
      LastListed(tools, ms, inv);
      if a :| 0 <= a < |keys| && keys[a] == key {
        SumRemove(inv, keys, a);
        var rest := keys[..a] + keys[a + 1..];
        SumWithout(inv, rest, key);
        SizesAddUp(tools, ms[..n], bundle, inv - {key}, rest);
      } else {
        SumWithout(inv, keys, key);
        SizesAddUp(tools, ms[..n], bundle, inv - {key}, keys);
      }
    }
  }

  lemma NothingListed(tools: Tools, inv: Inventory)
    requires Lists(tools, [], inv)
    ensures inv == map[]
  {
  }

  lemma LastListed(tools: Tools, ms: seq<Member>, inv: Inventory)
    requires ms != [] && !ms[|ms| - 1].directory && Lists(tools, ms, inv)
    ensures Key(ms[|ms| - 1].name) in inv && inv[Key(ms[|ms| - 1].name)].0 == |ms[|ms| - 1].payload.data|
  {
  }

  // ---- the whole operation -----------------------------------------------------------------------------------

  // Exactly when a pair is extracted: both archives are admissible with one inventory, the destination is new, and
  // the second read of the ZIP fits that inventory.
  ghost predicate PairAccepted(tools: Tools, tar: seq<Member>, zip: seq<Member>, again: seq<Member>, bundle: string,
                               occupied: bool)
  {
    && Admissible(tools, tar, bundle) && Admissible(tools, zip, bundle) && !occupied
    && exists inv :: Lists(tools, tar, inv) && Lists(tools, zip, inv) && SecondReadAccepted(tools, again, bundle, inv)
  }

  ghost predicate PairAgrees(tools: Tools, tar: seq<Member>, zip: seq<Member>, bundle: string)
  {
    && Admissible(tools, tar, bundle) && Admissible(tools, zip, bundle)
    && exists inv :: Lists(tools, tar, inv) && Lists(tools, zip, inv)
  }

  // extract_pair.  `zip` and `again` are what the two reads of the ZIP return; nothing relates them.
  method ExtractPair(tools: Tools, tar: seq<Member>, zip: seq<Member>, again: seq<Member>, bundle: string,
                     occupied: bool)
    returns (ok: bool, tree: Tree, written: nat)
    ensures ok <==> PairAccepted(tools, tar, zip, again, bundle, occupied)
    ensures ok ==> Built(tree, FilesOf(again))
    ensures ok ==> forall inv | Lists(tools, tar, inv) :: Extracted(tools, inv, FilesOf(again))
    ensures written <= 2 * 1024 * 1024 * 1024
    ensures written > 0 || tree != map[] ==> PairAgrees(tools, tar, zip, bundle) && !occupied
  {
    hide Admissible, Lists, Extracted, Built, SecondReadAccepted, FilesOf, KeysLand;
    tree := map[];
    var expected, _ := Inspect(tools, tar, bundle);
    if expected.None? { return false, tree, 0; }
    var found, _ := Inspect(tools, zip, bundle);
    if found.None? { return false, tree, 0; }
    OneInventory(tools, tar, zip, expected.value, found.value);
    if found.value != expected.value || occupied { return false, tree, 0; }
    InventoryLands(tools, tar, bundle, expected.value);
    ghost var counted;
    ok, tree, counted, written := ExtractAll(tools, again, bundle, expected.value);
    InventoryBounded(tools, tar, bundle, expected.value, counted);
    assert Lists(tools, tar, expected.value) && Lists(tools, zip, expected.value);
  }

  lemma OneInventory(tools: Tools, tar: seq<Member>, zip: seq<Member>, a: Inventory, b: Inventory)
    requires Lists(tools, tar, a) && Lists(tools, zip, b)
    ensures forall inv | Lists(tools, tar, inv) :: inv == a
    ensures forall inv | Lists(tools, zip, inv) :: inv == b
  {
  }

  lemma InventoryLands(tools: Tools, ms: seq<Member>, bundle: string, inv: Inventory)
    requires Admissible(tools, ms, bundle) && Lists(tools, ms, inv)
    ensures KeysLand(inv)
  {
  }

  lemma LandsInside(key: string, bundle: string)
    requires SafeKey(key, bundle)
    ensures InPayload(TargetOf(key)) && forall i | 1 <= i < |TargetOf(key)| :: SafePart(TargetOf(key)[i])
  {
  }

  lemma InventoryBounded(tools: Tools, ms: seq<Member>, bundle: string, inv: Inventory, keys: seq<string>)
    requires Admissible(tools, ms, bundle) && Lists(tools, ms, inv) && DistinctIn(keys, inv)
    ensures SumSizes(inv, keys) <= MAX_TOTAL
  {
    hide Lists, AllAdmissible, CaseDistinct;
    SizesAddUp(tools, ms, bundle, inv, keys);
  }

  // Every file extracted lies strictly inside the payload directory, reached without "." or ".." parts.
  lemma ExtractedInside(tools: Tools, tar: seq<Member>, bundle: string, inv: Inventory,
                        files: map<Path, Bytes>, f: Path)
    requires Admissible(tools, tar, bundle) && Lists(tools, tar, inv) && Extracted(tools, inv, files) && f in files
    ensures InPayload(f) && forall i | 1 <= i < |f| :: SafePart(f[i])
  {
    hide Admissible, Lists, SafePart, SafeKey, TargetOf, Digested;
    InventoryGuarantees(tools, tar, bundle, inv);
    var key :| key in inv && TargetOf(key) == f;
    LandsInside(key, bundle);
  }
}
