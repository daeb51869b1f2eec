// What a checkpoint is: names, inventories, manifests and the verification rule
// (scripts/windows_qemu_state.py, checkpoint_path, inventory, verify, copy_state).
module Baseline {
  import opened Text
  import opened Disks

  const STATE: seq<string> := ["windows.qcow2", "uefi-code.bin", "uefi-vars.bin", "identity.json",
                               "settings.json", "initial-firmware-sha256.json", "tpm"]
  const MANIFEST: Path := ["manifest.json"]

  type Listing = map<string, string>

  // The parts of the outside world the scripts call: SHA-256 in hexadecimal, and JSON.  A value that JSON reads
  // back as anything but a string is None.
  datatype Env = Env(sha256: Bytes -> string,
                     dumps: Listing -> Bytes,
                     loads: Bytes -> Option<map<string, Option<string>>>)

  predicate Hex64(s: string)
  {
    |s| == 64 && forall i | 0 <= i < |s| :: '0' <= s[i] <= '9' || 'a' <= s[i] <= 'f'
  }

  ghost predicate Lawful(env: Env)
  {
    && (forall b :: Hex64(env.sha256(b)))
    && (forall m :: env.loads(env.dumps(m)) == Some(Lift(m)))
  }

  function Lift(m: Listing): map<string, Option<string>>
  {
    map k | k in m :: Some(m[k])
  }

  // ---- checkpoint names --------------------------------------------------------------------------------------

  predicate Alphanumeric(c: char)
  {
    'a' <= c <= 'z' || 'A' <= c <= 'Z' || '0' <= c <= '9'
  }

  // [a-zA-Z0-9][a-zA-Z0-9_-]{0,63}
  predicate Selectable(name: string)
  {
    && 1 <= |name| <= 64
    && Alphanumeric(name[0])
    && forall i | 1 <= i < |name| :: Alphanumeric(name[i]) || name[i] == '_' || name[i] == '-'
  }

  // At most 64 letters, digits, underscores and hyphens, and neither of the last two first.
  lemma SelectableExactly(name: string)
    ensures Selectable(name) <==>
            && 0 < |name| < 65 && name[0] !in "_-"
            && forall c | c in name :: 'a' <= c <= 'z' || 'A' <= c <= 'Z' || '0' <= c <= '9' || c in "_-"
  {
    if 0 < |name| < 65 && forall c | c in name :: Alphanumeric(c) || c in "_-" {
      assert forall i | 0 <= i < |name| :: name[i] in name;
    }
  }

  // ---- names inside a checkpoint -----------------------------------------------------------------------------

  function Components(parts: seq<string>): seq<string>
  {
    if parts == [] then []
    else (if parts[0] == "" || parts[0] == "." then [] else [parts[0]]) + Components(parts[1..])
  }

  // PurePosixPath(name).parts; any number of leading slashes shows up as a first part "/".
  function PosixParts(name: string): seq<string>
  {
    (if name != "" && name[0] == '/' then ["/"] else []) + Components(Split(name))
  }

  predicate NameAllowed(name: string)
  {
    var parts := PosixParts(name);
    parts != [] && parts[0] in STATE && ".." !in parts && '\\' !in name
  }

  lemma {:induction false} ComponentsGood(q: Path)
    requires GoodParts(q)
    ensures Components(q) == q
  {
    if q != [] {
      assert GoodName(q[0]);
      ComponentsGood(q[1..]);
    }
  }

  // A path of good names is read back from its posix form unchanged.
  lemma PosixPartsOfJoin(q: Path)
    requires q != [] && GoodParts(q)
    ensures Split(Join(q)) == q && PosixParts(Join(q)) == q
  {
    SplitUndoesJoin(q);
    ComponentsGood(q);
    assert GoodName(q[0]);
    assert Join(q)[0] == q[0][0];
  }

  // ---- inventories -------------------------------------------------------------------------------------------

  ghost predicate GoodTree(t: Tree)
  {
    forall q | q in t :: GoodParts(q)
  }

  lemma SubGood(d: Tree, p: Path)
    requires TreeShaped(d)
    ensures GoodTree(Sub(d, p))
  {
    forall q, i | q in Sub(d, p) && 0 <= i < |q|
      ensures GoodName(q[i])
    {
      GoodPath(d, p, q, i);
    }
  }

  predicate Plain(n: Node)
  {
    n.File? || n.Dir?
  }

  ghost predicate Ordinary(t: Tree)
  {
    forall q | q in t && q != [] :: Plain(t[q])
  }

  predicate Inventoried(t: Tree, q: Path)
  {
    q in t && q != [] && q != MANIFEST && t[q].File?
  }

  ghost predicate NamesFile(t: Tree, key: string)
  {
    Inventoried(t, Split(key))
  }

  ghost predicate Lists(env: Env, t: Tree, m: Listing, q: Path)
  {
    Inventoried(t, q) ==> Join(q) in m && m[Join(q)] == env.sha256(t[q].data)
  }

  // m lists exactly the inventoried files of t, each with the digest of its bytes.
  ghost predicate IsListing(env: Env, t: Tree, m: Listing)
  {
    && (forall key {:trigger NamesFile(t, key)} | key in m :: NamesFile(t, key))
    && (forall q {:trigger Lists(env, t, m, q)} :: Lists(env, t, m, q))
  }

  lemma ListingUnique(env: Env, t: Tree, m: Listing, n: Listing)
    requires IsListing(env, t, m) && IsListing(env, t, n)
    ensures m == n
  {
    forall key | key in m || key in n
      ensures key in m && key in n && m[key] == n[key]
    {
      JoinUndoesSplit(key);
      assert NamesFile(t, key);
      assert Lists(env, t, m, Split(key)) && Lists(env, t, n, Split(key));
    }
  }

  // The listing depends only on the inventoried files.
  lemma ListingTransfers(env: Env, t: Tree, u: Tree, m: Listing)
    requires IsListing(env, t, m)
    requires forall q :: Inventoried(t, q) <==> Inventoried(u, q)
    requires forall q | Inventoried(t, q) :: q in u && t[q] == u[q]
    ensures IsListing(env, u, m)
  {
    forall key | key in m
      ensures NamesFile(u, key)
    {
      assert NamesFile(t, key);
    }
    forall q
      ensures Lists(env, u, m, q)
    {
      assert Lists(env, t, m, q);
    }
  }

  // ---- verification ------------------------------------------------------------------------------------------

  // t has a readable manifest m whose names and digests are admissible.
  ghost predicate Declares(env: Env, t: Tree, m: Listing)
  {
    && IsDir(t, [])
    && MANIFEST in t && t[MANIFEST].File? && env.loads(t[MANIFEST].data) == Some(Lift(m))
    && m != map[]
    && (forall name | name in m :: NameAllowed(name) && Hex64(m[name]))
  }

  ghost predicate Verified(env: Env, t: Tree, m: Listing)
  {
    && Declares(env, t, m)
    && Ordinary(t) && IsListing(env, t, m)
    && (forall name | name in STATE :: [name] in t)
  }

  ghost predicate Verifies(env: Env, t: Tree)
  {
    exists m :: Verified(env, t, m)
  }

  // Files and directories only, all STATE names and at least one file, and every file but the manifest lies under a
  // STATE name, without a backslash in its path.
  ghost predicate HoldsState(env: Env, t: Tree)
  {
    && IsDir(t, []) && Ordinary(t) && (forall name | name in STATE :: [name] in t)
    && (exists q :: Inventoried(t, q)) && FilesAllowed(env, t)
  }

  ghost predicate FilesAllowed(env: Env, t: Tree)
  {
    forall q | Inventoried(t, q) :: q[0] in STATE && '\\' !in Join(q) && Hexadecimal(env.sha256(t[q].data))
  }

  // Of 64 characters, each a digit or one of a to f.
  ghost predicate Hexadecimal(s: string)
  {
    |s| == 64 && forall c | c in s :: '0' <= c <= '9' || 'a' <= c <= 'f'
  }

  lemma Hex64Means(s: string)
    ensures Hex64(s) <==> Hexadecimal(s)
  {
    if Hexadecimal(s) {
      assert forall i | 0 <= i < |s| :: s[i] in s;
    }
  }

  // The manifest reads as m, and m lists just these files with the digests of their bytes.
  ghost predicate ManifestLists(env: Env, t: Tree, m: Listing)
  {
    MANIFEST in t && t[MANIFEST].File? && env.loads(t[MANIFEST].data) == Some(Lift(m)) && IsListing(env, t, m)
  }

  lemma VerifiesExactly(env: Env, t: Tree)
    requires GoodTree(t)
    ensures Verifies(env, t) <==> HoldsState(env, t) && exists m :: ManifestLists(env, t, m)
  {
    hide Verified, HoldsState, ManifestLists;
    if m :| Verified(env, t, m) {
      VerifiedMeans(env, t, m);
    }
    if m :| ManifestLists(env, t, m) {
      VerifiedMeans(env, t, m);
    }
  }

  lemma VerifiedMeans(env: Env, t: Tree, m: Listing)
    requires GoodTree(t)
    ensures Verified(env, t, m) <==> HoldsState(env, t) && ManifestLists(env, t, m)
  {
    hide NameAllowed, Hex64, Lift, IsListing, Ordinary, FilesAllowed, Inventoried;
    if IsListing(env, t, m) {
      ListedFiles(env, t, m);
    }
  }

  // What the rules for names and digests say of the files listed.
  lemma ListedFiles(env: Env, t: Tree, m: Listing)
    requires GoodTree(t) && IsListing(env, t, m)
    ensures m != map[] <==> exists q :: Inventoried(t, q)
    ensures (forall name | name in m :: NameAllowed(name) && Hex64(m[name])) <==> FilesAllowed(env, t)
  {
    hide NameAllowed, Hex64, Hexadecimal;
    forall q | Inventoried(t, q)
      ensures Join(q) in m && m[Join(q)] == env.sha256(t[q].data)
      ensures NameAllowed(Join(q)) <==> q[0] in STATE && '\\' !in Join(q)
    {
      assert Lists(env, t, m, q);
      AllowedMeans(q);
    }
    forall s
      ensures Hex64(s) <==> Hexadecimal(s)
    {
      Hex64Means(s);
    }
    forall name | name in m
      ensures Inventoried(t, Split(name)) && Join(Split(name)) == name
    {
      assert NamesFile(t, name);
      JoinUndoesSplit(name);
    }
  }

  lemma AllowedMeans(q: Path)
    requires q != [] && GoodParts(q)
    ensures NameAllowed(Join(q)) <==> q[0] in STATE && '\\' !in Join(q)
  {
    PosixPartsOfJoin(q);
    assert forall i | 0 <= i < |q| :: GoodName(q[i]) && q[i] != "..";
  }

  // ---- the state that is copied ------------------------------------------------------------------------------

  predicate InState(q: Path)
  {
    q != [] && q[0] in STATE
  }

  // Every STATE file and directory of t, with all that lies in them.
  ghost function StateOf(t: Tree): Tree
  {
    map q | q in t && InState(q) :: t[q]
  }

  // copy_state accepts t: every STATE entry is there and holds only files and directories.
  ghost predicate Copyable(t: Tree)
  {
    (forall name | name in STATE :: [name] in t) && Ordinary(StateOf(t))
  }

  // A new directory holding a copy of the state.
  ghost function CopyOf(t: Tree): Tree
  {
    StateOf(t)[[] := Dir]
  }

  // The files of a verified checkpoint all belong to the state: this is what the name rule of the manifest buys.
  lemma VerifiedFilesAreState(env: Env, t: Tree, m: Listing, q: Path)
    requires Verified(env, t, m) && GoodTree(t) && Inventoried(t, q)
    ensures InState(q)
  {
    PosixPartsOfJoin(q);
    assert Lists(env, t, m, q);
  }

  // So a copy of the state of a verified checkpoint has the same inventory, although the copy has no manifest.
  lemma CopyKeepsListing(env: Env, t: Tree, m: Listing)
    requires Verified(env, t, m) && GoodTree(t)
    ensures Copyable(t) && Ordinary(CopyOf(t)) && IsListing(env, CopyOf(t), m)
  {
    hide IsListing, Declares, GoodTree;
    var c := CopyOf(t);
    forall q
      ensures Inventoried(c, q) <==> Inventoried(t, q)
      ensures Inventoried(c, q) ==> c[q] == t[q]
    {
      if Inventoried(t, q) {
        VerifiedFilesAreState(env, t, m, q);
      }
    }
    ListingTransfers(env, t, c, m);
  }

  // The state can be checkpointed: it can be copied, holds at least one file, and no file name has a backslash.
  ghost predicate Archivable(t: Tree)
  {
    && Copyable(t)
    && (exists q :: Inventoried(StateOf(t), q))
    && (forall q | Inventoried(StateOf(t), q) :: '\\' !in Join(q))
  }

  lemma CopyNamesAllowed(env: Env, t: Tree, m: Listing, name: string)
    requires GoodTree(t) && Archivable(t) && IsListing(env, CopyOf(t), m) && name in m
    ensures NameAllowed(name) && exists b :: m[name] == env.sha256(b)
  {
    var q := Split(name);
    JoinUndoesSplit(name);
    assert NamesFile(CopyOf(t), name) && Inventoried(StateOf(t), q) && GoodParts(q);
    PosixPartsOfJoin(q);
    assert Lists(env, CopyOf(t), m, q);
    assert GoodName(q[0]);
    assert ".." !in q by {
      forall i | 0 <= i < |q|
        ensures q[i] != ".."
      {
        assert GoodName(q[i]);
      }
    }
  }

  // A manifest next to a copy changes none of its inventoried files.
  lemma ManifestBeside(t: Tree, data: Bytes)
    requires Copyable(t)
    ensures var c, v := CopyOf(t), CopyOf(t)[MANIFEST := File(data)];
            && IsDir(v, []) && Ordinary(v) && (forall name | name in STATE :: [name] in v)
            && (forall q :: Inventoried(c, q) <==> Inventoried(v, q))
            && (forall q | Inventoried(c, q) :: q in v && c[q] == v[q])
  {
    var v := CopyOf(t)[MANIFEST := File(data)];
    forall q | q in v && q != []
      ensures Plain(v[q])
    {
      assert q != MANIFEST ==> q in StateOf(t);
    }
  }

  lemma SomethingListed(env: Env, t: Tree, m: Listing)
    requires Archivable(t) && IsListing(env, CopyOf(t), m)
    ensures m != map[]
  {
    var q :| Inventoried(StateOf(t), q);
    assert Lists(env, CopyOf(t), m, q);
  }

  // Writing the inventory of a copy next to it as the manifest makes a checkpoint that verifies ...
  lemma FreshManifestVerifies(env: Env, t: Tree, m: Listing)
    requires Lawful(env) && GoodTree(t) && Archivable(t) && IsListing(env, CopyOf(t), m)
    ensures Verified(env, CopyOf(t)[MANIFEST := File(env.dumps(m))], m)
  {
    hide NameAllowed, Hex64, GoodTree, Lift, CopyOf, Copyable, Ordinary, IsListing;
    ManifestBeside(t, env.dumps(m));
    ListingTransfers(env, CopyOf(t), CopyOf(t)[MANIFEST := File(env.dumps(m))], m);
    SomethingListed(env, t, m);
    forall name | name in m
      ensures NameAllowed(name) && Hex64(m[name])
    {
      CopyNamesAllowed(env, t, m, name);
    }
  }

  // ... and verifies only for such a state.
  lemma OnlyArchivableVerifies(env: Env, t: Tree, data: Bytes, m: Listing)
    requires GoodTree(t) && Copyable(t) && Verified(env, CopyOf(t)[MANIFEST := File(data)], m)
    ensures Archivable(t)
  {
    var v := CopyOf(t)[MANIFEST := File(data)];
    forall q
      ensures Inventoried(v, q) <==> Inventoried(StateOf(t), q)
    {
    }
    var name :| name in m;
    assert NamesFile(v, name);
    forall q | Inventoried(StateOf(t), q)
      ensures '\\' !in Join(q)
    {
      assert Lists(env, v, m, q) && NameAllowed(Join(q));
    }
  }

  // ---- an example --------------------------------------------------------------------------------------------

  lemma StateNames(name: string)
    requires name in STATE
    ensures GoodName(name) && [name] != MANIFEST
  {
    hide Split, Join, NameAllowed, PosixParts;
  }

  lemma NoBackslash(name: string)
    requires name in STATE
    ensures '\\' !in name && name != ".."
  {
  }

  lemma StateAllowed(name: string)
    requires name in STATE
    ensures NameAllowed(name)
  {
    hide Split, Join, PosixParts, GoodName;
    StateNames(name);
    NoBackslash(name);
    OnePart(name);
  }

  lemma OnePart(name: string)
    requires GoodName(name)
    ensures Join([name]) == name && Split(name) == [name] && PosixParts(name) == [name]
  {
    PosixPartsOfJoin([name]);
  }

  // Empty files under these names, and a manifest.
  function Flat(names: seq<string>): Tree
  {
    var paths := set name | name in names :: [name];
    (map q | q in paths :: File([]))[MANIFEST := File([])][[] := Dir]
  }

  lemma FlatHolds(names: seq<string>, q: Path)
    ensures q in Flat(names) <==> q == [] || q == MANIFEST || (|q| == 1 && q[0] in names)
    ensures q in Flat(names) ==> Flat(names)[q] == if q == [] then Dir else File([])
  {
    if |q| == 1 {
      assert q == [q[0]];
    }
  }

  lemma FlatListing(env: Env, names: seq<string>, digest: string)
    requires env.sha256([]) == digest && forall name | name in names :: GoodName(name) && [name] != MANIFEST
    ensures IsListing(env, Flat(names), map name | name in names :: digest)
  {
    hide Flat, Split, Join, GoodName;
    var m := map name | name in names :: digest;
    forall key | key in m
      ensures NamesFile(Flat(names), key)
    {
      OnePart(key);
      FlatHolds(names, [key]);
    }
    forall q
      ensures Lists(env, Flat(names), m, q)
    {
      FlatHolds(names, q);
      if Inventoried(Flat(names), q) {
        assert q == [q[0]];
        OnePart(q[0]);
      }
    }
  }

  lemma FlatGood(names: seq<string>)
    requires forall name | name in names :: GoodName(name)
    ensures GoodTree(Flat(names)) && Ordinary(Flat(names)) && IsDir(Flat(names), [])
    ensures MANIFEST in Flat(names) && Flat(names)[MANIFEST].File?
    ensures forall name | name in names :: [name] in Flat(names) && Flat(names)[[name]].File?
  {
    hide Flat;
    forall q
      ensures q in Flat(names) ==> GoodParts(q) && (q == [] || Flat(names)[q].File?)
    {
      FlatHolds(names, q);
    }
    FlatHolds(names, []);
    FlatHolds(names, MANIFEST);
    forall name | name in names
      ensures [name] in Flat(names) && Flat(names)[[name]].File?
    {
      FlatHolds(names, [name]);
    }
  }

  lemma FlatCopyable()
    requires forall name | name in STATE :: GoodName(name)
    ensures Copyable(Flat(STATE))
  {
    hide Flat, GoodName;
    FlatGood(STATE);
  }

  lemma FlatArchivable()
    requires forall name | name in STATE :: GoodName(name) && [name] != MANIFEST
    requires Copyable(Flat(STATE))
    ensures Archivable(Flat(STATE))
  {
    hide Flat, Split, Join, PosixParts, GoodName, Copyable;
    var t := Flat(STATE);
    FlatGood(STATE);
    assert [STATE[0]] in StateOf(t);
    assert Inventoried(StateOf(t), [STATE[0]]);
    forall q | Inventoried(StateOf(t), q)
      ensures '\\' !in Join(q)
    {
      FlatHolds(STATE, q);
      assert q == [q[0]];
      OnePart(q[0]);
      NoBackslash(q[0]);
    }
  }

  // Seven empty files and a manifest: the smallest kind of checkpoint, and a state that can be archived.
  lemma SmallestCheckpoint() returns (env: Env, t: Tree, m: Listing)
    ensures Verified(env, t, m) && GoodTree(t) && Archivable(t)
  {
    hide Flat, GoodName, IsListing, Lift, NameAllowed, Archivable, Copyable, Ordinary, GoodTree, IsDir;
    var digest := seq(64, _ => '0');
    m := map name | name in STATE :: digest;
    env := Env(_ => digest, _ => [], _ => Some(Lift(m)));
    t := Flat(STATE);
    forall name | name in STATE
      ensures GoodName(name) && [name] != MANIFEST && NameAllowed(name)
    {
      StateNames(name);
      StateAllowed(name);
    }
    FlatGood(STATE);
    FlatListing(env, STATE, digest);
    FlatCopyable();
    FlatArchivable();
    assert STATE[0] in m;
  }
}
