// The two archives written from one staged release directory (scripts/create_release_archives.py), and how the
// bounded inspection sees them.
module ReleaseArchives {
  import opened Text
  import opened Disks
  import opened ArchiveNames
  import opened ArchiveInventory
  import opened Streams

  // A staged entry; `inode` tells hard links apart from copies.
  datatype Item = Folder | Doc(inode: nat, data: Bytes, executable: bool) | Odd

  // Paths relative to the bundle directory, which is [].
  type Stage = map<Path, Item>

  datatype TarKind = RegularFile | DirectoryEntry | HardLink

  datatype TarEntry = TarEntry(name: string, kind: TarKind, mode: nat, data: Bytes)

  datatype ZipEntry = ZipEntry(filename: string, attributes: nat, data: Bytes)

  const S_IFDIR: nat := 16384
  const S_IFREG: nat := 32768
  const TYPE_BITS: nat := 4096
  const MODE_SHIFT: nat := 65536

  // [0-9A-Za-z][0-9A-Za-z._+-]*
  predicate SafeBundle(name: string)
  {
    && name != "" && PlainChar(name[0])
    && forall i | 0 <= i < |name| :: PlainChar(name[i]) || name[i] in "._+-"
  }

  predicate PlainChar(c: char)
  {
    '0' <= c <= '9' || 'A' <= c <= 'Z' || 'a' <= c <= 'z'
  }

  // The members in the order they are written, the bundle directory first.
  ghost predicate Enumerates(order: seq<Path>, stage: Stage)
  {
    && order != [] && order[0] == []
    && (forall i | 0 <= i < |order| :: order[i] in stage && GoodParts(order[i]))
    && (forall p | p in stage :: p in order)
    && (forall i, j | 0 <= i < j < |order| :: order[i] != order[j])
  }

  function NameOf(bundle: string, p: Path): string
  {
    Join([bundle] + p)
  }

  predicate EndsWithExe(p: Path)
  {
    p != [] && var name := p[|p| - 1];
    |name| > 4 && name[|name| - 4] == '.' && Lower(name[|name| - 3]) == 'e' && Lower(name[|name| - 2]) == 'x'
    && Lower(name[|name| - 1]) == 'e'
  }

  // normalized_mode
  function Mode(p: Path, item: Item): nat
  {
    if item.Folder? || EndsWithExe(p) || (item.Doc? && item.executable) then 493 else 420
  }

  // A name with something before a suffix that is "exe" in any case.
  ghost predicate ProgramName(name: string)
  {
    exists stem, ext :: stem != "" && name == stem + "." + ext && SameWord(ext, "exe")
  }

  // Directories, programs by their permission bits, and programs by their names.
  ghost predicate Runs(p: Path, item: Item)
  {
    item.Folder? || (item.Doc? && item.executable) || (p != [] && ProgramName(p[|p| - 1]))
  }

  // rwxr-xr-x for what runs, rw-r--r-- for everything else.
  ghost function Permissions(p: Path, item: Item): nat
  {
    if Runs(p, item) then 7 * 64 + 5 * 8 + 5 else 6 * 64 + 4 * 8 + 4
  }

  lemma ModeIs(p: Path, item: Item)
    ensures Mode(p, item) == Permissions(p, item)
  {
    hide EndsWithExe, ProgramName;
    if EndsWithExe(p) {
      ExeIsProgram(p);
    }
    if p != [] && ProgramName(p[|p| - 1]) {
      ProgramIsExe(p);
    }
  }

  lemma ExeIsProgram(p: Path)
    requires EndsWithExe(p)
    ensures p != [] && ProgramName(p[|p| - 1])
  {
    var name := p[|p| - 1];
    var n := |name| - 4;
    var stem, ext := name[..n], [name[n + 1], name[n + 2], name[n + 3]];
    assert SameLetter(ext[0], 'e') && SameLetter(ext[1], 'x') && SameLetter(ext[2], 'e');
    assert name == stem + "." + ext && SameWord(ext, "exe");
  }

  lemma ProgramIsExe(p: Path)
    requires p != [] && ProgramName(p[|p| - 1])
    ensures EndsWithExe(p)
  {
    var name := p[|p| - 1];
    var stem, ext :| stem != "" && name == stem + "." + ext && SameWord(ext, "exe");
    assert SameLetter(ext[0], 'e') && SameLetter(ext[1], 'x') && SameLetter(ext[2], 'e');
    var n := |stem|;
    assert name[n] == '.' && name[n + 1] == ext[0] && name[n + 2] == ext[1] && name[n + 3] == ext[2];
  }

  // ---- writing -----------------------------------------------------------------------------------------------

  ghost predicate LinkedEarlier(stage: Stage, order: seq<Path>, i: nat)
    requires i < |order| && forall j | 0 <= j < |order| :: order[j] in stage
  {
    stage[order[i]].Doc? &&
    exists j :: 0 <= j < i && stage[order[j]].Doc? && stage[order[j]].inode == stage[order[i]].inode
  }

  ghost predicate Writable(stage: Stage, order: seq<Path>)
  {
    forall i | 0 <= i < |order| :: order[i] in stage && !stage[order[i]].Odd?
  }

  // The tar entry of member i: the second name of one file becomes a hard link without contents.
  ghost predicate TarEntryFor(stage: Stage, bundle: string, order: seq<Path>, i: nat, e: TarEntry)
    requires Writable(stage, order) && i < |order|
  {
    && e.name == NameOf(bundle, order[i]) && e.mode == Permissions(order[i], stage[order[i]])
    && match stage[order[i]]
       case Folder => e.kind == DirectoryEntry && e.data == []
       case Doc(_, data, _) =>
         if LinkedEarlier(stage, order, i) then e.kind == HardLink && e.data == []
         else e.kind == RegularFile && e.data == data
  }

  // create_tar; tarfile remembers the inodes it has written.
  method CreateTar(stage: Stage, bundle: string, order: seq<Path>) returns (tar: seq<TarEntry>)
    requires Writable(stage, order)
    ensures |tar| == |order| && forall i | 0 <= i < |order| :: TarEntryFor(stage, bundle, order, i, tar[i])
  {
    hide Mode, Permissions, NameOf;
    tar := [];
    var inodes: set<nat> := {};
    for i := 0 to |order|
      invariant |tar| == i && forall j | 0 <= j < i :: TarEntryFor(stage, bundle, order, j, tar[j])
      invariant forall n :: n in inodes <==>
                  exists j :: 0 <= j < i && stage[order[j]].Doc? && stage[order[j]].inode == n
    {
      var p := order[i];
      var item := stage[p];
      ModeIs(p, item);
      match item {
        case Folder =>
          tar := tar + [TarEntry(NameOf(bundle, p), DirectoryEntry, Mode(p, item), [])];
        case Doc(inode, data, _) =>
          if inode in inodes {
            tar := tar + [TarEntry(NameOf(bundle, p), HardLink, Mode(p, item), [])];
          } else {
            tar := tar + [TarEntry(NameOf(bundle, p), RegularFile, Mode(p, item), data)];
            inodes := inodes + {inode};
          }
      }
      assert stage[order[i]] == item;
    }
  }

  ghost predicate ZipEntryFor(stage: Stage, bundle: string, order: seq<Path>, i: nat, e: ZipEntry)
    requires Writable(stage, order) && i < |order|
  {
    match stage[order[i]]
    case Folder =>
      && e.filename == NameOf(bundle, order[i]) + "/" && e.data == []
      && e.attributes == (16384 + Permissions(order[i], Folder)) * 65536
    case Doc(_, data, _) =>
      && e.filename == NameOf(bundle, order[i]) && e.data == data
      && e.attributes == (32768 + Permissions(order[i], stage[order[i]])) * 65536
  }

  // create_zip
  method CreateZip(stage: Stage, bundle: string, order: seq<Path>) returns (zip: seq<ZipEntry>)
    requires Writable(stage, order)
    ensures |zip| == |order| && forall i | 0 <= i < |order| :: ZipEntryFor(stage, bundle, order, i, zip[i])
  {
    hide Mode, Permissions, NameOf;
    zip := [];
    for i := 0 to |order|
      invariant |zip| == i && forall j | 0 <= j < i :: ZipEntryFor(stage, bundle, order, j, zip[j])
    {
      var p := order[i];
      var item := stage[p];
      ModeIs(p, item);
      var name := if item.Folder? then NameOf(bundle, p) + "/" else NameOf(bundle, p);
      var kind := if item.Folder? then S_IFDIR else S_IFREG;
      zip := zip + [ZipEntry(name, (kind + Mode(p, item)) * MODE_SHIFT, if item.Doc? then item.data else [])];
    }
  }

  // ---- reading back ------------------------------------------------------------------------------------------

  predicate IsDirName(name: string)
  {
    name != "" && name[|name| - 1] == '/'
  }

  // Names to digests, None for a directory; later entries win.
  type Payloads = map<string, Option<string>>

  function TarPayloads(tools: Tools, tar: seq<TarEntry>): Payloads
  {
    if tar == [] then map[]
    else
      var e, before := tar[|tar| - 1], TarPayloads(tools, tar[..|tar| - 1]);
      if e.kind.DirectoryEntry? then before[RStrip(e.name) := None] else before[e.name := Some(tools.sha256(e.data))]
  }

  function ZipPayloads(tools: Tools, zip: seq<ZipEntry>): Payloads
  {
    if zip == [] then map[]
    else
      var e, before := zip[|zip| - 1], ZipPayloads(tools, zip[..|zip| - 1]);
      before[RStrip(e.filename) := if IsDirName(e.filename) then None else Some(tools.sha256(e.data))]
  }

  // verify_equivalent
  method VerifyEquivalent(tools: Tools, tar: seq<TarEntry>, zip: seq<ZipEntry>) returns (ok: bool)
    ensures ok <==> (forall i | 0 <= i < |tar| :: !tar[i].kind.HardLink?)
                    && TarPayloads(tools, tar) == ZipPayloads(tools, zip)
  {
    var tarPayloads: Payloads := map[];
    for i := 0 to |tar|
      invariant tarPayloads == TarPayloads(tools, tar[..i]) && forall j | 0 <= j < i :: !tar[j].kind.HardLink?
    {
      assert tar[..i + 1][..i] == tar[..i];
      var e := tar[i];
      match e.kind {
        case DirectoryEntry => tarPayloads := tarPayloads[RStrip(e.name) := None];
        case RegularFile => tarPayloads := tarPayloads[e.name := Some(tools.sha256(e.data))];
        case HardLink => return false;
      }
    }
    var zipPayloads: Payloads := map[];
    for i := 0 to |zip|
      invariant zipPayloads == ZipPayloads(tools, zip[..i])
    {
      assert zip[..i + 1][..i] == zip[..i];
      var e := zip[i];
      zipPayloads := zipPayloads[RStrip(e.filename) :=
        if IsDirName(e.filename) then None else Some(tools.sha256(e.data))];
    }
    assert tar[..|tar|] == tar && zip[..|zip|] == zip;
    ok := tarPayloads == zipPayloads;
  }

  // ---- the archives agree ------------------------------------------------------------------------------------

  ghost predicate NoSharedInodes(stage: Stage)
  {
    forall p, q | p in stage && q in stage && p != q && stage[p].Doc? && stage[q].Doc? ::
      stage[p].inode != stage[q].inode
  }

  lemma NameFacts(bundle: string, p: Path)
    requires SafeBundle(bundle) && GoodParts(p)
    ensures RStrip(NameOf(bundle, p)) == NameOf(bundle, p) == RStrip(NameOf(bundle, p) + "/")
    ensures !IsDirName(NameOf(bundle, p)) && IsDirName(NameOf(bundle, p) + "/")
    ensures Split(NameOf(bundle, p)) == [bundle] + p
  {
    var parts := [bundle] + p;
    assert '/' !in bundle;
    assert forall i | 0 <= i < |p| :: GoodName(p[i]);
    assert SlashFree(parts);
    assert parts[|parts| - 1] == if p == [] then bundle else p[|p| - 1];
    MemberPathOfJoin(parts, bundle);
    JoinEnds(parts);
    SplitUndoesJoin(parts);
  }

  // Distinct staged paths have distinct names.
  lemma NamesDiffer(bundle: string, p: Path, q: Path)
    requires SafeBundle(bundle) && GoodParts(p) && GoodParts(q) && p != q
    ensures NameOf(bundle, p) != NameOf(bundle, q)
  {
    NameFacts(bundle, p);
    NameFacts(bundle, q);
    assert ([bundle] + p)[1..] == p && ([bundle] + q)[1..] == q;
  }

  // A tar and a ZIP entry that are read back alike.
  ghost predicate Twins(t: TarEntry, z: ZipEntry)
  {
    if t.kind.DirectoryEntry? then RStrip(t.name) == RStrip(z.filename) && IsDirName(z.filename)
    else t.kind.RegularFile? && t.name == RStrip(z.filename) && !IsDirName(z.filename) && t.data == z.data
  }

  lemma {:induction false} TwinsReadAlike(tools: Tools, tar: seq<TarEntry>, zip: seq<ZipEntry>)
    requires |tar| == |zip| && forall i | 0 <= i < |tar| :: Twins(tar[i], zip[i])
    ensures TarPayloads(tools, tar) == ZipPayloads(tools, zip)
  {
    if tar != [] {
      var n := |tar| - 1;
      assert forall i | 0 <= i < n :: Twins(tar[i], zip[i]);
      TwinsReadAlike(tools, tar[..n], zip[..n]);
      assert Twins(tar[n], zip[n]);
    }
  }

  ghost predicate WroteBoth(stage: Stage, bundle: string, order: seq<Path>, tar: seq<TarEntry>, zip: seq<ZipEntry>)
  {
    && SafeBundle(bundle) && Enumerates(order, stage) && Writable(stage, order)
    && |tar| == |zip| == |order|
    && (forall i | 0 <= i < |order| :: TarEntryFor(stage, bundle, order, i, tar[i]))
    && (forall i | 0 <= i < |order| :: ZipEntryFor(stage, bundle, order, i, zip[i]))
  }

  lemma EntriesAreTwins(stage: Stage, bundle: string, order: seq<Path>, tar: seq<TarEntry>, zip: seq<ZipEntry>, i: nat)
    requires WroteBoth(stage, bundle, order, tar, zip) && i < |order| && !tar[i].kind.HardLink?
    ensures Twins(tar[i], zip[i])
  {
    hide NameOf;
    NameFacts(bundle, order[i]);
    assert TarEntryFor(stage, bundle, order, i, tar[i]) && ZipEntryFor(stage, bundle, order, i, zip[i]);
  }

  // A hard link is written exactly when two staged files share an inode.
  lemma HardLinksMean(stage: Stage, bundle: string, order: seq<Path>, tar: seq<TarEntry>, zip: seq<ZipEntry>)
    requires WroteBoth(stage, bundle, order, tar, zip)
    ensures NoSharedInodes(stage) <==> forall i | 0 <= i < |tar| :: !tar[i].kind.HardLink?
  {
    hide SafeBundle, NameOf, Permissions;
    if i :| 0 <= i < |tar| && tar[i].kind.HardLink? {
      assert TarEntryFor(stage, bundle, order, i, tar[i]);
      var j :| 0 <= j < i && stage[order[j]].Doc? && stage[order[j]].inode == stage[order[i]].inode;
      assert order[j] != order[i];
    }
    if !NoSharedInodes(stage) {
      var late := SharedMeansLinked(stage, order);
      assert TarEntryFor(stage, bundle, order, late, tar[late]);
    }
  }

  lemma SharedMeansLinked(stage: Stage, order: seq<Path>) returns (late: nat)
    requires Enumerates(order, stage) && !NoSharedInodes(stage)
    ensures late < |order| && LinkedEarlier(stage, order, late)
  {
    var p, q :| p in stage && q in stage && p != q && stage[p].Doc? && stage[q].Doc? &&
                stage[p].inode == stage[q].inode;
    var a :| 0 <= a < |order| && order[a] == p;
    var b :| 0 <= b < |order| && order[b] == q;
    late := if a < b then b else a;
    var early := if a < b then a else b;
    assert stage[order[early]].Doc? && stage[order[early]].inode == stage[order[late]].inode;
  }

  // The whole release step: it succeeds exactly for trees of ordinary files and directories without hard links
  // inside the tree, and then both archives read back to the same names and contents.
  method Release(tools: Tools, stage: Stage, bundle: string, order: seq<Path>)
    returns (r: Option<(seq<TarEntry>, seq<ZipEntry>)>)
    requires SafeBundle(bundle) && Enumerates(order, stage)
    ensures r.Some? <==> (forall p | p in stage :: !stage[p].Odd?) && NoSharedInodes(stage)
    ensures r.Some? ==> WroteBoth(stage, bundle, order, r.value.0, r.value.1)
    ensures r.Some? ==> TarPayloads(tools, r.value.0) == ZipPayloads(tools, r.value.1)
  {
    hide TarEntryFor, ZipEntryFor, SafeBundle;
    if exists i | 0 <= i < |order| :: stage[order[i]].Odd? { return None; }
    assert Writable(stage, order);
    var tar := CreateTar(stage, bundle, order);
    var zip := CreateZip(stage, bundle, order);
    HardLinksMean(stage, bundle, order, tar, zip);
    if NoSharedInodes(stage) {
      forall i | 0 <= i < |tar|
        ensures Twins(tar[i], zip[i])
      {
        EntriesAreTwins(stage, bundle, order, tar, zip, i);
      }
      TwinsReadAlike(tools, tar, zip);
    }
    var ok := VerifyEquivalent(tools, tar, zip);
    r := if ok then Some((tar, zip)) else None;
  }

  function ContentOf(tools: Tools, item: Item): Option<string>
  {
    if item.Doc? then Some(tools.sha256(item.data)) else None
  }

  // The payloads show the first n members under their names, and nothing else.
  ghost predicate Shows(tools: Tools, stage: Stage, bundle: string, order: seq<Path>, n: nat, found: Payloads)
    requires n <= |order| && Writable(stage, order)
  {
    && (forall i | 0 <= i < n ::
          NameOf(bundle, order[i]) in found && found[NameOf(bundle, order[i])] == ContentOf(tools, stage[order[i]]))
    && (forall name | name in found :: exists i :: 0 <= i < n && NameOf(bundle, order[i]) == name)
  }

  lemma NothingShown(tools: Tools, stage: Stage, bundle: string, order: seq<Path>)
    requires Writable(stage, order)
    ensures Shows(tools, stage, bundle, order, 0, map[])
  {
  }

  lemma ShowsOneMore(tools: Tools, stage: Stage, bundle: string, order: seq<Path>, n: nat, found: Payloads)
    requires SafeBundle(bundle) && Enumerates(order, stage) && Writable(stage, order) && n < |order|
    requires Shows(tools, stage, bundle, order, n, found)
    ensures Shows(tools, stage, bundle, order, n + 1,
                  found[NameOf(bundle, order[n]) := ContentOf(tools, stage[order[n]])])
  {
    hide NameOf, SafeBundle, Enumerates, Writable, ContentOf;
    DistinctNames(stage, bundle, order, n);
    var more := found[NameOf(bundle, order[n]) := ContentOf(tools, stage[order[n]])];
    forall name | name in more
      ensures exists i :: 0 <= i < n + 1 && NameOf(bundle, order[i]) == name
    {
      if name in found {
        var i :| 0 <= i < n && NameOf(bundle, order[i]) == name;
      }
    }
  }

  lemma DistinctNames(stage: Stage, bundle: string, order: seq<Path>, n: nat)
    requires SafeBundle(bundle) && Enumerates(order, stage) && Writable(stage, order) && n < |order|
    ensures forall i | 0 <= i < |order| :: order[i] in stage
    ensures forall i | 0 <= i < n :: NameOf(bundle, order[i]) != NameOf(bundle, order[n])
  {
    hide NameOf, SafeBundle;
    forall i | 0 <= i < n
      ensures NameOf(bundle, order[i]) != NameOf(bundle, order[n])
    {
      NamesDiffer(bundle, order[i], order[n]);
    }
  }

  lemma PayloadStep(tools: Tools, stage: Stage, bundle: string, order: seq<Path>, tar: seq<TarEntry>, n: nat)
    requires SafeBundle(bundle) && Enumerates(order, stage) && Writable(stage, order) && n < |order| == |tar|
    requires TarEntryFor(stage, bundle, order, n, tar[n]) && !tar[n].kind.HardLink?
    ensures TarPayloads(tools, tar[..n + 1]) ==
            TarPayloads(tools, tar[..n])[NameOf(bundle, order[n]) := ContentOf(tools, stage[order[n]])]
  {
    hide NameOf, SafeBundle;
    assert tar[..n + 1][..n] == tar[..n] && tar[..n + 1][n] == tar[n];
    NameFacts(bundle, order[n]);
  }

  // What both archives read back to: every staged path under its name, and nothing else.
  lemma {:induction false} ReadBack(tools: Tools, stage: Stage, bundle: string, order: seq<Path>,
                                    tar: seq<TarEntry>, n: nat)
    requires SafeBundle(bundle) && Enumerates(order, stage) && Writable(stage, order) && n <= |order| == |tar|
    requires forall i | 0 <= i < |order| :: TarEntryFor(stage, bundle, order, i, tar[i]) && !tar[i].kind.HardLink?
    ensures Shows(tools, stage, bundle, order, n, TarPayloads(tools, tar[..n]))
  {
    hide NameOf, SafeBundle, TarEntryFor, Enumerates, Shows;
    if n == 0 {
      NothingShown(tools, stage, bundle, order);
      assert tar[..0] == [];
    } else {
      ReadBack(tools, stage, bundle, order, tar, n - 1);
      PayloadStep(tools, stage, bundle, order, tar, n - 1);
      ShowsOneMore(tools, stage, bundle, order, n - 1, TarPayloads(tools, tar[..n - 1]));
    }
  }

  // ---- the archives as the bounded inspection sees them ------------------------------------------------------

  function TarMember(e: TarEntry): Member
  {
    Member(e.name, e.kind.DirectoryEntry?, !e.kind.HardLink?, |e.data|, Payload(e.data, false))
  }

  // stat.S_IFMT(external_attr >> 16)
  function FileType(attributes: nat): nat
  {
    attributes / MODE_SHIFT / TYPE_BITS % 16 * TYPE_BITS
  }

  // The writer never sets the encryption flag.
  function ZipMember(e: ZipEntry): Member
  {
    var kind := FileType(e.attributes);
    Member(e.filename, IsDirName(e.filename), kind == 0 || kind == S_IFREG || kind == S_IFDIR,
           |e.data|, Payload(e.data, false))
  }

  function TarMembers(tar: seq<TarEntry>): seq<Member>
  {
    seq(|tar|, i requires 0 <= i < |tar| => TarMember(tar[i]))
  }

  function ZipMembers(zip: seq<ZipEntry>): seq<Member>
  {
    seq(|zip|, i requires 0 <= i < |zip| => ZipMember(zip[i]))
  }

  // The two views of one staged path differ only by the slash after a directory name.
  ghost predicate SameBut(t: Member, z: Member)
  {
    && t.directory == z.directory && t.size == z.size && t.payload == z.payload && t.ordinary && z.ordinary
    && z.name == t.name + (if t.directory then "/" else "") && Key(z.name) == Key(t.name)
  }

  lemma ViewsDiffer(stage: Stage, bundle: string, order: seq<Path>, tar: seq<TarEntry>, zip: seq<ZipEntry>, i: nat)
    requires WroteBoth(stage, bundle, order, tar, zip) && i < |order| && !tar[i].kind.HardLink?
    ensures SameBut(TarMember(tar[i]), ZipMember(zip[i]))
    ensures TarMember(tar[i]).name == NameOf(bundle, order[i])
  {
    hide NameOf, SafeBundle, FileType, ProgramName;
    NameFacts(bundle, order[i]);
    assert TarEntryFor(stage, bundle, order, i, tar[i]) && ZipEntryFor(stage, bundle, order, i, zip[i]);
    FileTypes();
  }

  lemma FileTypes()
    ensures FileType((S_IFREG + 493) * MODE_SHIFT) == S_IFREG && FileType((S_IFREG + 420) * MODE_SHIFT) == S_IFREG
    ensures FileType((S_IFDIR + 493) * MODE_SHIFT) == S_IFDIR
  {
  }

  // Both archives carry the same permission bits, and nobody but the owner may write.
  lemma SamePermissions(stage: Stage, bundle: string, order: seq<Path>, tar: seq<TarEntry>, zip: seq<ZipEntry>, i: nat)
    requires WroteBoth(stage, bundle, order, tar, zip) && i < |order|
    ensures zip[i].attributes / MODE_SHIFT % TYPE_BITS == tar[i].mode
    ensures tar[i].mode / 8 % 8 == tar[i].mode % 8 && tar[i].mode / 64 == tar[i].mode % 8 + 2
    ensures tar[i].mode % 2 == 1 <==> Runs(order[i], stage[order[i]])
  {
    hide NameOf, SafeBundle, Runs;
    assert TarEntryFor(stage, bundle, order, i, tar[i]) && ZipEntryFor(stage, bundle, order, i, zip[i]);
    var mode := Permissions(order[i], stage[order[i]]);
    assert mode == 493 || mode == 420;
    assert (S_IFDIR + mode) * MODE_SHIFT / MODE_SHIFT == S_IFDIR + mode;
    assert (S_IFREG + mode) * MODE_SHIFT / MODE_SHIFT == S_IFREG + mode;
  }

  // No directory name is so long that the slash makes it too long.
  ghost predicate SlashFits(ms: seq<Member>)
  {
    forall i | 0 <= i < |ms| && ms[i].directory :: |ms[i].name| < MAX_NAME
  }

  lemma MemberVerdicts(stage: Stage, bundle: string, p: Path, t: Member, z: Member)
    requires SafeBundle(bundle) && GoodParts(p) && SameBut(t, z) && t.name == NameOf(bundle, p)
    ensures MemberAdmissible(z, bundle) <==> MemberAdmissible(t, bundle) && (t.directory ==> |t.name| < MAX_NAME)
  {
  }

  lemma {:induction false} SameTotals(a: seq<Member>, b: seq<Member>)
    requires |a| == |b| && forall i | 0 <= i < |a| :: SameBut(a[i], b[i])
    ensures TotalSize(a) == TotalSize(b)
  {
    if a != [] {
      var n := |a| - 1;
      assert SameBut(a[n], b[n]);
      SameTotals(a[..n], b[..n]);
    }
  }

  // Both archives have the same inventories, and the ZIP is admissible exactly when the tar is and no directory name
  // has the full 1024 characters, where only the ZIP's trailing slash is over the limit.
  lemma ConsumerAgrees(tools: Tools, stage: Stage, bundle: string, order: seq<Path>,
                       tar: seq<TarEntry>, zip: seq<ZipEntry>)
    requires WroteBoth(stage, bundle, order, tar, zip) && NoSharedInodes(stage)
    ensures var a, b := TarMembers(tar), ZipMembers(zip);
            && (Admissible(tools, b, bundle) <==> Admissible(tools, a, bundle) && SlashFits(a))
            && (forall inv :: Lists(tools, a, inv) <==> Lists(tools, b, inv))
  {
    hide TarMember, ZipMember, WroteBoth, Key, NameOf, MemberAdmissible, Lists, TotalSize;
    var a, b := TarMembers(tar), ZipMembers(zip);
    WroteFacts(stage, bundle, order, tar, zip);
    HardLinksMean(stage, bundle, order, tar, zip);
    forall i | 0 <= i < |order|
      ensures SameBut(a[i], b[i])
      ensures MemberAdmissible(b[i], bundle) <==>
                MemberAdmissible(a[i], bundle) && (a[i].directory ==> |a[i].name| < MAX_NAME)
    {
      ViewsDiffer(stage, bundle, order, tar, zip, i);
      MemberVerdicts(stage, bundle, order[i], a[i], b[i]);
    }
    SameTotals(a, b);
    assert CaseDistinct(tools, a) <==> CaseDistinct(tools, b);
    assert AllAdmissible(b, bundle) <==> AllAdmissible(a, bundle) && SlashFits(a);
    forall inv
      ensures Lists(tools, a, inv) <==> Lists(tools, b, inv)
    {
      if Lists(tools, a, inv) {
        SameLists(tools, a, b, inv);
      }
      if Lists(tools, b, inv) {
        SameLists(tools, b, a, inv);
      }
    }
  }

  lemma WroteFacts(stage: Stage, bundle: string, order: seq<Path>, tar: seq<TarEntry>, zip: seq<ZipEntry>)
    requires WroteBoth(stage, bundle, order, tar, zip)
    ensures SafeBundle(bundle) && |tar| == |zip| == |order| && forall i | 0 <= i < |order| :: GoodParts(order[i])
  {
  }

  lemma SameLists(tools: Tools, a: seq<Member>, b: seq<Member>, inv: Inventory)
    requires |a| == |b| && Lists(tools, a, inv)
    requires forall i | 0 <= i < |a| ::
               a[i].directory == b[i].directory && a[i].payload == b[i].payload && Key(a[i].name) == Key(b[i].name)
    ensures Lists(tools, b, inv)
  {
  }

  // ---- a tree on which they differ ---------------------------------------------------------------------------

  function Letters(n: nat): string
  {
    seq(n, _ => 'a')
  }

  // Four directories inside each other; with the bundle "b" the innermost has a name of 1024 characters.
  function DeepPath(): Path
  {
    [Letters(255), Letters(255), Letters(255), Letters(254)]
  }

  function DeepOrder(): seq<Path>
  {
    var x := Letters(255);
    [[], ["f"], [x], [x, x], [x, x, x], DeepPath()]
  }

  function DeepStage(): Stage
  {
    var x := Letters(255);
    map[[] := Folder, ["f"] := Doc(0, [], false), [x] := Folder, [x, x] := Folder, [x, x, x] := Folder,
        DeepPath() := Folder]
  }

  lemma LettersSafe(n: nat)
    requires n > 4
    ensures SafePart(Letters(n)) && GoodName(Letters(n))
  {
    var part := Letters(n);
    assert part[0] == 'a' && part[1] == 'a' && part[3] == 'a' && part[4] == 'a' && part[|part| - 1] == 'a';
  }

  lemma DeepPaths(p: Path)
    requires p in DeepStage()
    ensures p in DeepOrder() && GoodParts(p) && forall i | 0 <= i < |p| :: SafePart(p[i])
    ensures DeepStage()[p] == if p == ["f"] then Doc(0, [], false) else Folder
  {
    hide Letters, SafePart;
    LettersSafe(255);
    LettersSafe(254);
    LettersLength();
    FileNameSafe();
  }

  lemma FileNameSafe()
    ensures SafePart("f") && SafePart("b") && GoodName("f")
  {
  }

  function NameLength(p: Path): nat
  {
    if p == [] then 0 else 1 + |p[0]| + NameLength(p[1..])
  }

  lemma {:induction false} NameLengthIs(bundle: string, p: Path)
    ensures |NameOf(bundle, p)| == |bundle| + NameLength(p)
    decreases |p|
  {
    var parts := [bundle] + p;
    assert parts[1..] == p;
    if p != [] {
      NameLengthIs(p[0], p[1..]);
      assert [p[0]] + p[1..] == p;
    }
  }

  lemma DeepLength(p: Path)
    requires p in DeepStage()
    ensures NameLength(p) <= 1023 && NameLength(DeepPath()) == 1023
  {
    hide Letters;
    var x, y := Letters(255), Letters(254);
    LettersLength();
    assert NameLength([y]) == 255;
    assert NameLength([x]) == 256 && NameLength([x, y]) == 511;
    assert [x, x][1..] == [x] && [x, x, x][1..] == [x, x];
    assert NameLength([x, x]) == 512 && NameLength([x, x, x]) == 768;
    assert [x, x, y][1..] == [x, y] && [x, x, x, y][1..] == [x, x, y];
    assert NameLength([x, x, y]) == 767 && NameLength([x, x, x, y]) == 1023;
    assert NameLength(["f"]) == 2;
  }

  lemma LettersLength()
    ensures |Letters(255)| == 255 && |Letters(254)| == 254
  {
  }

  // An archive of small safe entries, one of them a file, is admissible.
  lemma SmallTarAdmissible(tools: Tools, stage: Stage, bundle: string, order: seq<Path>, tar: seq<TarEntry>,
                           zip: seq<ZipEntry>)
    requires WroteBoth(stage, bundle, order, tar, zip) && NoSharedInodes(stage) && |order| <= MAX_FILES
    requires SafePart(bundle) && stage[[]].Folder?
    requires forall p | p in stage ::
               && tools.fold(NameOf(bundle, p)) == NameOf(bundle, p) && |NameOf(bundle, p)| <= MAX_NAME
               && (stage[p].Doc? ==> stage[p].data == []) && forall i | 0 <= i < |p| :: SafePart(p[i])
    requires exists p :: p in stage && stage[p].Doc?
    ensures Admissible(tools, TarMembers(tar), bundle)
  {
    hide NameOf, SafePart, SafeBundle, MemberPath, Exact, TotalSize, Key, Permissions;
    var ms := TarMembers(tar);
    HardLinksMean(stage, bundle, order, tar, zip);
    forall i | 0 <= i < |ms|
      ensures MemberAdmissible(ms[i], bundle) && FileSize(ms[i]) == 0
      ensures Key(ms[i].name) == NameOf(bundle, order[i])
    {
      SmallMember(stage, bundle, order, tar, i);
    }
    NoBytes(ms);
    forall i, j | 0 <= i < j < |ms|
      ensures tools.fold(Key(ms[i].name)) != tools.fold(Key(ms[j].name))
    {
      NamesDiffer(bundle, order[i], order[j]);
    }
    var p :| p in stage && stage[p].Doc?;
    var i :| 0 <= i < |order| && order[i] == p;
    assert TarEntryFor(stage, bundle, order, i, tar[i]);
  }

  lemma SmallMember(stage: Stage, bundle: string, order: seq<Path>, tar: seq<TarEntry>, i: nat)
    requires SafeBundle(bundle) && Enumerates(order, stage) && Writable(stage, order) && i < |order| == |tar|
    requires TarEntryFor(stage, bundle, order, i, tar[i]) && !tar[i].kind.HardLink?
    requires SafePart(bundle) && stage[[]].Folder? && |NameOf(bundle, order[i])| <= MAX_NAME
    requires stage[order[i]].Doc? ==> stage[order[i]].data == []
    requires forall k | 0 <= k < |order[i]| :: SafePart(order[i][k])
    ensures MemberAdmissible(TarMember(tar[i]), bundle) && FileSize(TarMember(tar[i])) == 0
    ensures Key(TarMember(tar[i]).name) == NameOf(bundle, order[i])
  {
    hide SafePart, SafeBundle;
    NameFacts(bundle, order[i]);
    assert forall k | 0 <= k < |[bundle] + order[i]| :: SafePart(([bundle] + order[i])[k]);
  }

  lemma {:induction false} NoBytes(ms: seq<Member>)
    requires forall i | 0 <= i < |ms| :: FileSize(ms[i]) == 0
    ensures TotalSize(ms) == 0
  {
    if ms != [] {
      NoBytes(ms[..|ms| - 1]);
    }
  }

  lemma DeepDistinct()
    ensures forall i, j | 0 <= i < j < |DeepOrder()| :: DeepOrder()[i] != DeepOrder()[j]
    ensures forall i | 0 <= i < |DeepOrder()| :: DeepOrder()[i] in DeepStage()
  {
    hide Letters;
    LettersLength();
    var order := DeepOrder();
    assert |order[0]| == 0 && |order[3]| == 2 && |order[4]| == 3 && |order[5]| == 4;
    assert |order[1]| == 1 && |order[2]| == 1 && |order[1][0]| == 1 && |order[2][0]| == 255;
  }

  lemma DeepFacts()
    ensures SafeBundle("b") && Enumerates(DeepOrder(), DeepStage()) && NoSharedInodes(DeepStage())
    ensures forall p | p in DeepStage() :: !DeepStage()[p].Odd? && |NameOf("b", p)| <= MAX_NAME
    ensures |NameOf("b", DeepPath())| == MAX_NAME
  {
    hide Letters, NameOf, NameLength;
    forall p | p in DeepStage()
      ensures p in DeepOrder() && GoodParts(p) && !DeepStage()[p].Odd? && (DeepStage()[p].Doc? ==> p == ["f"])
      ensures |NameOf("b", p)| <= MAX_NAME
    {
      DeepPaths(p);
      DeepLength(p);
      NameLengthIs("b", p);
    }
    DeepLength(DeepPath());
    NameLengthIs("b", DeepPath());
    DeepDistinct();
  }

  // One small file and four nested directories: the release step succeeds, and of its two archives, which read back
  // alike, the inspection admits the tar and refuses the ZIP.
  method LongDirectoryName(tools: Tools) returns (tar: seq<TarEntry>, zip: seq<ZipEntry>)
    requires forall p | p in DeepStage() :: tools.fold(NameOf("b", p)) == NameOf("b", p)
    ensures WroteBoth(DeepStage(), "b", DeepOrder(), tar, zip) && TarPayloads(tools, tar) == ZipPayloads(tools, zip)
    ensures Admissible(tools, TarMembers(tar), "b") && !Admissible(tools, ZipMembers(zip), "b")
  {
    hide DeepStage, DeepOrder, NameOf, SafeBundle, WroteBoth, Enumerates, Admissible;
    DeepFacts();
    var stage, order := DeepStage(), DeepOrder();
    var r := Release(tools, stage, "b", order);
    tar, zip := r.value.0, r.value.1;
    DeepTar(tools, tar, zip);
    DeepZip(tools, tar, zip);
  }

  lemma DeepTar(tools: Tools, tar: seq<TarEntry>, zip: seq<ZipEntry>)
    requires forall p | p in DeepStage() :: tools.fold(NameOf("b", p)) == NameOf("b", p)
    requires WroteBoth(DeepStage(), "b", DeepOrder(), tar, zip)
    ensures Admissible(tools, TarMembers(tar), "b")
  {
    hide NameOf, WroteBoth, Admissible, Letters, SafePart, DeepStage, DeepOrder;
    DeepFacts();
    DeepHolds();
    FileNameSafe();
    forall p | p in DeepStage()
      ensures (DeepStage()[p].Doc? ==> DeepStage()[p].data == []) && forall i | 0 <= i < |p| :: SafePart(p[i])
    {
      DeepPaths(p);
    }
    DeepPaths(["f"]);
    DeepPaths([]);
    SmallTarAdmissible(tools, DeepStage(), "b", DeepOrder(), tar, zip);
  }

  lemma DeepHolds()
    ensures ["f"] in DeepStage() && [] in DeepStage() && |DeepOrder()| == 6
  {
  }

  lemma DeepZip(tools: Tools, tar: seq<TarEntry>, zip: seq<ZipEntry>)
    requires WroteBoth(DeepStage(), "b", DeepOrder(), tar, zip)
    ensures !Admissible(tools, ZipMembers(zip), "b")
  {
    hide NameOf, Admissible, Letters;
    DeepFacts();
    ConsumerAgrees(tools, DeepStage(), "b", DeepOrder(), tar, zip);
    assert TarEntryFor(DeepStage(), "b", DeepOrder(), 5, tar[5]);
    assert TarMembers(tar)[5].directory && |TarMembers(tar)[5].name| == MAX_NAME;
  }

  // Two names of one file: the release step fails.
  method HardLinkedPair(tools: Tools) returns (r: Option<(seq<TarEntry>, seq<ZipEntry>)>)
    ensures r.None?
  {
    var stage: Stage := map[[] := Folder, ["a"] := Doc(7, [1], false), ["z"] := Doc(7, [1], false)];
    var order: seq<Path> := [[], ["a"], ["z"]];
    assert stage[["a"]].Doc? && stage[["z"]].Doc? && ["a"] != ["z"];
    assert ["a"][0] == "a" && ["z"][0] == "z";
    r := Release(tools, stage, "b", order);
  }
}
