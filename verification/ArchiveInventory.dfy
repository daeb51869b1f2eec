// Bounded inspection of one archive (scripts/native_archive.py, digest and inventory).
module ArchiveInventory {
  import opened Text
  import opened ArchiveNames
  import opened Streams

  const MAX_FILES: nat := 4096
  const MAX_FILE: nat := 512 * 1024 * 1024
  const MAX_TOTAL: nat := 2 * 1024 * 1024 * 1024
  const READ_CHUNK: nat := 1024 * 1024

  // Text case folding and SHA-256 in hexadecimal, as the interpreter provides them.
  datatype Tools = Tools(fold: string -> string, sha256: Bytes -> string)

  // One archive member as inventory sees it: `ordinary` is false for links, devices and encrypted members.
  datatype Member = Member(name: string, directory: bool, ordinary: bool, size: int, payload: Payload)

  type Inventory = map<string, (nat, string)>

  // ---- reading -----------------------------------------------------------------------------------------------

  // The payload is exactly `size` readable bytes.
  predicate Exact(payload: Payload, size: int)
  {
    !payload.broken && |payload.data| == size
  }

  // digest: chunked hashing of a declared number of bytes; `hashed` is how many bytes were fed to the hash.
  method Digest(tools: Tools, payload: Payload, size: int) returns (r: Option<string>, hashed: nat)
    ensures r.Some? <==> 0 <= size <= 512 * 1024 * 1024 && Exact(payload, size)
    ensures r.Some? ==> r.value == tools.sha256(payload.data) && hashed == size
    ensures hashed <= if 0 <= size <= 512 * 1024 * 1024 then size else 0
  {
    if !(0 <= size <= MAX_FILE) { return None, 0; }
    var stream := new Reader(payload);
    var seen: Bytes := [];
    var remaining := size;
    while remaining > 0
      invariant 0 <= remaining <= size && |seen| == size - remaining
      invariant payload.data == seen + stream.rest && stream.broken == payload.broken
    {
      var block := stream.Read(if READ_CHUNK < remaining then READ_CHUNK else remaining);
      if block.None? || block.value == [] { return None, |seen|; }
      seen := seen + block.value;
      remaining := remaining - |block.value|;
    }
    var extra := stream.Read(1);
    if extra.None? || extra.value != [] { return None, |seen|; }
    assert seen == payload.data;
    return Some(tools.sha256(seen)), |seen|;
  }

  // ---- what an inventory is ----------------------------------------------------------------------------------

  function FileSize(m: Member): int
  {
    if m.directory then 0 else m.size
  }

  function TotalSize(ms: seq<Member>): int
  {
    if ms == [] then 0 else TotalSize(ms[..|ms| - 1]) + FileSize(ms[|ms| - 1])
  }

  ghost predicate FileAdmissible(m: Member, bundle: string)
    requires MemberPath(m.name, bundle).Some?
  {
    |MemberPath(m.name, bundle).value| >= 2 && 0 <= m.size <= 512 * 1024 * 1024 && Exact(m.payload, m.size)
  }

  ghost predicate MemberAdmissible(m: Member, bundle: string)
  {
    && MemberPath(m.name, bundle).Some? && m.ordinary
    && (m.directory || FileAdmissible(m, bundle))
  }

  // No two members have names that differ only by case.
  ghost predicate CaseDistinct(tools: Tools, ms: seq<Member>)
  {
    forall i, j | 0 <= i < j < |ms| :: tools.fold(Key(ms[i].name)) != tools.fold(Key(ms[j].name))
  }

  ghost predicate AllAdmissible(ms: seq<Member>, bundle: string)
  {
    forall i | 0 <= i < |ms| :: MemberAdmissible(ms[i], bundle)
  }

  ghost predicate Admissible(tools: Tools, ms: seq<Member>, bundle: string)
  {
    && |ms| <= 4096
    && AllAdmissible(ms, bundle)
    && CaseDistinct(tools, ms)
    && TotalSize(ms) <= 2 * 1024 * 1024 * 1024
    && exists i :: 0 <= i < |ms| && !ms[i].directory
  }

  // The inventory has one entry for each file member, its declared size and the digest of its bytes, and no other.
  ghost predicate Lists(tools: Tools, ms: seq<Member>, inv: Inventory)
  {
    && (forall i | 0 <= i < |ms| && !ms[i].directory ::
          && Key(ms[i].name) in inv
          && inv[Key(ms[i].name)] == (|ms[i].payload.data|, tools.sha256(ms[i].payload.data)))
    && (forall key | key in inv :: exists i :: 0 <= i < |ms| && !ms[i].directory && Key(ms[i].name) == key)
  }

  lemma {:induction false} TotalGrows(ms: seq<Member>, bundle: string, i: nat)
    requires i <= |ms| && AllAdmissible(ms, bundle)
    ensures 0 <= TotalSize(ms[..i]) <= TotalSize(ms)
    decreases |ms|
  {
    if ms != [] {
      var front := ms[..|ms| - 1];
      assert AllAdmissible(front, bundle);
      assert MemberAdmissible(ms[|ms| - 1], bundle);
      TotalGrows(front, bundle, if i < |ms| then i else 0);
      if i < |ms| {
        assert front[..i] == ms[..i];
      } else {
        assert ms[..i] == ms && front[..0] == [];
      }
    }
  }

  // ---- the loop ----------------------------------------------------------------------------------------------

  function Folded(tools: Tools, ms: seq<Member>, i: nat): set<string>
    requires i <= |ms|
  {
    set j | 0 <= j < i :: tools.fold(Key(ms[j].name))
  }

  // The first i members pass.
  ghost predicate Passes(tools: Tools, ms: seq<Member>, bundle: string, i: nat)
    requires i <= |ms|
  {
    i <= MAX_FILES && AllAdmissible(ms[..i], bundle) && CaseDistinct(tools, ms[..i]) && TotalSize(ms[..i]) <= MAX_TOTAL
  }

  // ... and so does the next, given the folded names and the total size so far.
  ghost predicate NextPasses(tools: Tools, m: Member, bundle: string, number: nat, seen: set<string>, total: int)
  {
    && number <= MAX_FILES && MemberAdmissible(m, bundle)
    && tools.fold(Key(m.name)) !in seen && total + FileSize(m) <= MAX_TOTAL
  }

  lemma PassesStep(tools: Tools, ms: seq<Member>, bundle: string, i: nat)
    requires i < |ms| && Passes(tools, ms, bundle, i)
    ensures TotalSize(ms[..i + 1]) == TotalSize(ms[..i]) + FileSize(ms[i])
    ensures Folded(tools, ms, i + 1) == Folded(tools, ms, i) + {tools.fold(Key(ms[i].name))}
    ensures Passes(tools, ms, bundle, i + 1) <==>
              NextPasses(tools, ms[i], bundle, i + 1, Folded(tools, ms, i), TotalSize(ms[..i]))
  {
    hide MemberAdmissible;
    var front := ms[..i + 1];
    assert front[..i] == ms[..i] && front[i] == ms[i];
    assert AllAdmissible(front, bundle) <==> MemberAdmissible(ms[i], bundle) by {
      assert forall j | 0 <= j < i :: front[j] == ms[..i][j];
    }
    assert CaseDistinct(tools, front) <==> tools.fold(Key(ms[i].name)) !in Folded(tools, ms, i) by {
      assert forall j | 0 <= j < i :: front[j] == ms[..i][j] == ms[j];
    }
  }

  // An archive whose members do not all pass is inadmissible.
  lemma StopsHere(tools: Tools, ms: seq<Member>, bundle: string, i: nat)
    requires i <= |ms| && !Passes(tools, ms, bundle, i)
    ensures !Admissible(tools, ms, bundle)
  {
    if |ms| <= MAX_FILES && AllAdmissible(ms, bundle) && CaseDistinct(tools, ms) {
      TotalGrows(ms, bundle, i);
      assert forall j | 0 <= j < i :: ms[..i][j] == ms[j];
    }
  }

  lemma ListsSkip(tools: Tools, ms: seq<Member>, i: nat, inv: Inventory)
    requires i < |ms| && ms[i].directory && Lists(tools, ms[..i], inv)
    ensures Lists(tools, ms[..i + 1], inv)
  {
    var front := ms[..i + 1];
    assert front[..i] == ms[..i];
    forall key | key in inv
      ensures exists j :: 0 <= j < |front| && !front[j].directory && Key(front[j].name) == key
    {
      var j :| 0 <= j < i && !ms[..i][j].directory && Key(ms[..i][j].name) == key;
      assert front[j] == ms[..i][j];
    }
    forall j | 0 <= j < |front| && !front[j].directory
      ensures Key(front[j].name) in inv
      ensures inv[Key(front[j].name)] == (|front[j].payload.data|, tools.sha256(front[j].payload.data))
    {
      assert front[j] == ms[..i][j];
    }
  }

  lemma ListsFile(tools: Tools, ms: seq<Member>, i: nat, inv: Inventory)
    requires i < |ms| && !ms[i].directory && Lists(tools, ms[..i], inv)
    requires tools.fold(Key(ms[i].name)) !in Folded(tools, ms, i)
    ensures Lists(tools, ms[..i + 1],
                  inv[Key(ms[i].name) := (|ms[i].payload.data|, tools.sha256(ms[i].payload.data))])
  {
    var front := ms[..i + 1];
    var more := inv[Key(ms[i].name) := (|ms[i].payload.data|, tools.sha256(ms[i].payload.data))];
    assert front[i] == ms[i];
    forall key | key in more
      ensures exists j :: 0 <= j < |front| && !front[j].directory && Key(front[j].name) == key
    {
      if key != Key(ms[i].name) {
        var j :| 0 <= j < i && !ms[..i][j].directory && Key(ms[..i][j].name) == key;
        assert front[j] == ms[..i][j];
      }
    }
    forall j | 0 <= j < |front| && !front[j].directory
      ensures Key(front[j].name) in more
      ensures more[Key(front[j].name)] == (|front[j].payload.data|, tools.sha256(front[j].payload.data))
    {
      if j < i {
        assert front[j] == ms[..i][j] == ms[j];
        assert tools.fold(Key(ms[j].name)) in Folded(tools, ms, i);
      }
    }
  }

  // The body of the loop, for one member.
  method InspectMember(tools: Tools, m: Member, bundle: string, number: nat, seen: set<string>, total: int)
    returns (r: Option<string>, hashed: nat)
    requires total <= MAX_TOTAL
    ensures r.Some? <==> NextPasses(tools, m, bundle, number, seen, total)
    ensures r.Some? && !m.directory ==> r.value == tools.sha256(m.payload.data)
    ensures hashed <= if !m.directory && 0 <= m.size && total + m.size <= MAX_TOTAL then m.size else 0
  {
    if number > MAX_FILES { return None, 0; }
    var relative := MemberPath(m.name, bundle);
    if relative.None? || tools.fold(Key(m.name)) in seen || !m.ordinary { return None, 0; }
    if m.directory { return Some(""), 0; }
    if |relative.value| < 2 || total + m.size > MAX_TOTAL { return None, 0; }
    r, hashed := Digest(tools, m.payload, m.size);
  }

  // inventory.  `hashed` bounds the work done even when the archive is refused.
  method Inspect(tools: Tools, ms: seq<Member>, bundle: string) returns (r: Option<Inventory>, hashed: nat)
    ensures r.Some? <==> Admissible(tools, ms, bundle)
    ensures r.Some? ==> Lists(tools, ms, r.value)
    ensures hashed <= 2 * 1024 * 1024 * 1024
  {
    hide Admissible, Passes, NextPasses, Lists;
    var result: Inventory := map[];
    var seen: set<string> := {};
    var total: int := 0;
    hashed := 0;
    NonePassed(tools, ms, bundle);
    for i := 0 to |ms|
      invariant Passes(tools, ms, bundle, i) && Lists(tools, ms[..i], result)
      invariant seen == Folded(tools, ms, i) && total == TotalSize(ms[..i]) <= MAX_TOTAL && hashed <= total
    {
      PassesStep(tools, ms, bundle, i);
      var m := ms[i];
      var digest, fed := InspectMember(tools, m, bundle, i + 1, seen, total);
      hashed := hashed + fed;
      if digest.None? {
        StopsHere(tools, ms, bundle, i + 1);
        return None, hashed;
      }
      StepFacts(tools, m, bundle, i + 1, seen, total);
      if m.directory {
        ListsSkip(tools, ms, i, result);
      } else {
        ListsFile(tools, ms, i, result);
        result := result[Key(m.name) := (m.size, digest.value)];
        total := total + m.size;
      }
      seen := seen + {tools.fold(Key(m.name))};
    }
    assert ms[..|ms|] == ms;
    AllPassed(tools, ms, bundle, result);
    return if result == map[] then None else Some(result), hashed;
  }

  lemma NonePassed(tools: Tools, ms: seq<Member>, bundle: string)
    ensures Passes(tools, ms, bundle, 0) && Lists(tools, ms[..0], map[])
  {
  }

  lemma StepFacts(tools: Tools, m: Member, bundle: string, number: nat, seen: set<string>, total: int)
    requires NextPasses(tools, m, bundle, number, seen, total)
    ensures tools.fold(Key(m.name)) !in seen && total + FileSize(m) <= MAX_TOTAL
    ensures !m.directory ==> m.size == |m.payload.data|
  {
  }

  lemma AllPassed(tools: Tools, ms: seq<Member>, bundle: string, inv: Inventory)
    requires Passes(tools, ms, bundle, |ms|) && Lists(tools, ms, inv)
    ensures Admissible(tools, ms, bundle) <==> inv != map[]
  {
    hide AllAdmissible, CaseDistinct;
    assert ms[..|ms|] == ms;
    if inv != map[] {
      var key :| key in inv;
      var i :| 0 <= i < |ms| && !ms[i].directory && Key(ms[i].name) == key;
    }
  }

  // ---- what an accepted inventory guarantees -----------------------------------------------------------------

  // Its keys are rooted at the bundle, have a part below it, and are distinct after case folding; every size is the
  // number of bytes the digest was taken of.
  lemma InventoryGuarantees(tools: Tools, ms: seq<Member>, bundle: string, inv: Inventory)
    requires Admissible(tools, ms, bundle) && Lists(tools, ms, inv)
    ensures inv != map[] && |inv| <= |ms| <= 4096
    ensures forall key | key in inv :: SafeKey(key, bundle) && Digested(tools, inv[key])
    ensures forall key, other | key in inv && other in inv && key != other :: tools.fold(key) != tools.fold(other)
  {
    hide TotalSize, MemberPath, Key, Lists, CaseDistinct, SafeKey, Digested;
    var i0 :| 0 <= i0 < |ms| && !ms[i0].directory;
    KeyOrigin(tools, ms, inv, i0);
    KeysFewerThan(tools, ms, inv);
    KeysFolded(tools, ms, inv);
    forall key | key in inv
      ensures SafeKey(key, bundle) && Digested(tools, inv[key])
    {
      var i := KeyFrom(tools, ms, inv, key);
      assert MemberAdmissible(ms[i], bundle);
      KeyIsSafe(ms[i], bundle);
    }
  }

  ghost predicate Digested(tools: Tools, entry: (nat, string))
  {
    exists data: Bytes :: entry == (|data|, tools.sha256(data))
  }

  lemma KeyOrigin(tools: Tools, ms: seq<Member>, inv: Inventory, i: nat)
    requires Lists(tools, ms, inv) && i < |ms| && !ms[i].directory
    ensures Key(ms[i].name) in inv
  {
  }

  lemma KeyFrom(tools: Tools, ms: seq<Member>, inv: Inventory, key: string) returns (i: nat)
    requires Lists(tools, ms, inv) && key in inv
    ensures i < |ms| && !ms[i].directory && Key(ms[i].name) == key && Digested(tools, inv[key])
  {
    hide Key;
    i :| 0 <= i < |ms| && !ms[i].directory && Key(ms[i].name) == key;
    assert inv[key] == (|ms[i].payload.data|, tools.sha256(ms[i].payload.data));
  }

  lemma KeysFolded(tools: Tools, ms: seq<Member>, inv: Inventory)
    requires CaseDistinct(tools, ms) && Lists(tools, ms, inv)
    ensures forall key, other | key in inv && other in inv && key != other :: tools.fold(key) != tools.fold(other)
  {
  }

  ghost predicate SafeKey(key: string, bundle: string)
  {
    var parts := Split(key);
    && |parts| >= 2 && parts[0] == bundle && Join(parts) == key && SlashFree(parts)
    && forall i | 0 <= i < |parts| :: SafePart(parts[i])
  }

  lemma KeyIsSafe(m: Member, bundle: string)
    requires MemberAdmissible(m, bundle) && !m.directory
    ensures SafeKey(Key(m.name), bundle) && Split(Key(m.name)) == MemberPath(m.name, bundle).value
  {
    hide SafePart;
    MemberPathFaithful(m.name, bundle);
  }

  lemma KeysFewerThan(tools: Tools, ms: seq<Member>, inv: Inventory)
    requires Lists(tools, ms, inv)
    ensures |inv| <= |ms|
  {
    var keys := set i | 0 <= i < |ms| :: Key(ms[i].name);
    KeySetBound(ms);
    assert inv.Keys <= keys;
    SubsetBound(inv.Keys, keys);
  }

  lemma {:induction false} KeySetBound(ms: seq<Member>)
    ensures |set i | 0 <= i < |ms| :: Key(ms[i].name)| <= |ms|
  {
    var keys := set i | 0 <= i < |ms| :: Key(ms[i].name);
    if ms != [] {
      var n := |ms| - 1;
      KeySetBound(ms[..n]);
      var fewer := set i | 0 <= i < |ms[..n]| :: Key(ms[..n][i].name);
      assert keys == fewer + {Key(ms[n].name)};
    }
  }

  lemma SubsetBound<T>(a: set<T>, b: set<T>)
    requires a <= b
    ensures |a| <= |b|
  {
    assert b == a + (b - a);
  }
}
