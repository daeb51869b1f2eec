// A disk as a map from absolute paths to nodes, and the subtree algebra the checkpoint proofs need.
module Disks {
  import opened Text

  type Path = seq<string>

  datatype Node = File(data: Bytes) | Dir | Link | Special

  type Tree = map<Path, Node>

  predicate GoodName(name: string)
  {
    name != "" && name != "." && name != ".." && '/' !in name
  }

  ghost predicate GoodParts(q: Path)
  {
    forall i | 0 <= i < |q| :: GoodName(q[i])
  }

  function Parent(p: Path): Path
    requires p != []
  {
    p[..|p| - 1]
  }

  predicate IsDir(d: Tree, p: Path)
  {
    p in d && d[p].Dir?
  }

  // mkdir or an exclusive create at p can succeed.
  predicate CanCreate(d: Tree, p: Path)
    requires p != []
  {
    p !in d && GoodName(p[|p| - 1]) && IsDir(d, Parent(p))
  }

  ghost predicate Placed(d: Tree, k: Path)
  {
    k != [] ==> GoodName(k[|k| - 1]) && IsDir(d, Parent(k))
  }

  // Every node but the root has a good name and sits in a directory.
  ghost predicate TreeShaped(d: Tree)
  {
    forall k {:trigger Placed(d, k)} | k in d :: Placed(d, k)
  }

  // The paths part ways at some component, so neither lies inside the other.
  ghost predicate Apart(p: Path, q: Path)
  {
    exists i :: 0 <= i < |p| && i < |q| && p[i] != q[i]
  }

  // Relative paths of everything at or below p.
  ghost predicate AreTails(d: Tree, p: Path, tails: set<Path>)
  {
    forall q :: q in tails <==> p + q in d
  }

  method ListTails(d: Tree, p: Path) returns (tails: set<Path>)
    ensures AreTails(d, p, tails)
  {
    tails := set k | k in d.Keys && p <= k :: k[|p|..];
    TailsComputed(d, p, tails);
  }

  lemma TailsComputed(d: Tree, p: Path, tails: set<Path>)
    requires tails == set k | k in d.Keys && p <= k :: k[|p|..]
    ensures AreTails(d, p, tails)
  {
    forall q: Path
      ensures q in tails <==> p + q in d
    {
      if p + q in d {
        assert (p + q)[|p|..] == q && p <= p + q;
      }
      if q in tails {
        var k :| k in d.Keys && p <= k && q == k[|p|..];
        assert p + q == k;
      }
    }
  }

  ghost function Tails(d: Tree, p: Path): (tails: set<Path>)
    ensures AreTails(d, p, tails)
  {
    var all := set k | k in d.Keys && p <= k :: k[|p|..];
    TailsComputed(d, p, all);
    var tails :| AreTails(d, p, tails);
    tails
  }

  // The subtree at p, with paths relative to p.
  ghost function Sub(d: Tree, p: Path): (t: Tree)
    ensures forall q {:trigger q in t} :: q in t <==> p + q in d
    ensures forall q | q in t :: t[q] == d[p + q]
  {
    map q | q in Tails(d, p) :: d[p + q]
  }

  lemma TailsAreKeys(d: Tree, p: Path, tails: set<Path>)
    requires AreTails(d, p, tails)
    ensures tails == Sub(d, p).Keys
  {
  }

  // ---- sizes -------------------------------------------------------------------------------------------------

  ghost function LengthAt(t: Tree, q: Path): nat
  {
    if q in t && t[q].File? then |t[q].data| else 0
  }

  // The bytes in the files of t among these paths.
  ghost function FileBytes(t: Tree, part: set<Path>): nat
  {
    if part == {} then 0
    else
      var q :| q in part;
      LengthAt(t, q) + FileBytes(t, part - {q})
  }

  ghost function TreeBytes(t: Tree): nat
  {
    FileBytes(t, t.Keys)
  }

  lemma {:induction false} BytesWithout(t: Tree, part: set<Path>, q: Path)
    requires q in part
    ensures FileBytes(t, part) == LengthAt(t, q) + FileBytes(t, part - {q})
    decreases |part|
  {
    hide LengthAt;
    var p :| p in part && FileBytes(t, part) == LengthAt(t, p) + FileBytes(t, part - {p});
    if p != q {
      BytesWithout(t, part - {p}, q);
      BytesWithout(t, part - {q}, p);
      assert part - {p} - {q} == part - {q} - {p};
    }
  }

  lemma BytesOneMore(t: Tree, part: set<Path>, q: Path)
    requires q !in part
    ensures FileBytes(t, part + {q}) == FileBytes(t, part) + LengthAt(t, q)
  {
    BytesWithout(t, part + {q}, q);
    assert part + {q} - {q} == part;
  }

  // The sum depends only on the files it is over.
  lemma {:induction false} BytesAgree(t: Tree, u: Tree, part: set<Path>)
    requires forall q | q in part :: LengthAt(t, q) == LengthAt(u, q)
    ensures FileBytes(t, part) == FileBytes(u, part)
    decreases |part|
  {
    hide LengthAt;
    if part != {} {
      var q :| q in part;
      BytesWithout(t, part, q);
      BytesWithout(u, part, q);
      BytesAgree(t, u, part - {q});
    }
  }

  lemma {:induction false} BytesUnion(t: Tree, part: set<Path>, more: set<Path>)
    requires part !! more
    ensures FileBytes(t, part + more) == FileBytes(t, part) + FileBytes(t, more)
    decreases |more|
  {
    hide LengthAt;
    if more == {} {
      assert part + more == part;
    } else {
      var q :| q in more;
      BytesWithout(t, part + more, q);
      BytesWithout(t, more, q);
      BytesUnion(t, part, more - {q});
      assert part + more - {q} == part + (more - {q});
    }
  }

  // Entries without bytes do not count.
  lemma {:induction false} BytesAmong(t: Tree, part: set<Path>, more: set<Path>)
    requires part <= more && forall q | q in more - part :: LengthAt(t, q) == 0
    ensures FileBytes(t, more) == FileBytes(t, part)
    decreases |more - part|
  {
    hide LengthAt;
    if more - part == {} {
      assert more == part;
    } else {
      var q :| q in more - part;
      BytesWithout(t, more, q);
      assert more - part - {q} == more - {q} - part;
      BytesAmong(t, part, more - {q});
    }
  }

  // ---- outside a place ---------------------------------------------------------------------------------------

  // The two disks agree on everything that is not at or below p.
  ghost predicate SameOutside(d: Tree, e: Tree, p: Path)
  {
    forall k: Path | !(p <= k) :: (k in d <==> k in e) && (k in d ==> d[k] == e[k])
  }

  lemma SameOutsideTrans(d: Tree, e: Tree, f: Tree, p: Path, q: Path)
    requires SameOutside(d, e, p) && SameOutside(e, f, q) && p <= q
    ensures SameOutside(d, f, p)
  {
  }

  lemma ApartBelow(p: Path, q: Path, k: Path)
    requires Apart(p, q) && q <= k
    ensures Apart(p, k) && !(p <= k) && !(k <= p)
  {
  }

  // Changing only what is below p leaves a subtree elsewhere as it was.
  lemma SubFrame(d: Tree, e: Tree, p: Path, q: Path)
    requires SameOutside(d, e, p) && Apart(p, q)
    ensures Sub(d, q) == Sub(e, q)
    ensures q in d <==> q in e
  {
  }

  // In a tree-shaped disk nothing lies below a missing path.
  lemma {:induction false} NothingBelowMissing(d: Tree, p: Path, k: Path)
    requires TreeShaped(d) && p !in d && p <= k
    ensures k !in d
  {
    assert k in d ==> Placed(d, k);
    if k != p {
      NothingBelowMissing(d, p, Parent(k));
    }
  }

  // Every component of a path in a subtree is a good name.
  lemma {:induction false} GoodPath(d: Tree, p: Path, q: Path, i: nat)
    requires TreeShaped(d) && p + q in d && i < |q|
    ensures GoodName(q[i])
  {
    assert Placed(d, p + q) && (p + q)[|p + q| - 1] == q[|q| - 1];
    if i < |q| - 1 {
      assert Parent(p + q) == p + q[..|q| - 1];
      GoodPath(d, p, q[..|q| - 1], i);
    }
  }

  // ---- creating and writing ----------------------------------------------------------------------------------

  lemma LeafShaped(d: Tree, p: Path, n: Node)
    requires TreeShaped(d) && p != [] && CanCreate(d, p)
    ensures TreeShaped(d[p := n]) && SameOutside(d, d[p := n], p)
  {
    var e := d[p := n];
    forall k | k in e
      ensures Placed(e, k)
    {
      assert k in d ==> Placed(d, k);
    }
  }

  lemma RewrittenShaped(d: Tree, p: Path, data: Bytes)
    requires TreeShaped(d) && p in d && d[p].File?
    ensures TreeShaped(d[p := File(data)]) && SameOutside(d, d[p := File(data)], p)
  {
    var e := d[p := File(data)];
    forall k | k in e
      ensures Placed(e, k)
    {
      assert Placed(d, k);
    }
  }

  lemma SubUpdate(d: Tree, p: Path, q: Path, n: Node)
    ensures Sub(d[p + q := n], p) == Sub(d, p)[q := n]
  {
    var after, expected := Sub(d[p + q := n], p), Sub(d, p)[q := n];
    forall r: Path
      ensures r in after <==> r in expected
      ensures r in after ==> after[r] == expected[r]
    {
      assert (p + r)[|p|..] == r && (p + q)[|p|..] == q;
    }
    assert after.Keys == expected.Keys;
  }

  // A path that can be created is empty once it is.
  lemma SubNew(d: Tree, p: Path, n: Node)
    requires TreeShaped(d) && p !in d
    ensures Sub(d[p := n], p) == map[[] := n]
  {
    forall q: Path
      ensures p + q !in d && (p + q == p ==> q == [])
    {
      NothingBelowMissing(d, p, p + q);
    }
    assert p + [] == p;
    assert Sub(d[p := n], p).Keys == {[]};
  }

  // ---- histories ---------------------------------------------------------------------------------------------

  // The disk went from d to e, and the history from h0 to h1, by states that agree with d outside p.
  ghost predicate Confined(h0: seq<Tree>, h1: seq<Tree>, d: Tree, e: Tree, p: Path)
  {
    h0 <= h1 && SameOutside(d, e, p) && forall i | |h0| <= i < |h1| :: SameOutside(d, h1[i], p)
  }

  lemma ConfinedSame(h: seq<Tree>, d: Tree, p: Path)
    ensures Confined(h, h, d, d, p)
  {
  }

  lemma ConfinedFrame(h0: seq<Tree>, h1: seq<Tree>, d: Tree, e: Tree, p: Path, q: Path)
    requires Confined(h0, h1, d, e, p) && Apart(p, q)
    ensures Sub(d, q) == Sub(e, q)
    ensures q in d <==> q in e
  {
  }

  lemma ConfinedThen(h0: seq<Tree>, h1: seq<Tree>, h2: seq<Tree>, d: Tree, e: Tree, f: Tree, p: Path, q: Path)
    requires Confined(h0, h1, d, e, p) && Confined(h1, h2, e, f, q) && p <= q
    ensures Confined(h0, h2, d, f, p)
  {
  }

  // ---- renaming ----------------------------------------------------------------------------------------------

  // rename(2) of a directory: the target is missing, or is an empty directory that is replaced.
  predicate CanRename(d: Tree, a: Path, b: Path)
  {
    && a != [] && b != [] && IsDir(d, a) && !(a <= b) && !(b <= a)
    && GoodName(b[|b| - 1]) && IsDir(d, Parent(b))
    && (b in d ==> d[b].Dir?) && (forall k | k in d && b <= k :: k == b)
  }

  function Prune(d: Tree, p: Path): Tree
  {
    map k | k in d && !(p <= k) :: d[k]
  }

  ghost predicate IsGraft(t: Tree, p: Path, g: Tree)
  {
    && (forall k :: k in g <==> p <= k && k[|p|..] in t)
    && (forall k | k in g :: g[k] == t[k[|p|..]])
  }

  lemma GraftComputed(t: Tree, p: Path, landed: set<Path>, g: Tree)
    requires landed == set q | q in t :: p + q
    requires g.Keys == landed && forall k | k in landed && p <= k && k[|p|..] in t :: g[k] == t[k[|p|..]]
    ensures IsGraft(t, p, g)
  {
    forall k: Path
      ensures k in landed <==> p <= k && k[|p|..] in t
    {
      if k in landed {
        var q :| q in t && k == p + q;
        assert k[|p|..] == q;
      }
      if p <= k && k[|p|..] in t {
        assert k == p + k[|p|..];
      }
    }
  }

  // The tree t hung up at p.
  ghost function Graft(t: Tree, p: Path): (g: Tree)
    ensures IsGraft(t, p, g)
  {
    var landed := set q | q in t :: p + q;
    var hung := map k | k in landed :: if p <= k && k[|p|..] in t then t[k[|p|..]] else Dir;
    GraftComputed(t, p, landed, hung);
    var g :| IsGraft(t, p, g);
    g
  }

  ghost function Renamed(d: Tree, a: Path, b: Path): Tree
  {
    Prune(Prune(d, a), b) + Graft(Sub(d, a), b)
  }

  method ComputeGraft(t: Tree, p: Path) returns (g: Tree)
    ensures g == Graft(t, p)
  {
    var landed := set q | q in t :: p + q;
    g := map k | k in landed :: if p <= k && k[|p|..] in t then t[k[|p|..]] else Dir;
    GraftComputed(t, p, landed, g);
  }

  method ComputeRenamed(d: Tree, a: Path, b: Path) returns (e: Tree)
    ensures e == Renamed(d, a, b)
  {
    var tails := ListTails(d, a);
    assert tails == Sub(d, a).Keys;
    var moved := ComputeGraft(map q | q in tails :: d[a + q], b);
    e := Prune(Prune(d, a), b) + moved;
  }

  // The subtree at p is replaced by t.
  ghost function Replaced(d: Tree, p: Path, t: Tree): Tree
  {
    Prune(d, p) + Graft(t, p)
  }

  lemma ReplacedIs(d: Tree, p: Path, t: Tree)
    ensures Sub(Replaced(d, p, t), p) == t
  {
    var e := Replaced(d, p, t);
    forall q: Path
      ensures q in Sub(e, p) <==> q in t
      ensures q in Sub(e, p) ==> Sub(e, p)[q] == t[q]
    {
      assert p <= p + q && (p + q)[|p|..] == q;
    }
  }

  lemma ReplacedShaped(d: Tree, p: Path, t: Tree)
    requires TreeShaped(d) && TreeShaped(t) && IsDir(d, p) && IsDir(t, [])
    ensures TreeShaped(Replaced(d, p, t)) && SameOutside(d, Replaced(d, p, t), p)
  {
    var e := Replaced(d, p, t);
    forall k | k in e
      ensures Placed(e, k)
    {
      if p <= k && k != p {
        var q := k[|p|..];
        assert Placed(t, q) && Parent(k)[|p|..] == Parent(q);
        assert p <= Parent(k) && k[|k| - 1] == q[|q| - 1];
      } else {
        assert k == p ==> k[|p|..] == [];
        assert Placed(d, k);
      }
    }
  }

  // The subtree moves whole and its old place is empty.
  lemma RenamedMoves(d: Tree, a: Path, b: Path)
    requires Apart(a, b)
    ensures Sub(Renamed(d, a, b), b) == Sub(d, a)
    ensures Sub(Renamed(d, a, b), a) == map[]
  {
    var e := Renamed(d, a, b);
    var t := Sub(d, a);
    forall q: Path
      ensures q in Sub(e, b) <==> q in t
      ensures q in Sub(e, b) ==> Sub(e, b)[q] == t[q]
    {
      assert b <= b + q && (b + q)[|b|..] == q;
    }
    assert Sub(e, b).Keys == t.Keys;
    forall q: Path
      ensures q !in Sub(e, a)
    {
      ApartBelow(b, a, a + q);
    }
    assert Sub(e, a).Keys == {};
  }

  // Everything apart from both places stays.
  lemma RenamedElsewhere(d: Tree, a: Path, b: Path, q: Path)
    requires Apart(a, b) && Apart(a, q) && Apart(b, q)
    ensures Sub(Renamed(d, a, b), q) == Sub(d, q)
    ensures q in Renamed(d, a, b) <==> q in d
  {
    hide Renamed, Apart, Sub;
    var e := Renamed(d, a, b);
    forall r: Path {:trigger q + r}
      ensures SameAt(d, e, q + r)
    {
      ApartBelow(a, q, q + r);
      ApartBelow(b, q, q + r);
      RenamedAt(d, a, b, q + r);
    }
    SameSub(d, e, q);
    assert q + [] == q && SameAt(d, e, q + []);
  }

  ghost predicate SameAt(d: Tree, e: Tree, k: Path)
  {
    (k in d <==> k in e) && (k in d ==> d[k] == e[k])
  }

  lemma SameSub(d: Tree, e: Tree, p: Path)
    requires forall r: Path {:trigger p + r} :: SameAt(d, e, p + r)
    ensures Sub(e, p) == Sub(d, p)
  {
    var s, t := Sub(d, p), Sub(e, p);
    forall r
      ensures r in s <==> r in t
      ensures r in s ==> s[r] == t[r]
    {
      assert SameAt(d, e, p + r);
    }
    assert s.Keys == t.Keys;
  }

  lemma RenamedShaped(d: Tree, a: Path, b: Path)
    requires TreeShaped(d) && CanRename(d, a, b)
    ensures TreeShaped(Renamed(d, a, b))
  {
    var e := Renamed(d, a, b);
    forall k | k in e
      ensures Placed(e, k)
    {
      RenamedPlaced(d, a, b, k);
    }
  }

  lemma GraftPlaced(d: Tree, a: Path, b: Path, k: Path)
    requires TreeShaped(d) && b < k && k in Graft(Sub(d, a), b)
    ensures Parent(k) in Graft(Sub(d, a), b) && Graft(Sub(d, a), b)[Parent(k)].Dir? && GoodName(k[|k| - 1])
  {
    hide Graft;
    var q := k[|b|..];
    assert q in Sub(d, a) && Placed(d, a + q) && Parent(a + q) == a + Parent(q);
    assert Parent(k)[|b|..] == Parent(q) && Parent(q) in Sub(d, a) && b <= Parent(k);
    assert (a + q)[|a + q| - 1] == k[|k| - 1];
  }

  lemma RenamedPlaced(d: Tree, a: Path, b: Path, k: Path)
    requires TreeShaped(d) && CanRename(d, a, b) && k in Renamed(d, a, b)
    ensures Placed(Renamed(d, a, b), k)
  {
    if k == b {
      assert Parent(k) in Prune(Prune(d, a), b);
    } else if b <= k {
      GraftPlaced(d, a, b, k);
    } else if k != [] {
      assert Placed(d, k) && !(a <= k) && !(a <= Parent(k));
      assert Parent(k) in Prune(Prune(d, a), b);
    }
  }

  // A rename inside a directory leaves everything outside that directory as it was.
  lemma RenamedInside(d: Tree, a: Path, b: Path, p: Path)
    requires p <= a && p <= b
    ensures SameOutside(d, Renamed(d, a, b), p)
  {
  }

  // A renamed disk, place by place.
  lemma RenamedAt(d: Tree, a: Path, b: Path, k: Path)
    requires Apart(a, b)
    ensures var e := Renamed(d, a, b);
            && (b <= k ==> (k in e <==> a + k[|b|..] in d) && (k in e ==> e[k] == d[a + k[|b|..]]))
            && (a <= k ==> k !in e)
            && (!(a <= k) && !(b <= k) ==> (k in e <==> k in d) && (k in e ==> e[k] == d[k]))
  {
  }

  // Renaming to a missing place and back changes nothing.
  lemma RenamedBack(d: Tree, a: Path, b: Path)
    requires TreeShaped(d) && Apart(a, b) && b !in d
    ensures Renamed(Renamed(d, a, b), b, a) == d
  {
    hide TreeShaped, Renamed, Apart;
    var e := Renamed(d, a, b);
    var f := Renamed(e, b, a);
    ApartSym(a, b);
    forall k: Path
      ensures k in f <==> k in d
      ensures k in f ==> f[k] == d[k]
    {
      RenamedAt(e, b, a, k);
      RenamedAt(d, a, b, k);
      if a <= k {
        var q := k[|a|..];
        RenamedAt(d, a, b, b + q);
        assert k == a + q && (b + q)[|b|..] == q;
      } else if b <= k {
        NothingBelowMissing(d, b, k);
      }
    }
    assert f.Keys == d.Keys;
  }

  lemma ApartSym(p: Path, q: Path)
    requires Apart(p, q)
    ensures Apart(q, p)
  {
  }
}
