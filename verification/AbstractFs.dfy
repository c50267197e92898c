/**
 * The filesystem a caller sees: inode numbers map to nodes, directories map names to inode
 * numbers. The link-count and reachability invariants live at this level.
 */
module AbstractFs {
  import opened Layout
  import opened XattrCodec

  type Name = Bytes

  datatype Node =
    | File(nlink: nat, xattrs: map<Key, Bytes>, content: Result<Bytes>)
    | Dir(nlink: nat, xattrs: map<Key, Bytes>, entries: map<Name, nat>)
    | Symlink(nlink: nat, xattrs: map<Key, Bytes>, target: Bytes)

  type View = map<nat, Node>

  const ROOT: nat := 0

  /** Directory `d` has an entry `n` for inode `i`. */
  predicate IsName(v: View, d: nat, n: Name, i: nat) {
    d in v && v[d].Dir? && n in v[d].entries && v[d].entries[n] == i
  }

  /** All names of inode `i`. */
  ghost function Names(v: View, i: nat): (r: set<(nat, Name)>)
    ensures forall d: nat, n: Name :: (d, n) in r <==> IsName(v, d, n, i)
  {
    set d, n | d in v && v[d].Dir? && n in v[d].entries && v[d].entries[n] == i :: (d, n)
  }

  predicate IsSubdir(v: View, d: nat, n: Name) {
    d in v && v[d].Dir? && n in v[d].entries && v[d].entries[n] in v && v[v[d].entries[n]].Dir?
  }

  /** Entries of `d` that are directories. */
  ghost function Subdirs(v: View, d: nat): (r: set<Name>)
    ensures forall n :: n in r <==> IsSubdir(v, d, n)
  {
    if d in v && v[d].Dir? then
      set n | n in v[d].entries && v[d].entries[n] in v && v[v[d].entries[n]].Dir?
    else {}
  }

  /** A chain of `k` directory entries leads from the root to `i`. */
  ghost predicate ReachIn(v: View, i: nat, k: nat)
    decreases k
  {
    if k == 0 then i == ROOT else exists d: nat, n: Name :: IsName(v, d, n, i) && ReachIn(v, d, k - 1)
  }

  ghost predicate Reachable(v: View, i: nat) {
    exists k: nat :: ReachIn(v, i, k)
  }

  /** Link counts: a directory counts itself, its name and its subdirectories; a file counts its names. */
  ghost predicate Counted(v: View, i: nat)
    requires i in v
  {
    if v[i].Dir? then
      v[i].nlink == 2 + |Subdirs(v, i)| && |Names(v, i)| == (if i == ROOT then 0 else 1)
    else
      0 < v[i].nlink == |Names(v, i)|
  }

  ghost predicate AllCounted(v: View) {
    forall i {:trigger Counted(v, i)} :: i in v ==> Counted(v, i)
  }

  /** Every entry names an existing inode other than the root. */
  ghost predicate EntriesLive(v: View) {
    forall d: nat, n: Name, i: nat :: IsName(v, d, n, i) ==> i in v && i != ROOT
  }

  /** Every directory hangs off the root. */
  ghost predicate Rooted(v: View) {
    forall i {:trigger Reachable(v, i)} :: DirIn(v, i) ==> Reachable(v, i)
  }

  /** The link invariant: counts, liveness of entries, and a tree of directories. */
  ghost predicate Linked(v: View) {
    DirIn(v, ROOT) && EntriesLive(v) && AllCounted(v) && Rooted(v)
  }

  predicate DirIn(v: View, i: nat) {
    i in v && v[i].Dir?
  }

  /** No inode is lost: everything allocated can be reached from the root. */
  lemma AllReachable(v: View, i: nat)
    requires Linked(v) && i in v
    ensures Reachable(v, i)
  {
    assert Counted(v, i);
    if !v[i].Dir? {
      var p :| p in Names(v, i);
      var (d, n) := p;
      assert IsName(v, d, n, i);
      assert Reachable(v, d);
      var k: nat :| ReachIn(v, d, k);
      assert ReachIn(v, i, k + 1);
    }
  }

  // ---- the operations ----

  function WithLinks(n: Node, k: nat): Node {
    match n
    case File(_, x, c) => File(k, x, c)
    case Dir(_, x, es) => Dir(k, x, es)
    case Symlink(_, x, t) => Symlink(k, x, t)
  }

  function Relink(v: View, i: nat, k: nat): View
    requires i in v
  {
    v[i := WithLinks(v[i], k)]
  }

  function AddName(v: View, d: nat, n: Name, i: nat): View
    requires d in v && v[d].Dir?
  {
    v[d := Dir(v[d].nlink, v[d].xattrs, v[d].entries[n := i])]
  }

  function DropName(v: View, d: nat, n: Name): View
    requires d in v && v[d].Dir?
  {
    v[d := Dir(v[d].nlink, v[d].xattrs, v[d].entries - {n})]
  }

  /** `create_file` and `symlink`: a new inode with one name. */
  function Create(v: View, d: nat, n: Name, i: nat, node: Node): View
    requires d in v && v[d].Dir? && d != i
  {
    AddName(v[i := node], d, n, i)
  }

  function Mkdir(v: View, d: nat, n: Name, i: nat): View
    requires d in v && v[d].Dir? && d != i
  {
    Relink(Create(v, d, n, i, Dir(2, map[], map[])), d, v[d].nlink + 1)
  }

  function Hardlink(v: View, i: nat, d: nat, n: Name): View
    requires d in v && v[d].Dir? && i in v && i != d
  {
    AddName(Relink(v, i, v[i].nlink + 1), d, n, i)
  }

  function Decrement(k: nat): nat {
    if k == 0 then 0 else k - 1
  }

  function Unlink(v: View, d: nat, n: Name): View
    requires d in v && v[d].Dir? && n in v[d].entries && v[d].entries[n] in v && v[d].entries[n] != d
  {
    var i := v[d].entries[n];
    if Decrement(v[i].nlink) == 0 then DropName(v, d, n) - {i}
    else Relink(DropName(v, d, n), i, Decrement(v[i].nlink))
  }

  function Rmdir(v: View, d: nat, n: Name): View
    requires d in v && v[d].Dir? && n in v[d].entries && v[d].entries[n] != d
  {
    Relink(DropName(v, d, n) - {v[d].entries[n]}, d, Decrement(v[d].nlink))
  }

  function SetContent(v: View, i: nat, c: Result<Bytes>): View
    requires i in v && v[i].File?
  {
    v[i := File(v[i].nlink, v[i].xattrs, c)]
  }

  function WithXattrs(n: Node, x: map<Key, Bytes>): Node {
    match n
    case File(l, _, c) => File(l, x, c)
    case Dir(l, _, es) => Dir(l, x, es)
    case Symlink(l, _, t) => Symlink(l, x, t)
  }

  function SetXattrs(v: View, i: nat, x: map<Key, Bytes>): View
    requires i in v
  {
    v[i := WithXattrs(v[i], x)]
  }

  /** The view of a new filesystem. */
  const NEW_VIEW: View := map[ROOT := Dir(2, map[], map[])]

  lemma NewLinked()
    ensures Linked(NEW_VIEW)
  {
    var v := NEW_VIEW;
    assert Names(v, ROOT) == {};
    assert Subdirs(v, ROOT) == {};
    assert Counted(v, ROOT);
    assert ReachIn(v, ROOT, 0);
  }

  // ---- how single changes move names ----

  /** Same directories with the same entries, and the same inodes are directories. */
  predicate SameTree(v: View, w: View) {
    && v.Keys == w.Keys
    && forall i :: i in v ==> (v[i].Dir? <==> w[i].Dir?) && (v[i].Dir? ==> v[i].entries == w[i].entries)
  }

  lemma {:induction false} ReachMono(v: View, w: View, i: nat, k: nat)
    requires ReachIn(v, i, k)
    requires forall d: nat, n: Name, j: nat :: IsName(v, d, n, j) ==> IsName(w, d, n, j)
    ensures ReachIn(w, i, k)
    decreases k
  {
    if k > 0 {
      var d, n :| IsName(v, d, n, i) && ReachIn(v, d, k - 1);
      ReachMono(v, w, d, k - 1);
      assert IsName(w, d, n, i);
    }
  }

  lemma RootedMono(v: View, w: View)
    requires Rooted(v)
    requires forall d: nat, n: Name, j: nat :: IsName(v, d, n, j) ==> IsName(w, d, n, j)
    requires forall i :: DirIn(w, i) ==> DirIn(v, i)
    ensures Rooted(w)
  {
    forall i | DirIn(w, i) ensures Reachable(w, i) {
      assert Reachable(v, i);
      var k: nat :| ReachIn(v, i, k);
      ReachMono(v, w, i, k);
    }
  }

  lemma SameTreeNames(v: View, w: View)
    requires SameTree(v, w)
    ensures forall d: nat, n: Name, j: nat :: IsName(v, d, n, j) <==> IsName(w, d, n, j)
    ensures forall i: nat :: Names(v, i) == Names(w, i)
    ensures forall i: nat :: Subdirs(v, i) == Subdirs(w, i)
  {
    forall i: nat ensures Names(v, i) == Names(w, i) {
      assert forall p :: p in Names(v, i) <==> p in Names(w, i);
    }
    forall i: nat ensures Subdirs(v, i) == Subdirs(w, i) {
      assert forall n :: n in Subdirs(v, i) <==> n in Subdirs(w, i);
    }
  }

  /** Changing contents or attributes keeps the link invariant. */
  lemma PayloadKeepsLinks(v: View, w: View)
    requires Linked(v) && SameTree(v, w)
    requires forall i :: i in v ==> w[i].nlink == v[i].nlink
    ensures Linked(w)
  {
    SameTreeNames(v, w);
    RootedMono(v, w);
    forall i | i in w ensures Counted(w, i) {
      assert Counted(v, i);
    }
  }

  /** `w` has the names of `v` and, in addition, `n` in `d` for `i`. */
  ghost predicate Gains(v: View, w: View, d: nat, n: Name, i: nat) {
    && (forall e: nat, m: Name, j: nat :: IsName(w, e, m, j) <==> IsName(v, e, m, j) || (e == d && m == n && j == i))
    && (forall j: nat :: !IsName(v, d, n, j))
    && (forall e: nat, m: Name, j: nat :: IsName(v, e, m, j) ==> (DirIn(v, j) <==> DirIn(w, j)))
  }

  lemma GainNames(v: View, w: View, d: nat, n: Name, i: nat)
    requires Gains(v, w, d, n, i)
    ensures |Names(w, i)| == |Names(v, i)| + 1
    ensures forall j: nat :: j != i ==> Names(w, j) == Names(v, j)
  {
    assert Names(w, i) == Names(v, i) + {(d, n)};
    assert (d, n) !in Names(v, i);
    forall j: nat | j != i ensures Names(w, j) == Names(v, j) {
      assert forall p :: p in Names(w, j) <==> p in Names(v, j);
    }
  }

  lemma SubdirIsName(v: View, d: nat, n: Name)
    ensures IsSubdir(v, d, n) <==> exists j: nat :: IsName(v, d, n, j) && DirIn(v, j)
  {
    if IsSubdir(v, d, n) {
      assert IsName(v, d, n, v[d].entries[n]);
    }
  }

  lemma GainIsSubdir(v: View, w: View, d: nat, n: Name, i: nat, e: nat, m: Name)
    requires Gains(v, w, d, n, i)
    ensures IsSubdir(w, e, m) <==> IsSubdir(v, e, m) || (e == d && m == n && DirIn(w, i))
    ensures !IsSubdir(v, d, n)
  {
    SubdirIsName(v, e, m);
    SubdirIsName(w, e, m);
    SubdirIsName(v, d, n);
    assert e == d && m == n ==> IsName(w, e, m, i);
  }

  lemma GainSubdirs(v: View, w: View, d: nat, n: Name, i: nat)
    requires Gains(v, w, d, n, i)
    ensures |Subdirs(w, d)| == |Subdirs(v, d)| + (if DirIn(w, i) then 1 else 0)
    ensures forall e: nat :: e != d ==> Subdirs(w, e) == Subdirs(v, e)
  {
    GainOwnSubdirs(v, w, d, n, i);
    forall e: nat | e != d ensures Subdirs(w, e) == Subdirs(v, e) {
      forall m: Name ensures m in Subdirs(w, e) <==> m in Subdirs(v, e) {
        GainIsSubdir(v, w, d, n, i, e, m);
      }
    }
  }

  lemma GainOwnSubdirs(v: View, w: View, d: nat, n: Name, i: nat)
    requires Gains(v, w, d, n, i)
    ensures |Subdirs(w, d)| == |Subdirs(v, d)| + (if DirIn(w, i) then 1 else 0)
  {
    var s, t := Subdirs(v, d), Subdirs(w, d);
    forall m: Name ensures m in t <==> m in s || (m == n && DirIn(w, i)) {
      GainIsSubdir(v, w, d, n, i, d, m);
    }
    GainIsSubdir(v, w, d, n, i, d, n);
    assert t == s + (if DirIn(w, i) then {n} else {});
  }

  /** With one more name, every inode but the named one stays counted if the parent's links follow. */
  lemma CountedAfterGain(v: View, w: View, d: nat, n: Name, i: nat)
    requires Gains(v, w, d, n, i) && AllCounted(v)
    requires w.Keys == v.Keys + {i} && d != i && (i in v ==> !DirIn(v, i)) && i != ROOT
    requires forall j :: j in v ==> (v[j].Dir? <==> w[j].Dir?)
    requires forall j :: j in v && j != i ==> w[j].nlink == v[j].nlink + (if j == d && DirIn(w, i) then 1 else 0)
    requires d in v && v[d].Dir?
    requires w[i].nlink == if DirIn(w, i) then 2 else |Names(v, i)| + 1
    requires DirIn(w, i) ==> Subdirs(w, i) == {} && Names(v, i) == {}
    ensures AllCounted(w)
  {
    GainNames(v, w, d, n, i);
    GainSubdirs(v, w, d, n, i);
    forall j | j in w ensures Counted(w, j) {
      if j != i { assert Counted(v, j); }
    }
  }

  /** With one name less, every inode that is left stays counted if the links follow. */
  lemma CountedAfterDrop(v: View, w: View, d: nat, n: Name, i: nat)
    requires Gains(w, v, d, n, i) && AllCounted(v)
    requires w.Keys <= v.Keys && d != i && i != ROOT && (DirIn(v, i) ==> i !in w)
    requires forall j :: j in w ==> (v[j].Dir? <==> w[j].Dir?)
    requires forall j :: j in w && j != i && j != d ==> w[j].nlink == v[j].nlink
    requires d in w ==> w[d].nlink == v[d].nlink - (if DirIn(v, i) then 1 else 0) && DirIn(v, d)
    requires i in w ==> i in v && 0 < w[i].nlink == v[i].nlink - 1
    ensures AllCounted(w)
  {
    GainNames(w, v, d, n, i);
    GainSubdirs(w, v, d, n, i);
    forall j | j in w ensures Counted(w, j) {
      assert Counted(v, j);
    }
  }

  // ---- adding names ----

  lemma CreateGains(v: View, d: nat, n: Name, i: nat, node: Node)
    requires EntriesLive(v) && DirIn(v, d) && i !in v && n !in v[d].entries
    requires node.Dir? ==> node.entries == map[]
    ensures Gains(v, Create(v, d, n, i, node), d, n, i)
    ensures Names(v, i) == {}
  {
    forall e: nat, m: Name ensures !IsName(v, e, m, i) {}
    assert Names(v, i) == {};
  }

  /** A fresh file or symlink with one name. */
  lemma CreateKeepsLinks(v: View, d: nat, n: Name, i: nat, node: Node)
    requires Linked(v) && DirIn(v, d) && i !in v && n !in v[d].entries
    requires !node.Dir? && node.nlink == 1
    ensures Linked(Create(v, d, n, i, node))
  {
    var w := Create(v, d, n, i, node);
    CreateGains(v, d, n, i, node);
    CountedAfterGain(v, w, d, n, i);
    RootedMono(v, w);
  }

  lemma MkdirGains(v: View, d: nat, n: Name, i: nat)
    requires EntriesLive(v) && DirIn(v, d) && i !in v && n !in v[d].entries
    ensures Gains(v, Mkdir(v, d, n, i), d, n, i)
    ensures Names(v, i) == {} && Subdirs(Mkdir(v, d, n, i), i) == {}
  {
    forall e: nat, m: Name ensures !IsName(v, e, m, i) {}
    assert Names(v, i) == {};
  }

  /** A fresh directory with one name; the parent gains a link. */
  lemma MkdirKeepsLinks(v: View, d: nat, n: Name, i: nat)
    requires Linked(v) && DirIn(v, d) && i !in v && n !in v[d].entries
    ensures Linked(Mkdir(v, d, n, i))
  {
    var w := Mkdir(v, d, n, i);
    MkdirGains(v, d, n, i);
    CountedAfterGain(v, w, d, n, i);
    RootedWithChild(v, w, d, n, i);
  }

  lemma RootedWithChild(v: View, w: View, d: nat, n: Name, i: nat)
    requires Rooted(v) && DirIn(v, d) && IsName(w, d, n, i)
    requires forall e: nat, m: Name, j: nat :: IsName(v, e, m, j) ==> IsName(w, e, m, j)
    requires forall j :: DirIn(w, j) ==> DirIn(v, j) || j == i
    ensures Rooted(w)
  {
    forall j | DirIn(w, j) ensures Reachable(w, j) {
      var p := if j == i then d else j;
      assert Reachable(v, p);
      var k: nat :| ReachIn(v, p, k);
      ReachMono(v, w, p, k);
      assert j == i ==> ReachIn(w, i, k + 1);
    }
  }

  /** One more name and one more link for an existing file. */
  lemma HardlinkKeepsLinks(v: View, i: nat, d: nat, n: Name)
    requires Linked(v) && DirIn(v, d) && i in v && !v[i].Dir? && n !in v[d].entries
    ensures Linked(Hardlink(v, i, d, n))
  {
    var w := Hardlink(v, i, d, n);
    assert Counted(v, i) && i != ROOT;
    HardlinkGains(v, i, d, n);
    CountedAfterGain(v, w, d, n, i);
    RootedMono(v, w);
  }

  lemma HardlinkGains(v: View, i: nat, d: nat, n: Name)
    requires DirIn(v, d) && i in v && !v[i].Dir? && n !in v[d].entries
    ensures Gains(v, Hardlink(v, i, d, n), d, n, i)
  {
  }

  // ---- removing names ----

  /** Paths to other directories do not use the dropped name. */
  lemma {:induction false} ReachAfterDrop(v: View, w: View, d: nat, n: Name, i: nat, j: nat, k: nat)
    requires Gains(w, v, d, n, i) && ReachIn(v, j, k) && j != i
    requires forall m: Name, l: nat :: !IsName(v, i, m, l)
    ensures ReachIn(w, j, k)
    decreases k
  {
    if k > 0 {
      var e, m :| IsName(v, e, m, j) && ReachIn(v, e, k - 1);
      ReachAfterDrop(v, w, d, n, i, e, k - 1);
      assert IsName(w, e, m, j);
    }
  }

  lemma RootedAfterDrop(v: View, w: View, d: nat, n: Name, i: nat)
    requires Gains(w, v, d, n, i) && Rooted(v) && !DirIn(w, i)
    requires forall m: Name, l: nat :: !IsName(v, i, m, l)
    requires forall j :: DirIn(w, j) ==> DirIn(v, j)
    ensures Rooted(w)
  {
    forall j | DirIn(w, j) ensures Reachable(w, j) {
      assert Reachable(v, j);
      var k: nat :| ReachIn(v, j, k);
      ReachAfterDrop(v, w, d, n, i, j, k);
    }
  }

  /** After a name is dropped no entry names an inode that has lost its last one. */
  lemma EntriesAfterDrop(v: View, w: View, d: nat, n: Name, i: nat)
    requires EntriesLive(v) && Gains(w, v, d, n, i)
    requires v.Keys - {i} <= w.Keys
    requires i in w || |Names(v, i)| == 1
    ensures EntriesLive(w)
  {
    GainNames(w, v, d, n, i);
    forall e: nat, m: Name, j: nat | IsName(w, e, m, j) ensures j in w && j != ROOT {
      assert IsName(v, e, m, j);
      assert i !in w ==> (e, m) !in Names(w, i);
    }
  }

  lemma UnlinkGains(v: View, d: nat, n: Name, i: nat)
    requires EntriesLive(v) && IsName(v, d, n, i) && !DirIn(v, i)
    ensures i in v && i != d && i != ROOT
    ensures Gains(Unlink(v, d, n), v, d, n, i)
  {
  }

  /** Unlinking keeps the invariant, and the inode goes exactly with its last name. */
  lemma UnlinkKeepsLinks(v: View, d: nat, n: Name, i: nat)
    requires Linked(v) && IsName(v, d, n, i) && !DirIn(v, i)
    ensures i in v && i != d
    ensures Linked(Unlink(v, d, n))
    ensures i in Unlink(v, d, n) <==> Names(v, i) != {(d, n)}
  {
    UnlinkGains(v, d, n, i);
    var w := Unlink(v, d, n);
    assert Counted(v, i);
    CountedAfterDrop(v, w, d, n, i);
    EntriesAfterDrop(v, w, d, n, i);
    RootedAfterDrop(v, w, d, n, i);
    assert (d, n) in Names(v, i);
    assert |Names(v, i) - {(d, n)}| == |Names(v, i)| - 1;
  }

  lemma RmdirGains(v: View, d: nat, n: Name, i: nat)
    requires EntriesLive(v) && IsName(v, d, n, i) && DirIn(v, i) && v[i].entries == map[]
    requires |Names(v, i)| == 1
    ensures i != d && i != ROOT
    ensures forall e: nat, m: Name :: IsName(v, e, m, i) ==> e == d && m == n
    ensures forall e: nat, m: Name, j: nat ::
              IsName(v, e, m, j) <==> IsName(Rmdir(v, d, n), e, m, j) || (e == d && m == n && j == i)
  {
    assert (d, n) in Names(v, i);
    assert |Names(v, i) - {(d, n)}| == 0;
    forall e: nat, m: Name | IsName(v, e, m, i) ensures e == d && m == n {
      assert (e, m) in Names(v, i);
      assert (e, m) !in Names(v, i) - {(d, n)};
    }
  }

  /** Removing an empty directory keeps the invariant; the parent loses a link. */
  lemma RmdirKeepsLinks(v: View, d: nat, n: Name, i: nat)
    requires Linked(v) && IsName(v, d, n, i) && DirIn(v, i) && v[i].entries == map[]
    ensures i != d
    ensures Linked(Rmdir(v, d, n))
  {
    assert Counted(v, i) && i != ROOT;
    RmdirGains(v, d, n, i);
    var w := Rmdir(v, d, n);
    RmdirGainsFully(v, w, d, n, i);
    assert Counted(v, d);
    assert IsSubdir(v, d, n) && n in Subdirs(v, d);
    CountedAfterDrop(v, w, d, n, i);
    EntriesAfterDrop(v, w, d, n, i);
    RootedAfterDrop(v, w, d, n, i);
  }

  lemma RmdirGainsFully(v: View, w: View, d: nat, n: Name, i: nat)
    requires IsName(v, d, n, i) && i != d && w == Rmdir(v, d, n)
    requires forall e: nat, m: Name :: IsName(v, e, m, i) ==> e == d && m == n
    requires forall e: nat, m: Name, j: nat :: IsName(v, e, m, j) <==> IsName(w, e, m, j) || (e == d && m == n && j == i)
    ensures Gains(w, v, d, n, i)
  {
    forall e: nat, m: Name, j: nat | IsName(w, e, m, j) ensures DirIn(v, j) <==> DirIn(w, j) {
      assert IsName(v, e, m, j);
    }
  }
}
