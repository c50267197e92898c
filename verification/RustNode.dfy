/** Birth, death and link count of an inode. */
module RustNode {
  import opened Layout
  import opened DiskState
  import opened RustFs
  import AbstractFs
  import XattrCodec
  import Content

  // ---- link count ----

  ghost predicate Relinked(e: Env, d: Disk, d': Disk, r': Roles, i: nat, k: nat) {
    && Inv(e, d', r')
    && i in ViewOf(e, d)
    && ViewOf(e, d') == AbstractFs.Relink(ViewOf(e, d), i, k)
  }

  lemma RelinkKeeps(e: Env, d: Disk, r: Roles, i: nat, k: nat)
    requires Inv(e, d, r) && Live(d, i)
    ensures Relinked(e, d, d.(inodes := d.inodes[i := d.inodes[i].(nlink := k)]), r, i, k)
  {
    var n := d.inodes[i].(nlink := k);
    var d' := d.(inodes := d.inodes[i := n]);
    WriteInodeTouches(d, r, n, i, false);
    RelinkNode(e, d, r, d', i, k);
    OneNodeChanged(e, d, r, d', r, i, false);
    ViewAt(e, d, i);
  }

  lemma RelinkMakes(cfg: Content.Config, n: Inode, k: nat, x: map<XattrCodec.Key, Bytes>, tab: seq<Extent>, head: Block, bs: seq<Block>)
    requires NodePayload(n, head, bs)
    ensures NodePayload(n.(nlink := k), head, bs)
    ensures MakeNode(cfg, n.(nlink := k), x, tab, bs) == AbstractFs.WithLinks(MakeNode(cfg, n, x, tab, bs), k)
  {
  }

  lemma BlocksAgree(d: Disk, r: Roles, d': Disk, i: nat, x: bool)
    requires |r| == |d.blocks| && d'.blocks == d.blocks && i < |d.inodes| && i < |d'.inodes|
    requires Head(d.inodes[i], x) == Head(d'.inodes[i], x)
    ensures Agree(d, r, d', r, i, x)
  {
    forall b | 0 <= b < |r| ensures SameFor(d, r, d', r, i, x, b) {}
  }

  lemma RelinkNode(e: Env, d: Disk, r: Roles, d': Disk, i: nat, k: nat)
    requires Inv(e, d, r) && Live(d, i)
    requires d' == d.(inodes := d.inodes[i := d.inodes[i].(nlink := k)])
    ensures NodeOk(e, d', r, i)
    ensures NodeView(e, d', i) == AbstractFs.WithLinks(NodeView(e, d, i), k)
  {
    NodeSound(e, d, r, i);
    BlocksAgree(d, r, d', i, false);
    BlocksAgree(d, r, d', i, true);
    PartFrame(d, r, d', r, i, false);
    XPartFrame(e, d, r, d', r, i);
    RelinkMakes(e.cfg, d.inodes[i], k, XattrView(e, d, i), Table(d, i, false), BlockAt(d, d.inodes[i].ei), Picked(d, MapOf(d, i, false)));
  }

  lemma LinksSeen(e: Env, d: Disk, i: nat)
    ensures i in ViewOf(e, d) <==> Live(d, i)
    ensures Live(d, i) ==> ViewOf(e, d)[i].nlink == d.inodes[i].nlink && (ViewOf(e, d)[i].Dir? <==> IsDir(d.inodes[i]))
  {
    ViewAt(e, d, i);
  }

  /** Rewrite the link count of an inode. */
  method SetLinks(fs: LolelfFs, i: nat, k: nat)
    requires Inv(fs.env, fs.Snap(), fs.roles) && Live(fs.Snap(), i)
    modifies fs`inodes
    ensures Relinked(fs.env, old(fs.Snap()), fs.Snap(), fs.roles, i, k)
    ensures fs.inodes == old(fs.inodes)[i := old(fs.inodes)[i].(nlink := k)]
  {
    ghost var d := fs.Snap();
    RelinkKeeps(fs.env, d, fs.roles, i, k);
    ghost var d' := d.(inodes := d.inodes[i := d.inodes[i].(nlink := k)]);
    fs.inodes := fs.inodes[i := fs.inodes[i].(nlink := k)];
    assert fs.Snap() == d';
  }

  // ---- death ----

  /** Roles after everything in a part of inode `i` is free. */
  function Emptied(r: Roles, i: nat, x: bool): (r': Roles)
    ensures |r'| == |r|
    ensures forall b {:trigger r'[b]} :: 0 <= b < |r| ==> r'[b] == if InPart(r[b], i, x) then Free else r[b]
  {
    seq(|r|, b requires 0 <= b < |r| => if InPart(r[b], i, x) then Free else r[b])
  }

  /** Roles after everything inode `i` owned is free. */
  function Disowned(r: Roles, i: nat): (r': Roles)
    ensures |r'| == |r|
    ensures forall b {:trigger r'[b]} :: 0 <= b < |r| ==> r'[b] == if OwnedBy(r[b], i) then Free else r[b]
  {
    seq(|r|, b requires 0 <= b < |r| => if OwnedBy(r[b], i) then Free else r[b])
  }

  lemma DisownedAgree(d: Disk, r: Roles, d': Disk, i: nat, j: nat, x: bool)
    requires |r| == |d.blocks| && d'.blocks == d.blocks && d'.inodes == d.inodes && i != j && j < |d.inodes|
    ensures Agree(d, r, d', Disowned(r, i), j, x)
  {
    var r' := Disowned(r, i);
    forall b | 0 <= b < |r| ensures SameFor(d, r, d', r', j, x, b) {}
  }

  lemma SurvivorKept(e: Env, d: Disk, r: Roles, d': Disk, i: nat, j: nat)
    requires |r| == |d.blocks| && d'.blocks == d.blocks && d'.inodes == d.inodes && i != j && j < |d.inodes|
    requires NodeOk(e, d, r, j)
    ensures NodeOk(e, d', Disowned(r, i), j) && NodeView(e, d', j) == NodeView(e, d, j)
  {
    DisownedAgree(d, r, d', i, j, false);
    DisownedAgree(d, r, d', i, j, true);
    NodeFrame(e, d, r, d', Disowned(r, i), j);
  }

  ghost predicate Removed(e: Env, d: Disk, d': Disk, r': Roles, i: nat) {
    && Inv(e, d', r')
    && ViewOf(e, d') == ViewOf(e, d) - {i}
  }

  /** Freeing an inode with all its blocks takes exactly it out of the view. */
  lemma NodeRemoved(e: Env, d: Disk, r: Roles, d': Disk, i: nat)
    requires Inv(e, d, r) && Live(d, i)
    requires d' == d.(ifree := d.ifree[i := true], bfree := d'.bfree, freeBlocks := d'.freeBlocks, freeInodes := d'.freeInodes)
    requires Shape(e, d') && BitsOk(e, d', Disowned(r, i))
    ensures Removed(e, d, d', Disowned(r, i), i)
  {
    forall j | 0 <= j < |d'.inodes| && Live(d', j) ensures NodeOk(e, d', Disowned(r, i), j) {
      NodeSound(e, d, r, j);
      SurvivorKept(e, d, r, d', i, j);
    }
    AllSound(e, d', Disowned(r, i), |d'.inodes|);
    RemovedView(e, d, r, d', i);
  }

  lemma RemovedView(e: Env, d: Disk, r: Roles, d': Disk, i: nat)
    requires Inv(e, d, r) && Live(d, i) && |d'.inodes| == |d.inodes| && d'.ifree == d.ifree[i := true]
    requires d'.blocks == d.blocks && d'.inodes == d.inodes
    ensures ViewOf(e, d') == ViewOf(e, d) - {i}
  {
    var v := ViewOf(e, d) - {i};
    forall j: nat ensures j in v <==> Live(d', j) { ViewAt(e, d, j); }
    forall j: nat | j in v ensures Live(d', j) && v[j] == NodeView(e, d', j) {
      ViewAt(e, d, j);
      NodeSound(e, d, r, j);
      SurvivorKept(e, d, r, d', i, j);
    }
    ViewIs(e, d', v);
  }

  // ---- birth ----

  ghost predicate Born(e: Env, d: Disk, d': Disk, r': Roles, i: nat, node: AbstractFs.Node) {
    && Inv(e, d', r')
    && ViewOf(e, d') == ViewOf(e, d)[i := node]
  }

  /** Allocating an inode and giving it a sound node adds exactly it to the view. */
  lemma NodeBorn(e: Env, d: Disk, r: Roles, d': Disk, r': Roles, i: nat)
    requires Inv(e, d, r) && i < |d.inodes| && !Live(d, i)
    requires Touches(d, r, d', r', i, false) && d'.ifree == d.ifree[i := false]
    requires Shape(e, d') && BitsOk(e, d', r') && NodeOk(e, d', r', i)
    ensures Born(e, d, d', r', i, NodeView(e, d', i))
  {
    forall j | 0 <= j < |d'.inodes| && Live(d', j) ensures NodeOk(e, d', r', j) {
      if j != i {
        NodeSound(e, d, r, j);
        OtherKept(e, d, r, d', r', i, false, j);
      }
    }
    AllSound(e, d', r', |d'.inodes|);
    forall b | 0 <= b < |r'| && Owned(r'[b]) ensures Live(d', r'[b].ino) {
      assert TouchedFor(d, r, d', r', i, false, b);
      if r'[b].ino != i { assert r[b] == r'[b]; }
    }
    BornView(e, d, r, d', r', i);
  }

  lemma BornView(e: Env, d: Disk, r: Roles, d': Disk, r': Roles, i: nat)
    requires Inv(e, d, r) && i < |d.inodes| && !Live(d, i)
    requires Touches(d, r, d', r', i, false) && d'.ifree == d.ifree[i := false]
    ensures ViewOf(e, d') == ViewOf(e, d)[i := NodeView(e, d', i)]
  {
    var v := ViewOf(e, d)[i := NodeView(e, d', i)];
    forall j: nat ensures j in v <==> Live(d', j) { ViewAt(e, d, j); }
    forall j: nat | j in v ensures Live(d', j) && v[j] == NodeView(e, d', j) {
      ViewAt(e, d, j);
      if j != i {
        NodeSound(e, d, r, j);
        OtherKept(e, d, r, d', r', i, false, j);
      }
    }
    ViewIs(e, d', v);
  }

  /** A free inode owns no block. */
  lemma FreeInodeOwnsNothing(e: Env, d: Disk, r: Roles, i: nat, x: bool)
    requires Inv(e, d, r) && i < |d.inodes| && !Live(d, i)
    ensures OwnsOnly(r, 0, [], i, x)
  {
    forall b | 0 <= b < |r| ensures !InPart(r[b], i, x) {}
  }

  // ---- directories seen from outside ----

  /** As a directory, inode `j` looks the same in both states: type, table and blocks. */
  predicate DirSame(d: Disk, d': Disk, j: nat) {
    && j < |d.inodes| && j < |d'.inodes| && (IsDir(d.inodes[j]) <==> IsDir(d'.inodes[j]))
    && Table(d', j, false) == Table(d, j, false)
    && Picked(d', MapOf(d', j, false)) == Picked(d, MapOf(d, j, false))
  }

  ghost predicate SameDirs(d: Disk, d': Disk) {
    forall j: nat {:trigger DirSame(d, d', j)} :: Live(d, j) ==> DirSame(d, d', j)
  }

  /** An operation on a free inode leaves every directory as it is. */
  lemma OthersSame(e: Env, d: Disk, r: Roles, d': Disk, r': Roles, i: nat)
    requires Inv(e, d, r) && !Live(d, i) && Touches(d, r, d', r', i, false)
    ensures SameDirs(d, d')
  {
    forall j: nat | Live(d, j) ensures DirSame(d, d', j) {
      NodeSound(e, d, r, j);
      TouchesAgree(d, r, d', r', i, false, j, false);
      PartFrame(d, r, d', r', j, false);
    }
  }
}
