/** Round trips of inode, superblock and directory entry. */
module RecordCodecs {
  import opened Layout
  import opened Wire
  import opened Codecs
  import D = DiskState
  import RustLink
  import M = Mkfs

  // ---- inodes ----

  function InodeWords(n: Inode): (ws: seq<nat>)
    ensures |ws| == 11
  {
    [n.mode, n.uid, n.gid, n.size, n.ctime, n.atime, n.mtime, n.blocks, n.nlink, n.ei, n.xattr]
  }

  predicate InodeFits(n: Inode) {
    Fit32(InodeWords(n)) && |n.data| == 28
  }

  function InodeBytes(n: Inode): Bytes {
    Words(InodeWords(n)) + n.data
  }

  function InodeAt(data: Bytes, o: nat): Inode
    requires o + 72 <= |data|
  {
    Inode(U32At(data, o), U32At(data, o + 4), U32At(data, o + 8), U32At(data, o + 12), U32At(data, o + 16), U32At(data, o + 20),
          U32At(data, o + 24), U32At(data, o + 28), U32At(data, o + 32), U32At(data, o + 36), U32At(data, o + 40), data[o + 44..o + 72])
  }

  lemma InodeReads(data: Bytes, o: nat, n: Inode)
    requires At(data, o, InodeBytes(n)) && InodeFits(n)
    ensures o + 72 <= |data| && InodeAt(data, o) == n
  {
    var ws := InodeWords(n);
    WordsLength(ws);
    AtSplit(data, o, Words(ws), n.data);
    forall i | 0 <= i < 11 ensures U32At(data, o + 4 * i) == ws[i] { WordsRead(data, o, ws, i); }
    assert ws[0] == U32At(data, o + 4 * 0) && ws[1] == U32At(data, o + 4 * 1) && ws[2] == U32At(data, o + 4 * 2);
    assert ws[3] == U32At(data, o + 4 * 3) && ws[4] == U32At(data, o + 4 * 4) && ws[5] == U32At(data, o + 4 * 5);
    assert ws[6] == U32At(data, o + 4 * 6) && ws[7] == U32At(data, o + 4 * 7) && ws[8] == U32At(data, o + 4 * 8);
    assert ws[9] == U32At(data, o + 4 * 9) && ws[10] == U32At(data, o + 4 * 10);
  }

  // ---- the inode store ----

  predicate StoreOk(store: seq<Bytes>) {
    forall b :: 0 <= b < |store| ==> |store[b]| == BLOCK_SIZE
  }

  /** `read_inode`: block i / 56, slot i % 56. */
  function GetInode(store: seq<Bytes>, i: nat): Inode
    requires StoreOk(store) && i < INODES_PER_BLOCK * |store|
  {
    InodeAt(store[i / INODES_PER_BLOCK], 72 * (i % INODES_PER_BLOCK))
  }

  function Patched(b: Bytes, o: nat, r: Bytes): (p: Bytes)
    requires o + |r| <= |b|
    ensures |p| == |b|
  {
    b[..o] + r + b[o + |r|..]
  }

  /** `write_inode`: the block is read, the slot overwritten, the block written back. */
  function PutInode(store: seq<Bytes>, i: nat, n: Inode): (s: seq<Bytes>)
    requires StoreOk(store) && i < INODES_PER_BLOCK * |store| && InodeFits(n)
    ensures |s| == |store| && StoreOk(s)
  {
    WordsLength(InodeWords(n));
    var b := i / INODES_PER_BLOCK;
    store[b := Patched(store[b], 72 * (i % INODES_PER_BLOCK), InodeBytes(n))]
  }

  lemma PatchedAt(b: Bytes, o: nat, r: Bytes)
    requires o + |r| <= |b|
    ensures At(Patched(b, o, r), o, r)
  {
  }

  lemma PatchedOutside(b: Bytes, o: nat, r: Bytes, p: nat, len: nat)
    requires o + |r| <= |b| && p + len <= |b| && (p + len <= o || o + |r| <= p)
    ensures Patched(b, o, r)[p..p + len] == b[p..p + len]
  {
  }

  lemma InodeSame(a: Bytes, b: Bytes, o: nat)
    requires o + 72 <= |a| && o + 72 <= |b| && a[o..o + 72] == b[o..o + 72]
    ensures InodeAt(a, o) == InodeAt(b, o)
  {
    forall k | o <= k < o + 72 ensures a[k] == b[k] {
      assert a[o..o + 72][k - o] == b[o..o + 72][k - o];
    }
    assert a[o + 44..o + 72] == b[o + 44..o + 72];
  }

  /** Writing one inode reads back as written and leaves every other inode alone. */
  lemma InodeStoreRoundTrip(store: seq<Bytes>, i: nat, n: Inode, j: nat)
    requires StoreOk(store) && i < INODES_PER_BLOCK * |store| && j < INODES_PER_BLOCK * |store| && InodeFits(n)
    ensures GetInode(PutInode(store, i, n), j) == if i == j then n else GetInode(store, j)
  {
    var s := PutInode(store, i, n);
    var b, o, c, p := i / 56, 72 * (i % 56), j / 56, 72 * (j % 56);
    WordsLength(InodeWords(n));
    if i == j {
      PatchedAt(store[b], o, InodeBytes(n));
      InodeReads(s[b], o, n);
    } else if b == c {
      assert i % 56 != j % 56;
      PatchedOutside(store[b], o, InodeBytes(n), p, 72);
      InodeSame(s[b], store[b], p);
    }
  }

  // ---- the superblock ----

  function SuperWords(sb: M.Super): (ws: seq<nat>)
    ensures |ws| == 21
  {
    [sb.magic, sb.nrBlocks, sb.nrInodes, sb.nrIstore, sb.nrIfree, sb.nrBfree, sb.nrFreeInodes, sb.nrFreeBlocks,
     sb.version, sb.compAlgo, sb.compEnabled, sb.compMin, sb.compFeatures, sb.maxExtent, sb.maxExtentLarge,
     sb.encEnabled, sb.encAlgo, sb.kdfAlgo, sb.kdfIterations, sb.kdfMemory, sb.kdfParallelism]
  }

  predicate SuperFits(sb: M.Super) {
    && Fit32(SuperWords(sb)) && |sb.salt| == 32 && |sb.masterKey| == 32
    && sb.encFeatures < U32 && |sb.reserved| == 3 && Fit32(sb.reserved)
  }

  /** `write_superblock`: 164 bytes at the start of block 0. */
  function SuperBytes(sb: M.Super): Bytes {
    Words(SuperWords(sb)) + sb.salt + sb.masterKey + Words([sb.encFeatures] + sb.reserved)
  }

  function WordAt(data: Bytes, i: nat): nat
    requires 4 * i + 4 <= |data|
  {
    U32At(data, 4 * i)
  }

  /** `read_superblock`. */
  function SuperOf(data: Bytes): M.Super
    requires |data| >= 164
  {
    M.Super(WordAt(data, 0), WordAt(data, 1), WordAt(data, 2), WordAt(data, 3), WordAt(data, 4), WordAt(data, 5), WordAt(data, 6),
            WordAt(data, 7), WordAt(data, 8), WordAt(data, 9), WordAt(data, 10), WordAt(data, 11), WordAt(data, 12), WordAt(data, 13),
            WordAt(data, 14), WordAt(data, 15), WordAt(data, 16), WordAt(data, 17), WordAt(data, 18), WordAt(data, 19), WordAt(data, 20),
            data[84..116], data[116..148], WordAt(data, 37), [WordAt(data, 38), WordAt(data, 39), WordAt(data, 40)])
  }

  /** The superblock reads back as written, whatever follows it in the block. */
  lemma SuperRoundTrip(sb: M.Super, rest: Bytes)
    requires SuperFits(sb)
    ensures |SuperBytes(sb)| == 164 && SuperOf(SuperBytes(sb) + rest) == sb
  {
    var data := SuperBytes(sb) + rest;
    var ws, vs := SuperWords(sb), [sb.encFeatures] + sb.reserved;
    WordsLength(ws);
    WordsLength(vs);
    assert At(data, 0, SuperBytes(sb));
    AtSplit(data, 0, Words(ws) + sb.salt + sb.masterKey, Words(vs));
    AtSplit(data, 0, Words(ws) + sb.salt, sb.masterKey);
    AtSplit(data, 0, Words(ws), sb.salt);
    SuperHead(data, sb);
    SuperTail(data, sb, vs);
  }

  lemma SuperHead(data: Bytes, sb: M.Super)
    requires SuperFits(sb) && At(data, 0, Words(SuperWords(sb))) && |data| >= 164
    ensures forall i :: 0 <= i < 21 ==> WordAt(data, i) == SuperWords(sb)[i]
  {
    forall i | 0 <= i < 21 ensures WordAt(data, i) == SuperWords(sb)[i] {
      WordsRead(data, 0, SuperWords(sb), i);
    }
  }

  lemma SuperTail(data: Bytes, sb: M.Super, vs: seq<nat>)
    requires SuperFits(sb) && vs == [sb.encFeatures] + sb.reserved && At(data, 148, Words(vs)) && |data| >= 164
    ensures WordAt(data, 37) == sb.encFeatures
    ensures [WordAt(data, 38), WordAt(data, 39), WordAt(data, 40)] == sb.reserved
  {
    WordsRead(data, 148, vs, 0);
    WordsRead(data, 148, vs, 1);
    WordsRead(data, 148, vs, 2);
    WordsRead(data, 148, vs, 3);
  }

  // ---- directory entries ----

  /** `FileEntry::to_bytes`: the name is cut to 254 bytes and padded with zeros. */
  function EntryBytes(ino: nat, name: Bytes): (r: Bytes)
    ensures |r| == FILE_ENTRY_SIZE
  {
    var n := if |name| <= MAX_FILENAME - 1 then name else name[..MAX_FILENAME - 1];
    Le32(ino) + (n + Zeros(MAX_FILENAME - |n|))
  }

  /** `FileEntry::from_bytes`: None for an empty name. */
  function EntryOf(data: Bytes): Option<(nat, Bytes)> {
    if |data| < FILE_ENTRY_SIZE then None
    else
      var name := D.CString(data[4..FILE_ENTRY_SIZE]);
      if name == [] then None else Some((U32At(data, 0), name))
  }

  /** A directory entry reads back as written exactly for names of 1 to 254 bytes without NUL. */
  lemma EntryRoundTrip(ino: nat, name: Bytes)
    requires ino < U32
    ensures EntryOf(EntryBytes(ino, name)) == Some((ino, name)) <==> 1 <= |name| <= 254 && 0 !in name
  {
    var n := if |name| <= 254 then name else name[..254];
    var data := EntryBytes(ino, name);
    var z := Zeros(255 - |n|);
    assert At(data, 0, Le32(ino));
    Read32(data, 0, ino);
    assert data[4..259] == n + z;
    RustLink.TargetReadsBack(n, z);
    CutName(n, z);
  }

  lemma {:induction false} CutName(n: Bytes, z: Bytes)
    requires z != [] && z[0] == 0
    ensures |D.CString(n + z)| <= |n|
  {
    if n == [] {
      assert n + z == z;
    } else if n[0] != 0 {
      assert (n + z)[1..] == n[1..] + z;
      CutName(n[1..], z);
    }
  }
}
