/** Constants, on-disk records and the error type shared by every component. */
module Layout {
  const BLOCK_SIZE: nat := 4096
  const BITS_PER_BLOCK: nat := 32768
  const INODES_PER_BLOCK: nat := 56
  const MAX_EXTENTS: nat := 170
  const MAX_EXTENT_BLOCKS: nat := 2048
  const MAX_EXTENT_BLOCKS_LARGE: nat := 524288
  const MAX_FILENAME: nat := 255
  const FILE_ENTRY_SIZE: nat := 259
  const FILES_PER_BLOCK: nat := 15
  const MIN_BLOCKS: nat := 100
  const U32: nat := 0x1_0000_0000
  const U16: nat := 0x1_0000

  type byte = x: int | 0 <= x < 256
  type Bytes = seq<byte>

  datatype Option<+T> = None | Some(value: T)

  datatype Error =
    | NoFreeInode
    | NoIndexBlock      // NoSpace while allocating an index block
    | BadInode
    | BadBlock
    | NoSpace
    | ZeroBlocks
    | NotDirectory
    | IsADirectory
    | IsASymlink
    | NotFound
    | Exists
    | NameTooLong
    | TargetTooLong
    | DirectoryFull
    | NotEmpty
    | Locked
    | CodecFailed
    | BadXattrName
    | CorruptXattr
    | NoXattr
    | TooSmall

  datatype Result<+T> = Ok(value: T) | Err(error: Error)

  /** The error of a call that failed. */
  function ErrorOf<T>(r: Result<T>): Option<Error> {
    if r.Ok? then None else Some(r.error)
  }

  function Min(a: nat, b: nat): nat {
    if a <= b then a else b
  }

  function Zeros(n: nat): (r: Bytes)
    ensures |r| == n && forall k :: 0 <= k < n ==> r[k] == 0
  {
    seq(n, _ => 0)
  }

  /** ceil(n / d), the `div_ceil` of the Rust side. */
  function CeilDiv(n: nat, d: nat): (r: nat)
    requires d > 0
    ensures r * d >= n
    ensures r > 0 ==> (r - 1) * d < n
  {
    (n + d - 1) / d
  }

  /** Number of 4096-byte blocks that hold `size` bytes. */
  function NumBlocks(size: nat): nat {
    (size + 4095) / 4096
  }

  /** One 24-byte extent record. */
  datatype Extent = Extent(block: nat, len: nat, start: nat, comp: nat, enc: nat,
                           reserved: nat, flags: nat, reserved2: nat, meta: nat)

  const EMPTY_EXTENT := Extent(0, 0, 0, 0, 0, 0, 0, 0, 0)

  function PlainExtent(block: nat, len: nat, start: nat): Extent {
    Extent(block, len, start, 0, 0, 0, 0, 0, 0)
  }

  datatype ExtentIndex = ExtentIndex(nrFiles: nat, extents: seq<Extent>)

  datatype XattrIndex = XattrIndex(totalSize: nat, count: nat, extents: seq<Extent>)

  function EmptyIndex(): ExtentIndex {
    ExtentIndex(0, seq(MAX_EXTENTS, _ => EMPTY_EXTENT))
  }

  datatype Inode = Inode(mode: nat, uid: nat, gid: nat, size: nat, ctime: nat, atime: nat, mtime: nat,
                         blocks: nat, nlink: nat, ei: nat, xattr: nat, data: Bytes)

  // File type bits: mode & 0o170000.
  const S_IFREG: nat := 0x8000
  const S_IFDIR: nat := 0x4000
  const S_IFLNK: nat := 0xA000

  function FileType(mode: nat): nat {
    (mode / 0x1000) % 16 * 0x1000
  }

  predicate IsDir(n: Inode) { FileType(n.mode) == S_IFDIR }
  predicate IsSymlink(n: Inode) { FileType(n.mode) == S_IFLNK }

  /** One 259-byte directory slot: inode number and NUL-padded name. */
  datatype Slot = Slot(ino: nat, name: Bytes)

  const EMPTY_SLOT := Slot(0, [])

  /** Superblock fields that fix the layout. */
  datatype Geometry = Geometry(nrBlocks: nat, nrInodes: nat, nrIstore: nat, nrIfree: nat, nrBfree: nat) {
    function IfreeStart(): nat { 1 + nrIstore }
    function BfreeStart(): nat { IfreeStart() + nrIfree }
    function DataStart(): nat { BfreeStart() + nrBfree }
  }
}
