/** The bitmap writer of mkfs (src/mkfs.c) and the bit counter of fsck (src/fsck.lolelffs.c). */
module MkfsBitmap {
  import opened Layout
  import opened Bits

  /** A 64-bit word, least significant bit first. */
  type Word = w: seq<bool> | |w| == 64 witness seq(64, _ => false)

  function And(a: Word, b: Word): (r: Word)
    ensures forall i :: 0 <= i < 64 ==> r[i] == (a[i] && b[i])
  {
    seq(64, i requires 0 <= i < 64 => a[i] && b[i])
  }

  function Not(a: Word): (r: Word)
    ensures forall i :: 0 <= i < 64 ==> r[i] == !a[i]
  {
    seq(64, i requires 0 <= i < 64 => !a[i])
  }

  /** Shift left by one; the top bit falls out. */
  function Shl(a: Word): (r: Word)
    ensures forall i :: 0 <= i < 64 ==> r[i] == (i > 0 && a[i - 1])
  {
    seq(64, i requires 0 <= i < 64 => i > 0 && a[i - 1])
  }

  function Ones(): (r: Word)
    ensures forall i :: 0 <= i < 64 ==> r[i]
  {
    seq(64, _ => true)
  }

  /** The word with only bit `k` set; zero from 64 on. */
  function OneHot(k: nat): (r: Word)
    ensures forall i :: 0 <= i < 64 ==> r[i] == (i == k)
  {
    seq(64, i => i == k)
  }

  predicate NonZero(a: Word) {
    exists i :: 0 <= i < 64 && a[i]
  }

  /** The word with its lowest `n` bits cleared. */
  function Cleared(n: nat): (r: Word)
    ensures forall i :: 0 <= i < 64 ==> r[i] == (i >= n)
  {
    seq(64, i => i >= n)
  }

  /** One word of the loop: clear bits from the bottom until the word or the count runs out. */
  method ClearLine(used: nat) returns (line: Word, left: nat)
    requires used > 0
    ensures line == Cleared(used) && left == if used > 64 then used - 64 else 0
  {
    line := Ones();
    left := used;
    var mask := OneHot(0);
    ghost var k := 0;
    while NonZero(mask)
      invariant 0 <= k <= 64 && k < used && left == used - k
      invariant mask == OneHot(k) && line == Cleared(k)
      decreases 64 - k
    {
      line := And(line, Not(mask));
      left := left - 1;
      assert line == Cleared(k + 1);
      if left == 0 {
        return;
      }
      mask := Shl(mask);
      assert mask == OneHot(k + 1);
      k := k + 1;
    }
    assert OneHot(k)[if k < 64 then k else 0] == (k < 64);
  }

  /** All bits of a sequence of words. */
  function BitsOf(words: seq<Word>): (s: seq<bool>)
    ensures |s| == 64 * |words|
  {
    seq(64 * |words|, p requires 0 <= p < 64 * |words| => words[p / 64][p % 64])
  }

  /** Words whose first `n` bits are cleared. */
  predicate ClearedUpTo(words: seq<Word>, n: nat) {
    forall i :: 0 <= i < |words| ==> words[i] == Cleared(if n > 64 * i then n - 64 * i else 0)
  }

  lemma ClearedBits(words: seq<Word>, n: nat)
    requires ClearedUpTo(words, n)
    ensures forall p :: 0 <= p < 64 * |words| ==> BitsOf(words)[p] == (p >= n)
  {
    forall p | 0 <= p < 64 * |words| ensures BitsOf(words)[p] == (p >= n) {
      var i, b := p / 64, p % 64;
      assert p == 64 * i + b;
      assert words[i] == Cleared(if n > 64 * i then n - 64 * i else 0);
    }
  }

  /** `write_bfree_blocks`, first block: the used prefix is cleared, everything else is set. */
  method FirstBlock(used: nat) returns (block: array<Word>)
    requires used <= BITS_PER_BLOCK
    ensures fresh(block) && block.Length == 512 && ClearedUpTo(block[..], used)
  {
    block := new Word[512](_ => Ones());
    var left, i := used, 0;
    while left > 0
      invariant 0 <= i <= 512 && left == (if used > 64 * i then used - 64 * i else 0)
      invariant forall j :: 0 <= j < i ==> block[j] == Cleared(if used > 64 * j then used - 64 * j else 0)
      invariant forall j :: i <= j < 512 ==> block[j] == Ones()
      decreases left
    {
      var line;
      line, left := ClearLine(left);
      block[i] := line;
      i := i + 1;
    }
    forall j | i <= j < 512 ensures block[j] == Cleared(0) {}
  }

  // ---- counting ----

  /** Byte `i` of a little-endian bitmap. */
  function ByteOf(words: seq<Word>, i: nat): (b: seq<bool>)
    requires i < 8 * |words|
    ensures |b| == 8
  {
    words[i / 8][8 * (i % 8)..8 * (i % 8) + 8]
  }

  lemma ByteBits(words: seq<Word>, i: nat, bit: nat)
    requires i < 8 * |words| && bit < 8
    ensures 8 * i + bit < 64 * |words| && ByteOf(words, i)[bit] == BitsOf(words)[8 * i + bit]
  {
    var p := 8 * i + bit;
    assert p / 64 == i / 8 && p % 64 == 8 * (i % 8) + bit;
  }

  /** Free bits among the first `n`, as far as the numbers are below `nr`. */
  ghost function FreeUpTo(words: seq<Word>, n: nat, nr: nat): nat
    requires n <= 64 * |words|
  {
    Count(BitsOf(words)[..Min(n, nr)])
  }

  /** One bit of one byte in the count. */
  lemma CountBit(words: seq<Word>, i: nat, bit: nat, nr: nat)
    requires i < 8 * |words| && bit < 8
    ensures FreeUpTo(words, 8 * i + bit + 1, nr)
         == FreeUpTo(words, 8 * i + bit, nr) + (if 8 * i + bit < nr && ByteOf(words, i)[bit] then 1 else 0)
  {
    ByteBits(words, i, bit);
    if 8 * i + bit < nr {
      CountNext(BitsOf(words), 8 * i + bit);
    }
  }

  lemma {:induction false} NothingMore(words: seq<Word>, n: nat, m: nat, nr: nat)
    requires nr <= n <= m <= 64 * |words|
    ensures FreeUpTo(words, m, nr) == FreeUpTo(words, n, nr)
  {
    assert Min(n, nr) == Min(m, nr) == nr;
  }

  /** The bits of one byte, up to the last valid number. */
  method CountByte(words: seq<Word>, i: nat, nr: nat, free: nat) returns (r: nat)
    requires i < 8 * |words| && free == FreeUpTo(words, 8 * i, nr)
    ensures r == FreeUpTo(words, 8 * i + 8, nr)
  {
    var byte := ByteOf(words, i);
    r := free;
    for bit := 0 to 8
      invariant r == FreeUpTo(words, 8 * i + bit, nr)
    {
      if 8 * i + bit >= nr {
        NothingMore(words, 8 * i + bit, 8 * i + 8, nr);
        return;
      }
      CountBit(words, i, bit, nr);
      if byte[bit] {
        r := r + 1;
      }
    }
  }

  /** One block of a bitmap. */
  method CountBlock(words: seq<Word>, b: nat, nr: nat, free: nat) returns (r: nat)
    requires 512 * (b + 1) <= |words| && free == FreeUpTo(words, 32768 * b, nr)
    ensures r == FreeUpTo(words, 32768 * (b + 1), nr)
  {
    r := free;
    for i := 0 to BLOCK_SIZE
      invariant r == FreeUpTo(words, 32768 * b + 8 * i, nr)
    {
      r := CountByte(words, 4096 * b + i, nr, r);
    }
  }

  /** The counting loops of fsck over all blocks of a bitmap: the numbers below `nr` that it has bits for. */
  method CountFree(words: seq<Word>, nrBitmapBlocks: nat, nr: nat) returns (free: nat)
    requires |words| == 512 * nrBitmapBlocks
    ensures free == Count(BitsOf(words)[..Min(nr, 64 * |words|)])
  {
    free := 0;
    for b := 0 to nrBitmapBlocks
      invariant free == FreeUpTo(words, 32768 * b, nr)
    {
      free := CountBlock(words, b, nr, free);
    }
  }

  /** The loops count exactly the bits past a cleared prefix. */
  lemma ClearedCount(words: seq<Word>, n: nat, nr: nat)
    requires ClearedUpTo(words, n) && n <= nr <= 64 * |words|
    ensures Count(BitsOf(words)[..nr]) == nr - n
  {
    ClearedBits(words, n);
    CountWindow(BitsOf(words)[..nr], n, nr);
  }
}
