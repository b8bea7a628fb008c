/**
 * Streaming SHA-256 in its two implementations, block-wise (userspace/nilix_syz_executor.c) and byte-wise
 * (userspace/stress_runner.c), and HMAC-SHA-256. The compression function is a parameter.
 */
module Sha256 {
  import opened Common
  import opened Arith
  import opened Bits
  import opened Bytes

  type Word32 = x: nat | x < 0x1_0000_0000
  type Chain = h: seq<Word32> | |h| == 8 witness [0, 0, 0, 0, 0, 0, 0, 0]
  type Compress = (Chain, seq<Byte>) -> Chain

  const INITIAL: Chain := [
    0x6a09e667, 0xbb67ae85, 0x3c6ef372, 0xa54ff53a, 0x510e527f, 0x9b05688c, 0x1f83d9ab, 0x5be0cd19]

  // ---------------------------------------------------------------------------------------------
  // The hash of FIPS 180-4

  /** Compression folded over the whole 64-byte blocks of `m`; a shorter tail is ignored. */
  function Fold(f: Compress, h: Chain, m: seq<Byte>): Chain
    decreases |m|
  {
    if |m| < 64 then h else Fold(f, f(h, m[..64]), m[64..])
  }

  /** Byte `j` of `v`, counting from the least significant. */
  function ByteAt(v: nat, j: nat): Byte
    decreases j
  {
    if j == 0 then v % 256 else ByteAt(v / 256, j - 1)
  }

  function BigEndian(v: nat, n: nat): (s: seq<Byte>)
    ensures |s| == n
  {
    seq(n, i requires 0 <= i < n => ByteAt(v, n - 1 - i))
  }

  function Value(s: seq<Byte>): nat {
    if s == [] then 0 else 256 * Value(s[..|s| - 1]) + s[|s| - 1]
  }

  /** The bytes stand for the number they were taken from. */
  lemma {:induction false} BigEndianValue(v: nat, n: nat)
    requires v < Pow256(n)
    ensures Value(BigEndian(v, n)) == v
    decreases n
  {
    if n != 0 {
      BigEndianValue(v / 256, n - 1);
      var whole, front := BigEndian(v, n), BigEndian(v / 256, n - 1);
      forall i | 0 <= i < n - 1 ensures whole[i] == front[i] {
        assert ByteAt(v, n - 1 - i) == ByteAt(v / 256, n - 2 - i);
      }
      assert whole[..n - 1] == front;
      assert whole[n - 1] == ByteAt(v, 0);
    }
  }

  /** Section 5.1.1 of FIPS 180-4: a one bit, the zeros, and the bit length as a 64-bit block. */
  function Padding(length: nat): seq<Byte> {
    [0x80] + Zeros(ZeroCount(length)) + BigEndian(8 * length % TWO_64, 8)
  }

  /** A length that leaves exactly eight bytes in its block. */
  predicate LeavesEight(length: nat) {
    length % 64 == 56
  }

  function ZeroCount(length: nat): (k: nat)
    ensures LeavesEight(length + 1 + k)
  {
    (119 - length % 64) % 64
  }

  /** The standard's zero count is the smallest one that works. */
  lemma {:induction false} ZeroCountLeast(length: nat, j: nat)
    requires j < ZeroCount(length)
    ensures !LeavesEight(length + 1 + j)
  {
  }

  function Padded(m: seq<Byte>): (p: seq<Byte>)
    ensures |p| % 64 == 0
  {
    PaddedLength(|m|);
    m + Padding(|m|)
  }

  lemma {:induction false} PaddedLength(length: nat)
    ensures (length + |Padding(length)|) % 64 == 0
  {
    hide ZeroCount;
    EightMore(length + 1 + ZeroCount(length));
  }

  lemma {:induction false} EightMore(length: nat)
    requires LeavesEight(length)
    ensures (length + 8) % 64 == 0
  {
  }

  function Serialize(h: seq<Word32>): (d: seq<Byte>)
    ensures |d| == 4 * |h|
  {
    if h == [] then [] else BigEndian(h[0], 4) + Serialize(h[1..])
  }

  function Digest(f: Compress, m: seq<Byte>): (d: seq<Byte>)
    ensures |d| == 32
  {
    Serialize(Fold(f, INITIAL, Padded(m)))
  }

  /** Word `i` of the serialized chain is its four bytes from `4 * i` on, big-endian. */
  lemma {:induction false} SerializedWord(h: seq<Word32>, i: nat)
    requires i < |h|
    ensures Value(Serialize(h)[4 * i..4 * i + 4]) == h[i]
    decreases |h|
  {
    hide Value, BigEndian;
    var first, rest := BigEndian(h[0], 4), Serialize(h[1..]);
    if i == 0 {
      assert Serialize(h)[..4] == first;
      FourBytes(h[0], 4);
    } else {
      SerializedWord(h[1..], i - 1);
      assert Serialize(h)[4 * i..4 * i + 4] == rest[4 * (i - 1)..4 * (i - 1) + 4];
    }
  }

  lemma {:induction false} FourBytes(v: Word32, n: nat)
    requires n == 4
    ensures Value(BigEndian(v, n)) == v
  {
    assert Pow256(4) == 0x1_0000_0000;
    BigEndianValue(v, n);
  }

  /** The digest is the final chain, word by word. */
  lemma {:induction false} DigestWord(f: Compress, m: seq<Byte>, i: nat)
    requires i < 8
    ensures Value(Digest(f, m)[4 * i..4 * i + 4]) == Fold(f, INITIAL, Padded(m))[i]
  {
    hide Value, Fold, Padded, Serialize;
    SerializedWord(Fold(f, INITIAL, Padded(m)), i);
  }

  /** `whole` and the 32 bits `fraction` are the square root of `p`, cut off. */
  predicate RootOf(p: nat, whole: nat, fraction: nat) {
    var x := whole * 0x1_0000_0000 + fraction;
    fraction < 0x1_0000_0000 && x * x <= p * TWO_64 < (x + 1) * (x + 1)
  }

  /**
   * The initial chain of section 5.3.3 of FIPS 180-4: the first 32 bits of the fractional parts of the square roots of
   * the first eight primes.
   */
  lemma {:induction false} InitialIsStandard()
    ensures RootOf(2, 1, INITIAL[0]) && RootOf(3, 1, INITIAL[1])
    ensures RootOf(5, 2, INITIAL[2]) && RootOf(7, 2, INITIAL[3])
    ensures RootOf(11, 3, INITIAL[4]) && RootOf(13, 3, INITIAL[5])
    ensures RootOf(17, 4, INITIAL[6]) && RootOf(19, 4, INITIAL[7])
  {
    assert INITIAL[0] == 0x6a09e667 && INITIAL[1] == 0xbb67ae85 && INITIAL[2] == 0x3c6ef372;
    assert INITIAL[3] == 0xa54ff53a && INITIAL[4] == 0x510e527f && INITIAL[5] == 0x9b05688c;
    assert INITIAL[6] == 0x1f83d9ab && INITIAL[7] == 0x5be0cd19;
  }

  lemma {:induction false} LengthField(bits: nat, n: nat)
    requires bits < TWO_64 && n == 8
    ensures Value(BigEndian(bits, n)) == bits
  {
    assert Pow256(8) == TWO_64;
    BigEndianValue(bits, n);
  }

  /**
   * Below 2^61 bytes the length field is exactly the standard's: the padded message ends in eight bytes that stand for
   * the bit length.
   */
  lemma {:induction false} FipsLength(m: seq<Byte>)
    requires |m| < 0x2000_0000_0000_0000
    ensures Padded(m) == m + [0x80] + Zeros(ZeroCount(|m|)) + BigEndian(8 * |m|, 8)
    ensures Value(Padded(m)[|m| + 1 + ZeroCount(|m|)..]) == 8 * |m|
  {
    hide Value, ZeroCount;
    assert 8 * |m| % TWO_64 == 8 * |m|;
    assert Padding(|m|) == [0x80] + Zeros(ZeroCount(|m|)) + BigEndian(8 * |m|, 8);
    assert Padded(m)[|m| + 1 + ZeroCount(|m|)..] == BigEndian(8 * |m|, 8);
    LengthField(8 * |m|, 8);
  }

  // ---------------------------------------------------------------------------------------------
  // Folding

  lemma {:induction false} FoldSplit(f: Compress, h: Chain, a: seq<Byte>, b: seq<Byte>)
    requires |a| % 64 == 0
    ensures Fold(f, h, a + b) == Fold(f, Fold(f, h, a), b)
    decreases |a|
  {
    if a == [] {
      assert a + b == b;
    } else {
      assert (a + b)[..64] == a[..64] && (a + b)[64..] == a[64..] + b;
      FoldSplit(f, f(h, a[..64]), a[64..], b);
    }
  }

  function Whole(m: seq<Byte>): seq<Byte> {
    m[..|m| - |m| % 64]
  }

  function Tail(m: seq<Byte>): seq<Byte> {
    m[|m| - |m| % 64..]
  }

  lemma {:induction false} FoldWhole(f: Compress, m: seq<Byte>, x: seq<Byte>)
    ensures Fold(f, INITIAL, m) == Fold(f, INITIAL, Whole(m))
    ensures Fold(f, INITIAL, m + x) == Fold(f, Fold(f, INITIAL, m), Tail(m) + x)
  {
    assert m == Whole(m) + Tail(m);
    assert m + x == Whole(m) + (Tail(m) + x);
    FoldSplit(f, INITIAL, Whole(m), Tail(m));
    FoldSplit(f, INITIAL, Whole(m), Tail(m) + x);
  }

  /** Appending at most the rest of a block either only grows the tail or completes one compression. */
  lemma {:induction false} Absorb(f: Compress, m: seq<Byte>, x: seq<Byte>)
    requires |Tail(m)| + |x| <= 64
    ensures |Tail(m)| + |x| < 64 ==>
      Fold(f, INITIAL, m + x) == Fold(f, INITIAL, m) && Tail(m + x) == Tail(m) + x
    ensures |Tail(m)| + |x| == 64 ==>
      Fold(f, INITIAL, m + x) == f(Fold(f, INITIAL, m), Tail(m) + x) && Tail(m + x) == []
  {
    FoldWhole(f, m, x);
    if |Tail(m)| + |x| == 64 {
      assert (Tail(m) + x)[..64] == Tail(m) + x;
    }
  }

  lemma {:induction false} OneBlock(f: Compress, h: Chain, b: seq<Byte>)
    requires |b| == 64
    ensures Fold(f, h, b) == f(h, b)
  {
    assert b[..64] == b;
  }

  // ---------------------------------------------------------------------------------------------
  // Finishing

  /** The last block when the length fits behind the tail. */
  function ShortBlock(tail: seq<Byte>, bits: nat): seq<Byte>
    requires |tail| < 56
  {
    tail + [0x80] + Zeros(55 - |tail|) + BigEndian(bits, 8)
  }

  /** The two last blocks otherwise. */
  function SpillBlock(tail: seq<Byte>): seq<Byte>
    requires 56 <= |tail| < 64
  {
    tail + [0x80] + Zeros(63 - |tail|)
  }

  function LengthBlock(bits: nat): seq<Byte> {
    Zeros(56) + BigEndian(bits, 8)
  }

  function Finish(f: Compress, h: Chain, tail: seq<Byte>, bits: nat): Chain
    requires |tail| < 64
  {
    if |tail| < 56 then f(h, ShortBlock(tail, bits)) else f(f(h, SpillBlock(tail)), LengthBlock(bits))
  }

  lemma {:induction false} ZeroCountOf(length: nat)
    ensures length % 64 < 56 ==> ZeroCount(length) == 55 - length % 64
    ensures length % 64 >= 56 ==> ZeroCount(length) == 119 - length % 64
  {
  }

  /** Finishing the stream state is folding the padded message. */
  lemma {:induction false} FinishIsPadding(f: Compress, m: seq<Byte>, bits: nat)
    requires bits == 8 * |m| % TWO_64
    ensures Finish(f, Fold(f, INITIAL, m), Tail(m), bits) == Fold(f, INITIAL, Padded(m))
  {
    var h, tail := Fold(f, INITIAL, m), Tail(m);
    FoldWhole(f, m, Padding(|m|));
    ZeroCountOf(|m|);
    if |tail| < 56 {
      assert tail + Padding(|m|) == ShortBlock(tail, bits);
      OneBlock(f, h, ShortBlock(tail, bits));
    } else {
      SpilledPadding(tail, ZeroCount(|m|), bits);
      FoldSplit(f, h, SpillBlock(tail), LengthBlock(bits));
      OneBlock(f, h, SpillBlock(tail));
      OneBlock(f, f(h, SpillBlock(tail)), LengthBlock(bits));
    }
  }

  lemma {:induction false} SpilledPadding(tail: seq<Byte>, k: nat, bits: nat)
    requires 56 <= |tail| < 64 && k == 119 - |tail|
    ensures tail + ([0x80] + Zeros(k) + BigEndian(bits, 8)) == SpillBlock(tail) + LengthBlock(bits)
  {
    assert Zeros(k) == Zeros(63 - |tail|) + Zeros(56);
  }

  /** A length in a 64-bit counter, and the counter's addition. */
  function Counted(n: nat): nat {
    n % TWO_64
  }

  function CountMore(count: nat, n: nat): nat {
    (count + n) % TWO_64
  }

  lemma {:induction false} TotalLength(a: nat, b: nat)
    ensures CountMore(Counted(a), b) == Counted(a + b)
  {
    ModAdd(a % TWO_64 + b, a / TWO_64, TWO_64);
  }

  lemma {:induction false} BitLength(n: nat)
    ensures n % TWO_64 * 8 % TWO_64 == 8 * n % TWO_64
  {
    var q, r := n / TWO_64, n % TWO_64;
    assert 8 * n == 8 * r + 8 * q * TWO_64;
    ModAdd(8 * r, 8 * q, TWO_64);
  }

  // ---------------------------------------------------------------------------------------------
  // Block-wise stream

  /** `Sha256Context` of the guest executor. */
  class Chunked {
    const f: Compress
    var state: Chain
    var total: nat
    var used: nat
    const block: array<Byte>
    ghost var fed: seq<Byte>

    ghost predicate Valid()
      reads this, block
    {
      && block.Length == 64 && used < 64
      && total == Counted(|fed|)
      && state == Fold(f, INITIAL, fed)
      && block[..used] == Tail(fed)
    }

    constructor (f: Compress)
      ensures Valid() && fed == [] && this.f == f && fresh(block)
    {
      this.f := f;
      state, total, used, fed := INITIAL, 0, 0, [];
      block := new Byte[64](i => 0);
    }

    method Update(data: seq<Byte>)
      requires Valid()
      modifies this, block
      ensures Valid() && fed == old(fed) + data
    {
      hide Fold, Tail, Counted, CountMore;
      TotalLength(|fed|, |data|);
      var offset := 0;
      total := CountMore(total, |data|);
      ghost var count := total;
      while offset < |data|
        invariant offset <= |data| && block.Length == 64 && used < 64 && total == count
        invariant fed == old(fed) + data[..offset]
        invariant state == Fold(f, INITIAL, fed) && block[..used] == Tail(fed)
      {
        var take := if |data| - offset < 64 - used then |data| - offset else 64 - used;
        Take(data[offset..offset + take]);
        assert data[..offset] + data[offset..offset + take] == data[..offset + take];
        offset := offset + take;
      }
      assert data[..offset] == data;
    }

    /** One turn of the loop: copy what fits, and compress when the block is full. */
    method Take(x: seq<Byte>)
      requires block.Length == 64 && used < 64 && 0 < |x| <= 64 - used
      requires state == Fold(f, INITIAL, fed) && block[..used] == Tail(fed)
      modifies this, block
      ensures used < 64 && total == old(total)
      ensures fed == old(fed) + x
      ensures state == Fold(f, INITIAL, fed) && block[..used] == Tail(fed)
    {
      hide Fold, Tail;
      Absorb(f, fed, x);
      var base := used;
      forall i | 0 <= i < |x| { block[base + i] := x[i]; }
      used := used + |x|;
      assert block[..used] == old(block[..used]) + x;
      if used == 64 {
        assert block[..] == block[..used];
        state := f(state, block[..]);
        used := 0;
      }
      fed := fed + x;
    }

    /** Returns the digest of everything fed and wipes the context. */
    method Final() returns (digest: seq<Byte>)
      requires Valid()
      modifies this, block
      ensures digest == Digest(f, old(fed))
    {
      hide Fold, Padded, Finish, Serialize;
      BitLength(|fed|);
      FinishIsPadding(f, fed, 8 * |fed| % TWO_64);
      var bits := total * 8 % TWO_64;
      state := PadBlock(f, state, block, used, bits);
      digest := Serialize(state);
      state, total, used := [0, 0, 0, 0, 0, 0, 0, 0], 0, 0;
    }
  }

  /** The tail of both `sha256_final` functions: terminate, spill if needed, append the length. */
  method PadBlock(f: Compress, h0: Chain, block: array<Byte>, used: nat, bits: nat) returns (h: Chain)
    requires block.Length == 64 && used < 64
    modifies block
    ensures h == Finish(f, h0, old(block[..used]), bits)
  {
    h := h0;
    ghost var tail := block[..used];
    var cursor := used;
    block[cursor] := 0x80;
    cursor := cursor + 1;
    assert block[..cursor] == tail + [0x80];
    if cursor > 56 {
      ZeroFill(block, cursor, 64);
      assert block[..] == SpillBlock(tail);
      h := f(h, block[..]);
      cursor := 0;
    }
    ZeroFill(block, cursor, 56);
    assert block[..56] == if |tail| < 56 then tail + [0x80] + Zeros(55 - |tail|) else Zeros(56);
    WriteLength(block, bits);
    h := f(h, block[..]);
  }

  method ZeroFill(block: array<Byte>, from: nat, to: nat)
    requires from <= to <= block.Length == 64
    modifies block
    ensures block[..to] == old(block[..from]) + Zeros(to - from)
  {
    var i := from;
    while i < to
      invariant from <= i <= to
      invariant block[..i] == old(block[..from]) + Zeros(i - from)
    {
      block[i] := 0;
      i := i + 1;
    }
  }

  /** `write_be64` into the last eight bytes of a block. */
  method WriteLength(block: array<Byte>, bits: nat)
    requires block.Length == 64
    modifies block
    ensures block[..] == old(block[..56]) + BigEndian(bits, 8)
  {
    var i := 0;
    while i < 8
      invariant i <= 8
      invariant block[..56] == old(block[..56])
      invariant forall k :: 56 <= k < 56 + i ==> block[k] == ByteAt(bits, 63 - k)
    {
      block[56 + i] := ByteAt(bits, 7 - i);
      i := i + 1;
    }
    assert block[56..] == BigEndian(bits, 8);
    assert block[..] == block[..56] + block[56..];
  }

  // ---------------------------------------------------------------------------------------------
  // Byte-wise stream

  /** `Sha256` of the stress runner. */
  class Bytewise {
    const f: Compress
    var state: Chain
    var bitlen: nat
    var buffered: nat
    const buffer: array<Byte>
    ghost var fed: seq<Byte>

    ghost predicate Valid()
      reads this, buffer
    {
      && buffer.Length == 64 && buffered < 64
      && bitlen == Counted(8 * |Whole(fed)|)
      && state == Fold(f, INITIAL, fed)
      && buffer[..buffered] == Tail(fed)
    }

    constructor (f: Compress)
      ensures Valid() && fed == [] && this.f == f && fresh(buffer)
    {
      this.f := f;
      state, bitlen, buffered, fed := INITIAL, 0, 0, [];
      buffer := new Byte[64](i => 0);
    }

    method Update(data: seq<Byte>)
      requires Valid()
      modifies this, buffer
      ensures Valid() && fed == old(fed) + data
    {
      var i := 0;
      while i < |data|
        invariant i <= |data| && Valid() && fed == old(fed) + data[..i]
      {
        Put(data[i]);
        assert data[..i] + [data[i]] == data[..i + 1];
        i := i + 1;
      }
      assert data[..i] == data;
    }

    method Put(b: Byte)
      requires Valid()
      modifies this, buffer
      ensures Valid() && fed == old(fed) + [b]
    {
      hide Fold, Tail, Whole, Counted, CountMore;
      Absorb(f, fed, [b]);
      NextBits(fed, b);
      buffer[buffered] := b;
      buffered := buffered + 1;
      assert buffer[..buffered] == old(buffer[..buffered]) + [b];
      if buffered == 64 {
        assert buffer[..] == buffer[..buffered];
        state := f(state, buffer[..]);
        bitlen := CountMore(bitlen, 512);
        buffered := 0;
      }
      fed := fed + [b];
    }

    method Final() returns (digest: seq<Byte>)
      requires Valid()
      modifies this, buffer
      ensures digest == Digest(f, old(fed))
    {
      hide Fold, Padded, Finish, Serialize, Whole, CountMore;
      FinishIsPadding(f, fed, 8 * |fed| % TWO_64);
      WholeBits(fed);
      var bits := CountMore(bitlen, buffered * 8);
      state := PadBlock(f, state, buffer, buffered, bits);
      digest := Serialize(state);
    }
  }

  lemma {:induction false} WholeGrows(m: seq<Byte>, b: Byte)
    ensures |Whole(m + [b])| == if |Tail(m)| == 63 then |Whole(m)| + 64 else |Whole(m)|
  {
  }

  lemma {:induction false} NextBits(m: seq<Byte>, b: Byte)
    ensures Counted(8 * |Whole(m + [b])|) ==
      if |Tail(m)| == 63 then CountMore(Counted(8 * |Whole(m)|), 512) else Counted(8 * |Whole(m)|)
  {
    hide Counted, CountMore, Whole, Tail;
    TotalLength(8 * |Whole(m)|, 512);
    WholeGrows(m, b);
  }

  lemma {:induction false} WholeBits(m: seq<Byte>)
    ensures CountMore(Counted(8 * |Whole(m)|), |Tail(m)| * 8) == Counted(8 * |m|)
  {
    hide Counted, CountMore;
    TotalLength(8 * |Whole(m)|, 8 * |Tail(m)|);
  }

  // ---------------------------------------------------------------------------------------------
  // Agreement

  function Concat(parts: seq<seq<Byte>>): seq<Byte> {
    if parts == [] then [] else Concat(parts[..|parts| - 1]) + parts[|parts| - 1]
  }

  method HashChunked(f: Compress, parts: seq<seq<Byte>>) returns (digest: seq<Byte>)
    ensures digest == Digest(f, Concat(parts))
  {
    var context := new Chunked(f);
    var i := 0;
    while i < |parts|
      invariant i <= |parts| && context.Valid() && context.f == f && context.fed == Concat(parts[..i])
      invariant fresh(context) && fresh(context.block)
    {
      context.Update(parts[i]);
      assert parts[..i + 1][..i] == parts[..i];
      i := i + 1;
    }
    assert parts[..i] == parts;
    digest := context.Final();
  }

  method HashBytewise(f: Compress, parts: seq<seq<Byte>>) returns (digest: seq<Byte>)
    ensures digest == Digest(f, Concat(parts))
  {
    var context := new Bytewise(f);
    var i := 0;
    while i < |parts|
      invariant i <= |parts| && context.Valid() && context.f == f && context.fed == Concat(parts[..i])
      invariant fresh(context) && fresh(context.buffer)
    {
      context.Update(parts[i]);
      assert parts[..i + 1][..i] == parts[..i];
      i := i + 1;
    }
    assert parts[..i] == parts;
    digest := context.Final();
  }

  /** However one message is cut up, for either implementation, the digest is the same. */
  method AnySplit(f: Compress, left: seq<seq<Byte>>, right: seq<seq<Byte>>) returns (a: seq<Byte>, b: seq<Byte>)
    requires Concat(left) == Concat(right)
    ensures a == b == Digest(f, Concat(left))
  {
    a := HashChunked(f, left);
    b := HashBytewise(f, right);
  }

  // ---------------------------------------------------------------------------------------------
  // HMAC

  function XorByte(a: Byte, b: Byte): Byte {
    ByteOps(a, b);
    Xor(a, b)
  }

  function XorAll(s: seq<Byte>, b: Byte): (r: seq<Byte>)
    ensures |r| == |s|
  {
    seq(|s|, i requires 0 <= i < |s| => XorByte(s[i], b))
  }

  lemma {:induction false} XorAllBit(s: seq<Byte>, b: Byte, i: nat, bit: nat)
    requires i < |s|
    ensures Bit(XorAll(s, b)[i], bit) <==> Bit(s[i], bit) != Bit(b, bit)
  {
    hide Bit, Xor;
    XorBit(s[i], b, bit);
  }

  /** The key of RFC 2104: hashed when longer than a block, then filled with zeros to one block. */
  function BlockKey(f: Compress, key: seq<Byte>): (k: seq<Byte>)
    ensures |k| == 64
  {
    var short := if |key| > 64 then Digest(f, key) else key;
    short + Zeros(64 - |short|)
  }

  /** Section 2 of RFC 2104: H(K XOR opad, H(K XOR ipad, text)). */
  function Hmac(f: Compress, key: seq<Byte>, text: seq<Byte>): seq<Byte> {
    var k := BlockKey(f, key);
    Digest(f, XorAll(k, 0x5c) + Digest(f, XorAll(k, 0x36) + text))
  }

  /** The outer pad flips bits 2, 3, 4 and 6 of every key byte (0x5C), the inner pad bits 1, 2, 4 and 5 (0x36). */
  lemma {:induction false} HmacPads(f: Compress, key: seq<Byte>, text: seq<Byte>)
    returns (outer: seq<Byte>, inner: seq<Byte>)
    ensures |outer| == |inner| == 64 && Hmac(f, key, text) == Digest(f, outer + Digest(f, inner + text))
    ensures forall i, bit :: 0 <= i < 64 && 0 <= bit < 8 ==>
      (Bit(outer[i], bit) <==> Bit(BlockKey(f, key)[i], bit) != (bit == 2 || bit == 3 || bit == 4 || bit == 6))
    ensures forall i, bit :: 0 <= i < 64 && 0 <= bit < 8 ==>
      (Bit(inner[i], bit) <==> Bit(BlockKey(f, key)[i], bit) != (bit == 1 || bit == 2 || bit == 4 || bit == 5))
  {
    hide Digest, BlockKey, XorAll, Bit;
    var k := BlockKey(f, key);
    outer, inner := XorAll(k, 0x5c), XorAll(k, 0x36);
    forall i, bit | 0 <= i < 64 && 0 <= bit < 8
      ensures Bit(outer[i], bit) <==> Bit(k[i], bit) != (bit == 2 || bit == 3 || bit == 4 || bit == 6)
      ensures Bit(inner[i], bit) <==> Bit(k[i], bit) != (bit == 1 || bit == 2 || bit == 4 || bit == 5)
    {
      XorAllBit(k, 0x5c, i, bit);
      XorAllBit(k, 0x36, i, bit);
      PadBit(bit);
    }
  }

  lemma {:induction false} PadBit(bit: nat)
    requires bit < 8
    ensures Bit(0x5c, bit) <==> bit == 2 || bit == 3 || bit == 4 || bit == 6
    ensures Bit(0x36, bit) <==> bit == 1 || bit == 2 || bit == 4 || bit == 5
  {
    assert Bit(0x5c, 2) && Bit(0x5c, 3) && Bit(0x5c, 4) && Bit(0x5c, 6);
    assert !Bit(0x5c, 0) && !Bit(0x5c, 1) && !Bit(0x5c, 5) && !Bit(0x5c, 7);
    assert Bit(0x36, 1) && Bit(0x36, 2) && Bit(0x36, 4) && Bit(0x36, 5);
    assert !Bit(0x36, 0) && !Bit(0x36, 3) && !Bit(0x36, 6) && !Bit(0x36, 7);
  }

  method LoadKey(f: Compress, key: seq<Byte>) returns (block: array<Byte>)
    ensures fresh(block) && block[..] == BlockKey(f, key)
  {
    block := new Byte[64](i => 0);
    var short := key;
    if |key| > 64 {
      var context := new Chunked(f);
      context.Update(key);
      short := context.Final();
      assert [] + key == key;
    }
    forall i | 0 <= i < |short| { block[i] := short[i]; }
    assert block[..] == short + Zeros(64 - |short|);
  }

  method Pads(block: array<Byte>) returns (inner: array<Byte>, outer: array<Byte>)
    requires block.Length == 64
    ensures fresh(inner) && fresh(outer)
    ensures inner[..] == XorAll(block[..], 0x36) && outer[..] == XorAll(block[..], 0x5c)
  {
    inner, outer := new Byte[64], new Byte[64];
    var i := 0;
    while i < 64
      invariant i <= 64
      invariant forall j :: 0 <= j < i ==> inner[j] == XorByte(block[j], 0x36)
      invariant forall j :: 0 <= j < i ==> outer[j] == XorByte(block[j], 0x5c)
    {
      inner[i] := XorByte(block[i], 0x36);
      outer[i] := XorByte(block[i], 0x5c);
      i := i + 1;
    }
  }

  /** `hmac_sha256`, which streams a domain prefix and the data without joining them. */
  method HmacSha256(f: Compress, key: seq<Byte>, domain: seq<Byte>, data: seq<Byte>) returns (digest: seq<Byte>)
    ensures digest == Hmac(f, key, domain + data)
  {
    var block := LoadKey(f, key);
    var inner, outer := Pads(block);
    var ipad, opad := inner[..], outer[..];
    ThreeParts(ipad, domain, data);
    var innerDigest := HashChunked(f, [ipad, domain, data]);
    TwoParts(opad, innerDigest);
    digest := HashChunked(f, [opad, innerDigest]);
  }

  lemma {:induction false} TwoParts(a: seq<Byte>, b: seq<Byte>)
    ensures Concat([a, b]) == a + b
  {
    assert [a, b][..1] == [a] && [a][..0] == [];
    assert Concat([a]) == [] + a == a;
  }

  lemma {:induction false} ThreeParts(a: seq<Byte>, b: seq<Byte>, c: seq<Byte>)
    ensures Concat([a, b, c]) == a + (b + c)
  {
    assert [a, b, c][..2] == [a, b];
    TwoParts(a, b);
  }
}
