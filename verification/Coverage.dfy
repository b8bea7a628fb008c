/**
 * Coverage accumulation of the fuzz runner (userspace/fuzz_runner_phase2.c): merging bitmaps in place while counting the
 * bits that are new.
 */
module Coverage {
  import opened Bits
  import opened Bytes

  const SIZE: nat := 4096

  // ---------------------------------------------------------------------------------------------
  // Bytes

  /** Set bits among the low `n`. */
  function CountBits(x: nat, n: nat): nat {
    if n == 0 then 0 else CountBits(x, n - 1) + (if Bit(x, n - 1) then 1 else 0)
  }

  /** The loop over the eight bits of a byte. */
  method CountByte(b: Byte) returns (count: nat)
    ensures count == CountBits(b, 8)
  {
    hide Bit;
    count := 0;
    var bit := 0;
    while bit < 8
      invariant bit <= 8 && count == CountBits(b, bit)
    {
      if Bit(b, bit) {
        count := count + 1;
      }
      bit := bit + 1;
    }
  }

  function Merged(a: Byte, b: Byte): Byte {
    ByteOps(a, b);
    Or(a, b)
  }

  /** The bits of `merged ^ old` are exactly the growth. */
  lemma {:induction false} Growth(a: nat, b: nat, n: nat)
    ensures CountBits(Or(a, b), n) == CountBits(a, n) + CountBits(Xor(Or(a, b), a), n)
    decreases n
  {
    hide Bit, Or, Xor;
    if n != 0 {
      Growth(a, b, n - 1);
      XorBit(Or(a, b), a, n - 1);
      OrBit(a, b, n - 1);
    }
  }

  // ---------------------------------------------------------------------------------------------
  // Bitmaps

  function Count(bitmap: seq<Byte>): nat {
    if bitmap == [] then 0 else Count(bitmap[..|bitmap| - 1]) + CountBits(bitmap[|bitmap| - 1], 8)
  }

  /** `count_unique_edges`. */
  method CountUniqueEdges(bitmap: seq<Byte>) returns (count: nat)
    ensures count == Count(bitmap)
  {
    hide CountBits;
    count := 0;
    var i := 0;
    while i < |bitmap|
      invariant i <= |bitmap| && count == Count(bitmap[..i])
    {
      var n := CountByte(bitmap[i]);
      assert bitmap[..i + 1][..i] == bitmap[..i];
      count := count + n;
      i := i + 1;
    }
    assert bitmap[..i] == bitmap;
  }

  /** Bit `bit` of byte `i`: one edge. */
  predicate Edge(bitmap: seq<Byte>, i: nat, bit: nat) {
    i < |bitmap| && bit < 8 && Bit(bitmap[i], bit)
  }

  function Edges(bitmap: seq<Byte>): set<(nat, nat)> {
    set i, bit | 0 <= i < |bitmap| && 0 <= bit < 8 && Edge(bitmap, i, bit) :: (i, bit)
  }

  function ByteEdges(x: nat, i: nat, n: nat): set<(nat, nat)> {
    set bit | 0 <= bit < n && Bit(x, bit) :: (i, bit)
  }

  lemma {:induction false} BitsCounted(x: nat, i: nat, n: nat)
    ensures |ByteEdges(x, i, n)| == CountBits(x, n)
    decreases n
  {
    hide Bit;
    if n == 0 {
      assert ByteEdges(x, i, n) == {};
    } else {
      BitsCounted(x, i, n - 1);
      var before := ByteEdges(x, i, n - 1);
      assert (i, n - 1) !in before;
      assert ByteEdges(x, i, n) == if Bit(x, n - 1) then before + {(i, n - 1)} else before;
    }
  }

  /** The count is the number of edges. */
  lemma {:induction false} CountIsEdges(bitmap: seq<Byte>)
    ensures Count(bitmap) == |Edges(bitmap)|
    decreases |bitmap|
  {
    hide Bit, CountBits;
    if bitmap == [] {
      assert Edges(bitmap) == {};
    } else {
      var n := |bitmap| - 1;
      var front, last := Edges(bitmap[..n]), ByteEdges(bitmap[n], n, 8);
      CountIsEdges(bitmap[..n]);
      BitsCounted(bitmap[n], n, 8);
      EdgesSplit(bitmap, n);
      assert front !! last;
    }
  }

  lemma {:induction false} EdgesSplit(bitmap: seq<Byte>, n: nat)
    requires |bitmap| == n + 1
    ensures Edges(bitmap) == Edges(bitmap[..n]) + ByteEdges(bitmap[n], n, 8)
  {
    hide Bit;
    var front := bitmap[..n];
    forall i: nat, bit: nat
      ensures Edge(bitmap, i, bit) <==> Edge(front, i, bit) || (i == n && bit < 8 && Bit(bitmap[n], bit))
    {
    }
    forall e: (nat, nat) ensures e in Edges(bitmap) <==> e in Edges(front) + ByteEdges(bitmap[n], n, 8) {
      assert Edge(bitmap, e.0, e.1) <==> Edge(front, e.0, e.1) || (e.0 == n && e.1 < 8 && Bit(bitmap[n], e.1));
    }
  }

  /** The merge of the first `n` bytes. */
  function Merge(old_: seq<Byte>, new_: seq<Byte>, n: nat): (m: seq<Byte>)
    requires n <= |old_| && n <= |new_|
    ensures |m| == |old_|
  {
    seq(|old_|, i requires 0 <= i < |old_| => if i < n then Merged(old_[i], new_[i]) else old_[i])
  }

  /** Merging is union of edges. */
  lemma {:induction false} MergeIsUnion(old_: seq<Byte>, new_: seq<Byte>, n: nat, i: nat, bit: nat)
    requires n <= |old_| && n <= |new_|
    ensures Edge(Merge(old_, new_, n), i, bit) <==> Edge(old_, i, bit) || (i < n && Edge(new_, i, bit))
  {
    hide Bit, Or;
    if i < n { OrBit(old_[i], new_[i], bit); }
  }

  /** The bytes from `n` on are the same, so only the first `n` matter for the growth. */
  lemma {:induction false} CountGrowth(a: seq<Byte>, b: seq<Byte>, m: nat)
    requires |a| == |b| && m < |a| && forall i :: 0 <= i < |a| && i != m ==> a[i] == b[i]
    ensures Count(b) + CountBits(a[m], 8) == Count(a) + CountBits(b[m], 8)
    decreases |a|
  {
    hide CountBits;
    var n := |a| - 1;
    if m < n {
      CountGrowth(a[..n], b[..n], m);
    } else {
      assert a[..n] == b[..n];
    }
  }

  class CoverageStats {
    const bitmap: array<Byte>

    ghost predicate Valid()
      reads this
    {
      bitmap.Length == SIZE
    }

    constructor ()
      ensures Valid() && fresh(bitmap) && bitmap[..] == Zeros(SIZE)
    {
      bitmap := new Byte[SIZE](i => 0);
    }

    /** `merge_coverage`: the new bitmap is the union and the result is the growth of the edge count. */
    method MergeCoverage(fresh_: seq<Byte>, len: nat) returns (newEdges: nat)
      requires Valid() && |fresh_| >= (if len < SIZE then len else SIZE)
      modifies bitmap
      ensures bitmap[..] == Merge(old(bitmap[..]), fresh_, if len < SIZE then len else SIZE)
      ensures Count(bitmap[..]) == Count(old(bitmap[..])) + newEdges
    {
      hide CountBits, Count, Or, Xor;
      newEdges := 0;
      var i := 0;
      ghost var n := if len < SIZE then len else SIZE;
      ghost var first := bitmap[..];
      while i < len && i < SIZE
        invariant i <= n
        invariant forall k :: 0 <= k < SIZE ==> bitmap[k] == if k < i then Merged(first[k], fresh_[k]) else first[k]
        invariant Count(bitmap[..]) == Count(first) + newEdges
      {
        var before := bitmap[i];
        var merged := Merged(before, fresh_[i]);
        if merged != before {
          Growth(before, fresh_[i], 8);
          var bits := CountDifference(merged, before);
          newEdges := newEdges + bits;
          ghost var a := bitmap[..];
          bitmap[i] := merged;
          CountGrowth(a, bitmap[..], i);
        }
        i := i + 1;
      }
    }
  }

  method CountDifference(merged: Byte, before: Byte) returns (bits: nat)
    ensures bits == CountBits(Xor(merged, before), 8)
  {
    ByteOps(merged, before);
    bits := CountByte(Xor(merged, before));
  }

  // ---------------------------------------------------------------------------------------------
  // Runs

  /** The bitmap after merging whole dumps one after another. */
  function MergeAll(start: seq<Byte>, dumps: seq<seq<Byte>>): (m: seq<Byte>)
    requires forall k :: 0 <= k < |dumps| ==> |dumps[k]| == |start|
    ensures |m| == |start|
  {
    if dumps == [] then start else Merge(MergeAll(start, dumps[..|dumps| - 1]), dumps[|dumps| - 1], |start|)
  }

  /** An edge is in the result exactly when it was there at the start or in some dump. */
  lemma {:induction false} MergeAllIsUnion(start: seq<Byte>, dumps: seq<seq<Byte>>, i: nat, bit: nat)
    requires forall k :: 0 <= k < |dumps| ==> |dumps[k]| == |start|
    ensures Edge(MergeAll(start, dumps), i, bit) <==>
      Edge(start, i, bit) || exists k :: 0 <= k < |dumps| && Edge(dumps[k], i, bit)
    decreases |dumps|
  {
    hide Edge, Merge;
    if dumps != [] {
      var n := |dumps| - 1;
      var front := dumps[..n];
      assert forall k :: 0 <= k < n ==> front[k] == dumps[k];
      MergeAllIsUnion(start, front, i, bit);
      MergeIsUnion(MergeAll(start, front), dumps[n], |start|, i, bit);
      EdgeBounds(dumps[n], i, bit);
    }
  }

  lemma {:induction false} EdgeBounds(bitmap: seq<Byte>, i: nat, bit: nat)
    ensures Edge(bitmap, i, bit) ==> i < |bitmap| && bit < 8
  {
  }

  lemma {:induction false} SameBits(a: nat, b: nat, n: nat)
    requires a < Pow2(n) && b < Pow2(n) && forall i: nat :: i < n ==> (Bit(a, i) <==> Bit(b, i))
    ensures a == b
    decreases n
  {
    if n != 0 {
      assert Bit(a, 0) <==> Bit(b, 0);
      forall i: nat | i < n - 1 ensures Bit(a / 2, i) <==> Bit(b / 2, i) {
        assert Bit(a, i + 1) <==> Bit(b, i + 1);
      }
      SameBits(a / 2, b / 2, n - 1);
    }
  }

  /** The same dumps in any order leave the same bitmap. */
  lemma {:induction false} OrderIrrelevant(start: seq<Byte>, a: seq<seq<Byte>>, b: seq<seq<Byte>>)
    requires multiset(a) == multiset(b)
    requires forall k :: 0 <= k < |a| ==> |a[k]| == |start|
    ensures forall k :: 0 <= k < |b| ==> |b[k]| == |start|
    ensures MergeAll(start, a) == MergeAll(start, b)
  {
    hide MergeAll, Bit, Pow2;
    forall k | 0 <= k < |b| ensures |b[k]| == |start| {
      assert b[k] in multiset(a);
    }
    var x, y := MergeAll(start, a), MergeAll(start, b);
    forall i | 0 <= i < |start| ensures x[i] == y[i] {
      forall bit: nat | bit < 8 ensures Bit(x[i], bit) <==> Bit(y[i], bit) {
        MergeAllIsUnion(start, a, i, bit);
        MergeAllIsUnion(start, b, i, bit);
        SameMembers(a, b, i, bit);
      }
      assert Pow2(8) == 256 by { EightBits(); }
      SameBits(x[i], y[i], 8);
    }
  }

  lemma {:induction false} EightBits()
    ensures Pow2(8) == 256
  {
  }

  lemma {:induction false} SameMembers(a: seq<seq<Byte>>, b: seq<seq<Byte>>, i: nat, bit: nat)
    requires multiset(a) == multiset(b)
    ensures (exists k :: 0 <= k < |a| && Edge(a[k], i, bit)) <==> (exists k :: 0 <= k < |b| && Edge(b[k], i, bit))
  {
    hide Edge;
    if k :| 0 <= k < |a| && Edge(a[k], i, bit) {
      assert a[k] in multiset(b);
    }
    if k :| 0 <= k < |b| && Edge(b[k], i, bit) {
      assert b[k] in multiset(a);
    }
  }

  function Sum(s: seq<nat>): nat {
    if s == [] then 0 else Sum(s[..|s| - 1]) + s[|s| - 1]
  }

  lemma {:induction false} NoEdges(n: nat)
    ensures Count(Zeros(n)) == 0
  {
    if n != 0 {
      assert Zeros(n)[..n - 1] == Zeros(n - 1);
      NoEdges(n - 1);
      assert CountBits(0, 8) == 0;
    }
  }

  /**
   * The campaign loop: from an empty bitmap, any number of dumps. The bitmap ends as their union, and the reported new
   * edges add up to its final edge count.
   */
  method Campaign(dumps: seq<seq<Byte>>) returns (stats: CoverageStats, reports: seq<nat>, unique: nat)
    requires forall k :: 0 <= k < |dumps| ==> |dumps[k]| == SIZE
    ensures fresh(stats) && stats.Valid() && stats.bitmap[..] == MergeAll(Zeros(SIZE), dumps)
    ensures |reports| == |dumps| && Sum(reports) == unique == Count(stats.bitmap[..])
  {
    hide Count, CountBits, Merge;
    stats := new CoverageStats();
    reports, unique := [], 0;
    NoEdges(SIZE);
    var i := 0;
    while i < |dumps|
      invariant i <= |dumps| && fresh(stats) && fresh(stats.bitmap) && stats.Valid()
      invariant stats.bitmap[..] == MergeAll(Zeros(SIZE), dumps[..i])
      invariant |reports| == i && Sum(reports) == unique == Count(stats.bitmap[..])
    {
      var grown := stats.MergeCoverage(dumps[i], SIZE);
      assert dumps[..i + 1][..i] == dumps[..i];
      assert (reports + [grown])[..i] == reports;
      reports := reports + [grown];
      unique := CountUniqueEdges(stats.bitmap[..]);
      i := i + 1;
    }
    assert dumps[..i] == dumps;
  }
}
