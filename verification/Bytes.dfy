/** Bytes, little-endian numbers and fixed-width field records. */
module Bytes {
  type Byte = x: nat | x < 256

  function Zeros(n: nat): (z: seq<Byte>)
    ensures |z| == n
  {
    seq(n, i => 0)
  }

  predicate AllZero(s: seq<Byte>) {
    forall i :: 0 <= i < |s| ==> s[i] == 0
  }

  lemma {:induction false} ZerosAre(s: seq<Byte>)
    ensures AllZero(s) <==> s == Zeros(|s|)
  {
  }

  /** `image` with the bytes from `at` on replaced by `b`. */
  function Splice(image: seq<Byte>, at: nat, b: seq<Byte>): (r: seq<Byte>)
    requires at + |b| <= |image|
    ensures |r| == |image|
    ensures forall o :: 0 <= o < |image| ==> r[o] == if at <= o < at + |b| then b[o - at] else image[o]
  {
    image[..at] + b + image[at + |b|..]
  }

  function Pow256(n: nat): nat {
    if n == 0 then 1 else 256 * Pow256(n - 1)
  }

  /** The low `n` bytes of `v`, least significant first. */
  function Put(v: nat, n: nat): (s: seq<Byte>)
    ensures |s| == n
  {
    if n == 0 then [] else [v % 256] + Put(v / 256, n - 1)
  }

  function Get(s: seq<Byte>): (v: nat)
    ensures v < Pow256(|s|)
  {
    if s == [] then 0 else s[0] + 256 * Get(s[1..])
  }

  lemma {:induction false} GetPut(v: nat, n: nat)
    requires v < Pow256(n)
    ensures Get(Put(v, n)) == v
  {
    if n != 0 {
      GetPut(v / 256, n - 1);
      assert Put(v, n)[1..] == Put(v / 256, n - 1);
    }
  }

  lemma {:induction false} PutGet(s: seq<Byte>)
    ensures Put(Get(s), |s|) == s
  {
    if s != [] {
      PutGet(s[1..]);
      assert Get(s) % 256 == s[0] && Get(s) / 256 == Get(s[1..]);
    }
  }

  // ---------------------------------------------------------------------------------------------
  // Records of little-endian fields

  function Total(widths: seq<nat>): nat {
    if widths == [] then 0 else widths[0] + Total(widths[1..])
  }

  predicate Fit(values: seq<nat>, widths: seq<nat>)
    requires |values| == |widths|
  {
    forall i :: 0 <= i < |values| ==> values[i] < Pow256(widths[i])
  }

  function Pack(values: seq<nat>, widths: seq<nat>): (b: seq<Byte>)
    requires |values| == |widths|
    ensures |b| == Total(widths)
  {
    if values == [] then [] else Put(values[0], widths[0]) + Pack(values[1..], widths[1..])
  }

  function Unpack(b: seq<Byte>, widths: seq<nat>): (values: seq<nat>)
    requires |b| == Total(widths)
    ensures |values| == |widths|
    decreases |widths|
  {
    if widths == [] then [] else [Get(b[..widths[0]])] + Unpack(b[widths[0]..], widths[1..])
  }

  lemma {:induction false} UnpackPack(values: seq<nat>, widths: seq<nat>)
    requires |values| == |widths| && Fit(values, widths)
    ensures Unpack(Pack(values, widths), widths) == values
    decreases |widths|
  {
    if values != [] {
      var b := Pack(values, widths);
      GetPut(values[0], widths[0]);
      assert b[..widths[0]] == Put(values[0], widths[0]);
      assert b[widths[0]..] == Pack(values[1..], widths[1..]);
      UnpackPack(values[1..], widths[1..]);
    }
  }

  lemma {:induction false} PackUnpack(b: seq<Byte>, widths: seq<nat>)
    requires |b| == Total(widths)
    ensures Pack(Unpack(b, widths), widths) == b && Fit(Unpack(b, widths), widths)
    decreases |widths|
  {
    if widths != [] {
      var values := Unpack(b, widths);
      PutGet(b[..widths[0]]);
      PackUnpack(b[widths[0]..], widths[1..]);
      assert values[1..] == Unpack(b[widths[0]..], widths[1..]);
      assert b == b[..widths[0]] + b[widths[0]..];
      forall i | 0 <= i < |values| ensures values[i] < Pow256(widths[i]) {
        if i > 0 { assert values[i] == values[1..][i - 1] && widths[i] == widths[1..][i - 1]; }
      }
    }
  }

  lemma {:induction false} TotalSplit(widths: seq<nat>, i: nat)
    requires i < |widths|
    ensures Total(widths[..i]) + widths[i] <= Total(widths)
    decreases |widths|
  {
    if i > 0 {
      TotalSplit(widths[1..], i - 1);
      assert widths[..i][1..] == widths[1..][..i - 1];
    }
  }

  /** A field lies behind the fields before it and stands for its value. */
  lemma {:induction false} FieldAt(values: seq<nat>, widths: seq<nat>, i: nat, at: nat)
    requires |values| == |widths| && i < |widths| && at == Total(widths[..i]) && values[i] < Pow256(widths[i])
    ensures at + widths[i] <= Total(widths)
    ensures Get(Pack(values, widths)[at..at + widths[i]]) == values[i]
    decreases |widths|
  {
    hide Get, Put, Pow256;
    TotalSplit(widths, i);
    var b := Pack(values, widths);
    var rest := Pack(values[1..], widths[1..]);
    assert b == Put(values[0], widths[0]) + rest;
    if i == 0 {
      assert b[..widths[0]] == Put(values[0], widths[0]);
      GetPut(values[0], widths[0]);
    } else {
      assert widths[..i][1..] == widths[1..][..i - 1];
      FieldAt(values[1..], widths[1..], i - 1, at - widths[0]);
      assert b[at..at + widths[i]] == rest[at - widths[0]..at - widths[0] + widths[i]];
    }
  }

  lemma {:induction false} UnpackAt(b: seq<Byte>, widths: seq<nat>, i: nat, at: nat)
    requires |b| == Total(widths) && i < |widths| && at == Total(widths[..i])
    ensures at + widths[i] <= |b| && Unpack(b, widths)[i] == Get(b[at..at + widths[i]])
  {
    hide Unpack, Get, Pow256;
    PackUnpack(b, widths);
    FieldAt(Unpack(b, widths), widths, i, at);
  }

  lemma {:induction false} SliceOfSlice(x: seq<Byte>, a: nat, b: nat, c: nat, d: nat)
    requires a <= b <= |x| && c <= d <= b - a
    ensures x[a..b][c..d] == x[a + c..a + d]
  {
    var s := x[a..b];
    assert forall k :: 0 <= k < d - c ==> s[c..d][k] == s[c + k] == x[a + c..a + d][k];
  }
}
