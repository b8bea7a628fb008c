/**
 * One authenticated execution: the program digest of userspace/nilix_syz_executor.c, the result record it builds, and
 * the host's decoder of that record (userspace/nilix-syz-fuzzer/src/protocol.rs).
 */
module Session {
  import opened Common
  import opened Bytes
  import opened WireFormat
  import Sha256
  import Coverage

  // "NILIX-SYZ-PROGRAM-V2" and "NILIX-SYZ-RESULT-V2"
  const PROGRAM_DOMAIN: seq<Byte> := [
    0x4E, 0x49, 0x4C, 0x49, 0x58, 0x2D, 0x53, 0x59, 0x5A, 0x2D, 0x50, 0x52, 0x4F, 0x47, 0x52, 0x41, 0x4D, 0x2D, 0x56, 0x32]
  const RESULT_DOMAIN: seq<Byte> := [
    0x4E, 0x49, 0x4C, 0x49, 0x58, 0x2D, 0x53, 0x59, 0x5A, 0x2D, 0x52, 0x45, 0x53, 0x55, 0x4C, 0x54, 0x2D, 0x56, 0x32]
  const RESULT_MAGIC: seq<Byte> := [0x4E, 0x4C, 0x53, 0x59, 0x5A, 0x52, 0x53, 0]

  function Ascii(s: string): seq<Byte>
    requires forall i :: 0 <= i < |s| ==> s[i] as int < 128
  {
    seq(|s|, i requires 0 <= i < |s| => s[i] as int)
  }

  /** The domain strings in ASCII, and the two magics with their terminating zero. */
  lemma {:induction false} Domains()
    ensures PROGRAM_DOMAIN == Ascii("NILIX-SYZ-PROGRAM-V2") && RESULT_DOMAIN == Ascii("NILIX-SYZ-RESULT-V2")
    ensures MAGIC == Ascii("NLSYZPG") + [0] && RESULT_MAGIC == Ascii("NLSYZRS") + [0]
  {
  }

  // ---------------------------------------------------------------------------------------------
  // Program digest

  function ProgramDigest(f: Sha256.Compress): DigestOf {
    b => Sha256.Digest(f, PROGRAM_DOMAIN + b)
  }

  /** `compute_program_digest`, streamed in four pieces. */
  method ComputeProgramDigest(f: Sha256.Compress, data: seq<Byte>) returns (digest: seq<Byte>)
    requires |data| >= 128
    ensures digest == ProgramDigest(f)(Covered(data)) && |digest| == 32
    ensures digest == Sha256.Digest(f, PROGRAM_DOMAIN + (data[..88] + Zeros(32) + data[120..]))
  {
    var parts := [PROGRAM_DOMAIN, data[..88], Zeros(32), data[120..]];
    FourParts(PROGRAM_DOMAIN, data[..88], Zeros(32), data[120..]);
    digest := Sha256.HashChunked(f, parts);
  }

  lemma {:induction false} FourParts(a: seq<Byte>, b: seq<Byte>, c: seq<Byte>, d: seq<Byte>)
    ensures Sha256.Concat([a, b, c, d]) == a + (b + c + d)
  {
    assert [a, b, c, d][..3] == [a, b, c];
    Sha256.ThreeParts(a, b, c);
  }

  /** With SHA-256 as the digest, every policy-valid program survives the trip to the guest. */
  lemma {:induction false} GuestReceives(f: Sha256.Compress, p: Program)
    requires ProgramOk(p)
    ensures Parse(ProgramDigest(f), Encode(ProgramDigest(f), p)) == Ok(p)
  {
    hide ProgramOk, Parse, Encode, Image;
    RoundTrip(ProgramDigest(f), p);
  }

  // ---------------------------------------------------------------------------------------------
  // Result record

  /** What a result is checked against: the submitted program's identity. */
  datatype Binding = Binding(sequence: nat, runId: seq<Byte>, digest: seq<Byte>, count: nat, key: seq<Byte>)

  datatype Report = Report(values: seq<nat>, bitmap: seq<Byte>)

  predicate BindingOk(b: Binding) {
    |b.runId| == 16 && |b.digest| == 32 && b.sequence < Pow256(8) && b.count <= MAX_SYSCALLS
  }

  predicate ReportOk(b: Binding, r: Report) {
    && |r.values| == b.count && |r.bitmap| == KCOV_LENGTH
    && forall i :: 0 <= i < |r.values| ==> r.values[i] < Pow256(8)
  }

  function Eights(n: nat): (w: seq<nat>)
    ensures |w| == n
  {
    seq(n, i => 8)
  }

  lemma {:induction false} EightsTotal(n: nat)
    ensures Total(Eights(n)) == 8 * n
    decreases n
  {
    if n != 0 {
      assert Eights(n)[1..] == Eights(n - 1);
      EightsTotal(n - 1);
    }
  }

  // version, header length, total length, flags, status, submitted, executed, coverage length, occupied slots,
  // returns offset, bitmap offset, tag offset, reserved, sequence
  const RESULT_WIDTHS: seq<nat> := [2, 2, 4, 4, 4, 4, 4, 4, 4, 4, 4, 4, 4, 8]

  lemma {:induction false} ResultWidths()
    ensures Total(RESULT_WIDTHS) == 56
  {
    assert Total([2, 2, 4, 4, 4, 4, 4, 4, 4, 4, 4, 4, 4, 8]) == 56;
  }

  function ResultFields(b: Binding, occupied: nat): seq<nat> {
    var bitmap := 128 + 8 * b.count;
    [2, 128, bitmap + KCOV_LENGTH + 32, 0, 0, b.count, b.count, KCOV_LENGTH, occupied,
     128, bitmap, bitmap + KCOV_LENGTH, 0, b.sequence]
  }

  /** Everything the tag covers. */
  function ResultBody(b: Binding, occupied: nat, r: Report): seq<Byte> {
    RESULT_MAGIC + Pack(ResultFields(b, occupied), RESULT_WIDTHS) + b.runId + b.digest + Zeros(16)
      + Pack(r.values, Eights(|r.values|)) + r.bitmap
  }

  function Tag(f: Sha256.Compress, key: seq<Byte>, body: seq<Byte>): seq<Byte> {
    Sha256.Hmac(f, key, RESULT_DOMAIN + body)
  }

  function Result(f: Sha256.Compress, b: Binding, occupied: nat, r: Report): seq<Byte> {
    ResultBody(b, occupied, r) + Tag(f, b.key, ResultBody(b, occupied, r))
  }

  /** `decode_result`. */
  function DecodeResult(f: Sha256.Compress, bytes: seq<Byte>, b: Binding): Option<Report> {
    if |bytes| < 160 || bytes[..8] != RESULT_MAGIC then None
    else
      ResultWidths();
      DecodeBody(f, bytes, b, Unpack(bytes[8..64], RESULT_WIDTHS))
  }

  function DecodeBody(f: Sha256.Compress, bytes: seq<Byte>, b: Binding, h: seq<nat>): Option<Report>
    requires |bytes| >= 160 && |h| == 14
  {
    var bitmap := 128 + 8 * b.count;
    var tag := bitmap + KCOV_LENGTH;
    if h[0] != 2 || h[1] != 128 || h[2] != |bytes| || h[3] != 0 || h[4] != 0 || h[12] != 0 then None
    else if !AllZero(bytes[112..128]) || h[5] != b.count || h[6] != h[5] || h[7] != KCOV_LENGTH then None
    else if h[9] != 128 || h[10] != bitmap || h[11] != tag || |bytes| != tag + 32 then None
    else if h[13] != b.sequence || bytes[64..80] != b.runId || bytes[80..112] != b.digest then None
    else if bytes[tag..] != Tag(f, b.key, bytes[..tag]) then None
    else if h[8] != Coverage.Count(bytes[bitmap..tag]) then None
    else
      EightsTotal(b.count);
      Some(Report(Unpack(bytes[128..bitmap], Eights(b.count)), bytes[bitmap..tag]))
  }

  lemma {:induction false} ResultFieldsFit(b: Binding, occupied: nat)
    requires BindingOk(b) && occupied < Pow256(4)
    ensures Fit(ResultFields(b, occupied), RESULT_WIDTHS)
  {
    assert Pow256(2) == 65536 && Pow256(4) == 0x1_0000_0000;
  }

  lemma {:induction false} ReturnsFit(values: seq<nat>)
    requires forall i :: 0 <= i < |values| ==> values[i] < Pow256(8)
    ensures Fit(values, Eights(|values|)) && Total(Eights(|values|)) == 8 * |values|
  {
    hide Pow256;
    EightsTotal(|values|);
  }

  lemma {:induction false} BodyParts(b: Binding, occupied: nat, r: Report, tail: seq<Byte>)
    requires BindingOk(b) && ReportOk(b, r) && |tail| == 32
    ensures var x := ResultBody(b, occupied, r) + tail; var bitmap := 128 + 8 * b.count; var tag := bitmap + KCOV_LENGTH;
      && |x| == tag + 32 && x[..8] == RESULT_MAGIC && x[8..64] == Pack(ResultFields(b, occupied), RESULT_WIDTHS)
      && x[64..80] == b.runId && x[80..112] == b.digest && x[112..128] == Zeros(16)
      && x[128..bitmap] == Pack(r.values, Eights(b.count)) && x[bitmap..tag] == r.bitmap && x[tag..] == tail
      && x[..tag] == ResultBody(b, occupied, r)
  {
    hide Pack, Total, Pow256;
    ResultWidths();
    EightsTotal(b.count);
  }

  lemma {:induction false} TagLength(f: Sha256.Compress, key: seq<Byte>, body: seq<Byte>)
    ensures |Tag(f, key, body)| == 32
  {
    hide Sha256.Digest, Sha256.XorAll, Sha256.BlockKey;
  }

  /**
   * The host decodes what the guest builds, to exactly the guest's returns and bitmap, if and only if the reported slot
   * count is the bitmap's population count.
   */
  lemma {:induction false} HostReceives(f: Sha256.Compress, b: Binding, occupied: nat, r: Report)
    requires BindingOk(b) && ReportOk(b, r) && occupied < Pow256(4)
    ensures DecodeResult(f, Result(f, b, occupied, r), b) ==
      if occupied == Coverage.Count(r.bitmap) then Some(r) else None
  {
    hide Pack, Unpack, Total, Tag, ResultBody, Coverage.Count, Pow256, AllZero;
    var body := ResultBody(b, occupied, r);
    TagLength(f, b.key, body);
    BodyParts(b, occupied, r, Tag(f, b.key, body));
    ResultFieldsFit(b, occupied);
    ResultWidths();
    UnpackPack(ResultFields(b, occupied), RESULT_WIDTHS);
    ReturnsFit(r.values);
    UnpackPack(r.values, Eights(b.count));
    ZerosAre(Result(f, b, occupied, r)[112..128]);
  }

  /** The offset of each field of the result header. */
  const RESULT_OFFSETS: seq<nat> := [0, 2, 4, 8, 12, 16, 20, 24, 28, 32, 36, 40, 44, 48]

  lemma {:induction false} TotalNext(widths: seq<nat>, i: nat)
    requires i < |widths|
    ensures Total(widths[..i + 1]) == Total(widths[..i]) + widths[i]
    decreases i
  {
    if i > 0 {
      TotalNext(widths[1..], i - 1);
      assert widths[..i + 1][1..] == widths[1..][..i] && widths[..i][1..] == widths[1..][..i - 1];
    } else {
      assert widths[..1] == [widths[0]] && widths[..0] == [];
    }
  }

  lemma {:induction false} ResultOffset(i: nat)
    requires i < 14
    ensures Total(RESULT_WIDTHS[..i]) == RESULT_OFFSETS[i]
    decreases i
  {
    hide Total;
    if i == 0 {
      NoTotal(RESULT_WIDTHS);
    } else {
      ResultOffset(i - 1);
      TotalNext(RESULT_WIDTHS, i - 1);
    }
  }

  lemma {:induction false} NoTotal(widths: seq<nat>)
    ensures Total(widths[..0]) == 0
  {
  }

  lemma {:induction false} EightsOffset(n: nat, i: nat)
    requires i <= n
    ensures Total(Eights(n)[..i]) == 8 * i
  {
    assert Eights(n)[..i] == Eights(i);
    EightsTotal(i);
  }

  lemma {:induction false} ResultFieldAt(b: Binding, occupied: nat, i: nat)
    requires BindingOk(b) && occupied < Pow256(4) && i < 14
    ensures Total(RESULT_WIDTHS) == 56 && RESULT_OFFSETS[i] + RESULT_WIDTHS[i] <= 56
    ensures Get(Pack(ResultFields(b, occupied), RESULT_WIDTHS)[RESULT_OFFSETS[i]..RESULT_OFFSETS[i] + RESULT_WIDTHS[i]])
         == ResultFields(b, occupied)[i]
  {
    hide Pack, Total, Get, Pow256;
    ResultWidths();
    ResultFieldsFit(b, occupied);
    ResultOffset(i);
    FieldAt(ResultFields(b, occupied), RESULT_WIDTHS, i, RESULT_OFFSETS[i]);
  }

  /** Where each part of a result lies: the header, the returns, the bitmap and the tag over everything before it. */
  lemma {:induction false} ResultLayout(f: Sha256.Compress, b: Binding, occupied: nat, r: Report)
    requires BindingOk(b) && ReportOk(b, r) && occupied < Pow256(4)
    ensures |Result(f, b, occupied, r)| == 128 + 8 * b.count + 4096 + 32
    ensures var x := Result(f, b, occupied, r); var bitmap := 128 + 8 * b.count; var tag := bitmap + 4096;
      && Get(x[8..10]) == 2 && Get(x[10..12]) == 128 && Get(x[12..16]) == |x| && Get(x[16..20]) == 0
      && Get(x[20..24]) == 0 && Get(x[24..28]) == b.count && Get(x[28..32]) == b.count && Get(x[32..36]) == 4096
      && Get(x[36..40]) == occupied && Get(x[40..44]) == 128 && Get(x[44..48]) == bitmap && Get(x[48..52]) == tag
      && Get(x[52..56]) == 0 && Get(x[56..64]) == b.sequence && x[64..80] == b.runId && x[80..112] == b.digest
      && (forall i :: 0 <= i < b.count ==> Get(x[128 + 8 * i..136 + 8 * i]) == r.values[i])
      && x[bitmap..tag] == r.bitmap && x[tag..] == Sha256.Hmac(f, b.key, RESULT_DOMAIN + x[..tag])
  {
    hide Pack, Total, Get, Sha256.Hmac, ResultBody, Pow256;
    var body := ResultBody(b, occupied, r);
    TagLength(f, b.key, body);
    BodyParts(b, occupied, r, Tag(f, b.key, body));
    ResultHeaderFront(Result(f, b, occupied, r), b, occupied, ResultFields(b, occupied));
    ResultHeaderBack(Result(f, b, occupied, r), b, occupied, ResultFields(b, occupied));
    forall i | 0 <= i < b.count ensures Get(Result(f, b, occupied, r)[128 + 8 * i..136 + 8 * i]) == r.values[i] {
      ReturnAt(Result(f, b, occupied, r), r.values, i);
    }
  }

  lemma {:induction false} ReturnAt(x: seq<Byte>, values: seq<nat>, i: nat)
    requires forall k :: 0 <= k < |values| ==> values[k] < Pow256(8)
    requires i < |values| && 128 + 8 * |values| <= |x| && x[128..128 + 8 * |values|] == Pack(values, Eights(|values|))
    ensures Get(x[128 + 8 * i..136 + 8 * i]) == values[i]
  {
    hide Pack, Total, Get, Pow256;
    EightsOffset(|values|, i);
    FieldAt(values, Eights(|values|), i, 8 * i);
    SliceOfSlice(x, 128, 128 + 8 * |values|, 8 * i, 8 * i + 8);
  }

  lemma {:induction false} HeaderFieldAt(x: seq<Byte>, b: Binding, occupied: nat, i: nat, at: nat, width: nat)
    requires BindingOk(b) && occupied < Pow256(4) && i < 14 && at == RESULT_OFFSETS[i] && width == RESULT_WIDTHS[i]
    requires |x| >= 64 && x[8..64] == Pack(ResultFields(b, occupied), RESULT_WIDTHS)
    ensures at + width <= 56 && Get(x[8 + at..8 + at + width]) == ResultFields(b, occupied)[i]
  {
    hide Pack, Total, Get, Pow256;
    ResultFieldAt(b, occupied, i);
    SliceOfSlice(x, 8, 64, at, at + width);
  }

  lemma {:induction false} ResultHeaderFront(x: seq<Byte>, b: Binding, occupied: nat, v: seq<nat>)
    requires BindingOk(b) && occupied < Pow256(4) && v == ResultFields(b, occupied) && |v| == 14
    requires |x| >= 64 && x[8..64] == Pack(v, RESULT_WIDTHS)
    ensures Get(x[8..10]) == v[0] && Get(x[10..12]) == v[1] && Get(x[12..16]) == v[2] && Get(x[16..20]) == v[3]
    ensures Get(x[20..24]) == v[4] && Get(x[24..28]) == v[5] && Get(x[28..32]) == v[6]
  {
    hide Pack, Total, Get, Pow256, ResultFields, BindingOk;
    HeaderFieldAt(x, b, occupied, 0, 0, 2);
    HeaderFieldAt(x, b, occupied, 1, 2, 2);
    HeaderFieldAt(x, b, occupied, 2, 4, 4);
    HeaderFieldAt(x, b, occupied, 3, 8, 4);
    HeaderFieldAt(x, b, occupied, 4, 12, 4);
    HeaderFieldAt(x, b, occupied, 5, 16, 4);
    HeaderFieldAt(x, b, occupied, 6, 20, 4);
  }

  lemma {:induction false} ResultHeaderBack(x: seq<Byte>, b: Binding, occupied: nat, v: seq<nat>)
    requires BindingOk(b) && occupied < Pow256(4) && v == ResultFields(b, occupied) && |v| == 14
    requires |x| >= 64 && x[8..64] == Pack(v, RESULT_WIDTHS)
    ensures Get(x[32..36]) == v[7] && Get(x[36..40]) == v[8] && Get(x[40..44]) == v[9] && Get(x[44..48]) == v[10]
    ensures Get(x[48..52]) == v[11] && Get(x[52..56]) == v[12] && Get(x[56..64]) == v[13]
  {
    hide Pack, Total, Get, Pow256, ResultFields, BindingOk;
    HeaderFieldAt(x, b, occupied, 7, 24, 4);
    HeaderFieldAt(x, b, occupied, 8, 28, 4);
    HeaderFieldAt(x, b, occupied, 9, 32, 4);
    HeaderFieldAt(x, b, occupied, 10, 36, 4);
    HeaderFieldAt(x, b, occupied, 11, 40, 4);
    HeaderFieldAt(x, b, occupied, 12, 44, 4);
    HeaderFieldAt(x, b, occupied, 13, 48, 8);
  }

  /** Everything the host accepts is a result built for exactly this binding, with a correct slot count and tag. */
  lemma {:induction false} HostAcceptsOnly(f: Sha256.Compress, bytes: seq<Byte>, b: Binding)
    requires DecodeResult(f, bytes, b).Some? && BindingOk(b)
    ensures var r := DecodeResult(f, bytes, b).value;
      ReportOk(b, r) && bytes == Result(f, b, Coverage.Count(r.bitmap), r)
  {
    hide Pack, Unpack, Total, Tag, Coverage.Count, Pow256, AllZero;
    ResultWidths();
    var h := Unpack(bytes[8..64], RESULT_WIDTHS);
    PackUnpack(bytes[8..64], RESULT_WIDTHS);
    var bitmap := 128 + 8 * b.count;
    var tag := bitmap + KCOV_LENGTH;
    EightsTotal(b.count);
    PackUnpack(bytes[128..bitmap], Eights(b.count));
    ZerosAre(bytes[112..128]);
    var r := DecodeResult(f, bytes, b).value;
    assert ResultFields(b, Coverage.Count(r.bitmap)) == h;
    Joined(bytes, bitmap, tag);
    forall i | 0 <= i < |r.values| ensures r.values[i] < Pow256(8) {
      assert r.values[i] < Pow256(Eights(b.count)[i]);
    }
  }

  lemma {:induction false} Joined(x: seq<Byte>, bitmap: nat, tag: nat)
    requires 128 <= bitmap <= tag <= |x|
    ensures x[..tag] == x[..8] + x[8..64] + x[64..80] + x[80..112] + x[112..128] + x[128..bitmap] + x[bitmap..tag]
    ensures x == x[..tag] + x[tag..]
  {
  }

  /** The binding the host keeps for a program it submits. */
  function BindingOf(f: Sha256.Compress, p: Program): Binding {
    var d := ProgramDigest(f);
    Binding(p.sequence, p.runId, d(WireFormat.Image(p, Zeros(32))), |p.calls|, p.key)
  }

  /** What the guest keeps of the bytes it parsed: the parsed fields, and the digest as it lies in the header. */
  function GuestBinding(data: seq<Byte>, p: Program): Binding
    requires |data| >= 128
  {
    Binding(p.sequence, p.runId, data[88..120], |p.calls|, p.key)
  }

  lemma {:induction false} DigestInHeader(p: Program, digest: seq<Byte>)
    requires ProgramOk(p) && |digest| == 32
    ensures |WireFormat.Image(p, digest)| >= 128 && WireFormat.Image(p, digest)[88..120] == digest
  {
    hide Pack, EncodeCalls;
    HeaderWidths();
  }

  lemma {:induction false} GuestKeepsBinding(f: Sha256.Compress, p: Program)
    requires ProgramOk(p)
    ensures |Encode(ProgramDigest(f), p)| >= 128
    ensures GuestBinding(Encode(ProgramDigest(f), p), p) == BindingOf(f, p)
  {
    hide ProgramOk, WireFormat.Image, Sha256.Digest;
    DigestInHeader(p, ProgramDigest(f)(WireFormat.Image(p, Zeros(32))));
  }

  /**
   * End to end: the host encodes a program, the guest parses it back, runs it, and reports under the identity it read
   * from the bytes; the host decodes exactly the guest's returns and coverage.
   */
  lemma {:induction false} EndToEnd(f: Sha256.Compress, p: Program, r: Report)
    requires ProgramOk(p) && ReportOk(BindingOf(f, p), r)
    ensures |Encode(ProgramDigest(f), p)| >= 128
    ensures Parse(ProgramDigest(f), Encode(ProgramDigest(f), p)) == Ok(p)
    ensures
      var data := Encode(ProgramDigest(f), p);
      var guest := GuestBinding(data, Parse(ProgramDigest(f), data).value);
      DecodeResult(f, Result(f, guest, Coverage.Count(r.bitmap), r), BindingOf(f, p)) == Some(r)
  {
    hide Parse, Encode, WireFormat.Image, DecodeResult, Result, Coverage.Count, UsedAfterCalls, Pow256, Sha256.Digest;
    hide GuestBinding;
    GuestReceives(f, p);
    GuestKeepsBinding(f, p);
    CountBound(r.bitmap);
    HostReceives(f, BindingOf(f, p), Coverage.Count(r.bitmap), r);
  }

  lemma {:induction false} CountBitsBound(x: nat, n: nat)
    ensures Coverage.CountBits(x, n) <= n
  {
    if n != 0 { CountBitsBound(x, n - 1); }
  }

  lemma {:induction false} CountAtMost(bitmap: seq<Byte>)
    ensures Coverage.Count(bitmap) <= 8 * |bitmap|
    decreases |bitmap|
  {
    hide Coverage.CountBits;
    if bitmap != [] {
      CountBitsBound(bitmap[|bitmap| - 1], 8);
      CountAtMost(bitmap[..|bitmap| - 1]);
    }
  }

  lemma {:induction false} CountBound(bitmap: seq<Byte>)
    requires |bitmap| == KCOV_LENGTH
    ensures Coverage.Count(bitmap) < Pow256(4)
  {
    hide Coverage.Count;
    CountAtMost(bitmap);
    assert Pow256(4) == 0x1_0000_0000;
  }

  // ---------------------------------------------------------------------------------------------
  // The builder as it runs

  /** A write that extends what has been written so far and leaves the rest of the buffer alone. */
  method PutAt(buffer: array<Byte>, at: nat, b: seq<Byte>)
    requires at + |b| <= buffer.Length
    modifies buffer
    ensures buffer[..at + |b|] == old(buffer[..at]) + b
    ensures forall o :: at + |b| <= o < buffer.Length ==> buffer[o] == old(buffer[o])
  {
    forall o | at <= o < at + |b| { buffer[o] := b[o - at]; }
  }

  lemma {:induction false} PackSnoc(values: seq<nat>, v: nat)
    ensures Pack(values + [v], Eights(|values| + 1)) == Pack(values, Eights(|values|)) + Put(v, 8)
    decreases |values|
  {
    hide Put;
    var n := |values|;
    assert Eights(n + 1)[1..] == Eights(n);
    if n == 0 {
      assert values + [v] == [v] && [v][1..] == [];
    } else {
      assert (values + [v])[1..] == values[1..] + [v] && Eights(n)[1..] == Eights(n - 1);
      PackSnoc(values[1..], v);
    }
  }

  /** The loop that writes one little-endian word per return value. */
  method WriteReturns(buffer: array<Byte>, at: nat, values: seq<nat>)
    requires at + 8 * |values| <= buffer.Length
    modifies buffer
    ensures buffer[..at + 8 * |values|] == old(buffer[..at]) + Pack(values, Eights(|values|))
    ensures forall o :: at + 8 * |values| <= o < buffer.Length ==> buffer[o] == old(buffer[o])
  {
    hide Put, Pack;
    var i := 0;
    assert Pack(values[..0], Eights(0)) == [] by { NothingPacked(values[..0]); }
    while i < |values|
      invariant i <= |values|
      invariant buffer[..at + 8 * i] == old(buffer[..at]) + Pack(values[..i], Eights(i))
      invariant forall o :: at + 8 * i <= o < buffer.Length ==> buffer[o] == old(buffer[o])
    {
      PackSnoc(values[..i], values[i]);
      assert values[..i + 1] == values[..i] + [values[i]];
      var word := Put(values[i], 8);
      PutAt(buffer, at + 8 * i, word);
      i := i + 1;
    }
    assert values[..i] == values;
  }

  lemma {:induction false} NothingPacked(values: seq<nat>)
    requires |values| == 0
    ensures Pack(values, Eights(0)) == []
  {
  }

  /** `build_result`: zero the buffer, then write each part at its offset and the tag over what precedes it. */
  method BuildResult(f: Sha256.Compress, b: Binding, executed: nat, occupied: nat, r: Report)
    returns (ok: bool, bytes: seq<Byte>)
    requires BindingOk(b) && ReportOk(b, r)
    ensures ok <==> executed == b.count
    ensures ok ==> bytes == Result(f, b, occupied, r)
  {
    hide Pack, Total, Tag, Pow256, Sha256.Hmac, ResultBody;
    if executed != b.count {
      return false, [];
    }
    var tag := 128 + 8 * b.count + KCOV_LENGTH;
    var buffer := new Byte[tag + 32](i => 0);
    WriteBody(buffer, b, occupied, r);
    var body := buffer[..tag];
    var mac := Sha256.HmacSha256(f, b.key, RESULT_DOMAIN, body);
    TagIs(f, b.key, body);
    TagLength(f, b.key, body);
    PutAt(buffer, tag, mac);
    assert buffer[..tag + 32] == buffer[..];
    return true, buffer[..];
  }

  method WriteBody(buffer: array<Byte>, b: Binding, occupied: nat, r: Report)
    requires BindingOk(b) && ReportOk(b, r)
    requires buffer.Length == 128 + 8 * b.count + KCOV_LENGTH + 32 && forall o :: 0 <= o < buffer.Length ==> buffer[o] == 0
    modifies buffer
    ensures buffer[..128 + 8 * b.count + KCOV_LENGTH] == ResultBody(b, occupied, r)
  {
    hide Pack, Total, Pow256;
    var bitmap := 128 + 8 * b.count;
    ResultWidths();
    PutAt(buffer, 0, RESULT_MAGIC);
    PutAt(buffer, 8, Pack(ResultFields(b, occupied), RESULT_WIDTHS));
    PutAt(buffer, 64, b.runId);
    PutAt(buffer, 80, b.digest);
    ghost var head := RESULT_MAGIC + Pack(ResultFields(b, occupied), RESULT_WIDTHS) + b.runId + b.digest;
    assert buffer[..112] == head;
    assert buffer[..128] == head + Zeros(16) by {
      assert buffer[..128] == buffer[..112] + buffer[112..128];
      assert buffer[112..128] == Zeros(16);
    }
    WriteReturns(buffer, 128, r.values);
    PutAt(buffer, bitmap, r.bitmap);
  }

  lemma {:induction false} TagIs(f: Sha256.Compress, key: seq<Byte>, body: seq<Byte>)
    ensures Tag(f, key, body) == Sha256.Hmac(f, key, RESULT_DOMAIN + body)
  {
    hide Sha256.Hmac;
  }
}
