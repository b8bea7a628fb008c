/**
 * `parse_program` of the guest executor as it runs: a cursor over the input, a bump-allocated argument arena filled in
 * place, and early returns with an error stage.
 */
module ProgramParser {
  import opened Bits
  import opened Bytes
  import opened WireFormat

  /** A buffer argument and where its bytes live in the arena. */
  datatype Slot = Slot(offset: nat, arg: Arg)

  predicate Stored(arena: seq<Byte>, s: Slot) {
    && s.offset % 8 == 0 && s.offset + s.arg.Capacity() <= |arena| && |s.arg.Data()| <= s.arg.Capacity()
    && arena[s.offset..s.offset + s.arg.Capacity()] == s.arg.Data() + Zeros(s.arg.Capacity() - |s.arg.Data()|)
  }

  /** Every buffer is aligned, inside the first `used` bytes, apart from the others, and holds its data then zeros. */
  ghost predicate Laid(arena: seq<Byte>, slots: seq<Slot>, used: nat) {
    && used <= |arena|
    && (forall i :: 0 <= i < |slots| ==> Stored(arena, slots[i]) && slots[i].offset + slots[i].arg.Capacity() <= used)
    && (forall i, j :: 0 <= i < j < |slots| ==> slots[i].offset + slots[i].arg.Capacity() <= slots[j].offset)
  }

  lemma {:induction false} StoredStays(before: seq<Byte>, after: seq<Byte>, s: Slot, limit: nat)
    requires Stored(before, s) && |after| == |before| && s.offset + s.arg.Capacity() <= limit <= |before|
    requires after[..limit] == before[..limit]
    ensures Stored(after, s)
  {
    var lo, hi := s.offset, s.offset + s.arg.Capacity();
    assert after[lo..hi] == after[..limit][lo..hi];
    assert before[lo..hi] == before[..limit][lo..hi];
  }

  lemma {:induction false} LaidExtends(before: seq<Byte>, after: seq<Byte>, slots: seq<Slot>, used: nat, a: Arg)
    requires Laid(before, slots, used) && |after| == |before| && |a.Data()| <= a.Capacity()
    requires Align8(used) + a.Capacity() <= |before|
    requires after[..Align8(used)] == before[..Align8(used)]
    requires after[Align8(used)..Align8(used) + a.Capacity()] == a.Data() + Zeros(a.Capacity() - |a.Data()|)
    ensures Laid(after, slots + [Slot(Align8(used), a)], Align8(used) + a.Capacity())
  {
    hide Stored;
    var all, offset := slots + [Slot(Align8(used), a)], Align8(used);
    NewStored(after, offset, a) by { Rounded(used); }
    Rounded(used);
    forall i | 0 <= i < |all|
      ensures Stored(after, all[i]) && all[i].offset + all[i].arg.Capacity() <= offset + a.Capacity()
    {
      if i < |slots| {
        StoredStays(before, after, slots[i], offset);
      }
    }
  }

  lemma {:induction false} Rounded(n: nat)
    ensures Align8(n) % 8 == 0 && Align8(n) >= n
  {
  }

  lemma {:induction false} NewStored(arena: seq<Byte>, offset: nat, a: Arg)
    requires offset % 8 == 0 && offset + a.Capacity() <= |arena| && |a.Data()| <= a.Capacity()
    requires arena[offset..offset + a.Capacity()] == a.Data() + Zeros(a.Capacity() - |a.Data()|)
    ensures Stored(arena, Slot(offset, a))
  {
  }

  lemma {:induction false} OrZero(a: nat, b: nat)
    ensures Or(a, b) == 0 <==> a == 0 && b == 0
    decreases a + b
  {
    if a != 0 && b != 0 { OrZero(a / 2, b / 2); }
  }

  lemma {:induction false} ZeroSnoc(s: seq<Byte>, b: Byte)
    ensures AllZero(s + [b]) <==> AllZero(s) && b == 0
  {
    var t := s + [b];
    assert t[|s|] == b;
    assert forall i :: 0 <= i < |s| ==> t[i] == s[i];
  }

  /** `bytes_are_zero`. */
  method BytesAreZero(data: seq<Byte>, from: nat, to: nat) returns (zero: bool)
    requires from <= to <= |data|
    ensures zero <==> AllZero(data[from..to])
  {
    var combined := 0;
    var i := from;
    while i < to
      invariant from <= i <= to
      invariant combined == 0 <==> AllZero(data[from..i])
    {
      OrZero(combined, data[i]);
      ZeroSnoc(data[from..i], data[i]);
      assert data[from..i + 1] == data[from..i] + [data[i]];
      combined := Or(combined, data[i]);
      i := i + 1;
    }
    zero := combined == 0;
  }

  /** The copy and the zero fill of one buffer. */
  method Place(arena: array<Byte>, offset: nat, data: seq<Byte>, capacity: nat)
    requires |data| <= capacity && offset + capacity <= arena.Length
    modifies arena
    ensures arena[..offset] == old(arena[..offset])
    ensures arena[offset..offset + capacity] == data + Zeros(capacity - |data|)
  {
    var i := 0;
    while i < |data|
      invariant i <= |data|
      invariant arena[..offset] == old(arena[..offset]) && arena[offset..offset + i] == data[..i]
    {
      arena[offset + i] := data[i];
      i := i + 1;
    }
    while i < capacity
      invariant |data| <= i <= capacity
      invariant arena[..offset] == old(arena[..offset])
      invariant arena[offset..offset + i] == data + Zeros(i - |data|)
    {
      arena[offset + i] := 0;
      i := i + 1;
    }
  }

  datatype Placed = Placed(arg: Arg, cursor: nat, used: nat, slots: seq<Slot>)

  /** What reading one argument at `cursor` has to deliver. */
  function ArgAt(data: seq<Byte>, cursor: nat, end: nat, used: nat, slots: seq<Slot>): Result<Placed>
    requires cursor <= end <= |data|
  {
    match ParseArg(data[cursor..end], used)
    case Err(e) => Err(e)
    case Ok(s) => Ok(Placed(s.item, end - |s.rest|, s.used, SlotsWith(slots, used, s.item)))
  }

  function SlotsWith(slots: seq<Slot>, used: nat, a: Arg): seq<Slot> {
    if a.Capacity() == 0 then slots else slots + [Slot(Align8(used), a)]
  }

  lemma {:induction false} Aligned(start: nat, n: nat)
    requires start % 8 == 0
    ensures Align8(start + n) == start + Align8(n)
    ensures Align8(n) >= n && Align8(n) % 8 == 0
  {
  }

  lemma {:induction false} SubSlice(s: seq<Byte>, a: nat, b: nat, n: nat, m: nat)
    requires a <= b <= |s| && n <= m <= b - a
    ensures s[a..b][n..m] == s[a + n..a + m]
  {
    var left, right := s[a..b][n..m], s[a + n..a + m];
    assert |left| == |right|;
    assert forall i :: 0 <= i < |left| ==> left[i] == s[a + (n + i)] == right[i];
  }

  method ReadArg(data: seq<Byte>, cursor: nat, end: nat, arena: array<Byte>, used: nat, slots: seq<Slot>)
    returns (r: Result<Placed>)
    requires cursor <= end <= |data| && cursor % 8 == 0
    requires arena.Length == ARENA_SIZE && Laid(arena[..], slots, used)
    modifies arena
    ensures r == ArgAt(data, cursor, end, used, slots)
    ensures r.Ok? ==> Laid(arena[..], r.value.slots, r.value.used)
    ensures r.Ok? ==> r.value.cursor % 8 == 0 && cursor < r.value.cursor <= end
    ensures r.Ok? ==> data[r.value.cursor..end] == ParseArg(data[cursor..end], used).value.rest
  {
    hide Unpack, Total, Pow256;
    if end - cursor < 24 {
      return Err(ArgumentHeader);
    }
    ArgWidths();
    assert data[cursor..end][..24] == data[cursor..cursor + 24] && data[cursor..end][24..] == data[cursor + 24..end];
    var f := Unpack(data[cursor..cursor + 24], ARG_WIDTHS);
    r := ReadBody(data, f, cursor + 24, end, arena, used, slots);
  }

  method ReadBody(data: seq<Byte>, f: seq<nat>, start: nat, end: nat, arena: array<Byte>, used: nat, slots: seq<Slot>)
    returns (r: Result<Placed>)
    requires start <= end <= |data| && start % 8 == 0 && |f| == 7
    requires arena.Length == ARENA_SIZE && Laid(arena[..], slots, used)
    modifies arena
    ensures r == match ParseArgBody(f, data[start..end], used) {
      case Err(e) => Err(e)
      case Ok(s) => Ok(Placed(s.item, end - |s.rest|, s.used, SlotsWith(slots, used, s.item)))
    }
    ensures r.Ok? ==> Laid(arena[..], r.value.slots, r.value.used)
    ensures r.Ok? ==> r.value.cursor % 8 == 0 && start <= r.value.cursor <= end
    ensures r.Ok? ==> data[r.value.cursor..end] == ParseArgBody(f, data[start..end], used).value.rest
  {
    hide Align8, Laid;
    if f[0] > 4 { return Err(ArgumentKind); }
    if f[1] != 0 || f[2] != 0 || f[5] != 0 { return Err(ArgumentReserved); }
    if f[4] > MAX_ARG_CAPACITY || f[3] > f[4] { return Err(ArgumentCapacity); }
    if !CanonicalFields(f[0], f[3], f[4], f[6]) { return Err(ArgumentCanonical); }
    if end - start < f[3] { return Err(ArgumentData); }
    var dataEnd := start + f[3];
    var paddedEnd := Align8(dataEnd);
    Aligned(start, f[3]);
    SubSlice(data, start, end, 0, f[3]);
    if paddedEnd > end { return Err(ArgumentPadding); }
    SubSlice(data, start, end, f[3], Align8(f[3]));
    SubSlice(data, start, end, Align8(f[3]), end - start);
    var zero := BytesAreZero(data, dataEnd, paddedEnd);
    if !zero { return Err(ArgumentPadding); }
    var a := ArgOf(f[0], data[start..dataEnd], f[4], f[6]);
    r := PlaceArg(a, paddedEnd, arena, used, slots);
  }

  /** The arena part: a buffer argument gets the next aligned range, if there is one. */
  method PlaceArg(a: Arg, cursor: nat, arena: array<Byte>, used: nat, slots: seq<Slot>) returns (r: Result<Placed>)
    requires |a.Data()| <= a.Capacity()
    requires arena.Length == ARENA_SIZE && Laid(arena[..], slots, used)
    modifies arena
    ensures r == if a.Capacity() > 0 && UsedAfter(used, a) > ARENA_SIZE then Err(ArenaCapacity)
                 else Ok(Placed(a, cursor, UsedAfter(used, a), SlotsWith(slots, used, a)))
    ensures r.Ok? ==> Laid(arena[..], r.value.slots, r.value.used)
  {
    hide Align8;
    if a.Capacity() == 0 {
      return Ok(Placed(a, cursor, used, slots));
    }
    var offset := Align8(used);
    if offset + a.Capacity() > ARENA_SIZE { return Err(ArenaCapacity); }
    ghost var before := arena[..];
    Place(arena, offset, a.Data(), a.Capacity());
    LaidExtends(before, arena[..], slots, used, a);
    return Ok(Placed(a, cursor, offset + a.Capacity(), slots + [Slot(offset, a)]));
  }

  // ---------------------------------------------------------------------------------------------
  // Records

  function SlotArgs(slots: seq<Slot>): seq<Arg> {
    seq(|slots|, i requires 0 <= i < |slots| => slots[i].arg)
  }

  /** The arguments that need arena space, in order. */
  function Buffers(args: seq<Arg>): seq<Arg> {
    if args == [] then []
    else
      var last := args[|args| - 1];
      Buffers(args[..|args| - 1]) + (if last.Capacity() == 0 then [] else [last])
  }

  function CallBuffers(calls: seq<Call>): seq<Arg> {
    if calls == [] then [] else CallBuffers(calls[..|calls| - 1]) + Buffers(calls[|calls| - 1].args)
  }

  lemma {:induction false} SlotsSnoc(slots: seq<Slot>, used: nat, args: seq<Arg>, before: seq<Arg>, a: Arg)
    requires SlotArgs(slots) == before + Buffers(args)
    ensures SlotArgs(SlotsWith(slots, used, a)) == before + Buffers(args + [a])
  {
    assert (args + [a])[..|args|] == args;
    if a.Capacity() != 0 {
      assert SlotArgs(SlotsWith(slots, used, a)) == SlotArgs(slots) + [a];
    }
  }

  function After(done: seq<Arg>, r: Result<Step<seq<Arg>>>): Result<Step<seq<Arg>>> {
    match r
    case Err(e) => Err(e)
    case Ok(s) => Ok(Step(done + s.item, [], s.used))
  }

  lemma {:induction false} ArgsUnfold(done: seq<Arg>, b: seq<Byte>, count: nat, used: nat)
    requires count > 0
    ensures ParseArg(b, used).Err? ==> After(done, ParseArgs(b, count, used)) == Err(ParseArg(b, used).stage)
    ensures ParseArg(b, used).Ok? ==>
      var s := ParseArg(b, used).value;
      After(done, ParseArgs(b, count, used)) == After(done + [s.item], ParseArgs(s.rest, count - 1, s.used))
  {
    hide ParseArg;
    if ParseArg(b, used).Ok? {
      var s := ParseArg(b, used).value;
      match ParseArgs(s.rest, count - 1, s.used) {
        case Err(_) =>
        case Ok(others) => assert done + ([s.item] + others.item) == done + [s.item] + others.item;
      }
    }
  }

  datatype Record = Record(args: seq<Arg>, used: nat, slots: seq<Slot>)

  method ReadArgs(data: seq<Byte>, start: nat, end: nat, count: nat, arena: array<Byte>, used0: nat, slots0: seq<Slot>)
    returns (r: Result<Record>)
    requires start <= end <= |data| && start % 8 == 0
    requires arena.Length == ARENA_SIZE && Laid(arena[..], slots0, used0)
    modifies arena
    ensures match ParseArgs(data[start..end], count, used0) {
      case Err(e) => r == Err(e)
      case Ok(s) =>
        && r.Ok? && r.value.args == s.item && r.value.used == s.used
        && Laid(arena[..], r.value.slots, r.value.used)
        && SlotArgs(r.value.slots) == SlotArgs(slots0) + Buffers(s.item)
    }
  {
    hide ParseArg, SlotsWith, SlotArgs, Laid;
    var args, cursor, used, slots := [], start, used0, slots0;
    ghost var whole := ParseArgs(data[start..end], count, used0);
    assert After([], whole) == whole by {
      if whole.Ok? { ArgsRest(data[start..end], count, used0); assert [] + whole.value.item == whole.value.item; }
    }
    while |args| < count
      invariant |args| <= count && start <= cursor <= end && cursor % 8 == 0
      invariant Laid(arena[..], slots, used)
      invariant SlotArgs(slots) == SlotArgs(slots0) + Buffers(args)
      invariant whole == After(args, ParseArgs(data[cursor..end], count - |args|, used))
      decreases count - |args|
    {
      ArgsUnfold(args, data[cursor..end], count - |args|, used);
      var one := ReadArg(data, cursor, end, arena, used, slots);
      if one.Err? {
        return Err(one.stage);
      }
      SlotsSnoc(slots, used, args, SlotArgs(slots0), one.value.arg);
      args, cursor, used, slots := args + [one.value.arg], one.value.cursor, one.value.used, one.value.slots;
    }
    if cursor != end {
      return Err(RecordBoundary);
    }
    assert args + [] == args;
    r := Ok(Record(args, used, slots));
  }

  lemma {:induction false} ArgsRest(b: seq<Byte>, count: nat, used: nat)
    requires ParseArgs(b, count, used).Ok?
    ensures ParseArgs(b, count, used).value.rest == []
  {
    hide ParseArg;
  }

  datatype CallRecord = CallRecord(call: Call, cursor: nat, used: nat, slots: seq<Slot>)

  method ReadCall(data: seq<Byte>, cursor: nat, arena: array<Byte>, used: nat, slots: seq<Slot>)
    returns (r: Result<CallRecord>)
    requires cursor <= |data| && cursor % 8 == 0
    requires arena.Length == ARENA_SIZE && Laid(arena[..], slots, used)
    modifies arena
    ensures match ParseCall(data[cursor..], used) {
      case Err(e) => r == Err(e)
      case Ok(s) =>
        && r.Ok? && r.value.call == s.item && r.value.used == s.used
        && cursor < r.value.cursor <= |data| && r.value.cursor % 8 == 0 && data[r.value.cursor..] == s.rest
        && Laid(arena[..], r.value.slots, r.value.used)
        && SlotArgs(r.value.slots) == SlotArgs(slots) + Buffers(s.item.args)
    }
  {
    hide ParseArgs, Unpack, Total, Policy, SlotArgs, Laid, Buffers;
    if |data| - cursor < 16 {
      return Err(CallHeader);
    }
    CallWidths();
    ghost var b := data[cursor..];
    assert b[..16] == data[cursor..cursor + 16];
    var f := Unpack(data[cursor..cursor + 16], CALL_WIDTHS);
    if f[1] < 16 || f[1] % 8 != 0 || cursor + f[1] > |data| {
      return Err(CallRecordLength);
    }
    if f[2] > MAX_ARGS {
      return Err(ArgumentCount);
    }
    if f[3] != 0 || f[4] != 0 {
      return Err(CallReserved);
    }
    var end := cursor + f[1];
    assert b[16..f[1]] == data[cursor + 16..end] && b[f[1]..] == data[end..];
    var record := ReadArgs(data, cursor + 16, end, f[2], arena, used, slots);
    if record.Err? {
      return Err(record.stage);
    }
    var call := Call(f[0], record.value.args);
    if !Policy(call) {
      return Err(SyscallPolicy);
    }
    r := Ok(CallRecord(call, end, record.value.used, record.value.slots));
  }

  // ---------------------------------------------------------------------------------------------
  // Programs

  lemma {:induction false} XorZero(a: nat, b: nat)
    ensures Xor(a, b) == 0 <==> a == b
    decreases a + b
  {
    if a != 0 && b != 0 {
      XorZero(a / 2, b / 2);
      assert (a + b) % 2 == 0 <==> a % 2 == b % 2;
    }
  }

  /** `constant_time_equal`. */
  method ConstantTimeEqual(left: seq<Byte>, right: seq<Byte>) returns (same: bool)
    requires |left| == |right|
    ensures same <==> left == right
  {
    var difference := 0;
    var i := 0;
    while i < |left|
      invariant i <= |left|
      invariant difference == 0 <==> left[..i] == right[..i]
    {
      OrZero(difference, Xor(left[i], right[i]));
      XorZero(left[i], right[i]);
      assert left[..i + 1] == left[..i] + [left[i]] && right[..i + 1] == right[..i] + [right[i]];
      difference := Or(difference, Xor(left[i], right[i]));
      i := i + 1;
    }
    assert left[..i] == left && right[..i] == right;
    same := difference == 0;
  }

  function AfterCalls(done: seq<Call>, r: Result<Step<seq<Call>>>): Result<Step<seq<Call>>> {
    match r
    case Err(e) => Err(e)
    case Ok(s) => Ok(Step(done + s.item, [], s.used))
  }

  lemma {:induction false} CallsUnfold(done: seq<Call>, b: seq<Byte>, count: nat, used: nat)
    requires count > 0
    ensures ParseCall(b, used).Err? ==> AfterCalls(done, ParseCalls(b, count, used)) == Err(ParseCall(b, used).stage)
    ensures ParseCall(b, used).Ok? ==>
      var s := ParseCall(b, used).value;
      AfterCalls(done, ParseCalls(b, count, used)) == AfterCalls(done + [s.item], ParseCalls(s.rest, count - 1, s.used))
  {
    hide ParseCall;
    if ParseCall(b, used).Ok? {
      var s := ParseCall(b, used).value;
      match ParseCalls(s.rest, count - 1, s.used) {
        case Err(_) =>
        case Ok(others) => assert done + ([s.item] + others.item) == done + [s.item] + others.item;
      }
    }
  }

  lemma {:induction false} CallsRest(b: seq<Byte>, count: nat, used: nat)
    ensures AfterCalls([], ParseCalls(b, count, used)) == ParseCalls(b, count, used)
  {
    hide ParseCall;
    var r := ParseCalls(b, count, used);
    if r.Ok? { assert [] + r.value.item == r.value.item; }
  }

  datatype Loaded = Loaded(calls: seq<Call>, used: nat, slots: seq<Slot>)

  method ReadCalls(data: seq<Byte>, start: nat, count: nat, arena: array<Byte>) returns (r: Result<Loaded>)
    requires start <= |data| && start % 8 == 0 && arena.Length == ARENA_SIZE
    modifies arena
    ensures match ParseCalls(data[start..], count, 0) {
      case Err(e) => r == Err(e)
      case Ok(s) =>
        && r.Ok? && r.value.calls == s.item && r.value.used == s.used
        && Laid(arena[..], r.value.slots, r.value.used)
        && SlotArgs(r.value.slots) == CallBuffers(s.item)
    }
  {
    hide ParseCall, SlotArgs, Laid, Buffers;
    var calls, cursor, used, slots := [], start, 0, [];
    ghost var whole := ParseCalls(data[start..], count, 0);
    CallsRest(data[start..], count, 0);
    NoSlots(arena[..]);
    while |calls| < count
      invariant |calls| <= count && start <= cursor <= |data| && cursor % 8 == 0
      invariant Laid(arena[..], slots, used)
      invariant SlotArgs(slots) == CallBuffers(calls)
      invariant whole == AfterCalls(calls, ParseCalls(data[cursor..], count - |calls|, used))
      decreases count - |calls|
    {
      CallsUnfold(calls, data[cursor..], count - |calls|, used);
      var one := ReadCall(data, cursor, arena, used, slots);
      if one.Err? {
        return Err(one.stage);
      }
      assert (calls + [one.value.call])[..|calls|] == calls;
      calls, cursor, used, slots := calls + [one.value.call], one.value.cursor, one.value.used, one.value.slots;
    }
    if cursor != |data| {
      return Err(TrailingData);
    }
    assert calls + [] == calls;
    r := Ok(Loaded(calls, used, slots));
  }

  lemma {:induction false} NoSlots(arena: seq<Byte>)
    ensures SlotArgs([]) == [] && Laid(arena, [], 0)
  {
  }

  /** The stages reported before the program's identity has been authenticated. */
  predicate Anonymous(e: Stage) {
    || e.HeaderTruncated? || e.HeaderMagic? || e.HeaderVersion? || e.HeaderLength? || e.TotalLength?
    || e.HeaderFlags? || e.SyscallCount? || e.KcovLength? || e.HeaderReserved? || e.ProgramDigest?
  }

  lemma {:induction false} ArgsStage(b: seq<Byte>, count: nat, used: nat)
    requires ParseArgs(b, count, used).Err?
    ensures !Anonymous(ParseArgs(b, count, used).stage)
    decreases count
  {
    hide Unpack, Total;
    if count != 0 && ParseArg(b, used).Ok? {
      ArgsStage(ParseArg(b, used).value.rest, count - 1, ParseArg(b, used).value.used);
    }
  }

  lemma {:induction false} CallStage(b: seq<Byte>, used: nat)
    requires ParseCall(b, used).Err?
    ensures !Anonymous(ParseCall(b, used).stage)
  {
    hide Unpack, Total, ParseArgs, Policy;
    if |b| >= 16 {
      CallWidths();
      var f := Unpack(b[..16], CALL_WIDTHS);
      if 16 <= f[1] <= |b| && ParseArgs(b[16..f[1]], f[2], used).Err? {
        ArgsStage(b[16..f[1]], f[2], used);
      }
    }
  }

  lemma {:induction false} CallsStage(b: seq<Byte>, count: nat, used: nat)
    requires ParseCalls(b, count, used).Err?
    ensures !Anonymous(ParseCalls(b, count, used).stage)
    decreases count
  {
    hide ParseCall;
    if count != 0 {
      if ParseCall(b, used).Ok? {
        CallsStage(ParseCall(b, used).value.rest, count - 1, ParseCall(b, used).value.used);
      } else {
        CallStage(b, used);
      }
    }
  }

  /**
   * `parse_program`. It agrees with the format's parser on every input, never leaves its input or the arena, and on
   * success has laid out exactly the program's buffers.
   */
  method ParseProgram(d: DigestOf, data: seq<Byte>, arena: array<Byte>)
    returns (r: Result<Program>, identity: bool, slots: seq<Slot>)
    requires arena.Length == ARENA_SIZE
    requires forall b :: |d(b)| == 32
    modifies arena
    ensures r == Parse(d, data)
    ensures identity <==> r.Ok? || !Anonymous(r.stage)
    ensures r.Ok? ==> Laid(arena[..], slots, UsedAfterCalls(0, r.value.calls)) && SlotArgs(slots) == CallBuffers(r.value.calls)
  {
    hide Unpack, Total, ParseCalls, SlotArgs, Laid, CallBuffers, UsedAfterCalls;
    slots, identity := [], false;
    if |data| < 128 { return Err(HeaderTruncated), identity, slots; }
    if data[..8] != MAGIC { return Err(HeaderMagic), identity, slots; }
    HeaderWidths();
    var f := Unpack(data[8..40], HEADER_WIDTHS);
    var header := CheckHeader(f, data);
    if header.Err? { return Err(header.stage), identity, slots; }
    var same := ConstantTimeEqual(d(Covered(data)), data[88..120]);
    if !same { return Err(ProgramDigest), identity, slots; }
    identity := true;
    var loaded := ReadCalls(data, 128, f[4], arena);
    if loaded.Err? {
      CallsStage(data[128..], f[4], 0);
      return Err(loaded.stage), identity, slots;
    }
    CallsCanonical(data[128..], f[4], 0);
    slots := loaded.value.slots;
    r := Ok(Program(f[7], data[40..56], data[56..88], loaded.value.calls));
  }

  method CheckHeader(f: seq<nat>, data: seq<Byte>) returns (r: Result<bool>)
    requires |f| == 8 && |data| >= 128
    ensures r == if f[0] != 2 then Err(HeaderVersion)
                 else if f[1] != 128 then Err(HeaderLength)
                 else if f[2] != |data| then Err(TotalLength)
                 else if f[3] != 0 then Err(HeaderFlags)
                 else if f[4] == 0 || f[4] > MAX_SYSCALLS then Err(SyscallCount)
                 else if f[5] != KCOV_LENGTH then Err(KcovLength)
                 else if f[6] != 0 || !AllZero(data[120..128]) then Err(HeaderReserved)
                 else Ok(true)
  {
    if f[0] != 2 { return Err(HeaderVersion); }
    if f[1] != 128 { return Err(HeaderLength); }
    if f[2] != |data| { return Err(TotalLength); }
    if f[3] != 0 { return Err(HeaderFlags); }
    if f[4] == 0 || f[4] > MAX_SYSCALLS { return Err(SyscallCount); }
    if f[5] != KCOV_LENGTH { return Err(KcovLength); }
    var zero := BytesAreZero(data, 120, 128);
    if f[6] != 0 || !zero { return Err(HeaderReserved); }
    return Ok(true);
  }
}
