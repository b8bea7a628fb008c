/**
 * The guest executor's program format (userspace/nilix_syz_executor.c, `parse_program`): a strict parser with its
 * error stages, the encoder that it inverts, and the call policy.
 */
module WireFormat {
  import opened Bytes

  const MAX_SYSCALLS: nat := 100
  const MAX_ARGS: nat := 6
  const MAX_ARG_CAPACITY: nat := 4096
  const ARENA_SIZE: nat := 131072
  const KCOV_LENGTH: nat := 4096

  datatype Arg =
    | Immediate(value: nat)
    | Null
    | Input(data: seq<Byte>)
    | Output(room: nat)
    | InOut(data: seq<Byte>, room: nat)
  {
    function Kind(): nat {
      match this
      case Immediate(_) => 0
      case Null => 1
      case Input(_) => 2
      case Output(_) => 3
      case InOut(_, _) => 4
    }

    function Value(): nat {
      if Immediate? then value else 0
    }

    function Data(): seq<Byte> {
      if Input? || InOut? then data else []
    }

    function Capacity(): nat {
      match this
      case Immediate(_) => 0
      case Null => 0
      case Input(d) => |d|
      case Output(r) => r
      case InOut(_, r) => r
    }
  }

  datatype Call = Call(number: nat, args: seq<Arg>)

  datatype Program = Program(sequence: nat, runId: seq<Byte>, key: seq<Byte>, calls: seq<Call>)

  /** The stage strings of the executor's errors. */
  datatype Stage =
    | HeaderTruncated | HeaderMagic | HeaderVersion | HeaderLength | TotalLength | HeaderFlags | SyscallCount
    | KcovLength | HeaderReserved | ProgramDigest | CallHeader | CallRecordLength | ArgumentCount | CallReserved
    | ArgumentHeader | ArgumentKind | ArgumentReserved | ArgumentCapacity | ArgumentCanonical | ArgumentData
    | ArgumentPadding | ArenaCapacity | RecordBoundary | SyscallPolicy | TrailingData

  datatype Result<T> = Ok(value: T) | Err(stage: Stage)

  // ---------------------------------------------------------------------------------------------
  // Call policy

  predicate CanonicalPath(a: Arg) {
    a.Input? && a.data != [] && a.data[|a.data| - 1] == 0 &&
    forall i :: 0 <= i < |a.data| - 1 ==> a.data[i] != 0
  }

  predicate ImmediateIn(a: Arg, low: nat, high: nat) {
    a.Immediate? && low <= a.value <= high
  }

  predicate OutputExact(a: Arg, minimum: nat) {
    a.Output? && a.room >= minimum
  }

  predicate OutputOrInOut(a: Arg, minimum: nat) {
    (a.Output? || a.InOut?) && a.room >= minimum
  }

  predicate NoArgs(number: nat) {
    || number == 24 || number == 39 || number == 102 || number == 104
    || number == 107 || number == 108 || number == 110 || number == 186
  }

  /** `validate_call_policy`. */
  predicate Policy(call: Call) {
    var a := call.args;
    if NoArgs(call.number) then |a| == 0
    else match call.number {
      case 12 => |a| == 1 && ImmediateIn(a[0], 0, 0)
      case 21 => |a| == 2 && CanonicalPath(a[0]) && ImmediateIn(a[1], 0, 7)
      case 4 => |a| == 2 && CanonicalPath(a[0]) && OutputOrInOut(a[1], 144)
      case 6 => |a| == 2 && CanonicalPath(a[0]) && OutputOrInOut(a[1], 144)
      case 63 => |a| == 1 && OutputOrInOut(a[0], 390)
      case 96 => |a| == 2 && OutputOrInOut(a[0], 16) && a[1].Null?
      case 228 =>
        |a| == 2 && OutputOrInOut(a[1], 16) && (ImmediateIn(a[0], 0, 1) || ImmediateIn(a[0], 4, 7))
      case 318 =>
        |a| == 3 && OutputExact(a[0], 1) && ImmediateIn(a[1], 1, a[0].room) && ImmediateIn(a[2], 1, 1)
      case 79 => |a| == 2 && OutputExact(a[0], 1) && ImmediateIn(a[1], 1, a[0].room)
      case 89 =>
        |a| == 3 && CanonicalPath(a[0]) && OutputExact(a[1], 1) && ImmediateIn(a[2], 1, a[1].room)
      case 204 =>
        |a| == 3 && ImmediateIn(a[0], 0, 0) && OutputExact(a[2], 1) && ImmediateIn(a[1], 1, a[2].room)
      case 97 => |a| == 2 && ImmediateIn(a[0], 0, 15) && OutputExact(a[1], 16)
      case _ => false
    }
  }

  // ---------------------------------------------------------------------------------------------
  // Argument arena

  function Align8(n: nat): nat {
    (n + 7) / 8 * 8
  }

  /** Bytes of the arena in use once `a` has been placed. */
  function UsedAfter(used: nat, a: Arg): nat {
    if a.Capacity() == 0 then used else Align8(used) + a.Capacity()
  }

  function UsedAfterAll(used: nat, args: seq<Arg>): nat
    decreases |args|
  {
    if args == [] then used else UsedAfterAll(UsedAfter(used, args[0]), args[1..])
  }

  function UsedAfterCalls(used: nat, calls: seq<Call>): nat
    decreases |calls|
  {
    if calls == [] then used else UsedAfterCalls(UsedAfterAll(used, calls[0].args), calls[1..])
  }

  lemma {:induction false} UsedGrows(used: nat, args: seq<Arg>)
    ensures UsedAfterAll(used, args) >= used
    decreases |args|
  {
    if args != [] { UsedGrows(UsedAfter(used, args[0]), args[1..]); }
  }

  lemma {:induction false} UsedGrowsCalls(used: nat, calls: seq<Call>)
    ensures UsedAfterCalls(used, calls) >= used
    decreases |calls|
  {
    if calls != [] {
      UsedGrows(used, calls[0].args);
      UsedGrowsCalls(UsedAfterAll(used, calls[0].args), calls[1..]);
    }
  }

  // ---------------------------------------------------------------------------------------------
  // Arguments

  // kind, reserved, reserved, data length, capacity, reserved, value
  const ARG_WIDTHS: seq<nat> := [1, 1, 2, 4, 4, 4, 8]

  lemma {:induction false} ArgWidths()
    ensures Total(ARG_WIDTHS) == 24
  {
    assert ARG_WIDTHS[1..] == [1, 2, 4, 4, 4, 8];
    assert Total([1, 1, 2, 4, 4, 4, 8]) == 24;
  }

  /** What an argument record can carry. */
  predicate ArgOk(a: Arg) {
    && |a.Data()| <= a.Capacity() <= MAX_ARG_CAPACITY
    && a.Value() < Pow256(8)
    && (a.Output? ==> a.room > 0)
  }

  function Pad8(n: nat): nat {
    Align8(n) - n
  }

  function ArgFields(a: Arg): seq<nat> {
    [a.Kind(), 0, 0, |a.Data()|, a.Capacity(), 0, a.Value()]
  }

  function EncodeArg(a: Arg): seq<Byte> {
    Pack(ArgFields(a), ARG_WIDTHS) + (a.Data() + Zeros(Pad8(|a.Data()|)))
  }

  predicate CanonicalFields(kind: nat, length: nat, capacity: nat, value: nat) {
    match kind
    case 0 => length == 0 && capacity == 0
    case 1 => length == 0 && capacity == 0 && value == 0
    case 2 => length == capacity && value == 0
    case 3 => length == 0 && capacity != 0 && value == 0
    case 4 => value == 0
    case _ => false
  }

  function ArgOf(kind: nat, data: seq<Byte>, capacity: nat, value: nat): Arg {
    match kind
    case 0 => Immediate(value)
    case 1 => Null
    case 2 => Input(data)
    case 3 => Output(capacity)
    case _ => InOut(data, capacity)
  }

  datatype Step<T> = Step(item: T, rest: seq<Byte>, used: nat)

  function ParseArg(b: seq<Byte>, used: nat): (r: Result<Step<Arg>>)
    ensures r.Ok? ==> |r.value.rest| < |b|
  {
    if |b| < 24 then Err(ArgumentHeader)
    else
      ArgWidths();
      ParseArgBody(Unpack(b[..24], ARG_WIDTHS), b[24..], used)
  }

  function ParseArgBody(f: seq<nat>, b: seq<Byte>, used: nat): (r: Result<Step<Arg>>)
    requires |f| == 7
    ensures r.Ok? ==> |r.value.rest| <= |b|
  {
    if f[0] > 4 then Err(ArgumentKind)
    else if f[1] != 0 || f[2] != 0 || f[5] != 0 then Err(ArgumentReserved)
    else if f[4] > MAX_ARG_CAPACITY || f[3] > f[4] then Err(ArgumentCapacity)
    else if !CanonicalFields(f[0], f[3], f[4], f[6]) then Err(ArgumentCanonical)
    else if |b| < f[3] then Err(ArgumentData)
    else if |b| < Align8(f[3]) || !AllZero(b[f[3]..Align8(f[3])]) then Err(ArgumentPadding)
    else
      var a := ArgOf(f[0], b[..f[3]], f[4], f[6]);
      if UsedAfter(used, a) > ARENA_SIZE && a.Capacity() > 0 then Err(ArenaCapacity)
      else Ok(Step(a, b[Align8(f[3])..], UsedAfter(used, a)))
  }

  lemma {:induction false} ArgFieldsFit(a: Arg)
    requires ArgOk(a)
    ensures Fit(ArgFields(a), ARG_WIDTHS)
  {
    var f := ArgFields(a);
    assert Pow256(1) == 256 && Pow256(2) == 65536 && Pow256(4) == 0x1_0000_0000;
    forall i | 0 <= i < 7 ensures f[i] < Pow256(ARG_WIDTHS[i]) {
    }
  }

  lemma {:induction false} ArgOffsets()
    ensures var w := ARG_WIDTHS;
      && |w| == 7 && Total(w[..0]) == 0 && Total(w[..1]) == 1 && Total(w[..2]) == 2 && Total(w[..3]) == 4
      && Total(w[..4]) == 8 && Total(w[..5]) == 12 && Total(w[..6]) == 16
  {
    var w := ARG_WIDTHS;
    assert w[..0] == [] && w[..1] == [1] && w[..2] == [1, 1] && w[..3] == [1, 1, 2] && w[..4] == [1, 1, 2, 4];
    assert w[..5] == [1, 1, 2, 4, 4] && w[..6] == [1, 1, 2, 4, 4, 4];
    assert Total([1]) == 1 && Total([1, 1]) == 2 && Total([1, 1, 2]) == 4 && Total([1, 1, 2, 4]) == 8;
    assert Total([1, 1, 2, 4, 4]) == 12 && Total([1, 1, 2, 4, 4, 4]) == 16;
  }

  /** Where each part of an argument record lies. */
  lemma {:induction false} ArgLayout(a: Arg)
    requires ArgOk(a)
    ensures 24 + |a.Data()| <= |EncodeArg(a)| < 24 + |a.Data()| + 8 && |EncodeArg(a)| % 8 == 0
    ensures var b := EncodeArg(a);
      && Get(b[0..1]) == (if a.Immediate? then 0 else if a.Null? then 1 else if a.Input? then 2 else if a.Output? then 3 else 4)
      && Get(b[1..2]) == 0 && Get(b[2..4]) == 0 && Get(b[4..8]) == |a.Data()| && Get(b[8..12]) == a.Capacity()
      && Get(b[12..16]) == 0 && Get(b[16..24]) == a.Value() && b[24..24 + |a.Data()|] == a.Data()
      && AllZero(b[24 + |a.Data()|..])
  {
    hide Pack, Total, Get, Pow256;
    var f, w := ArgFields(a), ARG_WIDTHS;
    var p, b := Pack(f, w), EncodeArg(a);
    ArgWidths();
    ArgOffsets();
    ArgFieldsFit(a);
    FieldAt(f, w, 0, 0);
    FieldAt(f, w, 1, 1);
    FieldAt(f, w, 2, 2);
    FieldAt(f, w, 3, 4);
    FieldAt(f, w, 4, 8);
    FieldAt(f, w, 5, 12);
    FieldAt(f, w, 6, 16);
    assert b[0..1] == p[0..1] && b[1..2] == p[1..2] && b[2..4] == p[2..4] && b[4..8] == p[4..8];
    assert b[8..12] == p[8..12] && b[12..16] == p[12..16] && b[16..24] == p[16..24];
  }

  /** Parsing an encoded argument gives the argument back and stops right behind it. */
  lemma {:induction false} ArgRoundTrip(a: Arg, rest: seq<Byte>, used: nat)
    requires ArgOk(a) && UsedAfter(used, a) <= ARENA_SIZE
    ensures ParseArg(EncodeArg(a) + rest, used) == Ok(Step(a, rest, UsedAfter(used, a)))
  {
    hide Unpack, Pack, Total, Pow256, ParseArgBody, UsedAfter;
    var b := EncodeArg(a) + rest;
    ArgWidths();
    ArgFieldsFit(a);
    UnpackPack(ArgFields(a), ARG_WIDTHS);
    assert b[..24] == Pack(ArgFields(a), ARG_WIDTHS);
    assert b[24..] == a.Data() + Zeros(Pad8(|a.Data()|)) + rest;
    BodyRoundTrip(a, rest, used);
  }

  lemma {:induction false} BodyRoundTrip(a: Arg, rest: seq<Byte>, used: nat)
    requires ArgOk(a) && UsedAfter(used, a) <= ARENA_SIZE
    ensures ParseArgBody(ArgFields(a), a.Data() + Zeros(Pad8(|a.Data()|)) + rest, used)
         == Ok(Step(a, rest, UsedAfter(used, a)))
  {
    hide Pow256;
    var body := a.Data() + Zeros(Pad8(|a.Data()|)) + rest;
    var n := |a.Data()|;
    assert body[..n] == a.Data() && body[n..Align8(n)] == Zeros(Pad8(n)) && body[Align8(n)..] == rest;
  }

  /** The argument checks over raw bytes: each at its offset, in the order of the error stages. */
  lemma {:induction false} ArgChecks(b: seq<Byte>, used: nat)
    requires |b| >= 24
    ensures var kind, length, capacity, value := Get(b[0..1]), Get(b[4..8]), Get(b[8..12]), Get(b[16..24]);
      ParseArg(b, used) ==
        if kind > 4 then Err(ArgumentKind)
        else if Get(b[1..2]) != 0 || Get(b[2..4]) != 0 || Get(b[12..16]) != 0 then Err(ArgumentReserved)
        else if capacity > 4096 || length > capacity then Err(ArgumentCapacity)
        else if (kind != 0 && value != 0) || (kind <= 1 && capacity != 0) || (kind == 2 && length != capacity)
             || (kind == 3 && (length != 0 || capacity == 0)) then Err(ArgumentCanonical)
        else if |b| < 24 + length then Err(ArgumentData)
        else if |b| < 24 + Align8(length) || !AllZero(b[24 + length..24 + Align8(length)]) then Err(ArgumentPadding)
        else if capacity > 0 && Align8(used) + capacity > 131072 then Err(ArenaCapacity)
        else Ok(Step(if kind == 0 then Immediate(value) else if kind == 1 then Null
                     else if kind == 2 then Input(b[24..24 + length]) else if kind == 3 then Output(capacity)
                     else InOut(b[24..24 + length], capacity),
                     b[24 + Align8(length)..], if capacity == 0 then used else Align8(used) + capacity))
  {
    hide Unpack, Total, Get, Pow256;
    ArgWidths();
    ArgOffsets();
    var h, w := b[..24], ARG_WIDTHS;
    var f := Unpack(h, w);
    UnpackAt(h, w, 0, 0);
    UnpackAt(h, w, 1, 1);
    UnpackAt(h, w, 2, 2);
    UnpackAt(h, w, 3, 4);
    UnpackAt(h, w, 4, 8);
    UnpackAt(h, w, 5, 12);
    UnpackAt(h, w, 6, 16);
    assert h[0..1] == b[0..1] && h[1..2] == b[1..2] && h[2..4] == b[2..4] && h[4..8] == b[4..8];
    assert h[8..12] == b[8..12] && h[12..16] == b[12..16] && h[16..24] == b[16..24];
    ArgBodyChecks(f, b, used);
  }

  lemma {:induction false} ArgBodyChecks(f: seq<nat>, b: seq<Byte>, used: nat)
    requires |b| >= 24 && |f| == 7
    ensures ParseArgBody(f, b[24..], used) ==
        if f[0] > 4 then Err(ArgumentKind)
        else if f[1] != 0 || f[2] != 0 || f[5] != 0 then Err(ArgumentReserved)
        else if f[4] > 4096 || f[3] > f[4] then Err(ArgumentCapacity)
        else if (f[0] != 0 && f[6] != 0) || (f[0] <= 1 && f[4] != 0) || (f[0] == 2 && f[3] != f[4])
             || (f[0] == 3 && (f[3] != 0 || f[4] == 0)) then Err(ArgumentCanonical)
        else if |b| < 24 + f[3] then Err(ArgumentData)
        else if |b| < 24 + Align8(f[3]) || !AllZero(b[24 + f[3]..24 + Align8(f[3])]) then Err(ArgumentPadding)
        else if f[4] > 0 && Align8(used) + f[4] > ARENA_SIZE then Err(ArenaCapacity)
        else Ok(Step(if f[0] == 0 then Immediate(f[6]) else if f[0] == 1 then Null
                     else if f[0] == 2 then Input(b[24..24 + f[3]]) else if f[0] == 3 then Output(f[4])
                     else InOut(b[24..24 + f[3]], f[4]),
                     b[24 + Align8(f[3])..], if f[4] == 0 then used else Align8(used) + f[4]))
  {
    hide AllZero;
    var rest := b[24..];
    if f[3] <= |rest| { assert rest[..f[3]] == b[24..24 + f[3]]; }
    if Align8(f[3]) <= |rest| {
      SliceOfSlice(b, 24, |b|, f[3], Align8(f[3]));
      assert b[24..|b|] == rest;
      assert rest[Align8(f[3])..] == b[24 + Align8(f[3])..];
    }
  }

  /** Whatever the argument parser accepts is the encoding of what it returns. */
  lemma {:induction false} ArgCanonical(b: seq<Byte>, used: nat)
    requires ParseArg(b, used).Ok?
    ensures var s := ParseArg(b, used).value;
      ArgOk(s.item) && b == EncodeArg(s.item) + s.rest && s.used == UsedAfter(used, s.item)
      && (s.used <= ARENA_SIZE || s.used == used)
  {
    hide Unpack, Pack, Total, Pow256, ParseArgBody;
    ArgWidths();
    var f := Unpack(b[..24], ARG_WIDTHS);
    PackUnpack(b[..24], ARG_WIDTHS);
    BodyCanonical(f, b[24..], used);
    assert b == b[..24] + b[24..];
    assert f[6] < Pow256(ARG_WIDTHS[6]);
  }

  lemma {:induction false} BodyCanonical(f: seq<nat>, b: seq<Byte>, used: nat)
    requires |f| == 7 && ParseArgBody(f, b, used).Ok?
    ensures var s := ParseArgBody(f, b, used).value;
      && ArgFields(s.item) == f && s.used == UsedAfter(used, s.item)
      && b == s.item.Data() + Zeros(Pad8(|s.item.Data()|)) + s.rest
      && |s.item.Data()| <= s.item.Capacity() <= MAX_ARG_CAPACITY && (s.item.Output? ==> s.item.room > 0)
      && (s.used <= ARENA_SIZE || s.used == used)
  {
    var n := f[3];
    ZerosAre(b[n..Align8(n)]);
    assert b == b[..n] + b[n..Align8(n)] + b[Align8(n)..];
  }

  // ---------------------------------------------------------------------------------------------
  // Call records

  function EncodeArgs(args: seq<Arg>): seq<Byte> {
    if args == [] then [] else EncodeArg(args[0]) + EncodeArgs(args[1..])
  }

  /** Exactly `count` arguments, filling the record. */
  function ParseArgs(b: seq<Byte>, count: nat, used: nat): Result<Step<seq<Arg>>>
    decreases count
  {
    if count == 0 then
      if b == [] then Ok(Step([], [], used)) else Err(RecordBoundary)
    else match ParseArg(b, used)
      case Err(e) => Err(e)
      case Ok(first) =>
        match ParseArgs(first.rest, count - 1, first.used)
        case Err(e) => Err(e)
        case Ok(others) => Ok(Step([first.item] + others.item, [], others.used))
  }

  predicate ArgsOk(args: seq<Arg>) {
    forall i :: 0 <= i < |args| ==> ArgOk(args[i])
  }

  lemma {:induction false} ArgsRoundTrip(args: seq<Arg>, used: nat)
    requires ArgsOk(args) && UsedAfterAll(used, args) <= ARENA_SIZE
    ensures ParseArgs(EncodeArgs(args), |args|, used) == Ok(Step(args, [], UsedAfterAll(used, args)))
    decreases |args|
  {
    hide ParseArg, EncodeArg, ArgOk, UsedAfter;
    if args != [] {
      var rest := args[1..];
      UsedGrows(UsedAfter(used, args[0]), rest);
      ArgRoundTrip(args[0], EncodeArgs(rest), used);
      ArgsRoundTrip(rest, UsedAfter(used, args[0]));
      assert [args[0]] + rest == args;
    }
  }

  lemma {:induction false} ArgsCanonical(b: seq<Byte>, count: nat, used: nat)
    requires ParseArgs(b, count, used).Ok?
    ensures var s := ParseArgs(b, count, used).value;
      && |s.item| == count && ArgsOk(s.item) && b == EncodeArgs(s.item)
      && s.used == UsedAfterAll(used, s.item) && (s.used <= ARENA_SIZE || s.used == used)
    decreases count
  {
    hide ParseArg, EncodeArg, ArgOk, UsedAfter;
    if count != 0 {
      var first := ParseArg(b, used).value;
      ArgCanonical(b, used);
      ArgsCanonical(first.rest, count - 1, first.used);
      var others := ParseArgs(first.rest, count - 1, first.used).value;
      assert ([first.item] + others.item)[1..] == others.item;
    }
  }

  // number, record length, argument count, reserved, reserved
  const CALL_WIDTHS: seq<nat> := [4, 4, 2, 2, 4]

  lemma {:induction false} CallWidths()
    ensures Total(CALL_WIDTHS) == 16
  {
    assert Total([4, 4, 2, 2, 4]) == 16;
  }

  predicate CallOk(c: Call) {
    |c.args| <= MAX_ARGS && ArgsOk(c.args) && Policy(c)
  }

  function CallFields(c: Call): seq<nat> {
    [c.number, 16 + |EncodeArgs(c.args)|, |c.args|, 0, 0]
  }

  function EncodeCall(c: Call): seq<Byte> {
    Pack(CallFields(c), CALL_WIDTHS) + EncodeArgs(c.args)
  }

  function ParseCall(b: seq<Byte>, used: nat): (r: Result<Step<Call>>)
    ensures r.Ok? ==> |r.value.rest| < |b|
  {
    if |b| < 16 then Err(CallHeader)
    else
      CallWidths();
      ParseCallBody(Unpack(b[..16], CALL_WIDTHS), b, used)
  }

  function ParseCallBody(f: seq<nat>, b: seq<Byte>, used: nat): (r: Result<Step<Call>>)
    requires |f| == 5 && |b| >= 16
    ensures r.Ok? ==> |r.value.rest| < |b|
  {
    if f[1] < 16 || f[1] % 8 != 0 || f[1] > |b| then Err(CallRecordLength)
    else if f[2] > MAX_ARGS then Err(ArgumentCount)
    else if f[3] != 0 || f[4] != 0 then Err(CallReserved)
    else match ParseArgs(b[16..f[1]], f[2], used)
      case Err(e) => Err(e)
      case Ok(s) =>
        if Policy(Call(f[0], s.item)) then Ok(Step(Call(f[0], s.item), b[f[1]..], s.used)) else Err(SyscallPolicy)
  }

  lemma {:induction false} ArgLength(a: Arg)
    requires ArgOk(a)
    ensures |EncodeArg(a)| % 8 == 0 && |EncodeArg(a)| <= 24 + MAX_ARG_CAPACITY
  {
    hide Pack, Total, Pow256;
    ArgWidths();
  }

  lemma {:induction false} ArgsLength(args: seq<Arg>)
    requires ArgsOk(args)
    ensures |EncodeArgs(args)| % 8 == 0 && |EncodeArgs(args)| <= (24 + MAX_ARG_CAPACITY) * |args|
    decreases |args|
  {
    hide EncodeArg, ArgOk;
    if args != [] {
      ArgLength(args[0]);
      ArgsLength(args[1..]);
    }
  }

  lemma {:induction false} PolicyNumber(c: Call)
    requires Policy(c)
    ensures c.number <= 318
  {
  }

  lemma {:induction false} CallFieldsFit(c: Call)
    requires CallOk(c)
    ensures Fit(CallFields(c), CALL_WIDTHS) && CallFields(c)[1] % 8 == 0
  {
    hide EncodeArgs, Policy;
    ArgsLength(c.args);
    PolicyNumber(c);
    assert Pow256(2) == 65536 && Pow256(4) == 0x1_0000_0000;
    assert CallFields(c)[1] <= 16 + 4120 * 6;
  }

  lemma {:induction false} CallOffsets()
    ensures var w := CALL_WIDTHS;
      && |w| == 5 && Total(w[..0]) == 0 && Total(w[..1]) == 4 && Total(w[..2]) == 8 && Total(w[..3]) == 10
      && Total(w[..4]) == 12
  {
    var w := CALL_WIDTHS;
    assert w[..0] == [] && w[..1] == [4] && w[..2] == [4, 4] && w[..3] == [4, 4, 2] && w[..4] == [4, 4, 2, 2];
    assert Total([4]) == 4 && Total([4, 4]) == 8 && Total([4, 4, 2]) == 10 && Total([4, 4, 2, 2]) == 12;
  }

  /** The call checks over raw bytes: each at its offset, in the order of the error stages. */
  lemma {:induction false} CallChecks(b: seq<Byte>, used: nat)
    requires |b| >= 16
    ensures var number, length, count := Get(b[0..4]), Get(b[4..8]), Get(b[8..10]);
      ParseCall(b, used) ==
        if length < 16 || length % 8 != 0 || length > |b| then Err(CallRecordLength)
        else if count > 6 then Err(ArgumentCount)
        else if Get(b[10..12]) != 0 || Get(b[12..16]) != 0 then Err(CallReserved)
        else match ParseArgs(b[16..length], count, used)
          case Err(e) => Err(e)
          case Ok(s) =>
            if Policy(Call(number, s.item)) then Ok(Step(Call(number, s.item), b[length..], s.used)) else Err(SyscallPolicy)
  {
    hide Unpack, Total, Get, Pow256, ParseArgs, Policy;
    CallWidths();
    CallOffsets();
    var h, w := b[..16], CALL_WIDTHS;
    var f := Unpack(h, w);
    UnpackAt(h, w, 0, 0);
    UnpackAt(h, w, 1, 4);
    UnpackAt(h, w, 2, 8);
    UnpackAt(h, w, 3, 10);
    UnpackAt(h, w, 4, 12);
    assert h[0..4] == b[0..4] && h[4..8] == b[4..8] && h[8..10] == b[8..10];
    assert h[10..12] == b[10..12] && h[12..16] == b[12..16];
  }

  /** Where each part of a call record lies; its length field is its own length. */
  lemma {:induction false} CallLayout(c: Call)
    requires CallOk(c)
    ensures |EncodeCall(c)| >= 16
    ensures var b := EncodeCall(c);
      && Get(b[0..4]) == c.number && Get(b[4..8]) == |b| && Get(b[8..10]) == |c.args|
      && Get(b[10..12]) == 0 && Get(b[12..16]) == 0 && b[16..] == EncodeArgs(c.args)
  {
    hide Pack, Total, Get, Pow256, Policy, EncodeArgs, ArgsOk;
    var f, w := CallFields(c), CALL_WIDTHS;
    var p, b := Pack(f, w), EncodeCall(c);
    CallWidths();
    CallOffsets();
    CallFieldsFit(c);
    FieldAt(f, w, 0, 0);
    FieldAt(f, w, 1, 4);
    FieldAt(f, w, 2, 8);
    FieldAt(f, w, 3, 10);
    FieldAt(f, w, 4, 12);
    assert b[0..4] == p[0..4] && b[4..8] == p[4..8] && b[8..10] == p[8..10];
    assert b[10..12] == p[10..12] && b[12..16] == p[12..16];
  }

  lemma {:induction false} CallRoundTrip(c: Call, rest: seq<Byte>, used: nat)
    requires CallOk(c) && UsedAfterAll(used, c.args) <= ARENA_SIZE
    ensures ParseCall(EncodeCall(c) + rest, used) == Ok(Step(c, rest, UsedAfterAll(used, c.args)))
  {
    hide ParseArgs, EncodeArgs, Policy, UsedAfterAll, ArgsOk;
    var b := EncodeCall(c) + rest;
    var n := 16 + |EncodeArgs(c.args)|;
    CallWidths();
    CallFieldsFit(c);
    UnpackPack(CallFields(c), CALL_WIDTHS);
    assert b[..16] == Pack(CallFields(c), CALL_WIDTHS);
    assert b[16..n] == EncodeArgs(c.args) && b[n..] == rest;
    ArgsRoundTrip(c.args, used);
  }

  lemma {:induction false} CallCanonical(b: seq<Byte>, used: nat)
    requires ParseCall(b, used).Ok?
    ensures var s := ParseCall(b, used).value;
      && CallOk(s.item) && b == EncodeCall(s.item) + s.rest
      && s.used == UsedAfterAll(used, s.item.args) && (s.used <= ARENA_SIZE || s.used == used)
  {
    hide ParseArgs, EncodeArgs, Policy, UsedAfterAll, ArgsOk, Unpack, Pack, Total;
    CallWidths();
    var f := Unpack(b[..16], CALL_WIDTHS);
    PackUnpack(b[..16], CALL_WIDTHS);
    ArgsCanonical(b[16..f[1]], f[2], used);
    var s := ParseCall(b, used).value;
    assert CallFields(s.item) == f;
    assert b == b[..16] + b[16..f[1]] + b[f[1]..];
  }

  // ---------------------------------------------------------------------------------------------
  // Programs

  function EncodeCalls(calls: seq<Call>): seq<Byte> {
    if calls == [] then [] else EncodeCall(calls[0]) + EncodeCalls(calls[1..])
  }

  function ParseCalls(b: seq<Byte>, count: nat, used: nat): Result<Step<seq<Call>>>
    decreases count
  {
    if count == 0 then
      if b == [] then Ok(Step([], [], used)) else Err(TrailingData)
    else match ParseCall(b, used)
      case Err(e) => Err(e)
      case Ok(first) =>
        match ParseCalls(first.rest, count - 1, first.used)
        case Err(e) => Err(e)
        case Ok(others) => Ok(Step([first.item] + others.item, [], others.used))
  }

  predicate CallsOk(calls: seq<Call>) {
    forall i :: 0 <= i < |calls| ==> CallOk(calls[i])
  }

  lemma {:induction false} CallsRoundTrip(calls: seq<Call>, used: nat)
    requires CallsOk(calls) && UsedAfterCalls(used, calls) <= ARENA_SIZE
    ensures ParseCalls(EncodeCalls(calls), |calls|, used) == Ok(Step(calls, [], UsedAfterCalls(used, calls)))
    decreases |calls|
  {
    hide ParseCall, EncodeCall, CallOk, UsedAfterAll;
    if calls != [] {
      var rest := calls[1..];
      UsedGrowsCalls(UsedAfterAll(used, calls[0].args), rest);
      CallRoundTrip(calls[0], EncodeCalls(rest), used);
      CallsRoundTrip(rest, UsedAfterAll(used, calls[0].args));
      assert [calls[0]] + rest == calls;
    }
  }

  lemma {:induction false} CallsCanonical(b: seq<Byte>, count: nat, used: nat)
    requires ParseCalls(b, count, used).Ok?
    ensures var s := ParseCalls(b, count, used).value;
      && |s.item| == count && CallsOk(s.item) && b == EncodeCalls(s.item)
      && s.used == UsedAfterCalls(used, s.item) && (s.used <= ARENA_SIZE || s.used == used)
    decreases count
  {
    hide ParseCall, EncodeCall, CallOk, UsedAfterAll;
    if count != 0 {
      var first := ParseCall(b, used).value;
      CallCanonical(b, used);
      CallsCanonical(first.rest, count - 1, first.used);
      var others := ParseCalls(first.rest, count - 1, first.used).value;
      assert ([first.item] + others.item)[1..] == others.item;
    }
  }

  const MAGIC: seq<Byte> := [0x4E, 0x4C, 0x53, 0x59, 0x5A, 0x50, 0x47, 0]

  // version, header length, total length, flags, call count, coverage length, reserved, sequence
  const HEADER_WIDTHS: seq<nat> := [2, 2, 4, 4, 4, 4, 4, 8]

  lemma {:induction false} HeaderWidths()
    ensures Total(HEADER_WIDTHS) == 32
  {
    assert Total([2, 2, 4, 4, 4, 4, 4, 8]) == 32;
  }

  /** A digest over the header with a zeroed digest field and the records (`compute_program_digest`). */
  type DigestOf = seq<Byte> -> seq<Byte>

  function Covered(data: seq<Byte>): seq<Byte>
    requires |data| >= 128
  {
    data[..88] + Zeros(32) + data[120..]
  }

  function HeaderFields(p: Program): seq<nat> {
    [2, 128, 128 + |EncodeCalls(p.calls)|, 0, |p.calls|, KCOV_LENGTH, 0, p.sequence]
  }

  function Image(p: Program, digest: seq<Byte>): seq<Byte> {
    MAGIC + Pack(HeaderFields(p), HEADER_WIDTHS) + p.runId + p.key + digest + Zeros(8) + EncodeCalls(p.calls)
  }

  function Encode(d: DigestOf, p: Program): seq<Byte> {
    Image(p, d(Image(p, Zeros(32))))
  }

  function Parse(d: DigestOf, data: seq<Byte>): Result<Program> {
    if |data| < 128 then Err(HeaderTruncated)
    else if data[..8] != MAGIC then Err(HeaderMagic)
    else
      HeaderWidths();
      ParseBody(d, data, Unpack(data[8..40], HEADER_WIDTHS))
  }

  function ParseBody(d: DigestOf, data: seq<Byte>, f: seq<nat>): Result<Program>
    requires |data| >= 128 && |f| == 8
  {
    if f[0] != 2 then Err(HeaderVersion)
    else if f[1] != 128 then Err(HeaderLength)
    else if f[2] != |data| then Err(TotalLength)
    else if f[3] != 0 then Err(HeaderFlags)
    else if f[4] == 0 || f[4] > MAX_SYSCALLS then Err(SyscallCount)
    else if f[5] != KCOV_LENGTH then Err(KcovLength)
    else if f[6] != 0 || !AllZero(data[120..128]) then Err(HeaderReserved)
    else if d(Covered(data)) != data[88..120] then Err(ProgramDigest)
    else match ParseCalls(data[128..], f[4], 0)
      case Err(e) => Err(e)
      case Ok(s) => Ok(Program(f[7], data[40..56], data[56..88], s.item))
  }

  /** The header checks over raw bytes: each at its offset, in the order of the error stages. */
  lemma {:induction false} HeaderChecks(d: DigestOf, data: seq<Byte>)
    requires |data| >= 128
    ensures Parse(d, data) ==
      if data[..8] != [0x4E, 0x4C, 0x53, 0x59, 0x5A, 0x50, 0x47, 0] then Err(HeaderMagic)
      else if Get(data[8..10]) != 2 then Err(HeaderVersion)
      else if Get(data[10..12]) != 128 then Err(HeaderLength)
      else if Get(data[12..16]) != |data| then Err(TotalLength)
      else if Get(data[16..20]) != 0 then Err(HeaderFlags)
      else if Get(data[20..24]) == 0 || Get(data[20..24]) > 100 then Err(SyscallCount)
      else if Get(data[24..28]) != 4096 then Err(KcovLength)
      else if Get(data[28..32]) != 0 || !AllZero(data[120..128]) then Err(HeaderReserved)
      else if d(data[..88] + Zeros(32) + data[120..]) != data[88..120] then Err(ProgramDigest)
      else match ParseCalls(data[128..], Get(data[20..24]), 0)
        case Err(e) => Err(e)
        case Ok(s) => Ok(Program(Get(data[32..40]), data[40..56], data[56..88], s.item))
  {
    hide Unpack, Total, Get, Pow256, ParseCalls, AllZero;
    HeaderWidths();
    HeaderRead(data);
  }

  lemma {:induction false} HeaderRead(data: seq<Byte>)
    requires |data| >= 128
    ensures Total(HEADER_WIDTHS) == 32
    ensures var f := Unpack(data[8..40], HEADER_WIDTHS);
      && f[0] == Get(data[8..10]) && f[1] == Get(data[10..12]) && f[2] == Get(data[12..16]) && f[3] == Get(data[16..20])
      && f[4] == Get(data[20..24]) && f[5] == Get(data[24..28]) && f[6] == Get(data[28..32]) && f[7] == Get(data[32..40])
  {
    hide Unpack, Total, Get, Pow256;
    HeaderWidths();
    HeaderOffsets();
    HeaderFieldRead(data, 0, 0, 2);
    HeaderFieldRead(data, 1, 2, 2);
    HeaderFieldRead(data, 2, 4, 4);
    HeaderFieldRead(data, 3, 8, 4);
    HeaderFieldRead(data, 4, 12, 4);
    HeaderFieldRead(data, 5, 16, 4);
    HeaderFieldRead(data, 6, 20, 4);
    HeaderFieldRead(data, 7, 24, 8);
  }

  lemma {:induction false} HeaderFieldRead(data: seq<Byte>, i: nat, at: nat, width: nat)
    requires |data| >= 128 && Total(HEADER_WIDTHS) == 32
    requires i < 8 && at == Total(HEADER_WIDTHS[..i]) && width == HEADER_WIDTHS[i]
    ensures at + width <= 32 && Unpack(data[8..40], HEADER_WIDTHS)[i] == Get(data[8 + at..8 + at + width])
  {
    hide Unpack, Total, Get, Pow256;
    UnpackAt(data[8..40], HEADER_WIDTHS, i, at);
    SliceOfSlice(data, 8, 40, at, at + width);
  }

  /** The programs the format can carry and the policy allows. */
  predicate ProgramOk(p: Program) {
    && |p.runId| == 16 && |p.key| == 32 && p.sequence < Pow256(8)
    && 1 <= |p.calls| <= MAX_SYSCALLS && CallsOk(p.calls)
    && UsedAfterCalls(0, p.calls) <= ARENA_SIZE
  }

  predicate Digests(d: DigestOf, data: seq<Byte>) {
    |d(data)| == 32
  }

  lemma {:induction false} CallsLength(calls: seq<Call>)
    requires CallsOk(calls)
    ensures |EncodeCalls(calls)| <= 24736 * |calls|
    decreases |calls|
  {
    if calls != [] {
      CallWidths();
      ArgsLength(calls[0].args);
      CallsLength(calls[1..]);
    }
  }

  lemma {:induction false} HeaderFit(p: Program)
    requires ProgramOk(p)
    ensures Fit(HeaderFields(p), HEADER_WIDTHS)
  {
    CallsLength(p.calls);
    assert Pow256(2) == 65536 && Pow256(4) == 0x1_0000_0000;
    assert HeaderFields(p)[2] <= 128 + 24736 * 100;
  }

  lemma {:induction false} HeaderOffsets()
    ensures var w := HEADER_WIDTHS;
      && |w| == 8 && Total(w[..0]) == 0 && Total(w[..1]) == 2 && Total(w[..2]) == 4 && Total(w[..3]) == 8
      && Total(w[..4]) == 12 && Total(w[..5]) == 16 && Total(w[..6]) == 20 && Total(w[..7]) == 24
  {
    var w := HEADER_WIDTHS;
    assert w[..0] == [] && w[..1] == [2] && w[..2] == [2, 2] && w[..3] == [2, 2, 4] && w[..4] == [2, 2, 4, 4];
    assert w[..5] == [2, 2, 4, 4, 4] && w[..6] == [2, 2, 4, 4, 4, 4] && w[..7] == [2, 2, 4, 4, 4, 4, 4];
    assert Total([2]) == 2 && Total([2, 2]) == 4 && Total([2, 2, 4]) == 8 && Total([2, 2, 4, 4]) == 12;
    assert Total([2, 2, 4, 4, 4]) == 16 && Total([2, 2, 4, 4, 4, 4]) == 20 && Total([2, 2, 4, 4, 4, 4, 4]) == 24;
  }

  /** Where each part of a program lies. */
  lemma {:induction false} ProgramLayout(p: Program, digest: seq<Byte>)
    requires ProgramOk(p) && |digest| == 32
    ensures |Image(p, digest)| >= 128
    ensures var b := Image(p, digest);
      && b[..8] == [0x4E, 0x4C, 0x53, 0x59, 0x5A, 0x50, 0x47, 0] && Get(b[8..10]) == 2 && Get(b[10..12]) == 128
      && Get(b[12..16]) == |b| && Get(b[16..20]) == 0 && Get(b[20..24]) == |p.calls| && Get(b[24..28]) == 4096
      && Get(b[28..32]) == 0 && Get(b[32..40]) == p.sequence && b[40..56] == p.runId && b[56..88] == p.key
      && b[88..120] == digest && AllZero(b[120..128]) && b[128..] == EncodeCalls(p.calls)
  {
    hide Pack, Total, Get, Pow256, EncodeCalls, CallsOk, UsedAfterCalls;
    var f, w := HeaderFields(p), HEADER_WIDTHS;
    var h, b := Pack(f, w), Image(p, digest);
    HeaderWidths();
    HeaderOffsets();
    HeaderFit(p);
    HeaderFieldsAt(f, w);
    assert b[8..10] == h[0..2] && b[10..12] == h[2..4] && b[12..16] == h[4..8] && b[16..20] == h[8..12];
    assert b[20..24] == h[12..16] && b[24..28] == h[16..20] && b[28..32] == h[20..24] && b[32..40] == h[24..32];
  }

  lemma {:induction false} HeaderFieldsAt(f: seq<nat>, w: seq<nat>)
    requires w == HEADER_WIDTHS && |f| == |w| && Fit(f, w)
    ensures |Pack(f, w)| == 32
    ensures var h := Pack(f, w);
      && Get(h[0..2]) == f[0] && Get(h[2..4]) == f[1] && Get(h[4..8]) == f[2] && Get(h[8..12]) == f[3]
      && Get(h[12..16]) == f[4] && Get(h[16..20]) == f[5] && Get(h[20..24]) == f[6] && Get(h[24..32]) == f[7]
  {
    hide Pack, Total, Get, Pow256;
    HeaderWidths();
    HeaderOffsets();
    FieldAt(f, w, 0, 0);
    FieldAt(f, w, 1, 2);
    FieldAt(f, w, 2, 4);
    FieldAt(f, w, 3, 8);
    FieldAt(f, w, 4, 12);
    FieldAt(f, w, 5, 16);
    FieldAt(f, w, 6, 20);
    FieldAt(f, w, 7, 24);
  }

  /** The parts of an image, at their offsets. */
  lemma {:induction false} ImageParts(p: Program, digest: seq<Byte>)
    requires |p.runId| == 16 && |p.key| == 32 && |digest| == 32
    ensures var b := Image(p, digest);
      && |b| == 128 + |EncodeCalls(p.calls)| && b[..8] == MAGIC
      && b[8..40] == Pack(HeaderFields(p), HEADER_WIDTHS) && b[40..56] == p.runId && b[56..88] == p.key
      && b[88..120] == digest && b[120..128] == Zeros(8) && b[128..] == EncodeCalls(p.calls)
      && Covered(b) == Image(p, Zeros(32))
  {
    hide Pack, EncodeCalls, Total;
    HeaderWidths();
  }

  lemma {:induction false} ImageOf(data: seq<Byte>, p: Program, digest: seq<Byte>)
    requires |data| >= 128 && data[..8] == MAGIC && data[8..40] == Pack(HeaderFields(p), HEADER_WIDTHS)
    requires data[40..56] == p.runId && data[56..88] == p.key && data[88..120] == digest
    requires data[120..128] == Zeros(8) && data[128..] == EncodeCalls(p.calls)
    ensures data == Image(p, digest)
  {
    hide Pack, EncodeCalls, Total;
    assert data == data[..8] + data[8..40] + data[40..56] + data[56..88] + data[88..120] + data[120..128] + data[128..];
  }

  /** Parsing the encoding of any policy-valid program returns that program. */
  lemma {:induction false} RoundTrip(d: DigestOf, p: Program)
    requires ProgramOk(p) && Digests(d, Image(p, Zeros(32)))
    ensures Parse(d, Encode(d, p)) == Ok(p)
  {
    hide Pack, Unpack, EncodeCalls, ParseCalls, Total, CallsOk, UsedAfterCalls, Image, Covered;
    var data := Encode(d, p);
    HeaderWidths();
    ImageParts(p, d(Image(p, Zeros(32))));
    HeaderFit(p);
    UnpackPack(HeaderFields(p), HEADER_WIDTHS);
    CallsRoundTrip(p.calls, 0);
    ZerosAre(data[120..128]);
  }

  /** Everything the parser accepts is the encoding of the policy-valid program it returns. */
  lemma {:induction false} Canonical(d: DigestOf, data: seq<Byte>)
    requires Parse(d, data).Ok?
    ensures ProgramOk(Parse(d, data).value) && data == Encode(d, Parse(d, data).value)
  {
    hide Pack, Unpack, EncodeCalls, ParseCalls, Total, CallsOk, UsedAfterCalls, Image, Covered;
    HeaderWidths();
    var f := Unpack(data[8..40], HEADER_WIDTHS);
    PackUnpack(data[8..40], HEADER_WIDTHS);
    CallsCanonical(data[128..], f[4], 0);
    ZerosAre(data[120..128]);
    var p := Parse(d, data).value;
    assert HeaderFields(p) == f;
    assert f[7] < Pow256(HEADER_WIDTHS[7]);
    ImageOf(data, p, data[88..120]);
    ImageParts(p, data[88..120]);
  }

  /** Two accepted byte strings with the same program are the same bytes. */
  lemma {:induction false} Injective(d: DigestOf, a: seq<Byte>, b: seq<Byte>)
    requires Parse(d, a).Ok? && Parse(d, a) == Parse(d, b)
    ensures a == b
  {
    Canonical(d, a);
    Canonical(d, b);
  }
}
