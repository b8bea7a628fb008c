/**
 * The byte decoder of the fuzz target (fuzz/src/qemu_executor.rs, `parse_fuzzer_input`): a cursor that takes bytes off
 * the front of its input, with each call validated as soon as it is complete.
 */
module FuzzInput {
  import opened Common
  import opened Bytes
  import opened WireFormat
  import opened HostPolicy

  /** A decoded item and the bytes behind it. */
  datatype Parsed<T> = Parsed(item: T, rest: seq<Byte>)

  const SYSCALLS: seq<nat> := [
    24, 39, 102, 104, 107, 108, 110, 186, 12, 21, 4, 6, 63, 96, 97, 79, 89, 204, 228, 318]

  // ---------------------------------------------------------------------------------------------
  // Decoding

  function DecodeArg(b: seq<Byte>): Option<Parsed<Arg>> {
    if |b| < 1 then None
    else match b[0] {
      case 0 => if |b| < 9 then None else Some(Parsed(Immediate(Get(b[1..9])), b[9..]))
      case 1 => Some(Parsed(Null, b[1..]))
      case 2 =>
        if |b| < 2 || |b| - 3 < b[1] then None
        else Some(Parsed(Input(b[2..3 + b[1]]), b[3 + b[1]..]))
      case 3 => if |b| < 3 then None else Some(Parsed(Output(Get(b[1..3])), b[3..]))
      case _ => None
    }
  }

  function DecodeArgs(b: seq<Byte>, count: nat): Option<Parsed<seq<Arg>>>
    decreases count
  {
    if count == 0 then Some(Parsed([], b))
    else match DecodeArg(b)
      case None => None
      case Some(first) =>
        match DecodeArgs(first.rest, count - 1)
        case None => None
        case Some(others) => Some(Parsed([first.item] + others.item, others.rest))
  }

  function DecodeCall(b: seq<Byte>): Option<Parsed<Call>> {
    if |b| < 2 || b[1] > 6 then None
    else match DecodeArgs(b[2..], b[1])
      case None => None
      case Some(args) =>
        var call := Call(SYSCALLS[b[0] % 20], args.item);
        if HostCall(call) then Some(Parsed(call, args.rest)) else None
  }

  function DecodeCalls(b: seq<Byte>, count: nat): Option<Parsed<seq<Call>>>
    decreases count
  {
    if count == 0 then Some(Parsed([], b))
    else match DecodeCall(b)
      case None => None
      case Some(first) =>
        match DecodeCalls(first.rest, count - 1)
        case None => None
        case Some(others) => Some(Parsed([first.item] + others.item, others.rest))
  }

  function Decode(b: seq<Byte>): Option<seq<Call>> {
    if |b| < 1 || !(1 <= b[0] <= 10) then None
    else match DecodeCalls(b[1..], b[0])
      case None => None
      case Some(p) => if p.rest == [] && HostProgram(p.item) then Some(p.item) else None
  }

  // ---------------------------------------------------------------------------------------------
  // Prefix freedom

  lemma {:induction false} ArgExtends(b: seq<Byte>, x: seq<Byte>)
    requires DecodeArg(b).Some?
    ensures DecodeArg(b + x) == Some(Parsed(DecodeArg(b).value.item, DecodeArg(b).value.rest + x))
  {
    var c := b + x;
    match b[0] {
      case 0 => assert c[1..9] == b[1..9] && c[9..] == b[9..] + x;
      case 1 => assert c[1..] == b[1..] + x;
      case 2 => assert c[2..3 + b[1]] == b[2..3 + b[1]] && c[3 + b[1]..] == b[3 + b[1]..] + x;
      case 3 => assert c[1..3] == b[1..3] && c[3..] == b[3..] + x;
    }
  }

  lemma {:induction false} ArgsExtend(b: seq<Byte>, count: nat, x: seq<Byte>)
    requires DecodeArgs(b, count).Some?
    ensures DecodeArgs(b + x, count) == Some(Parsed(DecodeArgs(b, count).value.item, DecodeArgs(b, count).value.rest + x))
    decreases count
  {
    hide DecodeArg;
    if count != 0 {
      ArgExtends(b, x);
      ArgsExtend(DecodeArg(b).value.rest, count - 1, x);
    }
  }

  lemma {:induction false} CallExtends(b: seq<Byte>, x: seq<Byte>)
    requires DecodeCall(b).Some?
    ensures DecodeCall(b + x) == Some(Parsed(DecodeCall(b).value.item, DecodeCall(b).value.rest + x))
  {
    hide DecodeArgs, HostCall;
    assert (b + x)[2..] == b[2..] + x;
    ArgsExtend(b[2..], b[1], x);
  }

  lemma {:induction false} CallsExtend(b: seq<Byte>, count: nat, x: seq<Byte>)
    requires DecodeCalls(b, count).Some?
    ensures DecodeCalls(b + x, count)
         == Some(Parsed(DecodeCalls(b, count).value.item, DecodeCalls(b, count).value.rest + x))
    decreases count
  {
    hide DecodeCall;
    if count != 0 {
      CallExtends(b, x);
      CallsExtend(DecodeCall(b).value.rest, count - 1, x);
    }
  }

  /** No accepted input is a proper prefix of another: every proper prefix and every proper extension is refused. */
  lemma {:induction false} PrefixFree(b: seq<Byte>, x: seq<Byte>)
    requires x != []
    ensures !(Decode(b).Some? && Decode(b + x).Some?)
  {
    hide DecodeCalls, HostProgram;
    if Decode(b).Some? {
      assert (b + x)[1..] == b[1..] + x;
      CallsExtend(b[1..], b[0], x);
    }
  }

  // ---------------------------------------------------------------------------------------------
  // Round trip

  /** What the byte code can express. */
  predicate Expressible(a: Arg) {
    match a
    case Immediate(v) => v < Pow256(8)
    case Null => true
    case Input(data) => 1 <= |data| <= 256
    case Output(room) => room < Pow256(2)
    case InOut(_, _) => false
  }

  predicate ExpressibleCall(c: Call) {
    forall i :: 0 <= i < |c.args| ==> Expressible(c.args[i])
  }

  function EncodeArg(a: Arg): seq<Byte>
    requires Expressible(a)
  {
    match a
    case Immediate(v) => [0] + Put(v, 8)
    case Null => [1]
    case Input(data) => [2, |data| - 1] + data
    case Output(room) => [3] + Put(room, 2)
    case InOut(_, _) => []
  }

  function EncodeArgs(args: seq<Arg>): seq<Byte>
    requires forall i :: 0 <= i < |args| ==> Expressible(args[i])
  {
    if args == [] then [] else EncodeArg(args[0]) + EncodeArgs(args[1..])
  }

  /** The position of an allowed syscall number in the table. */
  function IndexOf(number: nat, from: nat): (i: nat)
    requires from <= 20 && exists k :: from <= k < 20 && SYSCALLS[k] == number
    ensures from <= i < 20 && SYSCALLS[i] == number
    decreases 20 - from
  {
    if from < 20 && SYSCALLS[from] == number then from else IndexOf(number, from + 1)
  }

  predicate Listed(c: Call) {
    exists k :: 0 <= k < 20 && SYSCALLS[k] == c.number
  }

  function EncodeCall(c: Call): seq<Byte>
    requires ExpressibleCall(c) && Listed(c) && |c.args| <= 6
  {
    [IndexOf(c.number, 0), |c.args|] + EncodeArgs(c.args)
  }

  predicate Encodable(calls: seq<Call>) {
    forall i :: 0 <= i < |calls| ==> ExpressibleCall(calls[i]) && HostCall(calls[i]) && Listed(calls[i])
  }

  function EncodeCalls(calls: seq<Call>): seq<Byte>
    requires Encodable(calls)
  {
    if calls == [] then [] else EncodeCall(calls[0]) + EncodeCalls(calls[1..])
  }

  function Encode(calls: seq<Call>): seq<Byte>
    requires Encodable(calls) && |calls| < 256
  {
    [|calls|] + EncodeCalls(calls)
  }

  lemma {:induction false} ArgBack(a: Arg, rest: seq<Byte>)
    requires Expressible(a)
    ensures DecodeArg(EncodeArg(a) + rest) == Some(Parsed(a, rest))
  {
    hide Get, Put, Pow256;
    var b := EncodeArg(a) + rest;
    match a {
      case Immediate(v) =>
        GetPut(v, 8);
        assert b[1..9] == Put(v, 8) && b[9..] == rest;
      case Null => assert b[1..] == rest;
      case Input(data) => assert b[2..3 + b[1]] == data && b[3 + b[1]..] == rest;
      case Output(room) =>
        GetPut(room, 2);
        assert b[1..3] == Put(room, 2) && b[3..] == rest;
    }
  }

  lemma {:induction false} ArgsBack(args: seq<Arg>, rest: seq<Byte>)
    requires forall i :: 0 <= i < |args| ==> Expressible(args[i])
    ensures DecodeArgs(EncodeArgs(args) + rest, |args|) == Some(Parsed(args, rest))
    decreases |args|
  {
    hide DecodeArg, EncodeArg, Expressible;
    if args == [] {
      assert EncodeArgs(args) + rest == rest;
    } else {
      var tail := EncodeArgs(args[1..]) + rest;
      assert EncodeArgs(args) + rest == EncodeArg(args[0]) + tail;
      ArgBack(args[0], tail);
      ArgsBack(args[1..], rest);
      assert [args[0]] + args[1..] == args;
    }
  }

  lemma {:induction false} CallBack(c: Call, rest: seq<Byte>)
    requires ExpressibleCall(c) && Listed(c) && HostCall(c)
    ensures DecodeCall(EncodeCall(c) + rest) == Some(Parsed(c, rest))
  {
    hide DecodeArgs, EncodeArgs, HostShape;
    var b := EncodeCall(c) + rest;
    assert b[2..] == EncodeArgs(c.args) + rest;
    ArgsBack(c.args, rest);
    assert b[0] % 20 == IndexOf(c.number, 0);
  }

  lemma {:induction false} CallsBack(calls: seq<Call>, rest: seq<Byte>)
    requires Encodable(calls)
    ensures DecodeCalls(EncodeCalls(calls) + rest, |calls|) == Some(Parsed(calls, rest))
    decreases |calls|
  {
    hide DecodeCall, EncodeCall, HostShape, ExpressibleCall, Listed;
    if calls == [] {
      assert EncodeCalls(calls) + rest == rest;
    } else {
      var tail := EncodeCalls(calls[1..]) + rest;
      assert EncodeCalls(calls) + rest == EncodeCall(calls[0]) + tail;
      CallBack(calls[0], tail);
      CallsBack(calls[1..], rest);
      assert [calls[0]] + calls[1..] == calls;
    }
  }

  /** The number at each index of the table. */
  lemma {:induction false} Table()
    ensures SYSCALLS[0] == 24 && SYSCALLS[1] == 39 && SYSCALLS[2] == 102 && SYSCALLS[3] == 104 && SYSCALLS[4] == 107
    ensures SYSCALLS[5] == 108 && SYSCALLS[6] == 110 && SYSCALLS[7] == 186 && SYSCALLS[8] == 12 && SYSCALLS[9] == 21
    ensures SYSCALLS[10] == 4 && SYSCALLS[11] == 6 && SYSCALLS[12] == 63 && SYSCALLS[13] == 96 && SYSCALLS[14] == 97
    ensures SYSCALLS[15] == 79 && SYSCALLS[16] == 89 && SYSCALLS[17] == 204 && SYSCALLS[18] == 228 && SYSCALLS[19] == 318
  {
  }

  /** Every call the host admits can be named by the table. */
  lemma {:induction false} HostListed(c: Call)
    requires HostShape(c)
    ensures Listed(c)
  {
    Table();
  }

  /** Every valid program of one to ten expressible calls has an encoding, and it decodes back to the program. */
  lemma {:induction false} DecodesBack(calls: seq<Call>)
    requires |calls| <= 10 && HostProgram(calls)
    requires forall i :: 0 <= i < |calls| ==> ExpressibleCall(calls[i])
    ensures Encodable(calls) && Decode(Encode(calls)) == Some(calls)
  {
    hide EncodeCalls, DecodeCalls, HostShape, ExpressibleCall, Listed, RawTotal;
    forall i | 0 <= i < |calls| ensures Listed(calls[i]) {
      HostListed(calls[i]);
    }
    CallsBack(calls, []);
    assert EncodeCalls(calls) + [] == EncodeCalls(calls);
    assert Encode(calls)[1..] == EncodeCalls(calls);
  }

  // ---------------------------------------------------------------------------------------------
  // Exactly what is accepted

  lemma {:induction false} ArgForm(b: seq<Byte>)
    requires DecodeArg(b).Some?
    ensures var p := DecodeArg(b).value; Expressible(p.item) && b == EncodeArg(p.item) + p.rest
  {
    hide Get, Put, Pow256;
    match b[0] {
      case 0 => PutGet(b[1..9]);
      case 1 =>
      case 2 =>
      case 3 => PutGet(b[1..3]);
    }
  }

  lemma {:induction false} ArgsForm(b: seq<Byte>, count: nat)
    requires DecodeArgs(b, count).Some?
    ensures var p := DecodeArgs(b, count).value;
      && |p.item| == count && (forall i :: 0 <= i < count ==> Expressible(p.item[i]))
      && b == EncodeArgs(p.item) + p.rest
    decreases count
  {
    hide DecodeArg, EncodeArg, Expressible;
    if count != 0 {
      ArgForm(b);
      var first := DecodeArg(b).value;
      ArgsForm(first.rest, count - 1);
      var others := DecodeArgs(first.rest, count - 1).value;
      assert ([first.item] + others.item)[1..] == others.item;
    }
  }

  /** The bytes name each call by some index of its number, then its arguments, with nothing in between or behind. */
  predicate Spells(b: seq<Byte>, calls: seq<Call>)
    requires forall i :: 0 <= i < |calls| ==> ExpressibleCall(calls[i])
    decreases |calls|
  {
    if calls == [] then b == []
    else
      assert ExpressibleCall(calls[0]);
      var args := EncodeArgs(calls[0].args);
      && |b| >= 2 + |args| && SYSCALLS[b[0] % 20] == calls[0].number && b[1] == |calls[0].args|
      && b[2..2 + |args|] == args && Spells(b[2 + |args|..], calls[1..])
  }

  lemma {:induction false} CallsForm(b: seq<Byte>, calls: seq<Call>)
    requires DecodeCalls(b, |calls|) == Some(Parsed(calls, []))
    ensures forall i :: 0 <= i < |calls| ==> ExpressibleCall(calls[i])
    ensures Spells(b, calls)
    decreases |calls|
  {
    hide DecodeArgs, EncodeArgs, HostCall;
    if calls != [] {
      var first := DecodeCall(b).value;
      ArgsForm(b[2..], b[1]);
      var others := DecodeCalls(first.rest, |calls| - 1).value;
      assert ([first.item] + others.item)[1..] == others.item;
      CallsForm(first.rest, calls[1..]);
      var args := EncodeArgs(calls[0].args);
      assert b[2..] == args + first.rest;
      assert b[2..2 + |args|] == args && b[2 + |args|..] == first.rest;
    }
  }

  lemma {:induction false} SpelledCalls(b: seq<Byte>, calls: seq<Call>)
    requires forall i :: 0 <= i < |calls| ==> ExpressibleCall(calls[i]) && HostCall(calls[i])
    requires Spells(b, calls)
    ensures DecodeCalls(b, |calls|) == Some(Parsed(calls, []))
    decreases |calls|
  {
    hide DecodeArgs, EncodeArgs, HostShape, DecodeCall, Expressible;
    if calls != [] {
      assert ExpressibleCall(calls[0]);
      var args := EncodeArgs(calls[0].args);
      assert b[2..] == args + b[2 + |args|..];
      SpelledCall(b, calls[0], b[2 + |args|..]);
      SpelledCalls(b[2 + |args|..], calls[1..]);
      assert [calls[0]] + calls[1..] == calls;
    }
  }

  lemma {:induction false} SpelledCall(b: seq<Byte>, c: Call, rest: seq<Byte>)
    requires ExpressibleCall(c) && HostCall(c)
    requires |b| >= 2 && SYSCALLS[b[0] % 20] == c.number && b[1] == |c.args| && b[2..] == EncodeArgs(c.args) + rest
    ensures DecodeCall(b) == Some(Parsed(c, rest))
  {
    hide DecodeArgs, EncodeArgs, HostShape;
    ArgsBack(c.args, rest);
  }

  /** An input is accepted exactly when it spells a valid program of one to ten calls, and it decodes to that program. */
  lemma {:induction false} DecodesExactly(b: seq<Byte>, calls: seq<Call>)
    ensures Decode(b) == Some(calls) <==>
      && HostProgram(calls) && |calls| <= 10 && (forall i :: 0 <= i < |calls| ==> ExpressibleCall(calls[i]))
      && |b| >= 1 && b[0] == |calls| && Spells(b[1..], calls)
  {
    hide DecodeCalls, Spells, HostCall, ExpressibleCall, RawTotal;
    if Decode(b) == Some(calls) {
      CallsCount(b[1..], b[0]);
      CallsForm(b[1..], calls);
    }
    if HostProgram(calls) && |calls| <= 10 && (forall i :: 0 <= i < |calls| ==> ExpressibleCall(calls[i]))
       && |b| >= 1 && b[0] == |calls| && Spells(b[1..], calls)
    {
      SpelledCalls(b[1..], calls);
    }
  }

  lemma {:induction false} CallsCount(b: seq<Byte>, count: nat)
    requires DecodeCalls(b, count).Some?
    ensures |DecodeCalls(b, count).value.item| == count
    decreases count
  {
    hide DecodeCall;
    if count != 0 { CallsCount(DecodeCall(b).value.rest, count - 1); }
  }

  // ---------------------------------------------------------------------------------------------
  // Accepted inputs run in the guest

  lemma {:induction false} ArgDecoded(b: seq<Byte>)
    requires DecodeArg(b).Some?
    ensures DecodeArg(b).value.item.Value() < Pow256(8) && !DecodeArg(b).value.item.InOut?
  {
    assert Pow256(8) > 0;
  }

  lemma {:induction false} ArgsDecoded(b: seq<Byte>, count: nat)
    requires DecodeArgs(b, count).Some?
    ensures var args := DecodeArgs(b, count).value.item;
      |args| == count && forall i :: 0 <= i < count ==> args[i].Value() < Pow256(8) && !args[i].InOut?
    decreases count
  {
    hide DecodeArg, Pow256;
    if count != 0 {
      ArgDecoded(b);
      ArgsDecoded(DecodeArg(b).value.rest, count - 1);
    }
  }

  lemma {:induction false} CallDecoded(b: seq<Byte>)
    requires DecodeCall(b).Some?
    ensures CallOk(DecodeCall(b).value.item) && |DecodeCall(b).value.item.args| <= 3
  {
    hide DecodeArgs, Pow256, HostShape, Policy;
    ArgsDecoded(b[2..], b[1]);
    var c := DecodeCall(b).value.item;
    HostCallVersusGuest(c);
  }

  lemma {:induction false} ArgsUse(used: nat, args: seq<Arg>)
    requires ArgsOk(args)
    ensures UsedAfterAll(used, args) <= used + 4103 * |args|
    decreases |args|
  {
    hide Pow256;
    if args != [] { ArgsUse(UsedAfter(used, args[0]), args[1..]); }
  }

  lemma {:induction false} CallsDecoded(b: seq<Byte>, count: nat, used: nat)
    requires DecodeCalls(b, count).Some?
    ensures var calls := DecodeCalls(b, count).value.item;
      |calls| == count && CallsOk(calls) && UsedAfterCalls(used, calls) <= used + 12309 * count
    decreases count
  {
    hide DecodeCall, Policy, ArgsOk;
    if count != 0 {
      CallDecoded(b);
      var first := DecodeCall(b).value;
      ArgsUse(used, first.item.args);
      CallsDecoded(first.rest, count - 1, UsedAfterAll(used, first.item.args));
      var others := DecodeCalls(first.rest, count - 1).value;
      assert ([first.item] + others.item)[1..] == others.item;
    }
  }

  /** Every accepted fuzz input is a program the guest executor accepts under any identity. */
  lemma {:induction false} AcceptedByGuest(b: seq<Byte>, sequence: nat, runId: seq<Byte>, key: seq<Byte>)
    requires Decode(b).Some? && sequence < Pow256(8) && |runId| == 16 && |key| == 32
    ensures ProgramOk(Program(sequence, runId, key, Decode(b).value))
  {
    hide DecodeCalls, Pow256, CallsOk, UsedAfterCalls, RawTotal;
    CallsDecoded(b[1..], b[0], 0);
  }

  // ---------------------------------------------------------------------------------------------
  // The decoder as it runs

  /** `take`: split `count` bytes off the front, or fail. */
  method Take(data: seq<Byte>, count: nat) returns (ok: bool, head: seq<Byte>, tail: seq<Byte>)
    ensures ok <==> |data| >= count
    ensures ok ==> head == data[..count] && tail == data[count..]
  {
    if |data| < count {
      return false, [], data;
    }
    return true, data[..count], data[count..];
  }

  method TakeArg(data: seq<Byte>) returns (r: Option<Parsed<Arg>>)
    ensures r == DecodeArg(data)
  {
    var rest := data;
    var ok, tag := false, [];
    ok, tag, rest := Take(rest, 1);
    if !ok { return None; }
    var head;
    if tag[0] == 0 {
      ok, head, rest := Take(rest, 8);
      if !ok { return None; }
      assert head == data[1..9] && rest == data[9..];
      return Some(Parsed(Immediate(Get(head)), rest));
    } else if tag[0] == 1 {
      return Some(Parsed(Null, rest));
    } else if tag[0] == 2 {
      ok, head, rest := Take(rest, 1);
      if !ok { return None; }
      assert head[0] == data[1] && rest == data[2..];
      var last: nat := head[0];
      var length := last + 1;
      ok, head, rest := Take(rest, length);
      if !ok { return None; }
      assert head == data[2..2 + length] && rest == data[2 + length..];
      return Some(Parsed(Input(head), rest));
    } else if tag[0] == 3 {
      ok, head, rest := Take(rest, 2);
      if !ok { return None; }
      assert head == data[1..3] && rest == data[3..];
      return Some(Parsed(Output(Get(head)), rest));
    }
    return None;
  }

  function Behind<T>(done: seq<T>, r: Option<Parsed<seq<T>>>): Option<Parsed<seq<T>>> {
    match r
    case None => None
    case Some(p) => Some(Parsed(done + p.item, p.rest))
  }

  lemma {:induction false} ArgsTurn(done: seq<Arg>, b: seq<Byte>, count: nat)
    requires count > 0
    ensures Behind(done, DecodeArgs(b, count)) ==
      if DecodeArg(b).None? then None
      else Behind(done + [DecodeArg(b).value.item], DecodeArgs(DecodeArg(b).value.rest, count - 1))
  {
    hide DecodeArg;
    if DecodeArg(b).Some? {
      var first := DecodeArg(b).value;
      match DecodeArgs(first.rest, count - 1) {
        case None =>
        case Some(others) => assert done + ([first.item] + others.item) == done + [first.item] + others.item;
      }
    }
  }

  method TakeCall(data: seq<Byte>) returns (r: Option<Parsed<Call>>)
    ensures r == DecodeCall(data)
  {
    hide DecodeArg, HostCall;
    var ok, header, rest := Take(data, 2);
    if !ok { return None; }
    var number := SYSCALLS[header[0] % 20];
    var count: nat := header[1];
    if count > 6 { return None; }
    var args: seq<Arg> := [];
    ghost var whole := DecodeArgs(data[2..], count);
    assert whole == Behind(args, DecodeArgs(rest, count)) by {
      if whole.Some? { assert [] + whole.value.item == whole.value.item; }
    }
    while |args| < count
      invariant |args| <= count && whole == Behind(args, DecodeArgs(rest, count - |args|))
      decreases count - |args|
    {
      ArgsTurn(args, rest, count - |args|);
      var one := TakeArg(rest);
      if one.None? { return None; }
      args, rest := args + [one.value.item], one.value.rest;
    }
    assert args + [] == args;
    var call := Call(number, args);
    if !HostCall(call) { return None; }
    return Some(Parsed(call, rest));
  }

  lemma {:induction false} CallsTurn(done: seq<Call>, b: seq<Byte>, count: nat)
    requires count > 0
    ensures Behind(done, DecodeCalls(b, count)) ==
      if DecodeCall(b).None? then None
      else Behind(done + [DecodeCall(b).value.item], DecodeCalls(DecodeCall(b).value.rest, count - 1))
  {
    hide DecodeCall;
    if DecodeCall(b).Some? {
      var first := DecodeCall(b).value;
      match DecodeCalls(first.rest, count - 1) {
        case None =>
        case Some(others) => assert done + ([first.item] + others.item) == done + [first.item] + others.item;
      }
    }
  }

  /** `parse_fuzzer_input`. */
  method ParseFuzzerInput(data: seq<Byte>) returns (r: Option<seq<Call>>)
    ensures r == Decode(data)
  {
    hide DecodeCall, HostProgram;
    var ok, header, rest := Take(data, 1);
    if !ok { return None; }
    var count: nat := header[0];
    if !(1 <= count <= 10) { return None; }
    var calls: seq<Call> := [];
    ghost var whole := DecodeCalls(data[1..], count);
    assert whole == Behind(calls, DecodeCalls(rest, count)) by {
      if whole.Some? { assert [] + whole.value.item == whole.value.item; }
    }
    while |calls| < count
      invariant |calls| <= count && whole == Behind(calls, DecodeCalls(rest, count - |calls|))
      decreases count - |calls|
    {
      CallsTurn(calls, rest, count - |calls|);
      var one := TakeCall(rest);
      if one.None? { return None; }
      calls, rest := calls + [one.value.item], one.value.rest;
    }
    assert calls + [] == calls;
    if rest != [] { return None; }
    if !HostProgram(calls) { return None; }
    return Some(calls);
  }
}
