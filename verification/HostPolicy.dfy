/**
 * The host's program validation (userspace/nilix-syz-fuzzer/src/program.rs) and how it compares with what the guest
 * executor accepts.
 */
module HostPolicy {
  import opened Common
  import opened Bytes
  import opened WireFormat

  /** `validate_argument`. */
  predicate HostArg(a: Arg) {
    match a
    case Immediate(_) => true
    case Null => true
    case Input(data) => 1 <= |data| <= MAX_ARG_CAPACITY
    case Output(room) => 1 <= room <= MAX_ARG_CAPACITY
    case InOut(data, room) => data != [] && |data| <= room <= MAX_ARG_CAPACITY
  }

  /** `expect_path`: unlike the guest, the host wants at least one byte before the terminator. */
  predicate ExpectPath(a: Arg) {
    a.Input? && |a.data| >= 2 && a.data[|a.data| - 1] == 0 && 0 !in a.data[..|a.data| - 1]
  }

  predicate ExpectImmediate(a: Arg, min: nat, max: nat) {
    match a
    case Immediate(value) => min <= value && value <= max
    case _ => false
  }

  predicate ExpectLength(a: Arg, capacity: nat) {
    match a
    case Immediate(length) => length != 0 && length <= capacity
    case _ => false
  }

  function WritableCapacity(a: Arg): Option<nat> {
    match a
    case Output(room) => Some(room)
    case InOut(_, room) => Some(room)
    case _ => None
  }

  predicate ExpectWritable(a: Arg, minimum: nat) {
    WritableCapacity(a).Some? && WritableCapacity(a).value >= minimum
  }

  predicate ExpectOutput(a: Arg, minimum: nat) {
    match a
    case Output(room) => room >= minimum
    case _ => false
  }

  const PURE_NOARG_SYSCALLS: set<nat> := {24, 39, 102, 104, 107, 108, 110, 186}

  /** The per-syscall part of `validate_syscall`. */
  predicate HostShape(call: Call) {
    var a := call.args;
    if call.number in PURE_NOARG_SYSCALLS then a == []
    else match call.number {
      case 12 => |a| == 1 && ExpectImmediate(a[0], 0, 0)
      case 21 => |a| == 2 && ExpectPath(a[0]) && ExpectImmediate(a[1], 0, 7)
      case 4 => |a| == 2 && ExpectPath(a[0]) && ExpectWritable(a[1], 144)
      case 6 => |a| == 2 && ExpectPath(a[0]) && ExpectWritable(a[1], 144)
      case 63 => |a| == 1 && ExpectWritable(a[0], 390)
      case 96 => |a| == 2 && ExpectWritable(a[0], 16) && a[1] == Null
      case 97 => |a| == 2 && ExpectImmediate(a[0], 0, 15) && ExpectWritable(a[1], 16)
      case 79 => |a| == 2 && ExpectOutput(a[0], 1) && ExpectLength(a[1], a[0].room)
      case 89 => |a| == 3 && ExpectPath(a[0]) && ExpectOutput(a[1], 1) && ExpectLength(a[2], a[1].room)
      case 204 => |a| == 3 && ExpectImmediate(a[0], 0, 0) && ExpectOutput(a[2], 1) && ExpectLength(a[1], a[2].room)
      case 228 => |a| == 2 && a[0].Immediate? && a[0].value in {0, 1, 4, 5, 6, 7} && ExpectWritable(a[1], 16)
      case 318 =>
        && |a| == 3 && a[0].Output? && 0 < a[0].room <= MAX_ARG_CAPACITY
        && ExpectLength(a[1], a[0].room) && ExpectImmediate(a[2], 1, 1)
      case _ => false
    }
  }

  /** `validate_syscall`. */
  predicate HostCall(call: Call) {
    && |call.args| <= MAX_ARGS
    && (forall i :: 0 <= i < |call.args| ==> HostArg(call.args[i]))
    && HostShape(call)
  }

  function RawCapacity(args: seq<Arg>): nat {
    if args == [] then 0 else args[0].Capacity() + RawCapacity(args[1..])
  }

  function RawTotal(calls: seq<Call>): nat {
    if calls == [] then 0 else RawCapacity(calls[0].args) + RawTotal(calls[1..])
  }

  /** `SyscallProgram::validate`. */
  predicate HostProgram(calls: seq<Call>) {
    && 1 <= |calls| <= MAX_SYSCALLS
    && (forall i :: 0 <= i < |calls| ==> HostCall(calls[i]))
    && RawTotal(calls) <= ARENA_SIZE
  }

  /** Immediates are 64-bit words. */
  predicate WordArgs(call: Call) {
    forall i :: 0 <= i < |call.args| ==> call.args[i].Value() < Pow256(8)
  }

  /** The one call shape the host admits and the guest refuses. */
  predicate RlimitInOut(call: Call) {
    call.number == 97 && |call.args| == 2 && call.args[1].InOut?
  }

  lemma {:induction false} HostArgFits(a: Arg)
    requires HostArg(a) && a.Value() < Pow256(8)
    ensures ArgOk(a)
  {
    hide Pow256;
  }

  /** An empty path, which only the guest takes, in a call that is right in every other respect. */
  predicate EmptyPath(call: Call) {
    && call.number in {4, 6, 21, 89} && |call.args| > 0 && call.args[0] == Input([0])
    && HostShape(call.(args := call.args[0 := Input([1, 0])]))
  }

  lemma {:induction false} PathsDiffer(a: Arg)
    ensures CanonicalPath(a) <==> ExpectPath(a) || a == Input([0])
  {
    if a.Input? && a.data != [] {
      var front := a.data[..|a.data| - 1];
      assert 0 in front <==> exists i :: 0 <= i < |a.data| - 1 && a.data[i] == 0;
      assert |a.data| == 1 && a.data[0] == 0 ==> a.data == [0];
    }
  }

  /**
   * The two allowlists, written in C and in Rust, against each other: the guest's policy admits exactly what the host's
   * does, less getrlimit into an in/out buffer, plus empty paths. Capacities are bounded as both sides bound them before
   * looking at the call.
   */
  lemma {:induction false} PolicyVersusHost(call: Call)
    requires forall i :: 0 <= i < |call.args| ==> call.args[i].Capacity() <= MAX_ARG_CAPACITY
    ensures Policy(call) <==> (HostShape(call) && !RlimitInOut(call)) || EmptyPath(call)
    ensures Policy(call) || HostShape(call) ==> |call.args| <= 3
  {
    hide CanonicalPath, ExpectPath;
    if |call.args| > 0 {
      PathsDiffer(call.args[0]);
      PathsDiffer(Input([1, 0]));
      NonEmptyPath();
    }
  }

  lemma {:induction false} NonEmptyPath()
    ensures ExpectPath(Input([1, 0])) && !ExpectPath(Input([0]))
  {
    assert [1, 0][..1] == [1];
  }

  lemma {:induction false} HostRefusesEmptyPath(call: Call)
    requires EmptyPath(call)
    ensures !HostShape(call)
  {
    hide ExpectPath;
    NonEmptyPath();
  }

  /** An in/out buffer without initial bytes, which only the guest takes. */
  predicate BareInOut(call: Call) {
    exists i :: 0 <= i < |call.args| && call.args[i].InOut? && call.args[i].data == []
  }

  /** A call the guest admits is admitted by the host unless it has an empty path or an in/out buffer without bytes. */
  lemma {:induction false} GuestCallVersusHost(call: Call)
    requires CallOk(call)
    ensures HostCall(call) <==> !EmptyPath(call) && !BareInOut(call)
  {
    hide Pow256, HostShape, EmptyPath;
    PolicyVersusHost(call);
    if EmptyPath(call) { HostRefusesEmptyPath(call); }
    NoEmptyInput(call);
    forall i | 0 <= i < |call.args|
      ensures HostArg(call.args[i]) <==> !(call.args[i].InOut? && call.args[i].data == [])
    {
      assert ArgOk(call.args[i]);
    }
  }

  lemma {:induction false} NoEmptyInput(call: Call)
    requires Policy(call)
    ensures forall i :: 0 <= i < |call.args| && call.args[i].Input? ==> call.args[i].data != []
    ensures forall i :: 0 <= i < |call.args| && call.args[i].InOut? ==> call.args[i].room > 0
  {
  }

  /** A call the host admits is admitted by the guest unless it is getrlimit into an in/out buffer. */
  lemma {:induction false} HostCallVersusGuest(call: Call)
    requires HostCall(call) && WordArgs(call)
    ensures CallOk(call) <==> !RlimitInOut(call)
    ensures |call.args| <= 3
  {
    hide Pow256, Policy, HostShape, ExpectPath;
    PolicyVersusHost(call);
    if EmptyPath(call) { HostRefusesEmptyPath(call); }
    forall i | 0 <= i < |call.args| ensures ArgOk(call.args[i]) {
      HostArgFits(call.args[i]);
    }
  }

  /**
   * Exactly when the guest accepts a program the host has validated: no call is getrlimit into an in/out buffer, and
   * the capacities fit the arena once each buffer starts on a multiple of eight.
   */
  lemma {:induction false} HostVersusGuest(p: Program)
    requires HostProgram(p.calls) && forall i :: 0 <= i < |p.calls| ==> WordArgs(p.calls[i])
    requires |p.runId| == 16 && |p.key| == 32 && p.sequence < Pow256(8)
    ensures ProgramOk(p) <==>
      (forall i :: 0 <= i < |p.calls| ==> !RlimitInOut(p.calls[i])) && UsedAfterCalls(0, p.calls) <= ARENA_SIZE
  {
    hide HostCall, CallOk, WordArgs, RlimitInOut, Pow256, UsedAfterCalls, RawTotal;
    forall i | 0 <= i < |p.calls| ensures CallOk(p.calls[i]) <==> !RlimitInOut(p.calls[i]) {
      HostCallVersusGuest(p.calls[i]);
    }
  }

  lemma {:induction false} RawBelowAligned(used: nat, args: seq<Arg>)
    ensures used + RawCapacity(args) <= UsedAfterAll(used, args)
    decreases |args|
  {
    if args != [] { RawBelowAligned(UsedAfter(used, args[0]), args[1..]); }
  }

  lemma {:induction false} RawTotalBelowAligned(used: nat, calls: seq<Call>)
    ensures used + RawTotal(calls) <= UsedAfterCalls(used, calls)
    decreases |calls|
  {
    if calls != [] {
      RawBelowAligned(used, calls[0].args);
      RawTotalBelowAligned(UsedAfterAll(used, calls[0].args), calls[1..]);
    }
  }

  /** Exactly when the host accepts a program the guest accepts: no call has an empty path or a bare in/out buffer. */
  lemma {:induction false} GuestVersusHost(p: Program)
    requires ProgramOk(p)
    ensures HostProgram(p.calls) <==>
      forall i :: 0 <= i < |p.calls| ==> !EmptyPath(p.calls[i]) && !BareInOut(p.calls[i])
  {
    hide HostCall, CallOk, EmptyPath, BareInOut, Pow256, UsedAfterCalls, RawTotal;
    RawTotalBelowAligned(0, p.calls);
    forall i | 0 <= i < |p.calls|
      ensures HostCall(p.calls[i]) <==> !EmptyPath(p.calls[i]) && !BareInOut(p.calls[i])
    {
      assert CallOk(p.calls[i]);
      GuestCallVersusHost(p.calls[i]);
    }
  }

  /** getrlimit with an in/out buffer passes the host and not the guest. */
  lemma {:induction false} RlimitGap()
    ensures var c := Call(97, [Immediate(0), InOut([0], 16)]); HostProgram([c]) && !Policy(c)
  {
    var args := [Immediate(0), InOut([0], 16)];
    assert args[1..] == [InOut([0], 16)] && args[1..][1..] == [];
    assert RawCapacity(args) == 16;
    assert [Call(97, args)][1..] == [];
  }

  function Many(n: nat): seq<Call> {
    if n == 0 then [] else [Call(318, [Output(1305), Immediate(1), Immediate(1)])] + Many(n - 1)
  }

  lemma {:induction false} ManyIs(n: nat, used: nat)
    ensures |Many(n)| == n && RawTotal(Many(n)) == 1305 * n
    ensures forall i :: 0 <= i < n ==> HostCall(Many(n)[i])
    ensures n > 0 ==> UsedAfterCalls(used, Many(n)) == Align8(used) + 1312 * (n - 1) + 1305
    decreases n
  {
    if n != 0 {
      var c := Call(318, [Output(1305), Immediate(1), Immediate(1)]);
      OneIs(c, used);
      assert Many(n)[1..] == Many(n - 1);
      ManyIs(n - 1, Align8(used) + 1305);
    }
  }

  lemma {:induction false} OneIs(c: Call, used: nat)
    requires c == Call(318, [Output(1305), Immediate(1), Immediate(1)])
    ensures HostCall(c) && RawCapacity(c.args) == 1305 && UsedAfterAll(used, c.args) == Align8(used) + 1305
  {
    var a := c.args;
    assert a[1..] == [Immediate(1), Immediate(1)] && a[1..][1..] == [Immediate(1)] && a[1..][1..][1..] == [];
  }

  /** A hundred 1305-byte buffers pass the host's unaligned sum and overflow the guest's aligned arena. */
  lemma {:induction false} ArenaGap(n: nat)
    requires n == 100
    ensures HostProgram(Many(n)) && UsedAfterCalls(0, Many(n)) > ARENA_SIZE
  {
    hide Many, HostCall, RawTotal, UsedAfterCalls;
    ManyIs(n, 0);
  }
}
