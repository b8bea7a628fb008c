/**
 The contended shared-counter round of the stress runner: N forked workers, a
 start barrier, a spin lock, and a deliberate contention seed in which worker 0
 takes the lock before the barrier and keeps it until another worker has failed
 to take it. Every atomic operation on the shared region is one step; the
 unprotected `counter += 1` is a load step and a store step. A run is any
 sequence of worker and parent steps.
 */
module SmpStress {
  import opened Common
  import opened Arith
  import opened Bits

  const WORD32: nat := 0x1_0000_0000
  const MAX_WORKERS: nat := 64

  /** `start(i)` is worker i's initial accumulator and `mix` the checksum step. */
  datatype Config = Config(workers: nat, iterations: nat, start: nat -> nat, mix: (nat, nat) -> nat)

  ghost predicate Valid(c: Config) {
    && 1 <= c.workers <= MAX_WORKERS
    && c.iterations < TWO_64
  }

  datatype Pc =
    | Unborn
    | Acquire            // the atomic exchange of spin_lock_acquire
    | Mark               // the store to `contended` after a failed exchange
    | Arrive             // fetch_add on start_ready
    | Await              // the barrier's load loop
    | SeedWait           // worker 0's load loop on `contended`
    | Load
    | Store(value: nat)
    | Release
    | AddSpins
    | SetDone
    | Publish
    | Done

  /**
   One worker. `seeding` is true until worker 0 has released the seed lock,
   `fails` is the number of failed exchanges; the source's `local_spins` is
   `fails` modulo 2^64.
   */
  datatype Worker = Worker(pc: Pc, seeding: bool, iter: nat, fails: nat, acc: nat)

  datatype Parent = Forking | OpenBarrier | OpenSeed | Reaping

  /** The words of the shared region; `doneLow` and `doneHigh` are the one bits of those words. */
  datatype Shared = Shared(
    lock: bool,
    ready: nat,
    contended: bool,
    counter: nat,
    spins: nat,
    doneLow: set<nat>,
    doneHigh: set<nat>,
    results: map<nat, nat>)

  datatype State = State(sh: Shared, ws: seq<Worker>, parent: Parent, born: nat)

  /** `Parent(ok)` is the parent's next action; `ok` is the outcome if it is a fork. */
  datatype Event = Parent(ok: bool) | Step(index: nat)

  // ----- the transition function

  predicate Seeds(c: Config, i: nat) {
    i == 0 && c.workers >= 2
  }

  function Newborn(c: Config, i: nat): Worker {
    Worker(if Seeds(c, i) then Acquire else Arrive, Seeds(c, i), 0, 0, c.start(i))
  }

  function Init(c: Config): State {
    State(Shared(false, 0, false, 0, 0, {}, {}, map[]),
          seq(c.workers, i => Worker(Unborn, false, 0, 0, 0)), Forking, 0)
  }

  function LoopHead(c: Config, iter: nat): Pc {
    if iter < c.iterations then Acquire else AddSpins
  }

  /** Worker i, now `w`, takes its next step on the shared words `sh`. */
  function Act(c: Config, i: nat, w: Worker, sh: Shared): (Worker, Shared) {
    match w.pc
    case Unborn => (w, sh)
    case Acquire =>
      if sh.lock then (w.(pc := Mark, fails := w.fails + 1), sh)
      else (w.(pc := if w.seeding then Arrive else Load), sh.(lock := true))
    case Mark => (w.(pc := Acquire), sh.(contended := true))
    case Arrive => (w.(pc := Await), sh.(ready := (sh.ready + 1) % WORD32))
    case Await =>
      if sh.ready < c.workers then (w, sh)
      else (w.(pc := if w.seeding then SeedWait else LoopHead(c, 0)), sh)
    case SeedWait => if sh.contended then (w.(pc := Load), sh) else (w, sh)
    case Load => (w.(pc := Store(sh.counter)), sh)
    case Store(v) => (w.(pc := Release), sh.(counter := (v + 1) % TWO_64))
    case Release =>
      (Worker(LoopHead(c, w.iter + 1), false, w.iter + 1, w.fails, c.mix(w.acc, w.iter)),
       sh.(lock := false))
    case AddSpins => (w.(pc := SetDone), sh.(spins := (sh.spins + w.fails % TWO_64) % TWO_64))
    case SetDone =>
      if i < 32 then (w.(pc := Publish), sh.(doneLow := sh.doneLow + {i}))
      else (w.(pc := Publish), sh.(doneHigh := sh.doneHigh + {i - 32}))
    case Publish => (w.(pc := Done), sh.(results := sh.results[i := w.acc]))
    case Done => (w, sh)
  }

  function WorkerStep(c: Config, s: State, i: nat): State
    requires i < |s.ws|
  {
    var (w, sh) := Act(c, i, s.ws[i], s.sh);
    s.(ws := s.ws[i := w], sh := sh)
  }

  /** The parent forks the workers in order; a failed fork opens the barrier and the seed. */
  function ParentStep(c: Config, s: State, ok: bool): State {
    match s.parent
    case Forking =>
      if s.born >= |s.ws| then s
      else if ok then
        State(s.sh, s.ws[s.born := Newborn(c, s.born)],
              if s.born + 1 == c.workers then Reaping else Forking, s.born + 1)
      else s.(parent := OpenBarrier)
    case OpenBarrier => s.(sh := s.sh.(ready := WORD32 - 1), parent := OpenSeed)
    case OpenSeed => s.(sh := s.sh.(contended := true), parent := Reaping)
    case Reaping => s
  }

  function Next(c: Config, s: State, e: Event): State {
    match e
    case Parent(ok) => ParentStep(c, s, ok)
    case Step(i) => if i < |s.ws| then WorkerStep(c, s, i) else s
  }

  function Run(c: Config, events: seq<Event>): (s: State)
    ensures |s.ws| == c.workers
  {
    if events == [] then Init(c)
    else Next(c, Run(c, events[..|events| - 1]), events[|events| - 1])
  }

  // ----- sums over the workers

  function Sum(f: Worker -> nat, ws: seq<Worker>): nat {
    if ws == [] then 0 else f(ws[0]) + Sum(f, ws[1..])
  }

  lemma {:induction false} SumUpdate(f: Worker -> nat, ws: seq<Worker>, i: nat, w: Worker)
    requires i < |ws|
    ensures Sum(f, ws[i := w]) + f(ws[i]) == Sum(f, ws) + f(w)
  {
    if i == 0 {
      assert ws[i := w][1..] == ws[1..];
    } else {
      SumUpdate(f, ws[1..], i - 1, w);
      assert ws[i := w][1..] == ws[1..][i - 1 := w];
    }
  }

  lemma {:induction false} SumMember(f: Worker -> nat, ws: seq<Worker>, i: nat)
    requires i < |ws|
    ensures f(ws[i]) <= Sum(f, ws)
  {
    if i > 0 { SumMember(f, ws[1..], i - 1); }
  }

  lemma {:induction false} SumPair(f: Worker -> nat, ws: seq<Worker>, i: nat, j: nat)
    requires i < j < |ws|
    ensures f(ws[i]) + f(ws[j]) <= Sum(f, ws)
  {
    if i == 0 { SumMember(f, ws[1..], j - 1); } else { SumPair(f, ws[1..], i - 1, j - 1); }
  }

  lemma {:induction false} SumConstant(f: Worker -> nat, ws: seq<Worker>, k: nat)
    requires forall i :: 0 <= i < |ws| ==> f(ws[i]) == k
    ensures Sum(f, ws) == |ws| * k
  {
    if ws != [] {
      assert f(ws[0]) == k;
      SumConstant(f, ws[1..], k);
    }
  }

  lemma {:induction false} SumBounded(f: Worker -> nat, ws: seq<Worker>)
    requires forall i :: 0 <= i < |ws| ==> f(ws[i]) <= 1
    ensures Sum(f, ws) <= |ws|
    ensures Sum(f, ws) == |ws| ==> forall i :: 0 <= i < |ws| ==> f(ws[i]) == 1
  {
    if ws != [] {
      assert f(ws[0]) <= 1;
      SumBounded(f, ws[1..]);
      assert forall i :: 1 <= i < |ws| ==> ws[i] == ws[1..][i - 1];
    }
  }

  lemma {:induction false} SumWitness(f: Worker -> nat, ws: seq<Worker>) returns (i: nat)
    requires Sum(f, ws) > 0
    ensures i < |ws| && f(ws[i]) > 0
  {
    if f(ws[0]) > 0 { i := 0; } else { i := SumWitness(f, ws[1..]); i := i + 1; }
  }

  // ----- what each worker contributes

  predicate Holding(w: Worker) {
    (w.seeding && (w.pc.Arrive? || w.pc.Await? || w.pc.SeedWait?))
    || w.pc.Load? || w.pc.Store? || w.pc.Release?
  }

  predicate HasArrived(w: Worker) {
    !w.pc.Unborn? && !w.pc.Arrive? && !(w.seeding && (w.pc.Acquire? || w.pc.Mark?))
  }

  predicate PastBarrier(w: Worker) {
    HasArrived(w) && !w.pc.Await?
  }

  /** Of worker 0: it has seen `contended`. */
  predicate SeedSpent(w: Worker) {
    !w.seeding || w.pc.Load? || w.pc.Store? || w.pc.Release?
  }

  predicate Reported(w: Worker) {
    w.pc.SetDone? || w.pc.Publish? || w.pc.Done?
  }

  function Holds(w: Worker): nat { if Holding(w) then 1 else 0 }
  function Arrived(w: Worker): nat { if HasArrived(w) then 1 else 0 }
  function Added(w: Worker): nat { w.iter + (if w.pc.Release? then 1 else 0) }
  function Fails(w: Worker): nat { w.fails }
  function ReportedFails(w: Worker): nat { if Reported(w) then w.fails else 0 }

  /** The checksum worker i must publish: `mix` over 0, 1, .., n - 1. */
  function Chain(c: Config, i: nat, n: nat): nat {
    if n == 0 then c.start(i) else c.mix(Chain(c, i, n - 1), n - 1)
  }

  // ----- the invariant

  ghost predicate WorkerOk(c: Config, i: nat, w: Worker) {
    && (w.seeding ==> Seeds(c, i) && w.iter == 0 && !w.pc.Unborn?
                      && !w.pc.AddSpins? && !Reported(w))
    && (w.pc.SeedWait? ==> w.seeding)
    && (Seeds(c, i) && !w.seeding && !w.pc.Unborn? ==> w.iter > 0)
    && (w.pc.Unborn? || w.pc.Arrive? || w.pc.Await? ==> w.iter == 0)
    && (w.pc.Unborn? ==> w.fails == 0)
    && (w.pc.Mark? ==> w.fails > 0)
    && (w.pc.Acquire? || w.pc.Mark? || w.pc.SeedWait? || w.pc.Load? || w.pc.Store? || w.pc.Release?
        ==> w.iter < c.iterations)
    && (w.pc.AddSpins? || Reported(w) ==> w.iter == c.iterations)
    && (!w.pc.Unborn? ==> w.acc == Chain(c, i, w.iter))
  }

  ghost predicate Shape(c: Config, s: State) {
    && |s.ws| == c.workers
    && s.born <= c.workers
    && (s.parent.Forking? || s.parent.OpenBarrier? || s.parent.OpenSeed? ==> s.born < c.workers)
    && (forall i :: 0 <= i < |s.ws| ==> (s.ws[i].pc.Unborn? <==> s.born <= i))
    && (forall i :: 0 <= i < |s.ws| ==> WorkerOk(c, i, s.ws[i]))
  }

  /** The parent has stored UINT32_MAX to `start_ready` after a failed fork. */
  predicate Opened(c: Config, s: State) {
    s.parent.OpenSeed? || (s.parent.Reaping? && s.born < c.workers)
  }

  ghost predicate LockInv(s: State) {
    Sum(Holds, s.ws) == if s.sh.lock then 1 else 0
  }

  ghost predicate StoresFresh(ws: seq<Worker>, counter: nat) {
    forall i :: 0 <= i < |ws| && ws[i].pc.Store? ==> ws[i].pc.value == counter
  }

  ghost predicate CounterInv(s: State) {
    && s.sh.counter == Sum(Added, s.ws) % TWO_64
    && StoresFresh(s.ws, s.sh.counter)
  }

  ghost predicate BarrierInv(c: Config, s: State) {
    !Opened(c, s) ==>
      && s.sh.ready == Sum(Arrived, s.ws)
      && forall i :: 0 <= i < |s.ws| && PastBarrier(s.ws[i]) ==> s.sh.ready == c.workers
  }

  ghost predicate SpinInv(c: Config, s: State)
    requires |s.ws| == c.workers
  {
    && s.sh.spins == Sum(ReportedFails, s.ws) % TWO_64
    && (s.sh.contended && !Opened(c, s) ==> Sum(Fails, s.ws) > 0)
    && (c.workers >= 2 && s.born > 0 && SeedSpent(s.ws[0]) ==> s.sh.contended)
    && (c.workers == 1 ==> Sum(Fails, s.ws) == 0)
  }

  /** Until worker 0 gives up the seed lock no other worker completes an iteration. */
  ghost predicate SeedInv(c: Config, s: State)
    requires |s.ws| == c.workers
  {
    c.workers >= 2 && !Opened(c, s) && s.ws[0].seeding ==>
      forall j :: 1 <= j < |s.ws| ==> s.ws[j].iter == 0
  }

  ghost predicate Flagged(sh: Shared, i: nat) {
    if i < 32 then i in sh.doneLow else i - 32 in sh.doneHigh
  }

  ghost predicate WorkerReport(sh: Shared, i: nat, w: Worker) {
    && (w.pc.Publish? || w.pc.Done? <==> Flagged(sh, i))
    && (w.pc.Done? ==> i in sh.results && sh.results[i] == w.acc)
  }

  ghost predicate ReportInv(s: State) {
    && (forall b :: b in s.sh.doneLow ==> b < 32 && b < |s.ws|)
    && (forall b :: b in s.sh.doneHigh ==> b + 32 < |s.ws|)
    && (forall i :: 0 <= i < |s.ws| ==> WorkerReport(s.sh, i, s.ws[i]))
  }

  ghost predicate Inv(c: Config, s: State) {
    && Shape(c, s)
    && LockInv(s)
    && CounterInv(s)
    && BarrierInv(c, s)
    && SpinInv(c, s)
    && SeedInv(c, s)
    && ReportInv(s)
  }

  /** The configurations whose rounds can end; see `ZeroIterationsHang`. */
  ghost predicate Live(c: Config) {
    Valid(c) && (c.iterations >= 1 || c.workers == 1)
  }

  // ----- what one action does to the acting worker and the shared words

  lemma {:induction false} ActOk(c: Config, i: nat, w: Worker, sh: Shared)
    requires Live(c) && WorkerOk(c, i, w)
    ensures WorkerOk(c, i, Act(c, i, w, sh).0)
    ensures Act(c, i, w, sh).0.pc.Unborn? <==> w.pc.Unborn?
  {
  }

  lemma {:induction false} ActLock(c: Config, i: nat, w: Worker, sh: Shared)
    requires WorkerOk(c, i, w) && (Holding(w) ==> sh.lock)
    ensures var (w', sh') := Act(c, i, w, sh);
            Holds(w') + (if sh.lock then 1 else 0) == Holds(w) + (if sh'.lock then 1 else 0)
  {
  }

  lemma {:induction false} ActCounter(c: Config, i: nat, w: Worker, sh: Shared)
    ensures var (w', sh') := Act(c, i, w, sh);
            if w.pc.Store? then sh'.counter == (w.pc.value + 1) % TWO_64 && Added(w') == Added(w) + 1
            else sh'.counter == sh.counter && Added(w') == Added(w)
    ensures Act(c, i, w, sh).0.pc.Store? ==> w.pc.Load? && Act(c, i, w, sh).0.pc.value == sh.counter
  {
  }

  lemma {:induction false} ActBarrier(c: Config, i: nat, w: Worker, sh: Shared)
    ensures var (w', sh') := Act(c, i, w, sh);
            && (if w.pc.Arrive? then sh'.ready == (sh.ready + 1) % WORD32 else sh'.ready == sh.ready)
            && Arrived(w') == Arrived(w) + (if w.pc.Arrive? then 1 else 0)
            && (PastBarrier(w') ==> PastBarrier(w) || (w.pc.Await? && sh.ready >= c.workers))
  {
  }

  lemma {:induction false} ActSpins(c: Config, i: nat, w: Worker, sh: Shared)
    requires WorkerOk(c, i, w)
    ensures var (w', sh') := Act(c, i, w, sh);
            && (if w.pc.AddSpins?
                then sh'.spins == (sh.spins + w.fails % TWO_64) % TWO_64
                     && ReportedFails(w') == ReportedFails(w) + w.fails
                else sh'.spins == sh.spins && ReportedFails(w') == ReportedFails(w))
            && w'.fails == w.fails + (if w.pc.Acquire? && sh.lock then 1 else 0)
            && sh'.contended == (sh.contended || w.pc.Mark?)
            && (SeedSpent(w') ==> SeedSpent(w) || sh.contended)
  {
  }

  lemma {:induction false} ActSeed(c: Config, i: nat, w: Worker, sh: Shared)
    ensures var w' := Act(c, i, w, sh).0;
            && (w'.seeding ==> w.seeding)
            && w'.iter == w.iter + (if w.pc.Release? then 1 else 0)
            && (w.pc.Release? ==> !w'.seeding)
  {
  }

  lemma {:induction false} ActReport(c: Config, i: nat, w: Worker, sh: Shared)
    requires WorkerReport(sh, i, w)
    ensures WorkerReport(Act(c, i, w, sh).1, i, Act(c, i, w, sh).0)
  {
  }

  lemma {:induction false} ActReportOther(c: Config, i: nat, w: Worker, sh: Shared, j: nat, v: Worker)
    requires WorkerReport(sh, j, v) && j != i
    ensures WorkerReport(Act(c, i, w, sh).1, j, v)
  {
  }

  // ----- every step keeps the invariant

  lemma {:induction false} InitInv(c: Config)
    requires Live(c)
    ensures Inv(c, Init(c))
  {
    var s := Init(c);
    SumConstant(Holds, s.ws, 0);
    SumConstant(Arrived, s.ws, 0);
    SumConstant(Added, s.ws, 0);
    SumConstant(Fails, s.ws, 0);
    SumConstant(ReportedFails, s.ws, 0);
  }

  /** Mutual exclusion. */
  lemma {:induction false} OneHolder(s: State, i: nat, j: nat)
    requires LockInv(s)
    requires i < |s.ws| && j < |s.ws| && Holding(s.ws[i]) && Holding(s.ws[j])
    ensures i == j && s.sh.lock
  {
    SumMember(Holds, s.ws, i);
    if i < j { SumPair(Holds, s.ws, i, j); }
    if j < i { SumPair(Holds, s.ws, j, i); }
  }

  lemma {:induction false} StepKeepsShape(c: Config, s: State, i: nat)
    requires Live(c) && Shape(c, s) && i < |s.ws|
    ensures Shape(c, WorkerStep(c, s, i))
  {
    ActOk(c, i, s.ws[i], s.sh);
  }

  lemma {:induction false} StepKeepsLock(c: Config, s: State, i: nat)
    requires i < |s.ws| && WorkerOk(c, i, s.ws[i]) && LockInv(s)
    ensures LockInv(WorkerStep(c, s, i))
  {
    var (w, sh) := Act(c, i, s.ws[i], s.sh);
    SumMember(Holds, s.ws, i);
    ActLock(c, i, s.ws[i], s.sh);
    SumUpdate(Holds, s.ws, i, w);
  }

  lemma {:induction false} StepKeepsCounter(c: Config, s: State, i: nat)
    requires i < |s.ws| && LockInv(s) && CounterInv(s)
    ensures CounterInv(WorkerStep(c, s, i))
  {
    var (w, sh) := Act(c, i, s.ws[i], s.sh);
    ActCounter(c, i, s.ws[i], s.sh);
    SumUpdate(Added, s.ws, i, w);
    forall j | 0 <= j < |s.ws| && j != i && s.ws[j].pc.Store? ensures s.ws[j].pc.value == sh.counter {
      if s.ws[i].pc.Store? { OneHolder(s, i, j); }
    }
  }

  lemma {:induction false} StepKeepsBarrier(c: Config, s: State, i: nat)
    requires Valid(c) && |s.ws| == c.workers && i < |s.ws| && BarrierInv(c, s)
    ensures BarrierInv(c, WorkerStep(c, s, i))
  {
    var (w, sh) := Act(c, i, s.ws[i], s.sh);
    ActBarrier(c, i, s.ws[i], s.sh);
    SumUpdate(Arrived, s.ws, i, w);
    SumBounded(Arrived, s.ws);
    SumBounded(Arrived, s.ws[i := w]);
  }

  lemma {:induction false} StepKeepsSpinSum(c: Config, s: State, i: nat)
    requires i < |s.ws| && WorkerOk(c, i, s.ws[i])
    requires s.sh.spins == Sum(ReportedFails, s.ws) % TWO_64
    ensures var s' := WorkerStep(c, s, i); s'.sh.spins == Sum(ReportedFails, s'.ws) % TWO_64
  {
    hide Act, Sum, WorkerOk, ReportedFails;
    ModSum(Sum(ReportedFails, s.ws), s.ws[i].fails, TWO_64);
    ActSpins(c, i, s.ws[i], s.sh);
    SumUpdate(ReportedFails, s.ws, i, Act(c, i, s.ws[i], s.sh).0);
  }

  /** With a single worker the lock is free at every acquire. */
  lemma {:induction false} LoneWorker(s: State, i: nat)
    requires LockInv(s) && |s.ws| == 1 && i == 0 && s.ws[i].pc.Acquire?
    ensures !s.sh.lock
  {
    if s.sh.lock { var h := SumWitness(Holds, s.ws); }
  }

  lemma {:induction false} StepKeepsSpins(c: Config, s: State, i: nat)
    requires |s.ws| == c.workers && i < |s.ws| && WorkerOk(c, i, s.ws[i]) && LockInv(s) && SpinInv(c, s)
    ensures SpinInv(c, WorkerStep(c, s, i))
  {
    StepKeepsSpinSum(c, s, i);
    ActSpins(c, i, s.ws[i], s.sh);
    SumUpdate(Fails, s.ws, i, Act(c, i, s.ws[i], s.sh).0);
    SumMember(Fails, s.ws, i);
    if c.workers == 1 && s.ws[i].pc.Acquire? { LoneWorker(s, i); }
  }

  /** While worker 0 is seeding and some worker is past the barrier, only worker 0 holds the lock. */
  lemma {:induction false} SeederHolds(c: Config, s: State, j: nat)
    requires Shape(c, s) && LockInv(s) && BarrierInv(c, s) && !Opened(c, s)
    requires c.workers >= 2 && s.ws[0].seeding && j < |s.ws| && Holding(s.ws[j]) && PastBarrier(s.ws[j])
    ensures j == 0
  {
    SumBounded(Arrived, s.ws);
    assert Arrived(s.ws[0]) == 1;
    assert WorkerOk(c, 0, s.ws[0]);
    assert Holding(s.ws[0]) by { assert WorkerOk(c, j, s.ws[j]); }
    OneHolder(s, 0, j);
  }

  lemma {:induction false} StepKeepsSeed(c: Config, s: State, i: nat)
    requires Shape(c, s) && LockInv(s) && BarrierInv(c, s) && SeedInv(c, s) && i < |s.ws|
    ensures SeedInv(c, WorkerStep(c, s, i))
  {
    var (w, sh) := Act(c, i, s.ws[i], s.sh);
    ActSeed(c, i, s.ws[i], s.sh);
    if c.workers >= 2 && !Opened(c, s) && s.ws[0].seeding && s.ws[i].pc.Release? {
      SeederHolds(c, s, i);
    }
  }

  lemma {:induction false} StepKeepsReports(c: Config, s: State, i: nat)
    requires i < |s.ws| && ReportInv(s)
    ensures ReportInv(WorkerStep(c, s, i))
  {
    var s' := WorkerStep(c, s, i);
    forall j | 0 <= j < |s.ws| ensures WorkerReport(s'.sh, j, s'.ws[j]) {
      if j == i { ActReport(c, i, s.ws[i], s.sh); } else { ActReportOther(c, i, s.ws[i], s.sh, j, s.ws[j]); }
    }
  }

  lemma {:induction false} ForkSums(c: Config, s: State, f: Worker -> nat)
    requires Shape(c, s) && s.parent.Forking?
    requires f(Newborn(c, s.born)) == 0 && forall w: Worker :: w.pc.Unborn? && w.iter == 0 && w.fails == 0 ==> f(w) == 0
    ensures Sum(f, ParentStep(c, s, true).ws) == Sum(f, s.ws)
  {
    assert WorkerOk(c, s.born, s.ws[s.born]);
    SumUpdate(f, s.ws, s.born, Newborn(c, s.born));
  }

  lemma {:induction false} ForkKeepsShape(c: Config, s: State)
    requires Live(c) && Shape(c, s) && s.parent.Forking?
    ensures Shape(c, ParentStep(c, s, true))
  {
    assert WorkerOk(c, s.born, Newborn(c, s.born));
  }

  lemma {:induction false} ForkKeepsInv(c: Config, s: State)
    requires Live(c) && Inv(c, s) && s.parent.Forking?
    ensures Inv(c, ParentStep(c, s, true))
  {
    ForkKeepsShape(c, s);
    ForkSums(c, s, Holds);
    ForkSums(c, s, Arrived);
    ForkSums(c, s, Added);
    ForkSums(c, s, Fails);
    ForkSums(c, s, ReportedFails);
    assert s.ws[s.born].pc.Unborn? && WorkerReport(s.sh, s.born, s.ws[s.born]);
  }

  lemma {:induction false} ParentKeepsInv(c: Config, s: State, ok: bool)
    requires Live(c) && Inv(c, s)
    ensures Inv(c, ParentStep(c, s, ok))
  {
    hide Act;
    if s.parent.Forking? && ok { ForkKeepsInv(c, s); }
  }

  lemma {:induction false} NextKeepsInv(c: Config, s: State, e: Event)
    requires Live(c) && Inv(c, s)
    ensures Inv(c, Next(c, s, e))
  {
    match e
    case Parent(ok) => ParentKeepsInv(c, s, ok);
    case Step(i) =>
      if i < |s.ws| {
        StepKeepsShape(c, s, i);
        StepKeepsLock(c, s, i);
        StepKeepsCounter(c, s, i);
        StepKeepsBarrier(c, s, i);
        StepKeepsSpins(c, s, i);
        StepKeepsSeed(c, s, i);
        StepKeepsReports(c, s, i);
      }
  }

  lemma {:induction false} RunInv(c: Config, events: seq<Event>)
    requires Live(c)
    ensures Inv(c, Run(c, events))
  {
    if events == [] {
      InitInv(c);
    } else {
      var prefix := events[..|events| - 1];
      RunInv(c, prefix);
      NextKeepsInv(c, Run(c, prefix), events[|events| - 1]);
    }
  }

  // ----- safety of whole rounds

  ghost predicate AllDone(s: State) {
    forall i :: 0 <= i < |s.ws| ==> s.ws[i].pc.Done?
  }

  /** The value of the low `n` bits of a word given by its one bits. */
  function WordValue(bits: set<nat>, n: nat): nat {
    if n == 0 then 0 else WordValue(bits, n - 1) + (if n - 1 in bits then Pow2(n - 1) else 0)
  }

  function DoneMask(s: State): nat {
    WordValue(s.sh.doneLow, 32) + Pow2(32) * WordValue(s.sh.doneHigh, 32)
  }

  lemma {:induction false} WordOfPrefix(bits: set<nat>, k: nat, n: nat)
    requires k <= n && forall b: nat :: b < n ==> (b in bits <==> b < k)
    ensures WordValue(bits, n) == Pow2(k) - 1
  {
    if n > k {
      WordOfPrefix(bits, k, n - 1);
    } else if n > 0 {
      WordOfPrefix(bits, k - 1, n - 1) by {
        assert forall b: nat :: b < n - 1 ==> (b in bits <==> b < k - 1);
      }
    }
  }

  lemma {:induction false} FlaggedExactly(s: State, b: nat)
    requires ReportInv(s) && AllDone(s)
    ensures b < 32 ==> (b in s.sh.doneLow <==> b < |s.ws|)
    ensures b in s.sh.doneHigh <==> b + 32 < |s.ws|
  {
    if b < |s.ws| { assert WorkerReport(s.sh, b, s.ws[b]); }
    if b + 32 < |s.ws| { assert WorkerReport(s.sh, b + 32, s.ws[b + 32]); }
  }

  lemma {:induction false} TwoWords(low: set<nat>, high: set<nat>, n: nat, half: nat)
    requires n <= 2 * half
    requires forall b: nat :: b < half ==> (b in low <==> b < n)
    requires forall b: nat :: b in high <==> b + half < n
    ensures WordValue(low, half) + Pow2(half) * WordValue(high, half) == Pow2(n) - 1
  {
    if n <= half {
      WordOfPrefix(low, n, half);
      assert WordValue(high, half) == 0 by {
        assert forall b: nat :: b < half ==> (b in high <==> b < 0);
        WordOfPrefix(high, 0, half);
      }
    } else {
      var p, q := Pow2(half), Pow2(n - half);
      assert WordValue(low, half) == p - 1 by { WordOfPrefix(low, half, half); }
      assert WordValue(high, half) == q - 1 by { WordOfPrefix(high, n - half, half); }
      Pow2Sum(half, n - half);
      Join(p, q);
    }
  }

  lemma {:induction false} Join(p: int, q: int)
    ensures (p - 1) + p * (q - 1) == p * q - 1
  {
  }

  lemma {:induction false} MaskOfAll(s: State)
    requires ReportInv(s) && AllDone(s) && |s.ws| <= 64
    ensures DoneMask(s) == Pow2(|s.ws|) - 1
  {
    forall b: nat
      ensures b < 32 ==> (b in s.sh.doneLow <==> b < |s.ws|)
      ensures b in s.sh.doneHigh <==> b + 32 < |s.ws|
    {
      FlaggedExactly(s, b);
    }
    TwoWords(s.sh.doneLow, s.sh.doneHigh, |s.ws|, 32);
  }

  /**
   A finished round reports exactly `workers * iterations` increments (modulo the
   64-bit word), a done mask with exactly the low `workers` bits, the checksum chain
   of every worker, and the number of failed acquires, which is positive exactly
   when there was someone to contend with.
   */
  lemma {:induction false} FinishedRound(c: Config, events: seq<Event>)
    requires Live(c) && AllDone(Run(c, events))
    ensures var s := Run(c, events);
            && s.sh.counter == (c.workers * c.iterations) % TWO_64
            && DoneMask(s) == Pow2(c.workers) - 1
            && s.sh.spins == Sum(Fails, s.ws) % TWO_64
            && (Sum(Fails, s.ws) > 0 <==> c.workers >= 2)
            && forall i :: 0 <= i < c.workers ==> i in s.sh.results && s.sh.results[i] == Chain(c, i, c.iterations)
  {
    var s := Run(c, events);
    RunInv(c, events);
    forall i | 0 <= i < |s.ws|
      ensures Added(s.ws[i]) == c.iterations
      ensures i in s.sh.results && s.sh.results[i] == Chain(c, i, c.iterations)
    {
      assert WorkerOk(c, i, s.ws[i]) && WorkerReport(s.sh, i, s.ws[i]);
    }
    SumConstant(Added, s.ws, c.iterations);
    MaskOfAll(s);
    SameSum(s.ws);
    assert !s.ws[0].pc.Unborn? && !s.ws[|s.ws| - 1].pc.Unborn?;
  }

  lemma {:induction false} SameSum(ws: seq<Worker>)
    requires forall i :: 0 <= i < |ws| ==> ws[i].pc.Done?
    ensures Sum(ReportedFails, ws) == Sum(Fails, ws)
  {
    if ws != [] {
      assert ws[0].pc.Done?;
      SameSum(ws[1..]);
    }
  }

  /** No two workers are ever between taking and releasing the lock. */
  lemma {:induction false} MutualExclusion(c: Config, events: seq<Event>, i: nat, j: nat)
    requires Live(c) && i < c.workers && j < c.workers
    requires Holding(Run(c, events).ws[i]) && Holding(Run(c, events).ws[j])
    ensures i == j && Run(c, events).sh.lock
  {
    RunInv(c, events);
    OneHolder(Run(c, events), i, j);
  }

  /**
   While no fork has failed: once any worker is past the barrier, worker 0 has the
   seed lock or has already counted its first iteration.
   */
  lemma {:induction false} SeedComesFirst(c: Config, events: seq<Event>, j: nat)
    requires Live(c) && c.workers >= 2 && j < c.workers
    requires PastBarrier(Run(c, events).ws[j]) && !Opened(c, Run(c, events))
    ensures var w := Run(c, events).ws[0]; Holding(w) || w.iter > 0
  {
    var s := Run(c, events);
    RunInv(c, events);
    SumBounded(Arrived, s.ws);
    assert Arrived(s.ws[0]) == 1;
    assert WorkerOk(c, 0, s.ws[0]);
  }

  // ----- progress: a rank that never grows and a helpful actor that lowers it

  /** Steps worker `w` still has to take if nothing holds it up. */
  function Rank(c: Config, w: Worker): nat {
    var left := 3 + if w.iter <= c.iterations then 4 * (c.iterations - w.iter) else 0;
    match w.pc
    case Unborn => 4 * c.iterations + 7
    case Acquire => if w.seeding then left + 3 else left
    case Mark => if w.seeding then left + 3 else left
    case Arrive => left + 2
    case Await => left + 1
    case SeedWait => left
    case Load => left - 1
    case Store(_) => left - 2
    case Release => left - 3
    case AddSpins => 3
    case SetDone => 2
    case Publish => 1
    case Done => 0
  }

  function RankOf(c: Config): Worker -> nat { (w: Worker) => Rank(c, w) }

  function ParentRank(p: Parent): nat {
    match p
    case Forking => 3
    case OpenBarrier => 2
    case OpenSeed => 1
    case Reaping => 0
  }

  function TotalRank(c: Config, s: State): nat {
    Sum(RankOf(c), s.ws) + ParentRank(s.parent)
  }

  /** The worker's next step is a wait that does not end now, or a retry. */
  predicate Stalled(c: Config, w: Worker, sh: Shared) {
    || w.pc.Unborn? || w.pc.Done? || w.pc.Mark?
    || (w.pc.Acquire? && sh.lock)
    || (w.pc.Await? && sh.ready < c.workers)
    || (w.pc.SeedWait? && !sh.contended)
  }

  lemma {:induction false} ActRank(c: Config, i: nat, w: Worker, sh: Shared)
    requires Live(c) && WorkerOk(c, i, w)
    ensures Rank(c, Act(c, i, w, sh).0) <= Rank(c, w)
    ensures Rank(c, Act(c, i, w, sh).0) == Rank(c, w) <==> Stalled(c, w, sh)
  {
  }

  predicate Waiting(w: Worker) { !w.pc.Unborn? && !HasArrived(w) }

  predicate Busy(w: Worker) { !w.pc.Unborn? && !w.pc.Done? }

  /** A stalled action changes nothing but the choice between `Acquire` and `Mark`. */
  lemma {:induction false} ActStalled(c: Config, i: nat, w: Worker, sh: Shared)
    requires Live(c) && WorkerOk(c, i, w) && Stalled(c, w, sh)
    ensures var (w', sh') := Act(c, i, w, sh);
            && sh' == sh.(contended := sh.contended || w.pc.Mark?)
            && (w' == w || (w.pc.Acquire? && sh.lock && w'.pc.Mark?) || (w.pc.Mark? && w'.pc.Acquire?))
            && Waiting(w') == Waiting(w) && Holding(w') == Holding(w) && Busy(w') == Busy(w)
  {
  }

  function Least(p: Worker -> bool, ws: seq<Worker>): (k: nat)
    ensures k <= |ws|
    ensures k < |ws| ==> p(ws[k])
    ensures forall i :: 0 <= i < k ==> !p(ws[i])
  {
    if ws == [] || p(ws[0]) then 0
    else
      var r := Least(p, ws[1..]);
      assert forall i :: 1 <= i < r + 1 ==> ws[i] == ws[1..][i - 1];
      1 + r
  }

  lemma {:induction false} LeastFrame(p: Worker -> bool, ws: seq<Worker>, i: nat, w: Worker)
    requires i < |ws| && p(w) == p(ws[i])
    ensures Least(p, ws[i := w]) == Least(p, ws)
  {
    if i == 0 {
      assert ws[i := w][1..] == ws[1..];
    } else {
      LeastFrame(p, ws[1..], i - 1, w);
      assert ws[i := w][1..] == ws[1..][i - 1 := w];
    }
  }

  datatype Actor = TheParent | TheWorker(index: nat)

  predicate By(e: Event, a: Actor) {
    match e
    case Parent(_) => a.TheParent?
    case Step(i) => a == TheWorker(i)
  }

  /** Worker 0 holds the seed lock, past the barrier, and nobody has failed yet. */
  predicate SeedPending(s: State) {
    var h := Least(Holding, s.ws);
    h < |s.ws| && s.ws[h].pc.SeedWait? && !s.sh.contended
  }

  /** The actor whose next step is guaranteed to bring the round closer to its end. */
  function Helper(s: State): Actor {
    if !s.parent.Reaping? then TheParent
    else
      var waiting, holder := Least(Waiting, s.ws), Least(Holding, s.ws);
      if waiting < |s.ws| then TheWorker(waiting)
      else if holder < |s.ws| then TheWorker(if SeedPending(s) then 1 else holder)
      else TheWorker(Least(Busy, s.ws))
  }

  /** How many steps of the helper may pass before the rank must fall. */
  function Level(s: State): nat {
    match Helper(s)
    case TheParent => 0
    case TheWorker(k) =>
      if k < |s.ws| && s.ws[k].pc.Mark? then 1
      else if Least(Waiting, s.ws) == |s.ws| && SeedPending(s) then 2
      else 0
  }

  /** If a failed fork has opened the barrier, every started worker had arrived by then. */
  ghost predicate Clean(c: Config, s: State) {
    Opened(c, s) ==>
      && s.sh.ready == WORD32 - 1
      && (forall i :: 0 <= i < |s.ws| ==> !Waiting(s.ws[i]))
      && (s.parent.Reaping? ==> s.sh.contended)
  }

  ghost predicate Finished(s: State) {
    s.parent.Reaping? && forall i :: 0 <= i < |s.ws| ==> !Busy(s.ws[i])
  }

  ghost predicate Closer(c: Config, s': State, s: State) {
    TotalRank(c, s') < TotalRank(c, s) || (TotalRank(c, s') == TotalRank(c, s) && Level(s') < Level(s))
  }

  lemma {:induction false} StepRank(c: Config, s: State, i: nat)
    requires Live(c) && Shape(c, s) && i < |s.ws|
    ensures TotalRank(c, WorkerStep(c, s, i)) <= TotalRank(c, s)
    ensures TotalRank(c, WorkerStep(c, s, i)) == TotalRank(c, s) <==> Stalled(c, s.ws[i], s.sh)
  {
    ActRank(c, i, s.ws[i], s.sh);
    SumUpdate(RankOf(c), s.ws, i, Act(c, i, s.ws[i], s.sh).0);
  }

  lemma {:induction false} ParentRankFalls(c: Config, s: State, ok: bool)
    requires Live(c) && Shape(c, s) && !s.parent.Reaping?
    ensures TotalRank(c, ParentStep(c, s, ok)) < TotalRank(c, s)
  {
    if s.parent.Forking? && ok {
      SumUpdate(RankOf(c), s.ws, s.born, Newborn(c, s.born));
    }
  }

  // ----- the helper is never blocked for good

  lemma {:induction false} BarrierPassable(c: Config, s: State)
    requires Live(c) && Inv(c, s) && Clean(c, s) && s.parent.Reaping?
    requires Least(Waiting, s.ws) == |s.ws|
    ensures s.sh.ready >= c.workers
  {
    if !Opened(c, s) {
      forall i | 0 <= i < |s.ws| ensures Arrived(s.ws[i]) == 1 {
        assert !Waiting(s.ws[i]);
      }
      SumConstant(Arrived, s.ws, 1);
    }
  }

  lemma {:induction false} WaitingHelper(c: Config, s: State)
    requires Live(c) && Inv(c, s) && Clean(c, s) && s.parent.Reaping?
    requires Least(Waiting, s.ws) < |s.ws|
    ensures var w := s.ws[Least(Waiting, s.ws)]; w.pc.Mark? || !Stalled(c, w, s.sh)
  {
    var u := Least(Waiting, s.ws);
    assert WorkerOk(c, u, s.ws[u]);
    if s.ws[u].pc.Acquire? && s.sh.lock {
      var h := SumWitness(Holds, s.ws);
      assert WorkerOk(c, h, s.ws[h]);
      SumBounded(Arrived, s.ws);
    }
  }

  lemma {:induction false} HolderHelper(c: Config, s: State)
    requires Live(c) && Inv(c, s) && Clean(c, s) && s.parent.Reaping?
    requires Least(Waiting, s.ws) == |s.ws| && Least(Holding, s.ws) < |s.ws|
    ensures !SeedPending(s) ==> !Stalled(c, s.ws[Least(Holding, s.ws)], s.sh)
  {
    var h := Least(Holding, s.ws);
    assert !Waiting(s.ws[h]);
    BarrierPassable(c, s);
  }

  lemma {:induction false} SeedHelper(c: Config, s: State)
    requires Live(c) && Inv(c, s) && Clean(c, s) && s.parent.Reaping?
    requires Least(Waiting, s.ws) == |s.ws| && SeedPending(s)
    ensures 1 < |s.ws| && s.sh.lock
    ensures var w := s.ws[1]; w.pc.Mark? || w.pc.Acquire? || !Stalled(c, w, s.sh)
  {
    var h := Least(Holding, s.ws);
    assert WorkerOk(c, h, s.ws[h]);
    SumMember(Holds, s.ws, h);
    assert WorkerOk(c, 1, s.ws[1]);
    assert !Waiting(s.ws[1]);
    BarrierPassable(c, s);
  }

  lemma {:induction false} IdleHelper(c: Config, s: State)
    requires Live(c) && Inv(c, s) && Clean(c, s) && s.parent.Reaping? && !Finished(s)
    requires Least(Waiting, s.ws) == |s.ws| && Least(Holding, s.ws) == |s.ws|
    ensures Least(Busy, s.ws) < |s.ws|
    ensures var w := s.ws[Least(Busy, s.ws)]; w.pc.Mark? || !Stalled(c, w, s.sh)
  {
    var b := Least(Busy, s.ws);
    assert WorkerOk(c, b, s.ws[b]);
    assert !Holding(s.ws[b]);
    if s.sh.lock { var h := SumWitness(Holds, s.ws); }
    BarrierPassable(c, s);
  }

  lemma {:induction false} HelperReady(c: Config, s: State)
    requires Live(c) && Inv(c, s) && Clean(c, s) && s.parent.Reaping? && !Finished(s)
    ensures Helper(s).TheWorker? && Helper(s).index < |s.ws|
    ensures var w := s.ws[Helper(s).index];
            w.pc.Mark? || !Stalled(c, w, s.sh)
            || (w.pc.Acquire? && s.sh.lock && SeedPending(s) && Least(Waiting, s.ws) == |s.ws|)
  {
    if Least(Waiting, s.ws) < |s.ws| {
      WaitingHelper(c, s);
    } else if Least(Holding, s.ws) < |s.ws| {
      if SeedPending(s) { SeedHelper(c, s); } else { HolderHelper(c, s); }
    } else {
      IdleHelper(c, s);
    }
  }

  /** What a stalled step leaves as it was. */
  ghost predicate SameButRetry(s': State, s: State, i: nat)
    requires i < |s.ws|
  {
    && |s'.ws| == |s.ws| && s'.parent == s.parent && s'.sh.lock == s.sh.lock
    && s'.sh.contended == (s.sh.contended || s.ws[i].pc.Mark?)
    && (forall j :: 0 <= j < |s.ws| && j != i ==> s'.ws[j] == s.ws[j])
    && (s'.ws[i] == s.ws[i]
        || (s.ws[i].pc.Acquire? && s.sh.lock && s'.ws[i].pc.Mark?)
        || (s.ws[i].pc.Mark? && s'.ws[i].pc.Acquire?))
    && Least(Waiting, s'.ws) == Least(Waiting, s.ws)
    && Least(Holding, s'.ws) == Least(Holding, s.ws)
    && Least(Busy, s'.ws) == Least(Busy, s.ws)
  }

  lemma {:induction false} StalledFrame(c: Config, s: State, i: nat)
    requires Live(c) && Shape(c, s) && i < |s.ws| && Stalled(c, s.ws[i], s.sh)
    ensures SameButRetry(WorkerStep(c, s, i), s, i)
  {
    var w := Act(c, i, s.ws[i], s.sh).0;
    ActStalled(c, i, s.ws[i], s.sh);
    LeastFrame(Waiting, s.ws, i, w);
    LeastFrame(Holding, s.ws, i, w);
    LeastFrame(Busy, s.ws, i, w);
  }

  lemma {:induction false} RetryByOther(s': State, s: State, i: nat)
    requires i < |s.ws| && SameButRetry(s', s, i) && Helper(s) != TheWorker(i) && s.parent.Reaping?
    ensures Level(s') < Level(s) || (Level(s') == Level(s) && Helper(s') == Helper(s))
  {
    hide Sum;
  }

  lemma {:induction false} RetryByHelper(s': State, s: State, i: nat)
    requires i < |s.ws| && SameButRetry(s', s, i) && Helper(s) == TheWorker(i)
    requires s.ws[i].pc.Mark? || (s.ws[i].pc.Acquire? && SeedPending(s) && Least(Waiting, s.ws) == |s.ws|)
    requires s'.ws[i] != s.ws[i]
    ensures Level(s') < Level(s)
  {
  }

  /** The helper's step lowers the rank, or keeps it and lowers the level. */
  lemma {:induction false} HelpfulStep(c: Config, s: State, e: Event)
    requires Live(c) && Inv(c, s) && Clean(c, s) && !Finished(s) && By(e, Helper(s))
    ensures Closer(c, Next(c, s, e), s)
  {
    match e
    case Parent(ok) => ParentRankFalls(c, s, ok);
    case Step(i) =>
      HelperReady(c, s);
      StepRank(c, s, i);
      if Stalled(c, s.ws[i], s.sh) {
        StalledFrame(c, s, i);
        RetryByHelper(WorkerStep(c, s, i), s, i);
      }
  }

  /** Any other step lowers the rank or the level, or leaves the same helper in charge. */
  lemma {:induction false} OtherStep(c: Config, s: State, e: Event)
    requires Live(c) && Shape(c, s) && !By(e, Helper(s))
    ensures var s' := Next(c, s, e);
            Closer(c, s', s)
            || (TotalRank(c, s') == TotalRank(c, s) && Level(s') == Level(s) && Helper(s') == Helper(s))
  {
    if e.Step? && e.index < |s.ws| {
      var i := e.index;
      StepRank(c, s, i);
      if Stalled(c, s.ws[i], s.sh) {
        StalledFrame(c, s, i);
        if s.parent.Reaping? { RetryByOther(WorkerStep(c, s, i), s, i); }
      }
    }
  }

  // ----- infinite fair runs

  ghost function StateAt(c: Config, f: nat -> Event, t: nat): (s: State)
    ensures |s.ws| == c.workers
  {
    Run(c, seq(t, (k: nat) => f(k)))
  }

  lemma {:induction false} StateAtStep(c: Config, f: nat -> Event, t: nat)
    ensures StateAt(c, f, t + 1) == Next(c, StateAt(c, f, t), f(t))
  {
    assert seq(t + 1, (k: nat) => f(k))[..t] == seq(t, (k: nat) => f(k));
  }

  lemma {:induction false} StateAtInv(c: Config, f: nat -> Event, t: nat)
    requires Live(c)
    ensures Inv(c, StateAt(c, f, t))
  {
    RunInv(c, seq(t, (k: nat) => f(k)));
  }

  ghost predicate ActsFrom(f: nat -> Event, a: Actor, t: nat) {
    exists u: nat :: u >= t && By(f(u), a)
  }

  /** The parent and every worker keep being scheduled. */
  ghost predicate Fair(c: Config, f: nat -> Event) {
    forall a: Actor, t: nat :: (a.TheWorker? ==> a.index < c.workers) ==> ActsFrom(f, a, t)
  }

  /** At time t the parent opens the barrier after a failed fork, before all started workers arrived. */
  ghost predicate OpensEarly(c: Config, f: nat -> Event, t: nat) {
    var s := StateAt(c, f, t);
    s.parent.OpenBarrier? && f(t).Parent? && s.sh.ready < s.born
  }

  lemma {:induction false} SumOfFirst(f: Worker -> nat, ws: seq<Worker>, k: nat)
    requires k <= |ws|
    requires forall i :: 0 <= i < |ws| ==> f(ws[i]) <= if i < k then 1 else 0
    ensures Sum(f, ws) <= k
    ensures Sum(f, ws) == k <==> forall i :: 0 <= i < k ==> f(ws[i]) == 1
  {
    if k == 0 {
      SumConstant(f, ws, 0);
    } else {
      SumOfFirst(f, ws[1..], k - 1) by {
        assert forall i :: 0 <= i < |ws| - 1 ==> ws[1..][i] == ws[i + 1];
      }
      assert forall i :: 1 <= i < k ==> ws[i] == ws[1..][i - 1];
      assert forall i :: 0 <= i < k - 1 ==> ws[1..][i] == ws[i + 1];
      assert f(ws[0]) <= 1;
    }
  }

  lemma {:induction false} ArrivalsOfBorn(c: Config, s: State)
    requires Shape(c, s)
    ensures Sum(Arrived, s.ws) <= s.born
    ensures Sum(Arrived, s.ws) == s.born <==> forall i :: 0 <= i < s.born ==> HasArrived(s.ws[i])
  {
    SumOfFirst(Arrived, s.ws, s.born);
    if forall i :: 0 <= i < s.born ==> HasArrived(s.ws[i]) {
      assert forall i :: 0 <= i < s.born ==> Arrived(s.ws[i]) == 1;
    }
    if forall i :: 0 <= i < s.born ==> Arrived(s.ws[i]) == 1 {
      assert forall i :: 0 <= i < s.born ==> HasArrived(s.ws[i]);
    }
  }

  lemma {:induction false} CleanStep(c: Config, s: State, e: Event)
    requires Live(c) && Inv(c, s) && Clean(c, s)
    requires !(s.parent.OpenBarrier? && e.Parent? && s.sh.ready < s.born)
    ensures Clean(c, Next(c, s, e))
  {
    match e
    case Parent(ok) =>
      if s.parent.OpenBarrier? { ArrivalsOfBorn(c, s); }
    case Step(i) =>
      if i < |s.ws| && Opened(c, s) {
        ActBarrier(c, i, s.ws[i], s.sh);
        ActSpins(c, i, s.ws[i], s.sh) by { assert WorkerOk(c, i, s.ws[i]); }
        ActOk(c, i, s.ws[i], s.sh) by { assert WorkerOk(c, i, s.ws[i]); }
      }
  }

  lemma {:induction false} CleanAt(c: Config, f: nat -> Event, t: nat)
    requires Live(c) && forall u: nat :: !OpensEarly(c, f, u)
    ensures Clean(c, StateAt(c, f, t))
  {
    if t > 0 {
      CleanAt(c, f, t - 1);
      StateAtInv(c, f, t - 1);
      assert !OpensEarly(c, f, t - 1);
      CleanStep(c, StateAt(c, f, t - 1), f(t - 1));
      StateAtStep(c, f, t - 1);
    }
  }

  lemma {:induction false} NextHelp(c: Config, f: nat -> Event, t: nat) returns (u: nat)
    requires Live(c) && Fair(c, f) && (forall v: nat :: !OpensEarly(c, f, v))
    requires !Finished(StateAt(c, f, t))
    ensures u >= t && By(f(u), Helper(StateAt(c, f, t)))
  {
    var s := StateAt(c, f, t);
    StateAtInv(c, f, t);
    CleanAt(c, f, t);
    if s.parent.Reaping? { HelperReady(c, s); }
    assert ActsFrom(f, Helper(s), t);
    u :| u >= t && By(f(u), Helper(s));
  }

  /** From time t, with the helper due at time u, the round ends. */
  lemma {:induction false} Converges(c: Config, f: nat -> Event, t: nat, u: nat) returns (end: nat)
    requires Live(c) && Fair(c, f) && forall v: nat :: !OpensEarly(c, f, v)
    requires !Finished(StateAt(c, f, t)) ==> u >= t && By(f(u), Helper(StateAt(c, f, t)))
    ensures Finished(StateAt(c, f, end))
    decreases TotalRank(c, StateAt(c, f, t)), Level(StateAt(c, f, t)), if u >= t then u - t else 0
  {
    hide Act, Sum;
    var s := StateAt(c, f, t);
    if Finished(s) { return t; }
    StateAtInv(c, f, t);
    CleanAt(c, f, t);
    StateAtStep(c, f, t);
    var u' := u;
    if By(f(t), Helper(s)) { HelpfulStep(c, s, f(t)); } else { OtherStep(c, s, f(t)); }
    if Closer(c, StateAt(c, f, t + 1), s) && !Finished(StateAt(c, f, t + 1)) { u' := NextHelp(c, f, t + 1); }
    end := Converges(c, f, t + 1, u');
  }

  // ----- a barrier opened too early traps the late workers

  /** `start_ready` after the parent stored UINT32_MAX and `late` more workers arrived. */
  function LateReady(late: nat): nat { if late == 0 then WORD32 - 1 else late - 1 }

  /** Worker j is late: `base` workers had arrived when the barrier was opened. */
  ghost predicate Trapped(c: Config, s: State, j: nat, base: nat) {
    && |s.ws| == c.workers && Opened(c, s) && j < s.born < c.workers
    && base <= Sum(Arrived, s.ws)
    && s.sh.ready == LateReady(Sum(Arrived, s.ws) - base)
    && !PastBarrier(s.ws[j])
    && (HasArrived(s.ws[j]) ==> base < Sum(Arrived, s.ws))
  }

  lemma {:induction false} TrappedWorkerStep(c: Config, s: State, i: nat, j: nat, base: nat)
    requires Valid(c) && Trapped(c, s, j, base) && i < |s.ws| && Sum(Arrived, s.ws) <= s.born
    ensures Trapped(c, WorkerStep(c, s, i), j, base)
  {
    ActBarrier(c, i, s.ws[i], s.sh);
    SumUpdate(Arrived, s.ws, i, Act(c, i, s.ws[i], s.sh).0);
  }

  lemma {:induction false} TrappedStep(c: Config, s: State, e: Event, j: nat, base: nat)
    requires Live(c) && Shape(c, s) && Trapped(c, s, j, base)
    ensures Trapped(c, Next(c, s, e), j, base)
  {
    ArrivalsOfBorn(c, s);
    if e.Step? && e.index < |s.ws| { TrappedWorkerStep(c, s, e.index, j, base); }
  }

  lemma {:induction false} TrappedForever(c: Config, f: nat -> Event, t: nat, j: nat, base: nat, u: nat)
    requires Live(c) && t <= u && Trapped(c, StateAt(c, f, t), j, base)
    ensures Trapped(c, StateAt(c, f, u), j, base)
  {
    hide Trapped, Next, Live;
    if t < u {
      TrappedForever(c, f, t, j, base, u - 1);
      StateAtInv(c, f, u - 1);
      TrappedStep(c, StateAt(c, f, u - 1), f(u - 1), j, base);
      StateAtStep(c, f, u - 1);
    }
  }

  /** A worker not yet at the barrier when the parent opens it never finishes. */
  lemma {:induction false} EarlyOpeningHangs(c: Config, f: nat -> Event, t: nat, u: nat)
    requires Live(c) && OpensEarly(c, f, t)
    ensures !Finished(StateAt(c, f, u))
  {
    var s := StateAt(c, f, t);
    StateAtInv(c, f, t);
    ArrivalsOfBorn(c, s);
    var j :| 0 <= j < s.born && !HasArrived(s.ws[j]);
    StateAtStep(c, f, t);
    if u > t {
      TrappedForever(c, f, t + 1, j, Sum(Arrived, s.ws), u);
      StateAtInv(c, f, u);
      assert Busy(StateAt(c, f, u).ws[j]);
    } else {
      StaysUnfinished(c, f, u, t);
    }
  }

  lemma {:induction false} StaysUnfinished(c: Config, f: nat -> Event, u: nat, t: nat)
    requires u <= t && !StateAt(c, f, t).parent.Reaping?
    ensures !StateAt(c, f, u).parent.Reaping?
    decreases t - u
  {
    if u < t {
      StaysUnfinished(c, f, u + 1, t);
      StateAtStep(c, f, u);
    }
  }

  /**
   A fair round ends for every started worker exactly when no failed fork opens the
   barrier while a started worker has yet to arrive.
   */
  lemma {:induction false} FairRoundEnds(c: Config, f: nat -> Event)
    requires Live(c) && Fair(c, f)
    ensures (exists t: nat :: Finished(StateAt(c, f, t))) <==> (forall t: nat :: !OpensEarly(c, f, t))
  {
    if forall t: nat :: !OpensEarly(c, f, t) {
      var u := 0;
      if !Finished(StateAt(c, f, 0)) { u := NextHelp(c, f, 0); }
      var end := Converges(c, f, 0, u);
    } else {
      var t: nat :| OpensEarly(c, f, t);
      forall u: nat ensures !Finished(StateAt(c, f, u)) { EarlyOpeningHangs(c, f, t, u); }
    }
  }

  lemma {:induction false} NoFailureAt(c: Config, f: nat -> Event, t: nat)
    requires forall u: nat :: f(u) != Parent(false)
    ensures StateAt(c, f, t).parent.Forking? || StateAt(c, f, t).parent.Reaping?
    ensures StateAt(c, f, t).parent.Reaping? ==> StateAt(c, f, t).born == c.workers
  {
    if t > 0 {
      NoFailureAt(c, f, t - 1);
      StateAtStep(c, f, t - 1);
      assert f(t - 1) != Parent(false);
    }
  }

  /** When every fork succeeds, a fair round always ends with all workers done. */
  lemma {:induction false} FairRoundCompletes(c: Config, f: nat -> Event)
    requires Live(c) && Fair(c, f) && forall u: nat :: f(u) != Parent(false)
    ensures exists t: nat :: AllDone(StateAt(c, f, t))
  {
    forall t: nat ensures !OpensEarly(c, f, t) { NoFailureAt(c, f, t); }
    FairRoundEnds(c, f);
    var t: nat :| Finished(StateAt(c, f, t));
    NoFailureAt(c, f, t);
    StateAtInv(c, f, t);
    var s := StateAt(c, f, t);
    forall i | 0 <= i < |s.ws| ensures s.ws[i].pc.Done? { assert !Busy(s.ws[i]); }
  }

  // ----- the configuration the round cannot handle

  /** The schedule that gives each worker and then the parent one step in turn. */
  function RoundRobin(workers: nat): nat -> Event {
    (t: nat) => Turn(workers, t)
  }

  function Turn(workers: nat, t: nat): Event {
    DivMod(t, workers + 1);
    if t % (workers + 1) == workers then Parent(true) else Step(t % (workers + 1))
  }

  lemma {:induction false} TurnComes(workers: nat, a: Actor, t: nat) returns (u: nat)
    requires a.TheWorker? ==> a.index < workers
    ensures u >= t && By(Turn(workers, u), a)
  {
    var n, i := workers + 1, if a.TheParent? then workers else a.index;
    u := i + n * t;
    if t > 0 { Bound(t, n); }
    ModAdd(i, t, n);
    ModUnique(i, 0, i, n);
  }

  lemma {:induction false} RoundRobinFair(c: Config)
    ensures Fair(c, RoundRobin(c.workers))
  {
    var f := RoundRobin(c.workers);
    forall a: Actor, t: nat | a.TheWorker? ==> a.index < c.workers ensures ActsFrom(f, a, t) {
      var u := TurnComes(c.workers, a, t);
      assert f(u) == Turn(c.workers, u);
    }
  }

  /** Round robin, without a failed fork, completes every configuration whose rounds can end. */
  lemma {:induction false} RoundRobinCompletes(c: Config)
    requires Live(c)
    ensures exists t: nat :: AllDone(StateAt(c, RoundRobin(c.workers), t))
  {
    RoundRobinFair(c);
    FairRoundCompletes(c, RoundRobin(c.workers));
  }

  /** The parent forks once, fails to fork again and opens the barrier before the first worker has run; then turns. */
  function SecondForkFails(workers: nat): nat -> Event {
    (t: nat) => if t < 3 then Parent(t != 1) else Turn(workers, t)
  }

  lemma {:induction false} SecondForkFailsFair(c: Config)
    ensures Fair(c, SecondForkFails(c.workers))
  {
    var f := SecondForkFails(c.workers);
    forall a: Actor, t: nat | a.TheWorker? ==> a.index < c.workers ensures ActsFrom(f, a, t) {
      var u := TurnComes(c.workers, a, t + 3);
      assert f(u) == Turn(c.workers, u);
    }
  }

  /** The condition is not vacuous: with two or more workers this fair round opens early and never ends. */
  lemma {:induction false} FairRoundCanHang(c: Config)
    requires Live(c) && c.workers >= 2
    ensures Fair(c, SecondForkFails(c.workers)) && OpensEarly(c, SecondForkFails(c.workers), 2)
    ensures forall u: nat :: !Finished(StateAt(c, SecondForkFails(c.workers), u))
  {
    var f := SecondForkFails(c.workers);
    SecondForkFailsFair(c);
    assert StateAt(c, f, 0) == Init(c);
    StateAtStep(c, f, 0);
    StateAtStep(c, f, 1);
    assert f(0) == Parent(true) && f(1) == Parent(false) && f(2) == Parent(true);
    forall u: nat ensures !Finished(StateAt(c, f, u)) { EarlyOpeningHangs(c, f, 2, u); }
  }

  /** With no iterations nobody but worker 0 touches the lock, so the seed wait cannot end. */
  ghost predicate HangingWorker(sh: Shared, i: nat, w: Worker) {
    && (i == 0 && !w.pc.Unborn? ==>
          w.seeding && ((w.pc.Acquire? && !sh.lock) || w.pc.Arrive? || w.pc.Await? || w.pc.SeedWait?))
    && (i > 0 ==> !w.seeding && !Holding(w) && !w.pc.Acquire? && !w.pc.Mark? && !w.pc.SeedWait?)
  }

  ghost predicate Hanging(c: Config, s: State) {
    && |s.ws| == c.workers >= 2 && !s.sh.contended
    && (s.parent.Forking? || s.parent.Reaping?)
    && (s.ws[0].pc.Unborn? <==> s.born == 0) && (s.born == 0 ==> !s.sh.lock)
    && (forall i :: 0 <= i < |s.ws| ==> HangingWorker(s.sh, i, s.ws[i]))
  }

  lemma {:induction false} HangingAct(c: Config, i: nat, w: Worker, sh: Shared)
    requires c.iterations == 0 && HangingWorker(sh, i, w) && !sh.contended
    ensures var (w', sh') := Act(c, i, w, sh);
            HangingWorker(sh', i, w') && !sh'.contended && (i > 0 ==> sh'.lock == sh.lock)
            && (w'.pc.Unborn? <==> w.pc.Unborn?) && (w.pc.Unborn? ==> sh' == sh)
  {
  }

  lemma {:induction false} HangingStep(c: Config, s: State, e: Event)
    requires c.iterations == 0 && c.workers >= 2 && Hanging(c, s) && e != Parent(false)
    ensures Hanging(c, Next(c, s, e))
  {
    match e
    case Parent(ok) =>
    case Step(i) =>
      if i < |s.ws| { HangingAct(c, i, s.ws[i], s.sh); }
  }

  /** With two or more workers and zero iterations no run without a failed fork ever ends. */
  lemma {:induction false} ZeroIterationsHang(c: Config, events: seq<Event>)
    requires c.iterations == 0 && c.workers >= 2 && Parent(false) !in events
    ensures Hanging(c, Run(c, events)) && !AllDone(Run(c, events))
  {
    if events != [] {
      var prefix := events[..|events| - 1];
      ZeroIterationsHang(c, prefix);
      HangingStep(c, Run(c, prefix), events[|events| - 1]);
    }
    assert HangingWorker(Run(c, events).sh, 0, Run(c, events).ws[0]);
  }
}
