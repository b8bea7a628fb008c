/**
 The block profile of the stress runner: a rotating log of `slots` pages in which
 generation g lives in slot g mod `slots`, one fsynced page per commit. A crash
 may leave the page of the write in flight old, new or torn; the next boot scans
 the log, reports the newest generation and overwrites its successor's slot.
 */
module BlockLog {
  import opened Common
  import opened Arith

  /** `seal(g)` is the leading word of the digest of the record of generation g. */
  datatype Config = Config(slots: nat, run: nat, seal: nat -> nat)

  /** A page as the scan reads it: a short read, or the header fields and whether the digest matches. */
  datatype Page =
    | Short
    | Page(magic: bool, run: nat, generation: nat, slot: nat, sealed: bool, checksum: nat)

  /** Generation g lives in slot g mod `slots`. */
  function SlotOf(c: Config, generation: nat): (s: nat)
    requires c.slots > 0
    ensures s < c.slots
  {
    Rem(generation, c.slots)
  }

  lemma {:induction false} SlotIsRemainder(c: Config, generation: nat)
    requires c.slots > 0
    ensures SlotOf(c, generation) == generation % c.slots
  {
    RemIsMod(generation, c.slots);
  }

  function Build(c: Config, generation: nat): Page
    requires c.slots > 0
  {
    Page(true, c.run, generation, SlotOf(c, generation), true, c.seal(generation))
  }

  predicate Verifies(c: Config, p: Page, slot: nat)
    requires c.slots > 0
  {
    && p.Page? && p.magic && p.run == c.run
    && p.generation != 0 && SlotOf(c, p.generation) == slot && p.slot == slot
    && p.sealed
  }

  datatype Scan = Scan(valid: nat, invalid: nat, invalidSlot: nat, min: nat, max: nat, maxChecksum: nat)

  datatype Failure =
    | StaleRecord(min: nat) | LostRecord(slot: nat) | NoValidRecord | WrongSlots(valid: nat) | WrongSuccessor(max: nat)

  datatype ScanResult = Accepted(scan: Scan) | Rejected(failure: Failure)

  type Disk = seq<Page>

  ghost predicate Pages(c: Config, d: Disk) {
    && 0 < c.slots < 0x1_0000_0000 && |d| == c.slots
    && forall s :: 0 <= s < |d| && d[s].Page? ==> d[s].generation < TWO_64
  }

  // ----- the scan

  function Tally(c: Config, a: Scan, p: Page, slot: nat): Scan
    requires c.slots > 0
  {
    if Verifies(c, p, slot) then
      Scan(a.valid + 1, a.invalid, a.invalidSlot,
           if p.generation < a.min then p.generation else a.min,
           if p.generation > a.max then p.generation else a.max,
           if p.generation > a.max then p.checksum else a.maxChecksum)
    else a.(invalid := a.invalid + 1, invalidSlot := slot)
  }

  /** What the scan has accumulated over the first k slots. */
  function Accumulate(c: Config, d: Disk, k: nat): (a: Scan)
    requires c.slots > 0 && k <= |d|
    ensures a.valid + a.invalid == k && (a.valid == 0 ==> a.max == 0)
  {
    if k == 0 then Scan(0, 0, 0, TWO_64 - 1, 0, 0)
    else Tally(c, Accumulate(c, d, k - 1), d[k - 1], k - 1)
  }

  lemma {:induction false} Bounded(c: Config, d: Disk, k: nat)
    requires c.slots > 0 && k <= |d|
    ensures var a := Accumulate(c, d, k);
            forall s :: 0 <= s < k && Verifies(c, d[s], s) ==> a.min <= d[s].generation <= a.max
  {
    if k > 0 { Bounded(c, d, k - 1); }
  }

  lemma {:induction false} Invalid(c: Config, d: Disk, k: nat)
    requires c.slots > 0 && k <= |d|
    ensures var a := Accumulate(c, d, k);
            && (a.invalid == 0 ==> forall s :: 0 <= s < k ==> Verifies(c, d[s], s))
            && (a.invalid > 0 ==> a.invalidSlot < k && !Verifies(c, d[a.invalidSlot], a.invalidSlot))
            && (a.invalid == 1 ==> forall s :: 0 <= s < k && s != a.invalidSlot ==> Verifies(c, d[s], s))
            && (a.invalid > 1 ==> exists s :: 0 <= s < a.invalidSlot && !Verifies(c, d[s], s))
  {
    if k > 0 { Invalid(c, d, k - 1); }
  }

  ghost predicate At(c: Config, d: Disk, s: nat, generation: nat)
    requires c.slots > 0
  {
    s < |d| && Verifies(c, d[s], s) && d[s].generation == generation
  }

  lemma {:induction false} MinAttained(c: Config, d: Disk, k: nat) returns (s: nat)
    requires Pages(c, d) && k <= |d| && Accumulate(c, d, k).valid > 0
    ensures s < k && At(c, d, s, Accumulate(c, d, k).min)
  {
    var a := Accumulate(c, d, k - 1);
    if Verifies(c, d[k - 1], k - 1) && (d[k - 1].generation < a.min || a.valid == 0) {
      if a.valid == 0 { EmptyPrefix(c, d, k - 1); }
      s := k - 1;
    } else {
      s := MinAttained(c, d, k - 1);
    }
  }

  /** The reported checksum is that of the newest record. */
  lemma {:induction false} MaxAttained(c: Config, d: Disk, k: nat) returns (s: nat)
    requires Pages(c, d) && k <= |d| && Accumulate(c, d, k).valid > 0
    ensures s < k && At(c, d, s, Accumulate(c, d, k).max) && d[s].checksum == Accumulate(c, d, k).maxChecksum
  {
    var a := Accumulate(c, d, k - 1);
    if Verifies(c, d[k - 1], k - 1) && d[k - 1].generation > a.max {
      s := k - 1;
    } else {
      s := MaxAttained(c, d, k - 1);
    }
  }

  lemma {:induction false} EmptyPrefix(c: Config, d: Disk, k: nat)
    requires c.slots > 0 && k <= |d| && Accumulate(c, d, k).valid == 0
    ensures Accumulate(c, d, k).min == TWO_64 - 1
  {
    if k > 0 { EmptyPrefix(c, d, k - 1); }
  }

  function Judge(c: Config, a: Scan): ScanResult
    requires c.slots > 0
  {
    if a.max < c.slots || a.min <= a.max - c.slots then Rejected(StaleRecord(a.min))
    else if a.invalid > 1 || (a.invalid == 1 && a.invalidSlot != SlotOf(c, (a.max + 1) % TWO_64))
      then Rejected(LostRecord(a.invalidSlot))
    else Accepted(a)
  }

  function ScanOf(c: Config, d: Disk): ScanResult
    requires c.slots > 0 && |d| == c.slots
  {
    Judge(c, Accumulate(c, d, |d|))
  }

  // ----- the window of generations an accepted disk holds

  /** The slot that the generation after `max` maps to. */
  function NextSlot(c: Config, max: nat): nat
    requires c.slots > 0
  {
    SlotOf(c, (max + 1) % TWO_64)
  }

  /** The one generation in (max - slots, max] that belongs in slot s. */
  function Expected(c: Config, s: nat, max: nat): nat
    requires 0 < c.slots && s <= max
  {
    assert Rem(max - s, c.slots) <= max by { RemAtMost(max - s, c.slots); }
    max - Rem(max - s, c.slots)
  }

  ghost predicate Holds(c: Config, d: Disk, s: nat, max: nat)
    requires c.slots > 0
  {
    s < |d| && s <= max && Verifies(c, d[s], s) && d[s].generation == Expected(c, s, max)
  }

  /** Slot by slot: the window ending at `max`, where only the next slot may be invalid. */
  ghost predicate Window(c: Config, d: Disk, max: nat)
    requires c.slots > 0
  {
    && |d| == c.slots <= max < TWO_64
    && Holds(c, d, SlotOf(c, max), max)
    && forall s :: 0 <= s < |d| ==>
         Holds(c, d, s, max) || (s == NextSlot(c, max) && !Verifies(c, d[s], s))
  }

  ghost predicate FullWindow(c: Config, d: Disk, max: nat)
    requires c.slots > 0
  {
    |d| == c.slots <= max < TWO_64 && forall s :: 0 <= s < |d| ==> Holds(c, d, s, max)
  }

  /** The largest number up to `max` with remainder `s`. */
  lemma {:induction false} Latest(s: nat, max: nat, n: nat)
    requires s < n <= max
    ensures var e := max - (max - s) % n; e % n == s && max - n < e <= max
  {
    var e := max - (max - s) % n;
    DivMod(max - s, n);
    assert e == s + n * ((max - s) / n);
    ModAdd(s, (max - s) / n, n);
    ModUnique(s, 0, s, n);
  }

  lemma {:induction false} OnlyLatest(s: nat, max: nat, n: nat, g: nat, e: nat)
    requires s < n <= max && e == max - (max - s) % n
    ensures e % n == s && max - n < e <= max
    ensures g % n == s && max - n < g <= max ==> g == e
    ensures s == max % n ==> e == max
  {
    Latest(s, max, n);
    if g % n == s && max - n < g <= max { ModCancel(g, e, n); }
    if s == max % n { ModCancel(max, e, n); }
  }

  lemma {:induction false} ExpectedUnique(c: Config, s: nat, max: nat, g: nat)
    requires 0 < c.slots <= max && s < c.slots
    ensures SlotOf(c, Expected(c, s, max)) == s && max - c.slots < Expected(c, s, max) <= max
    ensures SlotOf(c, g) == s && max - c.slots < g <= max ==> g == Expected(c, s, max)
    ensures s == SlotOf(c, max) ==> Expected(c, s, max) == max
  {
    hide Rem;
    var n := c.slots;
    RemIsMod(max - s, n);
    var e := Expected(c, s, max);
    OnlyLatest(s, max, n, g, e);
    RemIsMod(e, n);
    RemIsMod(g, n);
    RemIsMod(max, n);
  }

  /** An accepted disk holds the window that ends at the reported generation. */
  lemma {:induction false} AcceptedWindow(c: Config, d: Disk)
    requires Pages(c, d) && ScanOf(c, d).Accepted?
    ensures Window(c, d, ScanOf(c, d).scan.max)
  {
    hide Accumulate, Rem;
    var a := Accumulate(c, d, |d|);
    Bounded(c, d, |d|);
    Invalid(c, d, |d|);
    var lo := MinAttained(c, d, |d|);
    var hi := MaxAttained(c, d, |d|);
    forall s | 0 <= s < |d| && Verifies(c, d[s], s) ensures Holds(c, d, s, a.max) {
      ExpectedUnique(c, s, a.max, d[s].generation);
    }
  }

  /** On a window ending at `max` the scan reports exactly that window. */
  lemma {:induction false} WindowReported(c: Config, d: Disk, max: nat)
    requires Pages(c, d) && Window(c, d, max)
    ensures ScanOf(c, d).Accepted?
    ensures var a := ScanOf(c, d).scan;
            && a.max == max && a.maxChecksum == d[SlotOf(c, max)].checksum
            && a.valid + a.invalid == c.slots && a.invalid <= 1
            && (a.invalid == 0 <==> FullWindow(c, d, max))
            && (a.invalid == 1 ==> a.invalidSlot == NextSlot(c, max))
  {
    hide Accumulate, Rem;
    var a := Accumulate(c, d, |d|);
    assert Verifies(c, d[SlotOf(c, max)], SlotOf(c, max));
    WindowBounds(c, d, max);
    Bounded(c, d, |d|);
    Invalid(c, d, |d|);
    var lo := MinAttained(c, d, |d|);
    var hi := MaxAttained(c, d, |d|);
    if a.invalid == 1 { assert !Holds(c, d, a.invalidSlot, max); }
  }

  lemma {:induction false} WindowBounds(c: Config, d: Disk, max: nat)
    requires Pages(c, d) && Window(c, d, max)
    ensures d[SlotOf(c, max)].generation == max
    ensures forall s :: 0 <= s < |d| && Verifies(c, d[s], s) ==> max - c.slots < d[s].generation <= max
  {
    ExpectedUnique(c, SlotOf(c, max), max, max);
    forall s | 0 <= s < |d| && Verifies(c, d[s], s) ensures max - c.slots < d[s].generation <= max {
      assert Holds(c, d, s, max);
      ExpectedUnique(c, s, max, d[s].generation);
    }
  }

  /**
   The scan accepts a disk exactly when its valid slots are the latest `slots`
   generations, each in its own slot, and only the next slot may be invalid.
   */
  lemma {:induction false} ScanAccepts(c: Config, d: Disk)
    requires Pages(c, d)
    ensures ScanOf(c, d).Accepted? <==> exists max: nat :: Window(c, d, max)
  {
    if ScanOf(c, d).Accepted? { AcceptedWindow(c, d); }
    if max: nat :| Window(c, d, max) { WindowReported(c, d, max); }
  }

  /** A complete record of this run for slot s, by the fields of the page. */
  predicate Intact(c: Config, p: Page, s: nat)
    requires c.slots > 0
  {
    && p.Page? && p.magic && p.run == c.run && p.slot == s && p.sealed
    && p.generation > 0 && p.generation % c.slots == s
  }

  lemma {:induction false} VerifiesIntact(c: Config, p: Page, s: nat)
    requires c.slots > 0
    ensures Verifies(c, p, s) <==> Intact(c, p, s)
  {
    hide Rem;
    if p.Page? { SlotIsRemainder(c, p.generation); }
  }

  /** Slot s holds one of the newest `slots` generations up to `max`. */
  predicate Recent(c: Config, d: Disk, s: nat, max: nat)
    requires c.slots > 0
  {
    s < |d| && Intact(c, d[s], s) && max - c.slots < d[s].generation <= max
  }

  lemma {:induction false} HoldsRecent(c: Config, d: Disk, s: nat, max: nat)
    requires Pages(c, d) && s < c.slots <= max
    ensures Holds(c, d, s, max) <==> Recent(c, d, s, max)
  {
    hide Rem;
    VerifiesIntact(c, d[s], s);
    Latest(s, max, c.slots);
    if Recent(c, d, s, max) { ExpectedUnique(c, s, max, d[s].generation); }
  }

  /**
   What acceptance says of the pages themselves. The scan reports generation `max` if and
   only if that generation is on disk and every slot holds a sealed page of this run
   with the slot's own number and one of the newest `slots` generations; only the slot
   that the next write goes to may hold something broken instead.
   */
  lemma {:induction false} AcceptsPages(c: Config, d: Disk, max: nat)
    requires Pages(c, d)
    ensures ScanOf(c, d).Accepted? && ScanOf(c, d).scan.max == max <==>
      && c.slots <= max < TWO_64 && Intact(c, d[max % c.slots], max % c.slots) && d[max % c.slots].generation == max
      && (forall s :: 0 <= s < |d| ==>
            Recent(c, d, s, max) || (s == (max + 1) % TWO_64 % c.slots && !Intact(c, d[s], s)))
  {
    hide Accumulate, ScanOf, Rem, Verifies, Recent, Intact;
    SlotIsRemainder(c, max);
    SlotIsRemainder(c, (max + 1) % TWO_64);
    forall s | 0 <= s < |d| ensures Verifies(c, d[s], s) <==> Intact(c, d[s], s) { VerifiesIntact(c, d[s], s); }
    if c.slots <= max {
      forall s | 0 <= s < |d| ensures Holds(c, d, s, max) <==> Recent(c, d, s, max) { HoldsRecent(c, d, s, max); }
      NewestRecent(c, d, max);
    }
    if ScanOf(c, d).Accepted? { AcceptedWindow(c, d); }
    if Window(c, d, max) { WindowReported(c, d, max); }
  }

  lemma {:induction false} NewestRecent(c: Config, d: Disk, max: nat)
    requires Pages(c, d) && c.slots <= max && SlotOf(c, max) == max % c.slots
    ensures Recent(c, d, max % c.slots, max) && d[max % c.slots].generation == max <==>
      Intact(c, d[max % c.slots], max % c.slots) && d[max % c.slots].generation == max
    ensures Holds(c, d, max % c.slots, max) ==> d[max % c.slots].generation == max
  {
    hide Rem, Intact;
    DivMod(max, c.slots);
    Latest(max % c.slots, max, c.slots);
    if Holds(c, d, max % c.slots, max) { ExpectedUnique(c, max % c.slots, max, max); }
  }

  /** No page is new enough, or two pages are a whole rotation apart. */
  ghost predicate Stale(c: Config, d: Disk)
    requires c.slots > 0
  {
    || (forall s :: 0 <= s < |d| && Intact(c, d[s], s) ==> d[s].generation < c.slots)
    || (exists s, t :: 0 <= s < |d| && 0 <= t < |d| && Intact(c, d[s], s) && Intact(c, d[t], t)
          && d[s].generation + c.slots <= d[t].generation)
  }

  /** A rejected disk is reported stale exactly for that reason, and as having lost a record otherwise. */
  lemma {:induction false} RejectsStale(c: Config, d: Disk)
    requires Pages(c, d)
    ensures ScanOf(c, d).Rejected? && ScanOf(c, d).failure.StaleRecord? <==> Stale(c, d)
    ensures ScanOf(c, d).Rejected? && !Stale(c, d) ==>
      var f := ScanOf(c, d).failure; f.LostRecord? && f.slot < |d| && !Intact(c, d[f.slot], f.slot)
  {
    hide Accumulate, Rem, Verifies, Intact;
    var a := Accumulate(c, d, |d|);
    forall s | 0 <= s < |d| ensures Verifies(c, d[s], s) <==> Intact(c, d[s], s) { VerifiesIntact(c, d[s], s); }
    Bounded(c, d, |d|);
    Invalid(c, d, |d|);
    if a.valid > 0 {
      var lo := MinAttained(c, d, |d|);
      var hi := MaxAttained(c, d, |d|);
    } else {
      EmptyPrefix(c, d, |d|);
    }
  }

  // ----- commits

  function Put(c: Config, d: Disk, generation: nat): Disk
    requires c.slots > 0 && |d| == c.slots
  {
    d[SlotOf(c, generation) := Build(c, generation)]
  }

  lemma {:induction false} CommitSlot(c: Config, d: Disk, max: nat, s: nat)
    requires Pages(c, d) && Window(c, d, max) && max + 1 < TWO_64 && s < c.slots
    ensures Holds(c, Put(c, d, max + 1), s, max + 1)
  {
    if s == SlotOf(c, max + 1) {
      ExpectedUnique(c, s, max + 1, max + 1);
    } else {
      assert Holds(c, d, s, max);
      ExpectedUnique(c, s, max, 0);
      var g := Expected(c, s, max);
      ExpectedUnique(c, s, max + 1, g);
    }
  }

  /** Committing the successor of a window, torn or not, completes the next window. */
  lemma {:induction false} CommitAdvances(c: Config, d: Disk, max: nat)
    requires Pages(c, d) && Window(c, d, max) && max + 1 < TWO_64
    ensures Pages(c, Put(c, d, max + 1)) && FullWindow(c, Put(c, d, max + 1), max + 1)
  {
    var d', next := Put(c, d, max + 1), max + 1;
    forall s | 0 <= s < |d'| ensures Holds(c, d', s, next) { CommitSlot(c, d, max, s); }
  }

  lemma {:induction false} NextSlotDiffers(c: Config, max: nat)
    requires c.slots >= 2 && max + 1 < TWO_64
    ensures NextSlot(c, max) != SlotOf(c, max)
  {
    hide Rem;
    SlotIsRemainder(c, max);
    SlotIsRemainder(c, max + 1);
    if NextSlot(c, max) == SlotOf(c, max) { ModCancel(max + 1, max, c.slots); }
  }

  /** Tearing the successor's page costs at most that slot, if there is another one. */
  lemma {:induction false} TearKeepsWindow(c: Config, d: Disk, max: nat, page: Page)
    requires Pages(c, d) && Window(c, d, max) && max + 1 < TWO_64 && c.slots >= 2
    requires !Verifies(c, page, NextSlot(c, max)) && (page.Page? ==> page.generation < TWO_64)
    ensures var d' := d[NextSlot(c, max) := page]; Pages(c, d') && Window(c, d', max)
  {
    NextSlotDiffers(c, max);
    var d' := d[NextSlot(c, max) := page];
    forall s | 0 <= s < |d| && s != NextSlot(c, max) ensures Holds(c, d', s, max) {
      assert Holds(c, d, s, max);
    }
  }

  lemma {:induction false} FullIsWindow(c: Config, d: Disk, max: nat)
    requires c.slots > 0 && FullWindow(c, d, max)
    ensures Window(c, d, max)
  {
    assert Holds(c, d, SlotOf(c, max), max);
  }

  // ----- runs of commits, crashes and recoveries

  datatype Outcome = OldPage | NewPage | TornPage(page: Page)

  /** `lost` is the generation whose write the crash interrupted. */
  datatype Phase =
    | Writing(generation: nat)
    | Booting(lost: Option<nat>)
    | Recovering(found: nat)
    | Recovered(successor: nat, checksum: nat)
    | Failed(failure: Failure)

  /**
   `settled` is the newest generation known to be on disk: the last one fsynced, or
   the one the last recovery scan found. `wrapped` records that the 64-bit
   generation counter has overflowed.
   */
  datatype World = World(disk: Disk, phase: Phase, inflight: Option<nat>, settled: nat, wrapped: bool)

  datatype Event = Write | Sync | WriterScan | Crash(outcome: Outcome) | Boot | Round

  function Begin(w: World, generation: nat): World {
    w.(inflight := Some((generation + 1) % TWO_64), wrapped := w.wrapped || generation + 1 >= TWO_64)
  }

  function Landed(c: Config, w: World, o: Outcome): Disk
    requires c.slots > 0 && |w.disk| == c.slots
  {
    match w.inflight
    case None => w.disk
    case Some(g) =>
      match o
      case OldPage => w.disk
      case NewPage => Put(c, w.disk, g)
      case TornPage(p) => w.disk[SlotOf(c, g) := p]
  }

  predicate Torn(p: Page) {
    p.Short? || (!p.sealed && p.generation < TWO_64)
  }

  /** A torn page is a short read, or a page whose digest does not match its contents. */
  ghost predicate CanHappen(c: Config, w: World, e: Event)
    requires c.slots > 0
  {
    e.Crash? && e.outcome.TornPage? && w.inflight.Some? ==>
      Torn(e.outcome.page)
  }

  function WriterCheck(c: Config, r: ScanResult, generation: nat): Option<Failure> {
    match r
    case Rejected(f) => Some(f)
    case Accepted(a) => if a.valid != c.slots || a.max != generation then Some(WrongSlots(a.valid)) else None
  }

  function RoundCheck(c: Config, r: ScanResult, successor: nat, checksum: nat): Option<Failure> {
    match r
    case Rejected(f) => Some(f)
    case Accepted(a) =>
      if a.valid != c.slots then Some(WrongSlots(a.valid))
      else if a.max != successor || a.maxChecksum != checksum then Some(WrongSuccessor(a.max))
      else None
  }

  function FailIf(w: World, f: Option<Failure>): World {
    if f.Some? then w.(phase := Failed(f.value)) else w
  }

  /** The page write has completed and fsync returned. */
  function SyncOf(c: Config, w: World): World
    requires c.slots > 0 && |w.disk| == c.slots
  {
    if w.inflight.None? then w
    else
      var g := w.inflight.value;
      World(Put(c, w.disk, g),
            if w.phase.Recovering? then Recovered(g, c.seal(g)) else Writing(g), None, g, w.wrapped)
  }

  function CrashOf(c: Config, w: World, o: Outcome): World
    requires c.slots > 0 && |w.disk| == c.slots
  {
    if w.phase.Failed? then w
    else
      var lost := if w.phase.Booting? then w.phase.lost else w.inflight;
      w.(disk := Landed(c, w, o), phase := Booting(lost), inflight := None)
  }

  /** block_recover up to the start of the successor's write. */
  function BootOf(c: Config, w: World): World
    requires c.slots > 0 && |w.disk| == c.slots
  {
    if !w.phase.Booting? then w
    else
      match ScanOf(c, w.disk)
      case Rejected(f) => w.(phase := Failed(f))
      case Accepted(a) =>
        if a.valid == 0 then w.(phase := Failed(NoValidRecord))
        else Begin(w.(phase := Recovering(a.max), settled := a.max), a.max)
  }

  function Next(c: Config, w: World, e: Event): (w': World)
    requires c.slots > 0 && |w.disk| == c.slots
    ensures |w'.disk| == |w.disk|
  {
    match e
    case Write =>
      if w.phase.Writing? && w.inflight.None? then Begin(w, w.phase.generation) else w
    case Sync => SyncOf(c, w)
    case WriterScan =>
      if w.phase.Writing? && w.inflight.None?
      then FailIf(w, WriterCheck(c, ScanOf(c, w.disk), w.phase.generation)) else w
    case Crash(o) => CrashOf(c, w, o)
    case Boot => BootOf(c, w)
    case Round =>
      if w.phase.Recovered?
      then FailIf(w, RoundCheck(c, ScanOf(c, w.disk), w.phase.successor, w.phase.checksum)) else w
  }

  ghost predicate PhaseOk(c: Config, w: World)
    requires c.slots > 0
  {
    match w.phase
    case Writing(g) =>
      FullWindow(c, w.disk, g) && w.settled == g && (w.inflight.Some? ==> w.inflight.value == g + 1 < TWO_64)
    case Booting(lost) =>
      && w.inflight.None?
      && (Window(c, w.disk, w.settled) || (lost == Some(w.settled + 1) && FullWindow(c, w.disk, w.settled + 1)))
    case Recovering(m) =>
      Window(c, w.disk, m) && w.settled == m && w.inflight == Some(m + 1) && m + 1 < TWO_64
    case Recovered(g, checksum) =>
      && FullWindow(c, w.disk, g) && w.settled == g && w.inflight.None?
      && checksum == c.seal(g) && w.disk[SlotOf(c, g)] == Build(c, g)
    case Failed(_) => false
  }

  ghost predicate Inv(c: Config, w: World) {
    && Pages(c, w.disk)
    && (w.inflight.Some? ==> w.inflight.value < TWO_64)
    && (!w.wrapped ==> PhaseOk(c, w))
  }

  /** In every phase that can be interrupted, `settled` ends the window on disk. */
  lemma {:induction false} SettledWindow(c: Config, w: World)
    requires c.slots >= 2 && Inv(c, w) && !w.wrapped && !w.phase.Booting?
    ensures Window(c, w.disk, w.settled)
    ensures w.inflight.Some? ==> w.inflight == Some(w.settled + 1)
  {
    if !w.phase.Recovering? { FullIsWindow(c, w.disk, w.settled); }
  }

  lemma {:induction false} SyncKeepsInv(c: Config, w: World)
    requires c.slots >= 2 && Inv(c, w)
    ensures Inv(c, SyncOf(c, w))
  {
    if w.inflight.Some? && !w.wrapped {
      SettledWindow(c, w);
      CommitAdvances(c, w.disk, w.settled);
    }
  }

  lemma {:induction false} LandedPages(c: Config, w: World, o: Outcome)
    requires Pages(c, w.disk) && CanHappen(c, w, Crash(o)) && (w.inflight.Some? ==> w.inflight.value < TWO_64)
    ensures Pages(c, Landed(c, w, o))
  {
  }

  lemma {:induction false} LandedWindow(c: Config, w: World, o: Outcome)
    requires c.slots >= 2 && Pages(c, w.disk) && Window(c, w.disk, w.settled) && CanHappen(c, w, Crash(o))
    requires w.inflight.Some? ==> w.inflight == Some(w.settled + 1) && w.settled + 1 < TWO_64
    ensures if w.inflight.Some? && o.NewPage? then FullWindow(c, Landed(c, w, o), w.settled + 1)
            else Window(c, Landed(c, w, o), w.settled)
  {
    if w.inflight.Some? {
      match o
      case OldPage =>
      case NewPage => CommitAdvances(c, w.disk, w.settled);
      case TornPage(p) => TearKeepsWindow(c, w.disk, w.settled, p);
    }
  }

  lemma {:induction false} CrashKeepsInv(c: Config, w: World, o: Outcome)
    requires c.slots >= 2 && Inv(c, w) && CanHappen(c, w, Crash(o))
    ensures Inv(c, CrashOf(c, w, o))
  {
    LandedPages(c, w, o);
    if !w.wrapped && !w.phase.Booting? {
      SettledWindow(c, w);
      LandedWindow(c, w, o);
    }
  }

  /** The window a booting machine finds ends at `settled` or at the write that was in flight. */
  lemma {:induction false} BootFinds(c: Config, w: World)
    requires c.slots >= 2 && Inv(c, w) && w.phase.Booting? && !w.wrapped
    ensures ScanOf(c, w.disk).Accepted?
    ensures var a := ScanOf(c, w.disk).scan;
            && (a.max == w.settled || (w.phase.lost == Some(a.max) && a.max == w.settled + 1 && a.invalid == 0))
            && a.valid > 0 && Window(c, w.disk, a.max)
            && (a.invalid == 1 ==> a.invalidSlot == SlotOf(c, (a.max + 1) % TWO_64))
  {
    hide Rem, ScanOf, Accumulate;
    if Window(c, w.disk, w.settled) {
      WindowReported(c, w.disk, w.settled);
    } else {
      FullIsWindow(c, w.disk, w.settled + 1);
      WindowReported(c, w.disk, w.settled + 1);
    }
  }

  lemma {:induction false} ScansPass(c: Config, w: World)
    requires c.slots >= 2 && Inv(c, w) && !w.wrapped
    ensures w.phase.Writing? ==> WriterCheck(c, ScanOf(c, w.disk), w.phase.generation).None?
    ensures w.phase.Recovered? ==>
              RoundCheck(c, ScanOf(c, w.disk), w.phase.successor, w.phase.checksum).None?
  {
    if w.phase.Writing? {
      FullIsWindow(c, w.disk, w.phase.generation);
      WindowReported(c, w.disk, w.phase.generation);
    } else if w.phase.Recovered? {
      FullIsWindow(c, w.disk, w.phase.successor);
      WindowReported(c, w.disk, w.phase.successor);
    }
  }

  lemma {:induction false} BootKeepsInv(c: Config, w: World)
    requires c.slots >= 2 && Inv(c, w)
    ensures Inv(c, BootOf(c, w))
    ensures !BootOf(c, w).wrapped ==> BootOf(c, w).settled >= w.settled
  {
    if w.phase.Booting? && !w.wrapped { BootFinds(c, w); }
  }

  lemma {:induction false} NextKeepsInv(c: Config, w: World, e: Event)
    requires c.slots >= 2 && Inv(c, w) && CanHappen(c, w, e)
    ensures Inv(c, Next(c, w, e))
    ensures !Next(c, w, e).wrapped ==> Next(c, w, e).settled >= w.settled
  {
    match e
    case Write =>
    case Sync => SyncKeepsInv(c, w); if !w.wrapped && w.inflight.Some? { SettledWindow(c, w); }
    case WriterScan => if !w.wrapped { ScansPass(c, w); }
    case Crash(o) => CrashKeepsInv(c, w, o);
    case Boot => BootKeepsInv(c, w);
    case Round => if !w.wrapped { ScansPass(c, w); }
  }

  /** Every crash in the sequence leaves a page a crash can leave. */
  ghost predicate Legal(c: Config, w: World, events: seq<Event>)
    requires c.slots > 0 && |w.disk| == c.slots
    decreases |events|
  {
    events == [] || (CanHappen(c, w, events[0]) && Legal(c, Next(c, w, events[0]), events[1..]))
  }

  function Run(c: Config, w: World, events: seq<Event>): (w': World)
    requires c.slots > 0 && |w.disk| == c.slots
    ensures |w'.disk| == |w.disk|
    decreases |events|
  {
    if events == [] then w else Run(c, Next(c, w, events[0]), events[1..])
  }

  lemma {:induction false} RunKeepsInv(c: Config, w: World, events: seq<Event>)
    requires c.slots >= 2 && Inv(c, w) && Legal(c, w, events)
    ensures Inv(c, Run(c, w, events))
    ensures !Run(c, w, events).wrapped ==> Run(c, w, events).settled >= w.settled
    decreases |events|
  {
    if events != [] {
      NextKeepsInv(c, w, events[0]);
      RunKeepsInv(c, Next(c, w, events[0]), events[1..]);
      StaysWrapped(c, Next(c, w, events[0]), events[1..]);
    }
  }

  lemma {:induction false} StaysWrapped(c: Config, w: World, events: seq<Event>)
    requires c.slots > 0 && |w.disk| == c.slots
    ensures w.wrapped ==> Run(c, w, events).wrapped
    decreases |events|
  {
    if events != [] { StaysWrapped(c, Next(c, w, events[0]), events[1..]); }
  }

  /** The writer just after it armed the host: every slot filled, generation `slots` fsynced. */
  function Armed(c: Config, d: Disk): World {
    World(d, Writing(c.slots), None, c.slots, false)
  }

  /**
   Over any run of commits, crashes and recoveries after arming, until the 64-bit
   counter overflows: no scan ever fails, and no generation known to be on disk is lost.
   */
  lemma {:induction false} NoRunFails(c: Config, d: Disk, events: seq<Event>, more: seq<Event>)
    requires c.slots >= 2 && Pages(c, d) && FullWindow(c, d, c.slots) && Legal(c, Armed(c, d), events)
    requires Legal(c, Run(c, Armed(c, d), events), more)
    ensures var w := Run(c, Armed(c, d), events);
            var w' := Run(c, w, more);
            !w'.wrapped ==> !w.phase.Failed? && !w'.phase.Failed? && w.settled <= w'.settled
  {
    RunKeepsInv(c, Armed(c, d), events);
    RunKeepsInv(c, Run(c, Armed(c, d), events), more);
    StaysWrapped(c, Run(c, Armed(c, d), events), more);
  }

  /** The recovery scan of a reachable disk finds `settled`, or its successor if a crash interrupted that write. */
  lemma {:induction false} RecoveredGeneration(c: Config, d: Disk, events: seq<Event>)
    requires c.slots >= 2 && Pages(c, d) && FullWindow(c, d, c.slots) && Legal(c, Armed(c, d), events)
    requires var w := Run(c, Armed(c, d), events); w.phase.Booting? && !w.wrapped
    ensures ScanOf(c, Run(c, Armed(c, d), events).disk).Accepted?
    ensures var w := Run(c, Armed(c, d), events);
            var max := ScanOf(c, w.disk).scan.max;
            && (max == w.settled || (w.phase.lost == Some(max) && max == w.settled + 1))
            && Window(c, w.disk, max)
  {
    RunKeepsInv(c, Armed(c, d), events);
    BootFinds(c, Run(c, Armed(c, d), events));
  }

  /** A crash of a running machine loses exactly the interrupted write, unless its page made it to the disk. */
  lemma {:induction false} CrashLosesOnlyInFlight(c: Config, d: Disk, events: seq<Event>, o: Outcome)
    requires c.slots >= 2 && Pages(c, d) && FullWindow(c, d, c.slots) && Legal(c, Armed(c, d), events)
    requires var w := Run(c, Armed(c, d), events);
             !w.phase.Booting? && !w.wrapped && CanHappen(c, w, Crash(o))
    ensures var w := Run(c, Armed(c, d), events);
            var found := ScanOf(c, CrashOf(c, w, o).disk);
            && found.Accepted?
            && found.scan.max == if w.inflight.Some? && o.NewPage? then w.inflight.value else w.settled
  {
    hide Rem, ScanOf, Accumulate, Window, FullWindow;
    var w := Run(c, Armed(c, d), events);
    RunKeepsInv(c, Armed(c, d), events);
    CrashKeepsInv(c, w, o);
    SettledWindow(c, w);
    LandedWindow(c, w, o);
    var landed := Landed(c, w, o);
    if w.inflight.Some? && o.NewPage? {
      FullIsWindow(c, landed, w.settled + 1);
      WindowReported(c, landed, w.settled + 1);
    } else {
      WindowReported(c, landed, w.settled);
    }
  }

  /** Without overflow the recovery write fills the torn slot and the recovery round passes. */
  lemma {:induction false} RecoveryCompletes(c: Config, w: World)
    requires c.slots >= 2 && Inv(c, w) && w.phase.Booting? && !w.wrapped
    requires ScanOf(c, w.disk).Accepted? && ScanOf(c, w.disk).scan.max + 1 < TWO_64
    ensures var a, w' := ScanOf(c, w.disk).scan, SyncOf(c, BootOf(c, w));
            && w'.phase == Recovered(a.max + 1, c.seal(a.max + 1))
            && w'.disk == Put(c, w.disk, a.max + 1) && FullWindow(c, w'.disk, a.max + 1)
            && (a.invalid == 1 ==> a.invalidSlot == SlotOf(c, a.max + 1))
            && Next(c, w', Round) == w'
  {
    hide Rem, ScanOf, Accumulate;
    BootFinds(c, w);
    BootKeepsInv(c, w);
    SyncKeepsInv(c, BootOf(c, w));
    ScansPass(c, SyncOf(c, BootOf(c, w)));
  }

  /** At the top of the counter the successor is generation 0, which never verifies. */
  lemma {:induction false} OverflowFails(c: Config, w: World)
    requires c.slots >= 2 && Pages(c, w.disk) && w.phase.Booting?
    requires Window(c, w.disk, TWO_64 - 1)
    ensures Next(c, SyncOf(c, BootOf(c, w)), Round).phase.Failed?
  {
    WindowReported(c, w.disk, TWO_64 - 1);
    ZeroPutIncomplete(c, w.disk);
  }

  lemma {:induction false} ZeroPutIncomplete(c: Config, d: Disk)
    requires c.slots > 0 && |d| == c.slots
    ensures RoundCheck(c, ScanOf(c, Put(c, d, 0)), 0, c.seal(0)).Some?
  {
    var d' := Put(c, d, 0);
    assert !Verifies(c, d'[0], 0);
    Invalid(c, d', |d'|);
  }

  /**
   From any disk a crash can leave, recovery followed by a verification round passes
   exactly when the newest generation is below 2^64 - 1.
   */
  lemma {:induction false} RecoveryPassesIff(c: Config, w: World)
    requires c.slots >= 2 && Inv(c, w) && w.phase.Booting? && !w.wrapped
    ensures ScanOf(c, w.disk).Accepted?
    ensures Next(c, SyncOf(c, BootOf(c, w)), Round).phase.Recovered? <==> ScanOf(c, w.disk).scan.max + 1 < TWO_64
  {
    BootFinds(c, w);
    if ScanOf(c, w.disk).scan.max + 1 < TWO_64 { RecoveryCompletes(c, w); } else { OverflowFails(c, w); }
  }

  /** With a single slot one torn write loses the log: two slots are necessary. */
  lemma {:induction false} SingleSlotLost(c: Config, d: Disk, generation: nat, page: Page)
    requires c.slots == 1 && Pages(c, d) && FullWindow(c, d, generation)
    requires Torn(page)
    ensures var w := World(d, Writing(generation), Some((generation + 1) % TWO_64), generation, false);
            CanHappen(c, w, Crash(TornPage(page))) && BootOf(c, CrashOf(c, w, TornPage(page))).phase.Failed?
  {
    var next := (generation + 1) % TWO_64;
    var w := World(d, Writing(generation), Some(next), generation, false);
    assert CrashOf(c, w, TornPage(page)).disk == [page];
    assert Accumulate(c, [page], 1) == Tally(c, Accumulate(c, [page], 0), page, 0);
  }

  // ----- the runner's own procedures

  class Runner {
    const c: Config
    var disk: array<Page>
    var successor: nat
    var successorChecksum: nat

    ghost predicate Ready()
      reads this
    {
      0 < c.slots < 0x1_0000_0000 && disk.Length == c.slots
    }

    constructor (c: Config, disk: array<Page>)
      requires 0 < c.slots < 0x1_0000_0000 && disk.Length == c.slots
      ensures Ready() && this.c == c && this.disk == disk
    {
      this.c := c;
      this.disk := disk;
      successor := 0;
      successorChecksum := 0;
    }

    /** Write one record and return after fsync. */
    method Commit(generation: nat) returns (checksum: nat)
      requires Ready()
      modifies disk
      ensures disk[..] == Put(c, old(disk[..]), generation)
      ensures checksum == c.seal(generation)
    {
      disk[SlotOf(c, generation)] := Build(c, generation);
      checksum := c.seal(generation);
    }

    method ScanDisk() returns (r: ScanResult)
      requires Ready()
      ensures r == ScanOf(c, disk[..])
    {
      var a := Scan(0, 0, 0, TWO_64 - 1, 0, 0);
      for slot := 0 to c.slots
        invariant a == Accumulate(c, disk[..], slot)
      {
        a := Tally(c, a, disk[slot], slot);
      }
      r := Judge(c, a);
    }

    /** Fill every slot before arming; afterwards the writer's baseline scan passes. */
    method Fill() returns (failure: Option<Failure>)
      requires Ready() && c.slots >= 2
      modifies disk
      ensures Pages(c, disk[..]) && FullWindow(c, disk[..], c.slots)
      ensures failure.None?
    {
      var generation := 0;
      while generation < c.slots
        invariant generation <= c.slots
        invariant forall g :: 1 <= g <= generation && g < c.slots ==> disk[g] == Build(c, g)
        invariant generation == c.slots ==> disk[0] == Build(c, c.slots)
      {
        generation := generation + 1;
        assert generation == c.slots ==> SlotOf(c, generation) == Rem(0, c.slots);
        var _ := Commit(generation);
      }
      FilledWindow(c, disk[..]);
      FullIsWindow(c, disk[..], c.slots);
      WindowReported(c, disk[..], c.slots);
      var r := ScanDisk();
      failure := WriterCheck(c, r, generation);
    }

    /** block_recover: the new disk and globals are those of the boot and its synced write. */
    method Recover() returns (failure: Option<Failure>)
      requires Ready()
      modifies disk, this`successor, this`successorChecksum
      ensures var d := old(disk[..]);
              match ScanOf(c, d)
              case Rejected(f) => failure == Some(f) && disk[..] == d
              case Accepted(a) =>
                && a.valid > 0 && failure.None?
                && successor == (a.max + 1) % TWO_64 && successorChecksum == c.seal(successor)
                && disk[..] == Put(c, d, successor)
    {
      var r := ScanDisk();
      match r
      case Rejected(f) => failure := Some(f);
      case Accepted(a) =>
        if a.valid == 0 { return Some(NoValidRecord); }
        successor := (a.max + 1) % TWO_64;
        successorChecksum := Commit(successor);
        failure := None;
    }

    method RecoveryRound() returns (failure: Option<Failure>)
      requires Ready()
      ensures failure == RoundCheck(c, ScanOf(c, disk[..]), successor, successorChecksum)
    {
      var r := ScanDisk();
      match r
      case Rejected(f) => failure := Some(f);
      case Accepted(a) =>
        if a.valid != c.slots { return Some(WrongSlots(a.valid)); }
        if a.max != successor || a.maxChecksum != successorChecksum { return Some(WrongSuccessor(a.max)); }
        failure := None;
    }
  }

  lemma {:induction false} FilledWindow(c: Config, d: Disk)
    requires 2 <= c.slots < 0x1_0000_0000 && |d| == c.slots
    requires forall g :: 1 <= g < c.slots ==> d[g] == Build(c, g)
    requires d[0] == Build(c, c.slots)
    ensures Pages(c, d) && FullWindow(c, d, c.slots)
  {
    ExpectedUnique(c, 0, c.slots, c.slots);
    forall s | 0 <= s < |d| ensures Holds(c, d, s, c.slots) {
      if s > 0 {
        ExpectedUnique(c, s, c.slots, s);
      }
    }
  }
}
