/**
 * The high-half page tables the boot loader builds (bootloader/src/main.rs) and the end-to-end mapping of the loaded
 * kernel. Page-table frames are named by numbers; the firmware hands out distinct ones.
 */
module BootTables {
  import opened BootLayout
  import opened Common
  import opened Bytes
  import opened Loader
  import Arith
  import Placement

  const BUCKET: nat := 0x20_0000

  datatype Flags = Flags(writable: bool, noExecute: bool)

  datatype Entry = Absent | Table(frame: nat, flags: Flags) | Leaf(address: nat, flags: Flags)

  type Tables = map<nat, seq<Entry>>

  /** A translated address with its effective rights: writable at every level, executable at every level. */
  datatype Mapping = Mapping(address: nat, writable: bool, noExecute: bool)

  function EntryAt(t: Tables, frame: nat, i: nat): Entry {
    if frame in t && i < |t[frame]| then t[frame][i] else Absent
  }

  /** The processor's four-level walk, where a leaf in the third level is a 2 MiB page. */
  function Walk(t: Tables, root: nat, v: nat): Option<Mapping> {
    match EntryAt(t, root, v / 0x80_0000_0000 % 512)
    case Table(pdpt, f4) =>
      (match EntryAt(t, pdpt, v / 0x4000_0000 % 512)
       case Table(pd, f3) => WalkDirectory(t, pd, v, f4.writable && f3.writable, f4.noExecute || f3.noExecute)
       case Leaf(_, _) => None
       case Absent => None)
    case Leaf(_, _) => None
    case Absent => None
  }

  function WalkDirectory(t: Tables, pd: nat, v: nat, w: bool, nx: bool): Option<Mapping> {
    match EntryAt(t, pd, v / BUCKET % 512)
    case Leaf(a, f) => Some(Mapping(a + v % BUCKET, w && f.writable, nx || f.noExecute))
    case Table(pt, f) =>
      (match EntryAt(t, pt, v / PAGE % 512)
       case Leaf(a, g) =>
         Some(Mapping(a + v % PAGE, w && f.writable && g.writable, nx || f.noExecute || g.noExecute))
       case Table(_, _) => None
       case Absent => None)
    case Absent => None
  }

  /** `KernelPagePermissions::get`. */
  function PermAt(perms: seq<Perm>, physBase: nat, phys: nat): Option<Perm> {
    if phys < physBase || (phys - physBase) % PAGE != 0 || (phys - physBase) / PAGE >= |perms| then None
    else Some(perms[(phys - physBase) / PAGE])
  }

  function FlagsFor(p: Option<Perm>): Flags {
    match p
    case None => Flags(true, true)
    case Some(q) => if q.exec then Flags(false, false) else if q.write then Flags(true, true) else Flags(false, true)
  }

  function PageFlags(perms: seq<Perm>, physBase: nat, phys: nat): Flags {
    FlagsFor(PermAt(perms, physBase, phys))
  }

  /** The rights of one page of the window: data outside the image, and inside it what its permissions say. */
  lemma {:induction false} PageRights(perms: seq<Perm>, physBase: nat, page: nat)
    requires physBase % PAGE == 0
    ensures var phys := page * PAGE; var f := PageFlags(perms, physBase, phys);
      if physBase <= phys < physBase + |perms| * PAGE
      then var p := perms[(phys - physBase) / PAGE]; (f.writable <==> p.write && !p.exec) && (f.noExecute <==> !p.exec)
      else f.writable && f.noExecute
  {
  }

  predicate IsKernelBucket(i: nat, physBase: nat, pages: nat) {
    physBase / BUCKET <= i && i <= (if physBase + pages * PAGE == 0 then 0 else (physBase + pages * PAGE - 1) / BUCKET)
  }

  /** A bucket gets its own table exactly when it overlaps the image. */
  lemma {:induction false} BucketOverlaps(i: nat, physBase: nat, pages: nat)
    requires pages > 0
    ensures IsKernelBucket(i, physBase, pages) <==> i * BUCKET < physBase + pages * PAGE && physBase < (i + 1) * BUCKET
  {
  }

  lemma {:induction false} OutsideBuckets(i: nat, q: nat, perms: seq<Perm>, physBase: nat)
    requires q < 512 && !IsKernelBucket(i, physBase, |perms|)
    ensures PermAt(perms, physBase, i * BUCKET + q * PAGE).None?
  {
  }

  /** One table of 4 KiB leaves. */
  method FillTable(bucket: nat, perms: seq<Perm>, physBase: nat) returns (pt: seq<Entry>)
    ensures |pt| == 512
    ensures forall q :: 0 <= q < 512 ==> pt[q] == Leaf(bucket + q * PAGE, PageFlags(perms, physBase, bucket + q * PAGE))
  {
    hide FlagsFor, PermAt;
    pt := [];
    while |pt| < 512
      invariant |pt| <= 512
      invariant forall q :: 0 <= q < |pt| ==> pt[q] == Leaf(bucket + q * PAGE, PageFlags(perms, physBase, bucket + q * PAGE))
      decreases 512 - |pt|
    {
      var phys := bucket + |pt| * PAGE;
      pt := pt + [Leaf(phys, FlagsFor(PermAt(perms, physBase, phys)))];
    }
  }

  /** Directory entry `i` maps bucket `i` with the page flags of the image. */
  predicate BucketMapped(e: Entry, t: Tables, i: nat, perms: seq<Perm>, physBase: nat) {
    match e
    case Absent => false
    case Leaf(a, f) =>
      a == i * BUCKET && f == Flags(true, true) && !IsKernelBucket(i, physBase, |perms|)
    case Table(pt, f) =>
      && f == Flags(true, false) && pt in t && |t[pt]| == 512
      && forall q :: 0 <= q < 512 ==> t[pt][q] == Leaf(i * BUCKET + q * PAGE, PageFlags(perms, physBase, i * BUCKET + q * PAGE))
  }

  /** The frames the firmware returned: the three upper tables and one for each bucket that needs one. */
  datatype Frames = Frames(pml4: nat, pdpt: nat, pd: nat, pts: seq<nat>)

  predicate Distinct(f: Frames) {
    && |f.pts| == 512
    && f.pml4 != f.pdpt && f.pml4 != f.pd && f.pdpt != f.pd
    && (forall i :: 0 <= i < 512 ==> f.pts[i] != f.pml4 && f.pts[i] != f.pdpt && f.pts[i] != f.pd)
    && (forall i, j :: 0 <= i < j < 512 ==> f.pts[i] != f.pts[j])
  }

  predicate OnlyPts(t: Tables, f: Frames, n: nat)
    requires |f.pts| >= n
  {
    forall k :: k in t ==> exists i :: 0 <= i < n && f.pts[i] == k
  }

  method BuildDirectory(perms: seq<Perm>, physBase: nat, f: Frames) returns (pd: seq<Entry>, t: Tables)
    requires Distinct(f)
    ensures |pd| == 512 && OnlyPts(t, f, 512)
    ensures forall i :: 0 <= i < 512 ==> BucketMapped(pd[i], t, i, perms, physBase)
    ensures forall i :: 0 <= i < 512 ==> (pd[i].Table? <==> IsKernelBucket(i, physBase, |perms|))
  {
    hide PageFlags, IsKernelBucket;
    pd, t := [], map[];
    while |pd| < 512
      invariant |pd| <= 512 && OnlyPts(t, f, |pd|)
      invariant forall i :: 0 <= i < |pd| ==> BucketMapped(pd[i], t, i, perms, physBase)
      invariant forall i :: 0 <= i < |pd| && pd[i].Table? ==> pd[i].frame == f.pts[i]
      invariant forall i :: 0 <= i < |pd| ==> (pd[i].Table? <==> IsKernelBucket(i, physBase, |perms|))
      decreases 512 - |pd|
    {
      var i := |pd|;
      var bucket := i * BUCKET;
      if IsKernelBucket(i, physBase, |perms|) {
        var pt := FillTable(bucket, perms, physBase);
        t := t[f.pts[i] := pt];
        pd := pd + [Table(f.pts[i], Flags(true, false))];
      } else {
        pd := pd + [Leaf(bucket, Flags(true, true))];
      }
    }
  }

  /** The high-half tables: entry 511 of the root, entry 510 of the next level, and the directory. */
  method BuildHighHalf(perms: seq<Perm>, physBase: nat, f: Frames) returns (t: Tables)
    requires Distinct(f) && physBase % PAGE == 0
    ensures forall p :: 0 <= p < WINDOW ==>
      Walk(t, f.pml4, VIRT_BASE + p) == Some(MappedTo(p, PageFlags(perms, physBase, p / PAGE * PAGE)))
    ensures forall v :: VIRT_BASE <= v < VIRT_BASE + WINDOW ==> Guarded(Walk(t, f.pml4, v))
  {
    hide Walk, PageFlags, OnlyPts;
    var pd, tables := BuildDirectory(perms, physBase, f);
    t := tables;
    var empty := seq(512, i => Absent);
    t := t[f.pd := pd];
    t := t[f.pdpt := empty[510 := Table(f.pd, Flags(true, false))]];
    t := t[f.pml4 := empty[511 := Table(f.pdpt, Flags(true, false))]];
    UpperLevels(tables, t, f, perms, physBase, pd);
    forall p | 0 <= p < WINDOW
      ensures Walk(t, f.pml4, VIRT_BASE + p) == Some(MappedTo(p, PageFlags(perms, physBase, p / PAGE * PAGE)))
    {
      WalkWindow(t, f, perms, physBase, p);
    }
    forall v | VIRT_BASE <= v < VIRT_BASE + WINDOW ensures Guarded(Walk(t, f.pml4, v)) {
      var p := v - VIRT_BASE;
      assert Walk(t, f.pml4, VIRT_BASE + p) == Some(MappedTo(p, PageFlags(perms, physBase, p / PAGE * PAGE)));
      NoWritableExecutable(perms, physBase, p / PAGE * PAGE);
    }
  }

  /** Mapped, and not both writable and executable. */
  predicate Guarded(m: Option<Mapping>) {
    m.Some? && (m.value.writable ==> m.value.noExecute)
  }

  function MappedTo(p: nat, f: Flags): Mapping {
    Mapping(p, f.writable, f.noExecute)
  }

  ghost predicate Built(t: Tables, f: Frames, perms: seq<Perm>, physBase: nat) {
    && EntryAt(t, f.pml4, 511) == Table(f.pdpt, Flags(true, false))
    && EntryAt(t, f.pdpt, 510) == Table(f.pd, Flags(true, false))
    && forall i: nat :: i < 512 ==> BucketMapped(EntryAt(t, f.pd, i), t, i, perms, physBase)
  }

  lemma {:induction false} UpperLevels(t0: Tables, t: Tables, f: Frames, perms: seq<Perm>, physBase: nat, pd: seq<Entry>)
    requires Distinct(f) && |pd| == 512 && OnlyPts(t0, f, 512)
    requires forall i :: 0 <= i < 512 ==> BucketMapped(pd[i], t0, i, perms, physBase)
    requires forall k :: k in t0 ==> k in t && (k != f.pd && k != f.pdpt && k != f.pml4 ==> t[k] == t0[k])
    requires f.pd in t && t[f.pd] == pd
    requires f.pdpt in t && |t[f.pdpt]| == 512 && t[f.pdpt][510] == Table(f.pd, Flags(true, false))
    requires f.pml4 in t && |t[f.pml4]| == 512 && t[f.pml4][511] == Table(f.pdpt, Flags(true, false))
    ensures Built(t, f, perms, physBase)
  {
    hide PageFlags, IsKernelBucket;
    forall i: nat | i < 512 ensures BucketMapped(EntryAt(t, f.pd, i), t, i, perms, physBase) {
      assert BucketMapped(pd[i], t0, i, perms, physBase);
    }
  }

  /** The indices of a high-half window address. */
  lemma {:induction false} Indices(p: nat)
    requires p < WINDOW
    ensures var v := VIRT_BASE + p;
      && v / 0x80_0000_0000 % 512 == 511 && v / 0x4000_0000 % 512 == 510
      && v / BUCKET % 512 == p / BUCKET < 512 && v / PAGE % 512 == p / PAGE % 512
      && v % BUCKET == p % BUCKET && v % PAGE == p % PAGE
  {
    UpperIndices(p);
    LowerIndices(p);
  }

  lemma {:induction false} UpperIndices(p: nat)
    requires p < WINDOW
    ensures (VIRT_BASE + p) / 0x80_0000_0000 % 512 == 511 && (VIRT_BASE + p) / 0x4000_0000 % 512 == 510
  {
    assert (VIRT_BASE + p) / 0x4000_0000 == 0x3_FFFF_FFFE;
  }

  lemma {:induction false} LowerIndices(p: nat)
    requires p < WINDOW
    ensures (VIRT_BASE + p) / BUCKET % 512 == p / BUCKET < 512 && (VIRT_BASE + p) / PAGE % 512 == p / PAGE % 512
    ensures (VIRT_BASE + p) % BUCKET == p % BUCKET && (VIRT_BASE + p) % PAGE == p % PAGE
  {
    assert (VIRT_BASE + p) / BUCKET == 0x7FF_FFFF_FC00 + p / BUCKET;
    assert (VIRT_BASE + p) / PAGE == 0xF_FFFF_FFF8_0000 + p / PAGE;
  }

  lemma {:induction false} PagePosition(p: nat)
    ensures p / BUCKET * BUCKET + p / PAGE % 512 * PAGE == p / PAGE * PAGE
    ensures p / BUCKET * BUCKET + p % BUCKET == p && p / PAGE * PAGE + p % PAGE == p
  {
    assert p / PAGE / 512 == p / BUCKET;
    assert p / PAGE == p / PAGE / 512 * 512 + p / PAGE % 512;
  }

  lemma {:induction false} WalkWindow(t: Tables, f: Frames, perms: seq<Perm>, physBase: nat, p: nat)
    requires Built(t, f, perms, physBase) && p < WINDOW && physBase % PAGE == 0
    ensures Walk(t, f.pml4, VIRT_BASE + p) == Some(MappedTo(p, PageFlags(perms, physBase, p / PAGE * PAGE)))
  {
    hide PageFlags, IsKernelBucket, BucketMapped;
    var v := VIRT_BASE + p;
    Indices(p);
    assert Walk(t, f.pml4, v) == WalkDirectory(t, f.pd, v, true, false);
    DirectoryWindow(t, f, perms, physBase, p);
  }

  lemma {:induction false} DirectoryWindow(t: Tables, f: Frames, perms: seq<Perm>, physBase: nat, p: nat)
    requires Built(t, f, perms, physBase) && p < WINDOW && physBase % PAGE == 0
    ensures WalkDirectory(t, f.pd, VIRT_BASE + p, true, false)
         == Some(MappedTo(p, PageFlags(perms, physBase, p / PAGE * PAGE)))
  {
    hide IsKernelBucket, PermAt;
    var i, q := p / BUCKET, p / PAGE % 512;
    Indices(p);
    PagePosition(p);
    var e := EntryAt(t, f.pd, i);
    assert BucketMapped(e, t, i, perms, physBase);
    if e.Leaf? {
      OutsideBuckets(i, q, perms, physBase);
    } else {
      assert t[e.frame][q] == Leaf(i * BUCKET + q * PAGE, PageFlags(perms, physBase, i * BUCKET + q * PAGE));
    }
  }

  /** No address of the 1 GiB high-half window is both writable and executable. */
  lemma {:induction false} NoWritableExecutable(perms: seq<Perm>, physBase: nat, phys: nat)
    ensures var f := PageFlags(perms, physBase, phys); f.writable ==> f.noExecute
  {
  }

  // ---------------------------------------------------------------------------------------------
  // End to end

  /** The loaded kernel: its image bytes from `physBase` up, and the tables. */
  datatype Loaded = Loaded(image: seq<Byte>, physBase: nat, tables: Tables)

  /** The byte that linking and relocation put at link address `v` of segment `s`. */
  ghost predicate LinkedByte(b: Byte, s: Segment, file: seq<Byte>, relocs: seq<Reloc>, slide: nat, v: nat)
    requires Inside(s, v) && s.fileSize <= s.memSize && s.offset + s.fileSize <= |file|
  {
    && (forall j :: 0 <= j < |relocs| && Loader.At(relocs[j], v) ==>
          b == Put(RelocValue(relocs[j], slide), 8)[v - relocs[j].site])
    && ((forall j :: 0 <= j < |relocs| ==> !Loader.At(relocs[j], v)) ==> b == LinkByte(s, file, v))
  }

  /**
   * Walking the tables at link address plus slide reaches the byte that belongs there. The page is executable exactly
   * when an executable segment touches it and writable exactly when a writable one does.
   */
  ghost predicate Reaches(
      l: Loaded, root: nat, segs: seq<Segment>, k: nat, file: seq<Byte>, relocs: seq<Reloc>, slide: nat, min: nat, v: nat)
    requires k < |segs| && Inside(segs[k], v)
    requires segs[k].fileSize <= segs[k].memSize && segs[k].offset + segs[k].fileSize <= |file|
  {
    var page := if v < min then 0 else (v - min) / PAGE;
    match Walk(l.tables, root, v + slide)
    case None => false
    case Some(m) =>
      && l.physBase <= m.address < l.physBase + |l.image|
      && LinkedByte(l.image[m.address - l.physBase], segs[k], file, relocs, slide, v)
      && (m.writable <==> PageWrite(segs, min, page))
      && (m.noExecute <==> !PageExec(segs, min, page))
      && (segs[k].exec ==> !m.noExecute && !m.writable)
      && (segs[k].write ==> m.writable && m.noExecute)
  }

  lemma {:induction false} ReachesSegment(
      l: Loaded, root: nat, segs: seq<Segment>, k: nat, file: seq<Byte>, relocs: seq<Reloc>,
      slide: nat, min: nat, perms: seq<Perm>, v: nat)
    requires k < |segs| && Loads(segs[k]) && Inside(segs[k], v)
    requires min == VIRT_BASE + PHYS_BASE && l.physBase == PHYS_BASE + slide && slide % PAGE == 0
    requires |l.image| == |perms| * PAGE && l.physBase + |l.image| <= WINDOW
    requires Acceptable(segs, file, min, |l.image|, |perms|) && Disjoint(segs)
    requires AllRelocsOk(relocs, min, |l.image|) && SitesApart(relocs)
    requires l.image == Patch(LoadAll(segs, file, min, |l.image|), relocs, min, slide)
    requires forall page :: 0 <= page < |perms| ==> PermOf(perms[page], segs, min, page)
    requires forall p :: 0 <= p < WINDOW ==>
      Walk(l.tables, root, VIRT_BASE + p) == Some(MappedTo(p, PageFlags(perms, l.physBase, p / PAGE * PAGE)))
    ensures segs[k].fileSize <= segs[k].memSize && segs[k].offset + segs[k].fileSize <= |file|
    ensures Reaches(l, root, segs, k, file, relocs, slide, min, v)
  {
    hide Walk, PageFlags, Conflict, PermOf, Disjoint, SitesApart, Patch, LoadAll, LinkedByte;
    assert Sound(segs[k], file, min, |l.image|);
    var p := l.physBase + (v - min);
    assert v + slide == VIRT_BASE + p;
    assert Walk(l.tables, root, VIRT_BASE + p) == Some(MappedTo(p, PageFlags(perms, l.physBase, p / PAGE * PAGE)));
    var page := (v - min) / PAGE;
    PageOf(l.physBase, v - min, perms);
    Rights(perms, segs, min, page);
    OwnRights(segs, k, min, |perms|, v);
    PatchedByte(segs, file, min, |l.image|, relocs, slide, k, v);
  }

  lemma {:induction false} PageOf(physBase: nat, o: nat, perms: seq<Perm>)
    requires physBase % PAGE == 0 && o < |perms| * PAGE
    ensures o / PAGE < |perms|
    ensures PageFlags(perms, physBase, (physBase + o) / PAGE * PAGE) == FlagsFor(Some(perms[o / PAGE]))
  {
    assert (physBase + o) / PAGE * PAGE - physBase == o / PAGE * PAGE;
  }

  lemma {:induction false} OwnRights(segs: seq<Segment>, k: nat, min: nat, pages: nat, v: nat)
    requires k < |segs| && Loads(segs[k]) && min <= segs[k].vaddr && Inside(segs[k], v) && (v - min) / PAGE < pages
    requires !Conflict(segs, min, pages)
    ensures segs[k].exec ==> PageExec(segs, min, (v - min) / PAGE) && !PageWrite(segs, min, (v - min) / PAGE)
    ensures segs[k].write ==> PageWrite(segs, min, (v - min) / PAGE) && !PageExec(segs, min, (v - min) / PAGE)
  {
    AddressPage(segs[k], min, v);
  }

  lemma {:induction false} Rights(perms: seq<Perm>, segs: seq<Segment>, min: nat, page: nat)
    requires page < |perms| && PermOf(perms[page], segs, min, page) && !Conflict(segs, min, |perms|)
    ensures var f := FlagsFor(Some(perms[page]));
      (f.writable <==> PageWrite(segs, min, page)) && (f.noExecute <==> !PageExec(segs, min, page))
  {
    hide PageWrite, PageExec;
  }

  lemma {:induction false} PatchedByte(
      segs: seq<Segment>, file: seq<Byte>, min: nat, size: nat, relocs: seq<Reloc>, slide: nat, k: nat, v: nat)
    requires AllSound(segs, file, min, size) && Disjoint(segs)
    requires AllRelocsOk(relocs, min, size) && SitesApart(relocs)
    requires k < |segs| && Loads(segs[k]) && Inside(segs[k], v)
    ensures LinkedByte(Patch(LoadAll(segs, file, min, size), relocs, min, slide)[v - min], segs[k], file, relocs, slide, v)
  {
    hide Patch, LoadAll, Put, SitesApart, Disjoint;
    var image := LoadAll(segs, file, min, size);
    LoadedByte(segs, file, min, size, k, v);
    forall j | 0 <= j < |relocs| && Loader.At(relocs[j], v)
      ensures Patch(image, relocs, min, slide)[v - min] == Put(RelocValue(relocs[j], slide), 8)[v - relocs[j].site]
    {
      PatchSets(image, relocs, min, slide, j, v);
    }
    if forall j :: 0 <= j < |relocs| ==> !Loader.At(relocs[j], v) {
      PatchKeeps(image, relocs, min, slide, v);
    }
  }

  /** As in an image a linker produces: no segment covers another, no relocation another's word. */
  ghost predicate NoOverlaps(segs: seq<Segment>, relocs: seq<Reloc>) {
    Disjoint(segs) && SitesApart(relocs)
  }

  /** Linked at the expected base and placed inside the mapped window. */
  predicate LinkedInWindow(e: Extent, slide: nat, size: nat) {
    e.min == VIRT_BASE + PHYS_BASE && PHYS_BASE + slide + size <= WINDOW
  }

  /** The segments copied in order over zeroes, then the relocations applied in order. */
  ghost predicate HoldsImage(
      image: seq<Byte>, segs: seq<Segment>, file: seq<Byte>, relocs: seq<Reloc>, slide: nat, min: nat)
  {
    && AllSound(segs, file, min, |image|) && AllRelocsOk(relocs, min, |image|)
    && image == Patch(LoadAll(segs, file, min, |image|), relocs, min, slide)
  }

  /** The exact condition under which the loader does not panic. */
  ghost predicate LoadsCleanly(
      segs: seq<Segment>, file: seq<Byte>, present: bool, relocs: seq<Reloc>, slide: nat, e: Extent)
  {
    && Encloses(e, segs) && e.min < e.max < TWO_64
    && Acceptable(segs, file, e.min, PageCount(e.max - e.min) * PAGE, PageCount(e.max - e.min))
    && (present || slide == 0) && AllRelocsOk(relocs, e.min, e.max - e.min)
  }

  /** Everything reachable: each byte of each loaded segment at its slid address. */
  ghost predicate AllReach(
      l: Loaded, root: nat, segs: seq<Segment>, file: seq<Byte>, relocs: seq<Reloc>, slide: nat, min: nat)
  {
    forall k, v :: 0 <= k < |segs| && segs[k].vaddr >= VIRT_BASE && Inside(segs[k], v) ==>
      && segs[k].fileSize <= segs[k].memSize && segs[k].offset + segs[k].fileSize <= |file|
      && Reaches(l, root, segs, k, file, relocs, slide, min, v)
  }

  lemma {:induction false} ReachesAll(
      l: Loaded, root: nat, segs: seq<Segment>, file: seq<Byte>, relocs: seq<Reloc>,
      slide: nat, min: nat, perms: seq<Perm>)
    requires min == VIRT_BASE + PHYS_BASE && l.physBase == PHYS_BASE + slide && slide % PAGE == 0
    requires |l.image| == |perms| * PAGE && l.physBase + |l.image| <= WINDOW
    requires Acceptable(segs, file, min, |l.image|, |perms|) && Disjoint(segs)
    requires AllRelocsOk(relocs, min, |l.image|) && SitesApart(relocs)
    requires l.image == Patch(LoadAll(segs, file, min, |l.image|), relocs, min, slide)
    requires forall page :: 0 <= page < |perms| ==> PermOf(perms[page], segs, min, page)
    requires forall p :: 0 <= p < WINDOW ==>
      Walk(l.tables, root, VIRT_BASE + p) == Some(MappedTo(p, PageFlags(perms, l.physBase, p / PAGE * PAGE)))
    ensures AllReach(l, root, segs, file, relocs, slide, min)
  {
    hide Walk, PageFlags, Conflict, PermOf, Patch, LoadAll, Reaches, Acceptable, Disjoint, SitesApart, AllRelocsOk;
    forall k, v | 0 <= k < |segs| && segs[k].vaddr >= VIRT_BASE && Inside(segs[k], v)
      ensures segs[k].fileSize <= segs[k].memSize && segs[k].offset + segs[k].fileSize <= |file|
      ensures Reaches(l, root, segs, k, file, relocs, slide, min, v)
    {
      ReachesSegment(l, root, segs, k, file, relocs, slide, min, perms, v);
    }
  }

  /** Walking at link address plus slide reaches the frame byte that holds link address `v`. */
  predicate LandsOnByte(t: Tables, root: nat, physBase: nat, min: nat, slide: nat, v: nat)
    requires min <= v
  {
    var w := Walk(t, root, v + slide);
    w.Some? && w.value.address == physBase + (v - min)
  }

  /**
   * The tables map the window at a fixed offset, whatever the image's own base: an address of the window reaches the
   * byte loaded for it exactly when the image is linked at the expected base.
   */
  lemma {:induction false} LandsWhenLinkedAtBase(
      t: Tables, root: nat, perms: seq<Perm>, physBase: nat, min: nat, slide: nat, v: nat)
    requires forall p :: 0 <= p < WINDOW ==>
      Walk(t, root, VIRT_BASE + p) == Some(MappedTo(p, PageFlags(perms, physBase, p / PAGE * PAGE)))
    requires physBase == PHYS_BASE + slide && VIRT_BASE <= min <= v && v + slide < VIRT_BASE + WINDOW
    ensures LandsOnByte(t, root, physBase, min, slide, v) <==> min == VIRT_BASE + PHYS_BASE
  {
    hide Walk, PageFlags;
    var p := v + slide - VIRT_BASE;
    assert Walk(t, root, VIRT_BASE + p) == Some(MappedTo(p, PageFlags(perms, physBase, p / PAGE * PAGE)));
  }

  /** The high-half alias of physical address `p` is writable and not executable. */
  predicate IsData(t: Tables, root: nat, p: nat) {
    Walk(t, root, VIRT_BASE + p) == Some(Mapping(p, true, true))
  }

  lemma {:induction false} OutsideIsData(t: Tables, root: nat, perms: seq<Perm>, physBase: nat, p: nat)
    requires Walk(t, root, VIRT_BASE + p) == Some(MappedTo(p, PageFlags(perms, physBase, p / PAGE * PAGE)))
    requires physBase % PAGE == 0 && !(physBase <= p < physBase + |perms| * PAGE)
    ensures IsData(t, root, p)
  {
    hide Walk, PageFlags;
    PageRights(perms, physBase, p / PAGE);
  }

  /** One read-only byte linked at the bottom of the high half instead of at the expected base. */
  const MISLINKED: Segment := Segment(VIRT_BASE, 1, 1, 0, false, false)

  lemma {:induction false} MislinkedLoads(t: Tables, root: nat, perms: seq<Perm>)
    requires forall p :: 0 <= p < WINDOW ==>
      Walk(t, root, VIRT_BASE + p) == Some(MappedTo(p, PageFlags(perms, PHYS_BASE, p / PAGE * PAGE)))
    ensures LoadsCleanly([MISLINKED], [7], false, [], 0, Extent(VIRT_BASE, VIRT_BASE + 1))
    ensures !LandsOnByte(t, root, PHYS_BASE, VIRT_BASE, 0, VIRT_BASE)
  {
    hide Walk, PageFlags, LandsOnByte;
    LandsWhenLinkedAtBase(t, root, perms, PHYS_BASE, VIRT_BASE, 0, VIRT_BASE);
    assert [MISLINKED][0] == MISLINKED;
  }

  /** When measuring panics, nothing encloses the high-half segments below the top of the address space. */
  lemma {:induction false} NoExtent(segs: seq<Segment>, x: Extent)
    requires (forall k :: 0 <= k < |segs| ==> !HighHalf(segs[k])) ||
      (exists k :: 0 <= k < |segs| && HighHalf(segs[k]) && segs[k].vaddr + segs[k].memSize >= TWO_64)
    ensures !(Encloses(x, segs) && x.max < TWO_64)
  {
  }

  lemma {:induction false} SameExtent(a: Extent, b: Extent, segs: seq<Segment>)
    requires Encloses(a, segs) && Encloses(b, segs)
    ensures a == b
  {
  }

  /** A clean load has one extent only. */
  lemma {:induction false} OnlyExtent(
      segs: seq<Segment>, file: seq<Byte>, present: bool, relocs: seq<Reloc>, slide: nat, e: Extent)
    requires Encloses(e, segs) && exists x :: LoadsCleanly(segs, file, present, relocs, slide, x)
    ensures LoadsCleanly(segs, file, present, relocs, slide, e)
  {
    hide Acceptable, AllRelocsOk;
    var x :| LoadsCleanly(segs, file, present, relocs, slide, x);
    SameExtent(x, e, segs);
  }

  /**
   * The loader from the program headers to the finished tables, at the placement the allocator chose. It gets through
   * exactly when the image can be loaded cleanly at some extent. Every byte of every loaded segment is then reachable
   * at its slid address with the right contents and rights, provided the image is linked at the expected base and its
   * segments and relocation sites do not overlap.
   */
  method LoadKernel(
      segs: seq<Segment>, file: seq<Byte>, present: bool, relocs: seq<Reloc>, slide: nat, f: Frames)
    returns (r: Outcome<Loaded>, e: Extent)
    requires Distinct(f) && slide % PAGE == 0 && (!present ==> relocs == [])
    requires forall k :: 0 <= k < |segs| ==> segs[k].vaddr < TWO_64
    ensures r.Done? <==> exists x :: LoadsCleanly(segs, file, present, relocs, slide, x)
    ensures r.Done? ==> LoadsCleanly(segs, file, present, relocs, slide, e)
    ensures r.Done? ==> |r.value.image| == PageCount(e.max - e.min) * PAGE && r.value.physBase == PHYS_BASE + slide
    ensures r.Done? ==> HoldsImage(r.value.image, segs, file, relocs, slide, e.min)
    ensures r.Done? ==> forall v :: VIRT_BASE <= v < VIRT_BASE + WINDOW ==> Guarded(Walk(r.value.tables, f.pml4, v))
    ensures r.Done? ==> forall v :: e.min <= v && v + slide < VIRT_BASE + WINDOW ==>
      (LandsOnByte(r.value.tables, f.pml4, r.value.physBase, e.min, slide, v) <==> e.min == VIRT_BASE + PHYS_BASE)
    ensures r.Done? ==> forall p :: 0 <= p < WINDOW && !(PHYS_BASE + slide <= p < PHYS_BASE + slide + |r.value.image|) ==>
      IsData(r.value.tables, f.pml4, p)
    ensures r.Done? && NoOverlaps(segs, relocs) && LinkedInWindow(e, slide, |r.value.image|) ==>
      AllReach(r.value, f.pml4, segs, file, relocs, slide, e.min)
  {
    hide Walk, PageFlags, Conflict, PermOf, Patch, LoadAll, AllReach, Guarded, LandsOnByte, Disjoint, SitesApart, IsData;
    hide Encloses, Sound, AllRelocsOk, AllSound;
    e := Extent(0, 0);
    var measured := MeasureExtent(segs);
    if measured.Panic? {
      forall x ensures !LoadsCleanly(segs, file, present, relocs, slide, x) { NoExtent(segs, x); }
      return Panic, e;
    }
    e := measured.value;
    var size := e.max - e.min;
    var pages := PageCount(size);
    if exists x :: LoadsCleanly(segs, file, present, relocs, slide, x) {
      OnlyExtent(segs, file, present, relocs, slide, e);
    }
    if pages == 0 { return Panic, e; }
    var image := new Byte[pages * PAGE];
    var perms := new Perm[pages](i => Perm(false, false, false));
    var ok := LoadSegments(segs, file, e.min, image, perms);
    if !ok { return Panic, e; }
    ok := ApplyRelocations(image, present, relocs, e.min, size, slide);
    if !ok { return Panic, e; }
    var physBase := PHYS_BASE + slide;
    var tables := BuildHighHalf(perms[..], physBase, f);
    r := Done(Loaded(image[..], physBase, tables));
    assert LoadsCleanly(segs, file, present, relocs, slide, e);
    forall v | e.min <= v && v + slide < VIRT_BASE + WINDOW
      ensures LandsOnByte(tables, f.pml4, physBase, e.min, slide, v) <==> e.min == VIRT_BASE + PHYS_BASE
    {
      LandsWhenLinkedAtBase(tables, f.pml4, perms[..], physBase, e.min, slide, v);
    }
    forall p | 0 <= p < WINDOW && !(physBase <= p < physBase + |r.value.image|) ensures IsData(tables, f.pml4, p) {
      OutsideIsData(tables, f.pml4, perms[..], physBase, p);
    }
    if NoOverlaps(segs, relocs) && LinkedInWindow(e, slide, |r.value.image|) {
      ReachesAll(r.value, f.pml4, segs, file, relocs, slide, e.min, perms[..]);
    }
  }

  /** The allocator ends at a granted slot with this slide, and the image loads cleanly there. */
  ghost predicate Boots(
      segs: seq<Segment>, file: seq<Byte>, present: bool, relocs: seq<Reloc>,
      order: seq<nat>, firmware: nat -> Placement.Reply, slide: nat, e: Extent)
  {
    && LoadsCleanly(segs, file, present, relocs, slide, e)
    && Placement.Ends(order, PageCount(e.max - e.min) * PAGE, firmware, Placement.At(PHYS_BASE + slide, slide))
  }

  /**
   * Placement and loading together, over any order of the slots and any firmware: the boot gets through exactly when
   * the first slot that fits and is not refused is granted and the image loads cleanly at that slide. A kernel linked
   * at the expected base, without overlaps, is then fully reachable, wherever it went.
   */
  method BootKernel(
      segs: seq<Segment>, file: seq<Byte>, present: bool, relocs: seq<Reloc>,
      slots: nat, order: seq<nat>, firmware: nat -> Placement.Reply, f: Frames)
    returns (r: Outcome<Loaded>, slide: nat, e: Extent)
    requires Distinct(f) && (!present ==> relocs == [])
    requires forall k :: 0 <= k < |segs| ==> segs[k].vaddr < TWO_64
    requires Placement.Reorders(order, Placement.Identity(slots))
    requires multiset(order) == multiset(Placement.Identity(slots))
    ensures r.Done? <==> exists s, x :: Boots(segs, file, present, relocs, order, firmware, s, x)
    ensures r.Done? ==> Boots(segs, file, present, relocs, order, firmware, slide, e)
    ensures r.Done? ==> firmware(PHYS_BASE + slide) == Placement.Granted && r.value.physBase == PHYS_BASE + slide
    ensures r.Done? ==> forall v :: e.min <= v && v + slide < VIRT_BASE + WINDOW ==>
      (LandsOnByte(r.value.tables, f.pml4, r.value.physBase, e.min, slide, v) <==> e.min == VIRT_BASE + PHYS_BASE)
    ensures r.Done? && e.min == VIRT_BASE + PHYS_BASE && NoOverlaps(segs, relocs) ==>
      AllReach(r.value, f.pml4, segs, file, relocs, slide, e.min)
  {
    hide AllReach, Walk, Guarded, LandsOnByte, LoadsCleanly, NoOverlaps, HoldsImage, Boots, IsData;
    hide Placement.Reorders, Placement.Ends;
    slide, e := 0, Extent(0, 0);
    var measured := MeasureExtent(segs);
    if measured.Panic? {
      NeverBoots(segs, file, present, relocs, order, firmware);
      return Panic, slide, e;
    }
    var m := measured.value;
    var bytes := PageCount(m.max - m.min) * PAGE;
    if exists s, x :: Boots(segs, file, present, relocs, order, firmware, s, x) {
      BootsSized(segs, file, present, relocs, order, firmware, m);
    }
    if bytes == 0 { return Panic, slide, e; }
    var spot := Placement.AllocateImage(slots, order, bytes, firmware);
    if exists s, x :: Boots(segs, file, present, relocs, order, firmware, s, x) {
      BootsThere(segs, file, present, relocs, order, firmware, m, slots, bytes, spot);
    }
    if !spot.At? { return Panic, slide, e; }
    slide := spot.slide;
    Placed(order, bytes, firmware, spot);
    r, e := LoadKernel(segs, file, present, relocs, slide, f);
    if r.Done? {
      Assembled(segs, file, present, relocs, order, firmware, slide, e, m);
    }
  }

  lemma {:induction false} NeverBoots(
      segs: seq<Segment>, file: seq<Byte>, present: bool, relocs: seq<Reloc>,
      order: seq<nat>, firmware: nat -> Placement.Reply)
    requires (forall k :: 0 <= k < |segs| ==> !HighHalf(segs[k])) ||
      (exists k :: 0 <= k < |segs| && HighHalf(segs[k]) && segs[k].vaddr + segs[k].memSize >= TWO_64)
    ensures !exists s, x :: Boots(segs, file, present, relocs, order, firmware, s, x)
  {
    hide Encloses, Acceptable, AllRelocsOk, Placement.Ends;
    forall s, x ensures !Boots(segs, file, present, relocs, order, firmware, s, x) { NoExtent(segs, x); }
  }

  lemma {:induction false} BootsSized(
      segs: seq<Segment>, file: seq<Byte>, present: bool, relocs: seq<Reloc>,
      order: seq<nat>, firmware: nat -> Placement.Reply, m: Extent)
    requires Encloses(m, segs) && exists s, x :: Boots(segs, file, present, relocs, order, firmware, s, x)
    ensures m.min < m.max && PageCount(m.max - m.min) > 0
  {
    hide Encloses, Acceptable, AllRelocsOk, Placement.Ends;
    var s, x :| Boots(segs, file, present, relocs, order, firmware, s, x);
    SameExtent(x, m, segs);
  }

  lemma {:induction false} BootsThere(
      segs: seq<Segment>, file: seq<Byte>, present: bool, relocs: seq<Reloc>, order: seq<nat>,
      firmware: nat -> Placement.Reply, m: Extent, slots: nat, bytes: nat, spot: Placement.Allocation)
    requires Encloses(m, segs) && m.min <= m.max && bytes == PageCount(m.max - m.min) * PAGE
    requires multiset(order) == multiset(Placement.Identity(slots))
    requires spot.Exhausted? <==> forall slot :: 0 <= slot < slots ==> Placement.Passed(slot, bytes, firmware)
    requires !spot.Exhausted? ==> Placement.Ends(order, bytes, firmware, spot)
    requires exists s, x :: Boots(segs, file, present, relocs, order, firmware, s, x)
    ensures spot.At? && LoadsCleanly(segs, file, present, relocs, spot.slide, m)
  {
    hide Encloses, Acceptable, AllRelocsOk, Placement.Ends, Placement.Passed;
    var s, x :| Boots(segs, file, present, relocs, order, firmware, s, x);
    SameExtent(x, m, segs);
    Placement.OneEnd(slots, order, bytes, firmware, Placement.At(PHYS_BASE + s, s), spot);
  }

  lemma {:induction false} Assembled(
      segs: seq<Segment>, file: seq<Byte>, present: bool, relocs: seq<Reloc>,
      order: seq<nat>, firmware: nat -> Placement.Reply, slide: nat, e: Extent, m: Extent)
    requires Encloses(m, segs) && m.min <= m.max && LoadsCleanly(segs, file, present, relocs, slide, e)
    requires Placement.Ends(order, PageCount(m.max - m.min) * PAGE, firmware, Placement.At(PHYS_BASE + slide, slide))
    ensures m == e && Boots(segs, file, present, relocs, order, firmware, slide, e)
  {
    hide Encloses, Acceptable, AllRelocsOk, Placement.Ends;
    SameExtent(e, m, segs);
  }

  lemma {:induction false} Placed(order: seq<nat>, bytes: nat, firmware: nat -> Placement.Reply, a: Placement.Allocation)
    requires a.At? && Placement.Ends(order, bytes, firmware, a)
    ensures a.slide % PAGE == 0 && a.address == PHYS_BASE + a.slide && PHYS_BASE + a.slide + bytes <= WINDOW
    ensures firmware(PHYS_BASE + a.slide) == Placement.Granted
  {
    var i: nat :| i < |order| && Placement.EndsAt(order, i, bytes, firmware, a);
    Granular(order[i]);
  }

  lemma {:induction false} Granular(slot: nat)
    ensures slot * GRANULARITY % PAGE == 0
  {
    Arith.ModUnique(slot * GRANULARITY, slot * 16, 0, PAGE);
  }
}
