/**
 * Loading and mapping the kernel image (bootloader/src/main.rs): LOAD segments, per-page permissions, relative
 * relocations, and the high-half page tables.
 */
module Loader {
  import opened BootLayout
  import opened Common
  import opened Bytes

  /** A LOAD program header. */
  datatype Segment = Segment(vaddr: nat, memSize: nat, fileSize: nat, offset: nat, exec: bool, write: bool)

  /** Permission bits of one 4 KiB page of the image. */
  datatype Perm = Perm(exec: bool, write: bool, claimed: bool)

  datatype Outcome<T> = Done(value: T) | Panic

  predicate HighHalf(s: Segment) {
    s.vaddr >= VIRT_BASE
  }

  /** The segments that are loaded: high-half and not empty. */
  predicate Loads(s: Segment) {
    HighHalf(s) && s.memSize > 0
  }

  // ---------------------------------------------------------------------------------------------
  // Extent

  datatype Extent = Extent(min: nat, max: nat)

  predicate Encloses(e: Extent, segs: seq<Segment>) {
    && (forall k :: 0 <= k < |segs| && HighHalf(segs[k]) ==> e.min <= segs[k].vaddr && segs[k].vaddr + segs[k].memSize <= e.max)
    && (exists k :: 0 <= k < |segs| && HighHalf(segs[k]) && segs[k].vaddr == e.min)
    && (exists k :: 0 <= k < |segs| && HighHalf(segs[k]) && segs[k].vaddr + segs[k].memSize == e.max)
  }

  method MeasureExtent(segs: seq<Segment>) returns (r: Outcome<Extent>)
    requires forall k :: 0 <= k < |segs| ==> segs[k].vaddr < TWO_64
    ensures r.Done? ==> Encloses(r.value, segs) && r.value.min <= r.value.max
    ensures r.Panic? <==>
      (forall k :: 0 <= k < |segs| ==> !HighHalf(segs[k])) ||
      (exists k :: 0 <= k < |segs| && HighHalf(segs[k]) && segs[k].vaddr + segs[k].memSize >= TWO_64)
  {
    var min, max, i := TWO_64 - 1, 0, 0;
    ghost var lowest, highest := 0, 0;
    while i < |segs|
      invariant i <= |segs|
      invariant forall k :: 0 <= k < i && HighHalf(segs[k]) ==>
        min <= segs[k].vaddr && segs[k].vaddr + segs[k].memSize <= max && segs[k].vaddr + segs[k].memSize < TWO_64
      invariant (min == TWO_64 - 1 && max == 0 && forall k :: 0 <= k < i ==> !HighHalf(segs[k])) ||
        (0 <= lowest < i && 0 <= highest < i && HighHalf(segs[lowest]) && segs[lowest].vaddr == min
         && HighHalf(segs[highest]) && segs[highest].vaddr + segs[highest].memSize == max)
    {
      if HighHalf(segs[i]) {
        if segs[i].vaddr <= min { lowest := i; }
        if segs[i].vaddr < min {
          min := segs[i].vaddr;
        }
        var end := segs[i].vaddr + segs[i].memSize;
        if end >= TWO_64 {
          return Panic;
        }
        if end > max {
          max := end;
          highest := i;
        }
      }
      i := i + 1;
    }
    if max < min {
      return Panic;
    }
    r := Done(Extent(min, max));
  }

  function PageCount(size: nat): nat {
    (size + 0xFFF) / PAGE
  }

  /** The fewest pages that hold `size` bytes. */
  lemma {:induction false} FewestPages(size: nat)
    ensures size <= PageCount(size) * PAGE < size + PAGE
  {
  }

  // ---------------------------------------------------------------------------------------------
  // Image contents

  /** A segment that passes the loader's checks against the file and the image. */
  predicate Sound(s: Segment, file: seq<Byte>, min: nat, size: nat) {
    && s.fileSize <= s.memSize && s.offset + s.fileSize <= |file|
    && min <= s.vaddr && s.vaddr - min + s.memSize <= size
  }

  function SegmentBytes(s: Segment, file: seq<Byte>): (b: seq<Byte>)
    requires s.fileSize <= s.memSize && s.offset + s.fileSize <= |file|
    ensures |b| == s.memSize
  {
    file[s.offset..s.offset + s.fileSize] + Zeros(s.memSize - s.fileSize)
  }

  predicate AllSound(segs: seq<Segment>, file: seq<Byte>, min: nat, size: nat) {
    forall k :: 0 <= k < |segs| && Loads(segs[k]) ==> Sound(segs[k], file, min, size)
  }

  function LoadAll(segs: seq<Segment>, file: seq<Byte>, min: nat, size: nat): (image: seq<Byte>)
    requires AllSound(segs, file, min, size)
    ensures |image| == size
  {
    if segs == [] then Zeros(size)
    else
      var before := LoadAll(segs[..|segs| - 1], file, min, size);
      var s := segs[|segs| - 1];
      if Loads(s) then Splice(before, s.vaddr - min, SegmentBytes(s, file)) else before
  }

  predicate Inside(s: Segment, v: nat) {
    s.vaddr <= v < s.vaddr + s.memSize
  }

  ghost predicate Disjoint(segs: seq<Segment>) {
    forall j, k :: 0 <= j < k < |segs| && Loads(segs[j]) && Loads(segs[k]) ==>
      segs[j].vaddr + segs[j].memSize <= segs[k].vaddr || segs[k].vaddr + segs[k].memSize <= segs[j].vaddr
  }

  /** The byte a segment puts at link address `v`. */
  function LinkByte(s: Segment, file: seq<Byte>, v: nat): Byte
    requires Inside(s, v) && s.fileSize <= s.memSize && s.offset + s.fileSize <= |file|
  {
    if v - s.vaddr < s.fileSize then file[s.offset + (v - s.vaddr)] else 0
  }

  lemma {:induction false} LoadedByte(segs: seq<Segment>, file: seq<Byte>, min: nat, size: nat, k: nat, v: nat)
    requires AllSound(segs, file, min, size) && Disjoint(segs)
    requires k < |segs| && Loads(segs[k]) && Inside(segs[k], v)
    ensures LoadAll(segs, file, min, size)[v - min] == LinkByte(segs[k], file, v)
    decreases |segs|
  {
    var n, o := |segs| - 1, v - min;
    var front, last := segs[..n], segs[n];
    assert forall j :: 0 <= j < n ==> front[j] == segs[j];
    assert Sound(segs[k], file, min, size);
    var before := LoadAll(front, file, min, size);
    if k < n {
      LoadedByte(front, file, min, size, k, v);
      if Loads(last) {
        assert Sound(last, file, min, size) && !Inside(last, v);
        SplicedOutside(before, last.vaddr - min, SegmentBytes(last, file), o);
      }
    } else {
      SplicedInside(before, last.vaddr - min, SegmentBytes(last, file), o);
    }
  }

  lemma {:induction false} SplicedOutside(image: seq<Byte>, at: nat, b: seq<Byte>, o: nat)
    requires at + |b| <= |image| && o < |image| && !(at <= o < at + |b|)
    ensures Splice(image, at, b)[o] == image[o]
  {
  }

  lemma {:induction false} SplicedInside(image: seq<Byte>, at: nat, b: seq<Byte>, o: nat)
    requires at + |b| <= |image| && at <= o < at + |b|
    ensures Splice(image, at, b)[o] == b[o - at]
  {
  }

  // ---------------------------------------------------------------------------------------------
  // Page permissions

  function FirstPage(s: Segment, min: nat): nat
    requires min <= s.vaddr
  {
    (s.vaddr - min) / PAGE
  }

  function LastPage(s: Segment, min: nat): nat
    requires min <= s.vaddr && s.memSize > 0
  {
    (s.vaddr - min + s.memSize - 1) / PAGE
  }

  predicate Touches(s: Segment, min: nat, page: nat) {
    Loads(s) && min <= s.vaddr && FirstPage(s, min) <= page <= LastPage(s, min)
  }

  /** A page is touched exactly when some address of the segment lies in it. */
  lemma {:induction false} TouchesAddress(s: Segment, min: nat, page: nat)
    requires Loads(s) && min <= s.vaddr
    ensures Touches(s, min, page) <==> exists v: nat :: Inside(s, v) && (v - min) / PAGE == page
  {
    if Touches(s, min, page) {
      var v := if s.vaddr - min >= page * PAGE then s.vaddr else min + page * PAGE;
      assert Inside(s, v) && (v - min) / PAGE == page;
    }
  }

  ghost predicate PageExec(segs: seq<Segment>, min: nat, page: nat) {
    exists k :: 0 <= k < |segs| && segs[k].exec && Touches(segs[k], min, page)
  }

  ghost predicate PageWrite(segs: seq<Segment>, min: nat, page: nat) {
    exists k :: 0 <= k < |segs| && segs[k].write && Touches(segs[k], min, page)
  }

  ghost predicate PageClaimed(segs: seq<Segment>, min: nat, page: nat) {
    exists k :: 0 <= k < |segs| && Touches(segs[k], min, page)
  }

  ghost predicate PermOf(p: Perm, segs: seq<Segment>, min: nat, page: nat) {
    && (p.exec <==> PageExec(segs, min, page))
    && (p.write <==> PageWrite(segs, min, page))
    && (p.claimed <==> PageClaimed(segs, min, page))
  }

  lemma {:induction false} PermSnoc(segs: seq<Segment>, s: Segment, min: nat, page: nat)
    ensures PageExec(segs + [s], min, page) <==> PageExec(segs, min, page) || (s.exec && Touches(s, min, page))
    ensures PageWrite(segs + [s], min, page) <==> PageWrite(segs, min, page) || (s.write && Touches(s, min, page))
    ensures PageClaimed(segs + [s], min, page) <==> PageClaimed(segs, min, page) || Touches(s, min, page)
  {
    hide Touches;
    var all := segs + [s];
    assert all[|segs|] == s;
    assert forall k :: 0 <= k < |segs| ==> all[k] == segs[k];
  }

  /** Some page is claimed both executable and writable. */
  ghost predicate Conflict(segs: seq<Segment>, min: nat, pages: nat) {
    exists page :: 0 <= page < pages && PageExec(segs, min, page) && PageWrite(segs, min, page)
  }

  /** Adds one segment's permissions, refusing to make a page both writable and executable through two segments. */
  method Classify(perms: array<Perm>, segs: seq<Segment>, s: Segment, min: nat) returns (ok: bool)
    requires Loads(s) && min <= s.vaddr && LastPage(s, min) < perms.Length
    requires forall page :: 0 <= page < perms.Length ==> PermOf(perms[page], segs, min, page)
    modifies perms
    ensures ok ==> forall page :: 0 <= page < perms.Length ==> PermOf(perms[page], segs + [s], min, page)
    ensures !ok ==> Conflict(segs + [s], min, perms.Length)
  {
    hide PageExec, PageWrite, PageClaimed;
    var page := FirstPage(s, min);
    var last := LastPage(s, min);
    FirstBeforeLast(s, min);
    while page <= last
      invariant FirstPage(s, min) <= page <= last + 1
      invariant forall q :: 0 <= q < perms.Length ==>
        if FirstPage(s, min) <= q < page then PermOf(perms[q], segs + [s], min, q) else PermOf(perms[q], segs, min, q)
    {
      var current := perms[page];
      PermSnoc(segs, s, min, page);
      if (s.exec && current.write) || (s.write && current.exec) {
        assert PageExec(segs + [s], min, page) && PageWrite(segs + [s], min, page);
        return false;
      }
      perms[page] := Perm(current.exec || s.exec, current.write || s.write, true);
      page := page + 1;
    }
    forall q | 0 <= q < perms.Length ensures PermOf(perms[q], segs + [s], min, q) {
      PermSnoc(segs, s, min, q);
    }
    ok := true;
  }

  lemma {:induction false} FirstBeforeLast(s: Segment, min: nat)
    requires min <= s.vaddr && s.memSize > 0
    ensures FirstPage(s, min) <= LastPage(s, min)
  {
  }

  lemma {:induction false} AddressPage(s: Segment, min: nat, v: nat)
    requires Loads(s) && min <= s.vaddr && Inside(s, v)
    ensures Touches(s, min, (v - min) / PAGE)
  {
  }

  // ---------------------------------------------------------------------------------------------
  // The LOAD loop

  /** Zero the destination, then copy the file bytes. */
  method PutSegment(image: array<Byte>, at: nat, s: Segment, file: seq<Byte>)
    requires s.fileSize <= s.memSize && s.offset + s.fileSize <= |file| && at + s.memSize <= image.Length
    modifies image
    ensures image[..] == Splice(old(image[..]), at, SegmentBytes(s, file))
  {
    forall o | at <= o < at + s.memSize { image[o] := 0; }
    forall o | at <= o < at + s.fileSize { image[o] := file[s.offset + (o - at)]; }
  }

  /** Every loaded segment passes the checks, and no page is both writable and executable. */
  ghost predicate Acceptable(segs: seq<Segment>, file: seq<Byte>, min: nat, size: nat, pages: nat) {
    AllSound(segs, file, min, size) && !Conflict(segs, min, pages)
  }

  method LoadSegments(segs: seq<Segment>, file: seq<Byte>, min: nat, image: array<Byte>, perms: array<Perm>)
    returns (ok: bool)
    requires image.Length == perms.Length * PAGE
    modifies image, perms
    ensures ok <==> Acceptable(segs, file, min, image.Length, perms.Length)
    ensures ok ==> image[..] == LoadAll(segs, file, min, image.Length)
    ensures ok ==> forall page :: 0 <= page < perms.Length ==> PermOf(perms[page], segs, min, page)
  {
    hide PermOf, LastPage, FirstPage;
    forall o | 0 <= o < image.Length { image[o] := 0; }
    forall page | 0 <= page < perms.Length { perms[page] := Perm(false, false, false); }
    forall page | 0 <= page < perms.Length ensures PermOf(perms[page], segs[..0], min, page) {
      NoPerms(min, page);
      assert segs[..0] == [];
    }
    assert image[..] == LoadAll(segs[..0], file, min, image.Length);
    var i := 0;
    while i < |segs|
      invariant i <= |segs| && AllSound(segs[..i], file, min, image.Length)
      invariant image[..] == LoadAll(segs[..i], file, min, image.Length)
      invariant forall page :: 0 <= page < perms.Length ==> PermOf(perms[page], segs[..i], min, page)
    {
      var s := segs[i];
      assert segs[..i + 1] == segs[..i] + [s] && segs[..i + 1][..i] == segs[..i];
      if Loads(s) {
        if !Sound(s, file, min, image.Length) {
          return false;
        }
        LastPageInside(s, min, perms.Length);
        var fine := Classify(perms, segs[..i], s, min);
        if !fine {
          ConflictGrows(segs, i + 1, min, perms.Length);
          return false;
        }
        PutSegment(image, s.vaddr - min, s, file);
      } else {
        forall page | 0 <= page < perms.Length ensures PermOf(perms[page], segs[..i + 1], min, page) {
          SkipPerm(perms[page], segs[..i], s, min, page);
        }
      }
      i := i + 1;
    }
    assert segs[..i] == segs;
    ok := NoMixedPage(perms, segs, min);
  }

  lemma {:induction false} NoPerms(min: nat, page: nat)
    ensures PermOf(Perm(false, false, false), [], min, page)
  {
  }

  lemma {:induction false} SkipPerm(p: Perm, segs: seq<Segment>, s: Segment, min: nat, page: nat)
    requires PermOf(p, segs, min, page) && !Loads(s)
    ensures PermOf(p, segs + [s], min, page)
  {
    PermSnoc(segs, s, min, page);
  }

  lemma {:induction false} LastPageInside(s: Segment, min: nat, pages: nat)
    requires Loads(s) && min <= s.vaddr && s.vaddr - min + s.memSize <= pages * PAGE
    ensures LastPage(s, min) < pages
  {
  }

  lemma {:induction false} ConflictGrows(segs: seq<Segment>, i: nat, min: nat, pages: nat)
    requires i <= |segs| && Conflict(segs[..i], min, pages)
    ensures Conflict(segs, min, pages)
  {
    hide Touches;
    var page :| 0 <= page < pages && PageExec(segs[..i], min, page) && PageWrite(segs[..i], min, page);
    assert forall k :: 0 <= k < i ==> segs[..i][k] == segs[k];
    assert PageExec(segs, min, page) && PageWrite(segs, min, page);
  }

  /** The final scan, which also catches a single segment that is both. */
  method NoMixedPage(perms: array<Perm>, segs: seq<Segment>, min: nat) returns (ok: bool)
    requires forall page :: 0 <= page < perms.Length ==> PermOf(perms[page], segs, min, page)
    ensures ok <==> !Conflict(segs, min, perms.Length)
  {
    hide PageExec, PageWrite, PageClaimed;
    var page := 0;
    while page < perms.Length
      invariant page <= perms.Length
      invariant forall q :: 0 <= q < page ==> !(PageExec(segs, min, q) && PageWrite(segs, min, q))
    {
      if perms[page].exec && perms[page].write {
        return false;
      }
      page := page + 1;
    }
    ok := true;
  }

  // ---------------------------------------------------------------------------------------------
  // Relocations

  datatype Reloc = Reloc(kind: nat, symbol: nat, site: nat, addend: nat)

  predicate RelocOk(r: Reloc, min: nat, size: nat) {
    r.kind == 8 && r.symbol == 0 && min <= r.site && r.site - min + 8 <= size
  }

  predicate AllRelocsOk(relocs: seq<Reloc>, min: nat, size: nat) {
    forall k :: 0 <= k < |relocs| ==> RelocOk(relocs[k], min, size)
  }

  function RelocValue(r: Reloc, slide: nat): nat {
    (r.addend + slide) % TWO_64
  }

  function Patch(image: seq<Byte>, relocs: seq<Reloc>, min: nat, slide: nat): (r: seq<Byte>)
    requires AllRelocsOk(relocs, min, |image|)
    ensures |r| == |image|
  {
    if relocs == [] then image
    else
      var last := relocs[|relocs| - 1];
      Splice(Patch(image, relocs[..|relocs| - 1], min, slide), last.site - min, Put(RelocValue(last, slide), 8))
  }

  /** `apply_rela_dyn_relocations`; `present` says whether the image has the section at all. */
  method ApplyRelocations(image: array<Byte>, present: bool, relocs: seq<Reloc>, min: nat, size: nat, slide: nat)
    returns (ok: bool)
    requires size <= image.Length && (!present ==> relocs == [])
    modifies image
    ensures ok <==> (present || slide == 0) && AllRelocsOk(relocs, min, size)
    ensures ok <==> (present || slide == 0) && forall k :: 0 <= k < |relocs| ==>
      relocs[k].kind == 8 && relocs[k].symbol == 0 && min <= relocs[k].site && relocs[k].site + 8 <= min + size
    ensures ok ==> AllRelocsOk(relocs, min, image.Length) && image[..] == Patch(old(image[..]), relocs, min, slide)
  {
    hide Put;
    if !present {
      return slide == 0;
    }
    var i := 0;
    while i < |relocs|
      invariant i <= |relocs| && AllRelocsOk(relocs[..i], min, size)
      invariant image[..] == Patch(old(image[..]), relocs[..i], min, slide)
    {
      var r := relocs[i];
      assert relocs[..i + 1][..i] == relocs[..i];
      if r.kind != 8 || r.symbol != 0 || r.site < min || r.site - min + 8 > size {
        return false;
      }
      var value := RelocValue(r, slide);
      var bytes := Put(value, 8);
      var at := r.site - min;
      forall o | at <= o < at + 8 { image[o] := bytes[o - at]; }
      i := i + 1;
    }
    assert relocs[..i] == relocs;
    ok := true;
  }

  predicate At(r: Reloc, v: nat) {
    r.site <= v < r.site + 8
  }

  predicate SitesApart(relocs: seq<Reloc>) {
    forall j, k :: 0 <= j < k < |relocs| ==> relocs[j].site + 8 <= relocs[k].site || relocs[k].site + 8 <= relocs[j].site
  }

  /** Away from every site nothing changes. */
  lemma {:induction false} PatchKeeps(image: seq<Byte>, relocs: seq<Reloc>, min: nat, slide: nat, v: nat)
    requires AllRelocsOk(relocs, min, |image|) && min <= v < min + |image|
    requires forall k :: 0 <= k < |relocs| ==> !At(relocs[k], v)
    ensures Patch(image, relocs, min, slide)[v - min] == image[v - min]
    decreases |relocs|
  {
    hide Put;
    if relocs != [] {
      var n := |relocs| - 1;
      assert forall k :: 0 <= k < n ==> relocs[..n][k] == relocs[k];
      assert !At(relocs[n], v);
      PatchKeeps(image, relocs[..n], min, slide, v);
    }
  }

  /** A site that no other overlaps ends up holding its addend plus the slide. */
  lemma {:induction false} PatchSets(image: seq<Byte>, relocs: seq<Reloc>, min: nat, slide: nat, k: nat, v: nat)
    requires AllRelocsOk(relocs, min, |image|) && SitesApart(relocs) && k < |relocs| && At(relocs[k], v)
    ensures Patch(image, relocs, min, slide)[v - min] == Put(RelocValue(relocs[k], slide), 8)[v - relocs[k].site]
    decreases |relocs|
  {
    hide Put;
    var n := |relocs| - 1;
    assert forall j :: 0 <= j < n ==> relocs[..n][j] == relocs[j];
    assert RelocOk(relocs[k], min, |image|);
    if k < n {
      PatchSets(image, relocs[..n], min, slide, k, v);
    }
  }

  /** Read as a word, such a site holds its addend plus the slide, modulo 2^64. */
  lemma {:induction false} PatchedWord(image: seq<Byte>, relocs: seq<Reloc>, min: nat, slide: nat, k: nat)
    requires AllRelocsOk(relocs, min, |image|) && SitesApart(relocs) && k < |relocs|
    ensures min <= relocs[k].site && relocs[k].site - min + 8 <= |image|
    ensures var at := relocs[k].site - min;
      Get(Patch(image, relocs, min, slide)[at..at + 8]) == (relocs[k].addend + slide) % TWO_64
  {
    hide Patch, Put, Get;
    assert RelocOk(relocs[k], min, |image|);
    var at, word := relocs[k].site - min, Put(RelocValue(relocs[k], slide), 8);
    forall o | 0 <= o < 8 ensures Patch(image, relocs, min, slide)[at + o] == word[o] {
      PatchSets(image, relocs, min, slide, k, relocs[k].site + o);
    }
    assert Patch(image, relocs, min, slide)[at..at + 8] == word;
    WordBack(RelocValue(relocs[k], slide), 8);
  }

  lemma {:induction false} WordBack(v: nat, n: nat)
    requires v < TWO_64 && n == 8
    ensures Get(Put(v, n)) == v
  {
    assert Pow256(8) == TWO_64;
    GetPut(v, n);
  }
}
