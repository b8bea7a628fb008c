/**
 * Kernel placement in the boot loader (bootloader/src/main.rs): rejection sampling, the Fisher-Yates order of the
 * placement slots, and the exhaustive exact-address allocation.
 */
module Placement {
  import opened BootLayout
  import opened Common
  import opened Arith

  // ---------------------------------------------------------------------------------------------
  // Rejection sampling

  /** `upper.wrapping_neg() % upper`, for samples below `n`. */
  function Threshold(n: nat, upper: nat): nat
    requires 0 < upper <= n
  {
    (n - upper) % upper
  }

  /** How many `v` with `lo <= v < hi` leave remainder `r`. */
  function Count(lo: nat, hi: nat, upper: nat, r: nat): nat
    requires lo <= hi && upper > 0
    decreases hi - lo
  {
    if lo == hi then 0 else Count(lo, hi - 1, upper, r) + (if (hi - 1) % upper == r then 1 else 0)
  }

  lemma {:induction false} CountSplit(lo: nat, mid: nat, hi: nat, upper: nat, r: nat)
    requires lo <= mid <= hi && upper > 0
    ensures Count(lo, hi, upper, r) == Count(lo, mid, upper, r) + Count(mid, hi, upper, r)
    decreases hi - mid
  {
    if mid < hi { CountSplit(lo, mid, hi - 1, upper, r); }
  }

  lemma {:induction false} CountFirst(n: nat, upper: nat, r: nat)
    requires n <= upper && r < upper
    ensures Count(0, n, upper, r) == if r < n then 1 else 0
    decreases n
  {
    if n != 0 {
      CountFirst(n - 1, upper, r);
      ModUnique(n - 1, 0, n - 1, upper);
    }
  }

  /** Any `upper` consecutive samples hit each remainder once. */
  lemma {:induction false} CountWindow(lo: nat, upper: nat, r: nat)
    requires r < upper
    ensures Count(lo, lo + upper, upper, r) == 1
    decreases lo
  {
    if lo == 0 {
      CountFirst(upper, upper, r);
    } else {
      CountWindow(lo - 1, upper, r);
      CountSplit(lo - 1, lo, lo - 1 + upper, upper, r);
      CountSplit(lo, lo - 1 + upper, lo + upper, upper, r);
      ModAdd(lo - 1, 1, upper);
      assert Count(lo - 1, lo, upper, r) == Count(lo - 1 + upper, lo + upper, upper, r);
    }
  }

  lemma {:induction false} CountWindows(lo: nat, windows: nat, upper: nat, r: nat)
    requires r < upper
    ensures Count(lo, lo + upper * windows, upper, r) == windows
    decreases windows
  {
    if windows != 0 {
      var mid := lo + upper * (windows - 1);
      assert lo + upper * windows == mid + upper;
      Bound(upper, windows - 1);
      CountWindows(lo, windows - 1, upper, r);
      CountWindow(mid, upper, r);
      CountSplit(lo, mid, mid + upper, upper, r);
    }
  }

  /**
   * Among `n` equally likely samples, every remainder below `upper` is the result of exactly `n / upper` accepted
   * ones, and fewer than `upper` are rejected.
   */
  lemma {:induction false} Uniform(n: nat, upper: nat, r: nat)
    requires 0 < upper <= n && r < upper
    ensures Threshold(n, upper) == n % upper < upper
    ensures n % upper <= n && Count(Threshold(n, upper), n, upper, r) == n / upper
  {
    ModAdd(n - upper, 1, upper);
    DivMod(n, upper);
    CountWindows(n % upper, n / upper, upper, r);
  }

  function Residue(v: nat, upper: nat): (r: nat)
    requires upper > 0
    ensures r < upper
  {
    DivMod(v, upper);
    v % upper
  }

  /** The draw, on the samples the hardware would deliver. */
  function Draw(samples: seq<Option<nat>>, upper: nat, tries: nat): Option<nat>
    requires 0 < upper <= TWO_64
    decreases tries
  {
    if tries == 0 || samples == [] || samples[0].None? then None
    else if samples[0].value >= Threshold(TWO_64, upper) then Some(Residue(samples[0].value, upper))
    else Draw(samples[1..], upper, tries - 1)
  }

  /**
   * A draw yields the remainder of the first sample at or above 2^64 mod `upper`; it fails when there is no such sample
   * among the tries, or the source fails before it.
   */
  lemma {:induction false} DrawIsFirstAccepted(samples: seq<Option<nat>>, upper: nat, tries: nat, x: nat)
    requires 0 < upper <= TWO_64
    ensures Draw(samples, upper, tries) == Some(x) <==> exists i :: FirstAccepted(samples, upper, tries, i, x)
    decreases tries
  {
    hide Threshold, Residue;
    Uniform(TWO_64, upper, 0);
    if tries > 0 && samples != [] && samples[0].Some? {
      assert samples[0].value >= TWO_64 % upper ==> Residue(samples[0].value, upper) == samples[0].value % upper by {
        ResidueIsRemainder(samples[0].value, upper);
      }
      if samples[0].value >= TWO_64 % upper {
        if Draw(samples, upper, tries) == Some(x) { assert FirstAccepted(samples, upper, tries, 0, x); }
      } else {
        var rest, left := samples[1..], tries - 1;
        DrawIsFirstAccepted(rest, upper, left, x);
        if i :| FirstAccepted(samples, upper, tries, i, x) {
          assert FirstAccepted(rest, upper, left, i - 1, x);
        }
        if i :| FirstAccepted(rest, upper, left, i, x) {
          assert FirstAccepted(samples, upper, tries, i + 1, x);
        }
      }
    }
  }

  /** Sample `i` is the first one that is not too small, none before it is missing, and `x` is its remainder. */
  predicate FirstAccepted(samples: seq<Option<nat>>, upper: nat, tries: nat, i: int, x: nat)
    requires upper > 0
  {
    && 0 <= i < tries && i < |samples| && samples[i].Some?
    && samples[i].value >= TWO_64 % upper && x == samples[i].value % upper
    && forall j :: 0 <= j < i ==> samples[j].Some? && samples[j].value < TWO_64 % upper
  }

  lemma {:induction false} ResidueIsRemainder(v: nat, upper: nat)
    requires upper > 0
    ensures Residue(v, upper) == v % upper
  {
  }

  lemma {:induction false} DrawAt(samples: seq<Option<nat>>, upper: nat, i: nat, tries: nat)
    requires 0 < upper <= TWO_64 && i < tries && i < |samples|
    ensures Draw(samples[i..], upper, tries - i) ==
      if samples[i].None? then None
      else if samples[i].value >= Threshold(TWO_64, upper) then Some(Residue(samples[i].value, upper))
      else Draw(samples[i + 1..], upper, tries - (i + 1))
  {
    assert samples[i..][1..] == samples[i + 1..];
  }

  lemma {:induction false} NoTriesLeft(samples: seq<Option<nat>>, upper: nat)
    requires 0 < upper <= TWO_64
    ensures Draw(samples, upper, 0) == None
  {
  }

  /** `uniform_entropy_below`; `samples` are the successive results of the entropy source. */
  method UniformEntropyBelow(upper: nat, samples: seq<Option<nat>>) returns (r: Option<nat>, used: nat)
    requires 0 < upper < TWO_64 && |samples| >= 32
    ensures r == Draw(samples, upper, 32)
    ensures r.Some? ==> r.value < upper && FirstAccepted(samples, upper, 32, used - 1, r.value)
    ensures used <= 32 && (r.None? ==> used == 32 || (used > 0 && samples[used - 1].None?))
  {
    hide Threshold, Residue, Draw;
    var threshold := Threshold(TWO_64, upper);
    var i := 0;
    assert samples[0..] == samples;
    Uniform(TWO_64, upper, 0);
    used := 0;
    while i < 32
      invariant i <= 32 && used == i
      invariant Draw(samples, upper, 32) == Draw(samples[i..], upper, 32 - i)
      invariant forall j :: 0 <= j < i ==> samples[j].Some? && samples[j].value < TWO_64 % upper
    {
      used := i + 1;
      DrawAt(samples, upper, i, 32);
      if samples[i].Some? { ResidueIsRemainder(samples[i].value, upper); }
      if samples[i].None? {
        return None, used;
      }
      if samples[i].value >= threshold {
        return Some(Residue(samples[i].value, upper)), used;
      }
      i := i + 1;
    }
    r := None;
    NoTriesLeft(samples[32..], upper);
  }

  // ---------------------------------------------------------------------------------------------
  // Fisher-Yates

  function Swap(s: seq<nat>, i: nat, j: nat): (t: seq<nat>)
    requires i < |s| && j < |s|
    ensures |t| == |s| && t[i] == s[j] && t[j] == s[i]
    ensures forall k :: 0 <= k < |s| && k != i && k != j ==> t[k] == s[k]
  {
    s[i := s[j]][j := s[i]]
  }

  /** One choice below `upper`, then one below `upper - 1`, down to one below two. */
  predicate Choices(c: seq<nat>, upper: nat) {
    if upper <= 1 then c == [] else c != [] && c[0] < upper && Choices(c[1..], upper - 1)
  }

  function Shuffle(s: seq<nat>, upper: nat, c: seq<nat>): (p: seq<nat>)
    requires upper <= |s| && Choices(c, upper)
    ensures |p| == |s|
    decreases upper
  {
    if upper <= 1 then s else Shuffle(Swap(s, upper - 1, c[0]), upper - 1, c[1..])
  }

  predicate Distinct(s: seq<nat>) {
    forall i, j :: 0 <= i < j < |s| ==> s[i] != s[j]
  }

  /** `p` has the same elements as `s`, which are all distinct. */
  ghost predicate Reorders(p: seq<nat>, s: seq<nat>) {
    && |p| == |s| && Distinct(p) && Distinct(s)
    && forall i :: 0 <= i < |s| ==> p[i] in s
  }

  lemma {:induction false} SwapReorders(s: seq<nat>, i: nat, j: nat)
    requires Distinct(s) && i < |s| && j < |s|
    ensures Distinct(Swap(s, i, j))
    ensures forall x :: x in Swap(s, i, j) <==> x in s
  {
    var t := Swap(s, i, j);
    forall x ensures x in t <==> x in s {
      if x in s {
        var k :| 0 <= k < |s| && s[k] == x;
        assert t[if k == i then j else if k == j then i else k] == x;
      }
      if x in t {
        var k :| 0 <= k < |t| && t[k] == x;
        assert s[if k == i then j else if k == j then i else k] == x;
      }
    }
  }

  /** A shuffle never touches the positions it has passed, and only moves elements around. */
  lemma {:induction false} ShufflePermutes(s: seq<nat>, upper: nat, c: seq<nat>)
    requires upper <= |s| && Choices(c, upper) && Distinct(s)
    ensures Reorders(Shuffle(s, upper, c), s)
    ensures multiset(Shuffle(s, upper, c)) == multiset(s)
    ensures forall k :: upper <= k < |s| ==> Shuffle(s, upper, c)[k] == s[k]
    decreases upper
  {
    if upper > 1 {
      var t := Swap(s, upper - 1, c[0]);
      SwapReorders(s, upper - 1, c[0]);
      ShufflePermutes(t, upper - 1, c[1..]);
      var p := Shuffle(s, upper, c);
      forall i | 0 <= i < |s| ensures p[i] in s {
        assert p[i] in t;
      }
    }
  }

  /** Different choices give different orders. */
  lemma {:induction false} ShuffleInjective(s: seq<nat>, upper: nat, a: seq<nat>, b: seq<nat>)
    requires upper <= |s| && Distinct(s) && Choices(a, upper) && Choices(b, upper)
    requires Shuffle(s, upper, a) == Shuffle(s, upper, b)
    ensures a == b
    decreases upper
  {
    if upper > 1 {
      var ta, tb := Swap(s, upper - 1, a[0]), Swap(s, upper - 1, b[0]);
      SwapReorders(s, upper - 1, a[0]);
      SwapReorders(s, upper - 1, b[0]);
      ShufflePermutes(ta, upper - 1, a[1..]);
      ShufflePermutes(tb, upper - 1, b[1..]);
      assert s[a[0]] == ta[upper - 1] == tb[upper - 1] == s[b[0]];
      ShuffleInjective(ta, upper - 1, a[1..], b[1..]);
      assert a == [a[0]] + a[1..] && b == [b[0]] + b[1..];
    }
  }

  /** Every order of the elements comes from some choices. */
  lemma {:induction false} ShuffleOnto(s: seq<nat>, upper: nat, p: seq<nat>) returns (c: seq<nat>)
    requires upper <= |s| && Reorders(p, s)
    requires forall k :: upper <= k < |s| ==> p[k] == s[k]
    ensures Choices(c, upper) && Shuffle(s, upper, c) == p
    decreases upper
  {
    if upper <= 1 {
      c := [];
      if upper == 1 { OneLeft(s, p); }
      assert p == s;
    } else {
      assert p[upper - 1] in s;
      var j: nat :| j < |s| && s[j] == p[upper - 1];
      assert j < upper;
      var t := Swap(s, upper - 1, j);
      SwapReorders(s, upper - 1, j);
      forall i | 0 <= i < |t| ensures p[i] in t {
        assert p[i] in s;
      }
      var rest := ShuffleOnto(t, upper - 1, p);
      c := [j] + rest;
      assert c[1..] == rest;
    }
  }

  lemma {:induction false} OneLeft(s: seq<nat>, p: seq<nat>)
    requires |s| >= 1 && Reorders(p, s) && forall k :: 1 <= k < |s| ==> p[k] == s[k]
    ensures p[0] == s[0]
  {
    assert p[0] in s;
    var j: nat :| j < |s| && s[j] == p[0];
  }

  /** How many samples below `n` make a draw below `upper` yield `r` at once. */
  function Hits(n: nat, upper: nat, r: nat): nat
    requires 0 < upper <= TWO_64
  {
    if n == 0 then 0 else Hits(n - 1, upper, r) + (if Draw([Some(n - 1)], upper, 1) == Some(r) then 1 else 0)
  }

  lemma {:induction false} DrawOne(v: nat, upper: nat, r: nat)
    requires 0 < upper <= TWO_64
    ensures Draw([Some(v)], upper, 1) == Some(r) <==> v >= TWO_64 % upper && v % upper == r
  {
    hide Draw;
    var samples := [Some(v)];
    DrawIsFirstAccepted(samples, upper, 1, r);
    if v >= TWO_64 % upper && v % upper == r { assert FirstAccepted(samples, upper, 1, 0, r); }
  }

  lemma {:induction false} HitsAreAccepted(n: nat, upper: nat, r: nat)
    requires 0 < upper <= TWO_64
    ensures TWO_64 % upper <= n ==> Hits(n, upper, r) == Count(TWO_64 % upper, n, upper, r)
    ensures n <= TWO_64 % upper ==> Hits(n, upper, r) == 0
  {
    hide Draw;
    if n > 0 {
      HitsAreAccepted(n - 1, upper, r);
      DrawOne(n - 1, upper, r);
    }
  }

  /** Every result below the bound is hit by exactly `2^64 / upper` of the 2^64 samples. */
  lemma {:induction false} HitsUniform(upper: nat, r: nat)
    requires 0 < upper <= TWO_64 && r < upper
    ensures Hits(TWO_64, upper, r) == TWO_64 / upper
  {
    hide Hits, Count, Threshold;
    Uniform(TWO_64, upper, r);
    HitsAreAccepted(TWO_64, upper, r);
  }

  /** How many tuples of samples, one per draw and each accepted at once, lead to the choices `c`. */
  function Ways(c: seq<nat>, upper: nat): nat
    requires Choices(c, upper) && upper <= TWO_64
    decreases upper
  {
    if upper <= 1 then 1 else Hits(TWO_64, upper, c[0]) * Ways(c[1..], upper - 1)
  }

  lemma {:induction false} SameWays(a: seq<nat>, b: seq<nat>, upper: nat)
    requires Choices(a, upper) && Choices(b, upper) && upper <= TWO_64
    ensures Ways(a, upper) == Ways(b, upper) > 0
    decreases upper
  {
    hide Hits;
    if upper > 1 {
      HitsUniform(upper, a[0]);
      HitsUniform(upper, b[0]);
      SameWays(a[1..], b[1..], upper - 1);
      SomeWindow(upper);
      PositiveProduct(TWO_64 / upper, Ways(a[1..], upper - 1));
    }
  }

  lemma {:induction false} SomeWindow(upper: nat)
    requires 0 < upper <= TWO_64
    ensures TWO_64 / upper > 0
  {
    DivMod(TWO_64, upper);
  }

  lemma {:induction false} PositiveProduct(a: nat, b: nat)
    requires a > 0 && b > 0
    ensures a * b > 0
  {
  }

  /** The shuffle is exactly unbiased: any two orders come from equally many tuples of accepted samples, and from some. */
  lemma {:induction false} Unbiased(s: seq<nat>, p: seq<nat>, q: seq<nat>) returns (a: seq<nat>, b: seq<nat>)
    requires |s| <= TWO_64 && Reorders(p, s) && Reorders(q, s)
    ensures Choices(a, |s|) && Shuffle(s, |s|, a) == p
    ensures Choices(b, |s|) && Shuffle(s, |s|, b) == q
    ensures forall c :: Choices(c, |s|) && Shuffle(s, |s|, c) == p ==> c == a
    ensures forall c :: Choices(c, |s|) && Shuffle(s, |s|, c) == q ==> c == b
    ensures Ways(a, |s|) == Ways(b, |s|) > 0
  {
    a := ShuffleOnto(s, |s|, p);
    b := ShuffleOnto(s, |s|, q);
    forall c | Choices(c, |s|) && Shuffle(s, |s|, c) == p ensures c == a {
      ShuffleInjective(s, |s|, a, c);
    }
    forall c | Choices(c, |s|) && Shuffle(s, |s|, c) == q ensures c == b {
      ShuffleInjective(s, |s|, b, c);
    }
    SameWays(a, b, |s|);
  }

  /** The in-place shuffle loop. */
  method FisherYates(a: array<nat>, choices: seq<nat>)
    requires Choices(choices, a.Length)
    modifies a
    ensures a[..] == Shuffle(old(a[..]), a.Length, choices)
  {
    var upper: nat := a.Length;
    ghost var left := choices;
    var i := 0;
    while upper >= 2
      invariant upper <= a.Length && Choices(left, upper)
      invariant i <= |choices| && left == choices[i..]
      invariant Shuffle(old(a[..]), a.Length, choices) == Shuffle(a[..], upper, left)
    {
      var other := choices[i];
      ghost var before := a[..];
      a[upper - 1], a[other] := a[other], a[upper - 1];
      assert a[..] == Swap(before, upper - 1, other);
      assert left[1..] == choices[i + 1..];
      left := left[1..];
      i := i + 1;
      upper := upper - 1;
    }
  }

  // ---------------------------------------------------------------------------------------------
  // The placement order

  function Identity(n: nat): (s: seq<nat>)
    ensures |s| == n && Distinct(s)
  {
    seq(n, i => i)
  }

  /** The choices made by the draws, one source of samples per draw. */
  function Drawn(rounds: seq<seq<Option<nat>>>, upper: nat): Option<seq<nat>>
    requires upper <= TWO_64
    decreases upper
  {
    if upper <= 1 then Some([])
    else if rounds == [] then None
    else match Draw(rounds[0], upper, 32)
      case None => None
      case Some(first) =>
        match Drawn(rounds[1..], upper - 1)
        case None => None
        case Some(others) => Some([first] + others)
  }

  lemma {:induction false} DrawBelow(samples: seq<Option<nat>>, upper: nat, tries: nat)
    requires 0 < upper <= TWO_64
    ensures Draw(samples, upper, tries).Some? ==> Draw(samples, upper, tries).value < upper
    decreases tries
  {
    hide Threshold, Residue;
    if tries != 0 && samples != [] && samples[0].Some? {
      DrawBelow(samples[1..], upper, tries - 1);
    }
  }

  lemma {:induction false} DrawnChoices(rounds: seq<seq<Option<nat>>>, upper: nat)
    requires upper <= TWO_64 && Drawn(rounds, upper).Some?
    ensures Choices(Drawn(rounds, upper).value, upper)
    decreases upper
  {
    hide Draw;
    if upper > 1 {
      DrawBelow(rounds[0], upper, 32);
      DrawnChoices(rounds[1..], upper - 1);
      var others := Drawn(rounds[1..], upper - 1).value;
      assert ([Draw(rounds[0], upper, 32).value] + others)[1..] == others;
    }
  }

  /**
   * `kernel_placement_order` for `n` slots. Either branch returns every slot exactly once; the order counts as
   * randomized exactly when every draw succeeded, and is then the shuffle of those draws.
   */
  method PlacementOrder(n: nat, probed: bool, rounds: seq<seq<Option<nat>>>)
    returns (order: seq<nat>, randomized: bool)
    requires 1 <= n < TWO_64 && |rounds| >= n - 1
    requires forall i :: 0 <= i < |rounds| ==> |rounds[i]| >= 32
    ensures Reorders(order, Identity(n)) && multiset(order) == multiset(Identity(n))
    ensures randomized <==> probed && Drawn(rounds, n).Some?
    ensures randomized ==> Choices(Drawn(rounds, n).value, n) && order == Shuffle(Identity(n), n, Drawn(rounds, n).value)
    ensures !randomized ==> order == Identity(n)
  {
    var deterministic := Identity(n);
    if !probed {
      return deterministic, false;
    }
    var choices := DrawAll(n, rounds);
    if choices.None? {
      return deterministic, false;
    }
    DrawnChoices(rounds, n);
    ShufflePermutes(deterministic, n, choices.value);
    var shuffled := new nat[n](i => i);
    assert shuffled[..] == deterministic;
    FisherYates(shuffled, choices.value);
    return shuffled[..], true;
  }

  /** The draws of the shuffle loop; the first failure discards the rest. */
  method DrawAll(n: nat, rounds: seq<seq<Option<nat>>>) returns (choices: Option<seq<nat>>)
    requires 1 <= n < TWO_64 && |rounds| >= n - 1
    requires forall i :: 0 <= i < |rounds| ==> |rounds[i]| >= 32
    ensures choices == Drawn(rounds, n)
  {
    hide Draw;
    var upper, done := n, [];
    assert Then([], Drawn(rounds, n)) == Drawn(rounds, n) by {
      if Drawn(rounds, n).Some? { assert [] + Drawn(rounds, n).value == Drawn(rounds, n).value; }
    }
    while upper >= 2
      invariant 1 <= upper <= n && |done| == n - upper
      invariant Drawn(rounds, n) == Then(done, Drawn(rounds[|done|..], upper))
    {
      var i := |done|;
      var other, used := UniformEntropyBelow(upper, rounds[i]);
      if other.None? {
        return None;
      }
      ghost var rest := Drawn(rounds[i + 1..], upper - 1);
      assert rounds[i..][1..] == rounds[i + 1..];
      if rest.Some? { assert done + ([other.value] + rest.value) == done + [other.value] + rest.value; }
      done := done + [other.value];
      upper := upper - 1;
    }
    assert done + [] == done;
    return Some(done);
  }

  function Then(done: seq<nat>, r: Option<seq<nat>>): Option<seq<nat>> {
    match r
    case None => None
    case Some(c) => Some(done + c)
  }

  // ---------------------------------------------------------------------------------------------
  // Exact-address allocation

  /** The firmware's answer to one exact-address request; `Broken` is any answer that stops the boot. */
  datatype Reply = Granted | Refused | Broken

  datatype Allocation = At(address: nat, slide: nat) | Exhausted | Stopped

  function Candidate(slot: nat): nat {
    PHYS_BASE + slot * GRANULARITY
  }

  predicate Fits(slot: nat, bytes: nat) {
    Candidate(slot) + bytes <= WINDOW_END
  }

  predicate Passed(slot: nat, bytes: nat, firmware: nat -> Reply) {
    Fits(slot, bytes) ==> firmware(Candidate(slot)) == Refused
  }

  /** Position `i` is the first one whose slot fits and is not refused, and `r` is what the firmware made of it. */
  predicate EndsAt(order: seq<nat>, i: nat, bytes: nat, firmware: nat -> Reply, r: Allocation) {
    && i < |order| && !Passed(order[i], bytes, firmware)
    && (forall j :: 0 <= j < i ==> Passed(order[j], bytes, firmware))
    && r == if firmware(Candidate(order[i])) == Granted then At(Candidate(order[i]), order[i] * GRANULARITY) else Stopped
  }

  /** The search ends with `r`. */
  predicate Ends(order: seq<nat>, bytes: nat, firmware: nat -> Reply, r: Allocation) {
    exists i :: 0 <= i < |order| && EndsAt(order, i, bytes, firmware, r)
  }

  /** Whatever `AllocateImage` promises of its result determines it. */
  lemma {:induction false} OneEnd(
      n: nat, order: seq<nat>, bytes: nat, firmware: nat -> Reply, a: Allocation, r: Allocation)
    requires multiset(order) == multiset(Identity(n)) && Ends(order, bytes, firmware, a)
    requires r.Exhausted? <==> forall slot :: 0 <= slot < n ==> Passed(slot, bytes, firmware)
    requires !r.Exhausted? ==> Ends(order, bytes, firmware, r)
    ensures r == a
  {
    hide Passed;
    var i: nat :| i < |order| && EndsAt(order, i, bytes, firmware, a);
    assert order[i] in multiset(order);
    assert order[i] in Identity(n);
    var j: nat :| j < |order| && EndsAt(order, j, bytes, firmware, r);
    assert i == j;
  }

  /**
   * `allocate_kernel_image_pages` over an order of `n` slots: it gives up exactly when every slot that fits the window
   * was refused, and otherwise ends at the first slot of the order that fits and was not.
   */
  method AllocateImage(n: nat, order: seq<nat>, bytes: nat, firmware: nat -> Reply) returns (r: Allocation)
    requires Reorders(order, Identity(n)) && multiset(order) == multiset(Identity(n))
    ensures r.Exhausted? <==> forall slot :: 0 <= slot < n ==> Passed(slot, bytes, firmware)
    ensures !r.Exhausted? ==> Ends(order, bytes, firmware, r)
    ensures r.At? ==> r.address == PHYS_BASE + r.slide && r.address + bytes <= WINDOW_END && firmware(r.address) == Granted
    ensures r.Exhausted? ==> forall slot :: 0 <= slot < n && PHYS_BASE + slot * GRANULARITY + bytes <= WINDOW_END ==>
      firmware(PHYS_BASE + slot * GRANULARITY) == Refused
  {
    var i := 0;
    while i < |order|
      invariant i <= |order|
      invariant forall j :: 0 <= j < i ==> Passed(order[j], bytes, firmware)
    {
      var slot := order[i];
      assert slot in Identity(n);
      var slide := slot * GRANULARITY;
      var candidate := PHYS_BASE + slide;
      if candidate + bytes <= WINDOW_END {
        match firmware(candidate) {
          case Granted =>
            r := At(candidate, slide);
            assert EndsAt(order, i, bytes, firmware, r);
            return;
          case Broken =>
            r := Stopped;
            assert EndsAt(order, i, bytes, firmware, r);
            return;
          case Refused =>
        }
      }
      i := i + 1;
    }
    forall slot | 0 <= slot < n ensures Passed(slot, bytes, firmware) {
      assert Identity(n)[slot] == slot;
      assert slot in multiset(order);
    }
    forall slot | 0 <= slot < n && PHYS_BASE + slot * GRANULARITY + bytes <= WINDOW_END
      ensures firmware(PHYS_BASE + slot * GRANULARITY) == Refused
    {
      assert Passed(slot, bytes, firmware);
    }
    r := Exhausted;
  }

  // ---------------------------------------------------------------------------------------------
  // Uniform over the viable slots

  ghost function AllChoices(upper: nat): set<seq<nat>> {
    if upper <= 1 then {[]} else set i, c | 0 <= i < upper && c in AllChoices(upper - 1) :: [i] + c
  }

  lemma {:induction false} AllChoicesExact(c: seq<nat>, upper: nat)
    ensures c in AllChoices(upper) <==> Choices(c, upper)
    decreases upper
  {
    if upper > 1 && c != [] {
      AllChoicesExact(c[1..], upper - 1);
      assert c == [c[0]] + c[1..];
      if c in AllChoices(upper) {
        var i, d :| 0 <= i < upper && d in AllChoices(upper - 1) && [i] + d == c;
        assert d == c[1..];
      }
    }
  }

  /** Every order the shuffle of `n` slots can produce. */
  ghost function Orders(n: nat): set<seq<nat>> {
    set c | c in AllChoices(n) && Choices(c, n) :: Shuffle(Identity(n), n, c)
  }

  /** They are all the orders of the slots. */
  lemma {:induction false} OrdersExact(n: nat, p: seq<nat>)
    ensures p in Orders(n) <==> Reorders(p, Identity(n))
  {
    hide Reorders, Choices, Shuffle, AllChoices;
    if p in Orders(n) {
      var c :| c in AllChoices(n) && Choices(c, n) && Shuffle(Identity(n), n, c) == p;
      ShufflePermutes(Identity(n), n, c);
    }
    if Reorders(p, Identity(n)) {
      SameLength(p, Identity(n));
      var c := ShuffleOnto(Identity(n), n, p);
      AllChoicesExact(c, n);
    }
  }

  lemma {:induction false} SameLength(p: seq<nat>, s: seq<nat>)
    requires Reorders(p, s)
    ensures |p| == |s|
  {
  }

  /** `a` for `b` and `b` for `a`. */
  function Exchanged(x: nat, a: nat, b: nat): nat {
    if x == a then b else if x == b then a else x
  }

  function Exchange(p: seq<nat>, a: nat, b: nat): (q: seq<nat>)
    ensures |q| == |p| && forall i :: 0 <= i < |p| ==> q[i] == Exchanged(p[i], a, b)
  {
    seq(|p|, i requires 0 <= i < |p| => Exchanged(p[i], a, b))
  }

  lemma {:induction false} ExchangeTwice(p: seq<nat>, a: nat, b: nat)
    ensures Exchange(Exchange(p, a, b), a, b) == p
  {
  }

  lemma {:induction false} ExchangeReorders(n: nat, p: seq<nat>, a: nat, b: nat)
    requires a < n && b < n && Reorders(p, Identity(n))
    ensures Reorders(Exchange(p, a, b), Identity(n))
  {
    var q, s := Exchange(p, a, b), Identity(n);
    forall i | 0 <= i < n ensures q[i] in s {
      assert p[i] in s;
      assert s[Exchanged(p[i], a, b)] == q[i];
    }
  }

  /** A set that exchanging takes into another is no larger. */
  lemma {:induction false} ExchangeBound(x: set<seq<nat>>, y: set<seq<nat>>, a: nat, b: nat)
    requires forall p :: p in x ==> Exchange(p, a, b) in y
    ensures |x| <= |y|
    decreases |x|
  {
    if x != {} {
      var p :| p in x;
      ExchangeTwice(p, a, b);
      forall q | q in x - {p} ensures Exchange(q, a, b) in y - {Exchange(p, a, b)} { ExchangeTwice(q, a, b); }
      ExchangeBound(x - {p}, y - {Exchange(p, a, b)}, a, b);
    }
  }

  /** The slot fits the window and the firmware grants it. */
  predicate Viable(slot: nat, bytes: nat, firmware: nat -> Reply) {
    Fits(slot, bytes) && firmware(Candidate(slot)) == Granted
  }

  function Placed(slot: nat): Allocation {
    At(Candidate(slot), slot * GRANULARITY)
  }

  /** The orders of `n` slots under which the image is placed at `slot`. */
  ghost function OrdersPlacing(n: nat, bytes: nat, firmware: nat -> Reply, slot: nat): set<seq<nat>> {
    set p | p in Orders(n) && Ends(p, bytes, firmware, Placed(slot))
  }

  lemma {:induction false} ExchangePlaces(p: seq<nat>, bytes: nat, firmware: nat -> Reply, a: nat, b: nat)
    requires Viable(a, bytes, firmware) && Viable(b, bytes, firmware) && Ends(p, bytes, firmware, Placed(a))
    ensures Ends(Exchange(p, a, b), bytes, firmware, Placed(b))
  {
    var q := Exchange(p, a, b);
    var i: nat :| i < |p| && EndsAt(p, i, bytes, firmware, Placed(a));
    assert p[i] == a && q[i] == b;
    forall j | 0 <= j < i ensures Passed(q[j], bytes, firmware) { assert Passed(p[j], bytes, firmware); }
    assert EndsAt(q, i, bytes, firmware, Placed(b));
  }

  lemma {:induction false} PlacingBound(n: nat, bytes: nat, firmware: nat -> Reply, a: nat, b: nat)
    requires a < n && b < n && Viable(a, bytes, firmware) && Viable(b, bytes, firmware)
    ensures |OrdersPlacing(n, bytes, firmware, a)| <= |OrdersPlacing(n, bytes, firmware, b)|
  {
    hide Viable, Ends, Orders, Reorders;
    forall p | p in OrdersPlacing(n, bytes, firmware, a)
      ensures Exchange(p, a, b) in OrdersPlacing(n, bytes, firmware, b)
    {
      OrdersExact(n, p);
      ExchangeReorders(n, p, a, b);
      OrdersExact(n, Exchange(p, a, b));
      ExchangePlaces(p, bytes, firmware, a, b);
    }
    ExchangeBound(OrdersPlacing(n, bytes, firmware, a), OrdersPlacing(n, bytes, firmware, b), a, b);
  }

  /**
   * The randomized placement is uniform over the viable slots, however many slots are taken: any two viable slots are
   * chosen under equally many orders, and under at least one. `Unbiased` makes the orders themselves equally likely.
   */
  lemma {:induction false} UniformOverViable(n: nat, bytes: nat, firmware: nat -> Reply, a: nat, b: nat)
    requires a < n && b < n && Viable(a, bytes, firmware) && Viable(b, bytes, firmware)
    ensures |OrdersPlacing(n, bytes, firmware, a)| == |OrdersPlacing(n, bytes, firmware, b)| > 0
  {
    hide Viable, OrdersPlacing;
    PlacingBound(n, bytes, firmware, a, b);
    PlacingBound(n, bytes, firmware, b, a);
    SomeOrderPlaces(n, bytes, firmware, a);
  }

  lemma {:induction false} SomeOrderPlaces(n: nat, bytes: nat, firmware: nat -> Reply, slot: nat)
    requires slot < n && Viable(slot, bytes, firmware)
    ensures OrdersPlacing(n, bytes, firmware, slot) != {}
  {
    var p := Swap(Identity(n), 0, slot);
    SwapReorders(Identity(n), 0, slot);
    assert Reorders(p, Identity(n)) by {
      forall i | 0 <= i < n ensures p[i] in Identity(n) { assert p[i] in p; }
    }
    OrdersExact(n, p);
    assert EndsAt(p, 0, bytes, firmware, Placed(slot));
    assert p in OrdersPlacing(n, bytes, firmware, slot);
  }

  /** Wherever the image is placed, the slot is viable. */
  lemma {:induction false} PlacedIsViable(n: nat, bytes: nat, firmware: nat -> Reply, p: seq<nat>, slot: nat)
    requires p in OrdersPlacing(n, bytes, firmware, slot)
    ensures slot < n && Viable(slot, bytes, firmware)
  {
    OrdersExact(n, p);
    var i: nat :| i < |p| && EndsAt(p, i, bytes, firmware, Placed(slot));
    assert p[i] in Identity(n);
  }
}
