/**
 * vmem_fit of subr_vmem.c: placing a request in a block under alignment, phase, boundary and
 * address-range constraints, in 64-bit arithmetic.
 */
module VmemFit {
  import opened Options
  import opened Words

  datatype Block = Block(start: int, size: int)

  /** The arguments of vmem_xalloc that constrain placement; nocross == 0 means no boundary. */
  datatype Request = Request(size: int, align: int, phase: int, nocross: int, min: int, max: int)

  /** a divides b. */
  predicate Divides(a: int, b: int) requires a > 0 { b % a == 0 }

  /** VMEM_CROSS_P on a power-of-two boundary: do the two addresses differ above it? */
  predicate Crosses(a: int, b: int, boundary: int)
    requires boundary >= 0
  {
    boundary != 0 && a / boundary != b / boundary
  }

  /** What vmem_xalloc asserts of its arguments; align, nocross are powers of two, hence nested divisors of 2^64. */
  predicate Wellformed(r: Request) {
    && 0 < r.size < TWO64
    && 0 < r.align < TWO64 && TWO64 % r.align == 0 && 0 <= r.phase < r.align
    && 0 <= r.nocross < TWO64
    && (r.nocross != 0 ==> TWO64 % r.nocross == 0 && r.size <= r.nocross
                           && (Divides(r.align, r.nocross) || Divides(r.nocross, r.align)))
    && !Crosses(r.phase, r.phase + r.size - 1, r.nocross)
    && 0 <= r.min <= r.max < TWO64
  }

  predicate BlockOk(bt: Block) { 0 <= bt.start && 0 < bt.size && bt.start + bt.size <= TWO64 }

  /** VMEM_ALIGNUP: -(-(addr) & -(align)) in 64 bits; masking with -align clears the remainder. */
  function AlignUp(addr: int, align: int): int
    requires align > 0
  {
    var n := Wrap64(-addr);
    Wrap64(-(n - n % align))
  }

  function LowEnd(bt: Block, r: Request): int { if bt.start < r.min then r.min else bt.start }

  function HighEnd(bt: Block, r: Request): int {
    var btend := Wrap64(bt.start + bt.size - 1);
    if btend > r.max then r.max else btend
  }

  /** vmem_fit: clamp to the address range, round up, step past a boundary, and check for room. */
  function Fit(bt: Block, r: Request): Option<int>
    requires r.align > 0 && r.nocross >= 0
  {
    if LowEnd(bt, r) > HighEnd(bt, r) then None
    else FitFrom(bt, r, Wrap64(AlignUp(Wrap64(LowEnd(bt, r) - r.phase), r.align) + r.phase))
  }

  function FitFrom(bt: Block, r: Request, start1: int): Option<int>
    requires r.nocross >= 0
  {
    var start2 := if start1 < bt.start then Wrap64(start1 + r.align) else start1;
    if Crosses(start2, Wrap64(start2 + r.size - 1), r.nocross)
    then Place(r, HighEnd(bt, r), Wrap64(AlignUp(Wrap64(start2 - r.phase), r.nocross) + r.phase))
    else Place(r, HighEnd(bt, r), start2)
  }

  function Place(r: Request, end: int, start: int): Option<int> {
    if start <= end && end - start >= r.size - 1 then Some(start) else None
  }

  // ------------------------------------------------------------------ meaning

  /** Address a meets every restriction of the request within the block. */
  predicate Admissible(bt: Block, r: Request, a: int)
    requires r.align > 0 && r.nocross >= 0
  {
    && bt.start <= a && a + r.size <= bt.start + bt.size
    && r.min <= a && a + r.size - 1 <= r.max
    && a % r.align == r.phase
    && !Crosses(a, a + r.size - 1, r.nocross)
  }

  /** The answer is the least admissible address, and None only if there is none. */
  ghost predicate IsLeast(bt: Block, r: Request, answer: Option<int>)
    requires r.align > 0 && r.nocross >= 0
  {
    match answer
    case Some(a) => Admissible(bt, r, a) && forall x :: Admissible(bt, r, x) ==> a <= x
    case None => forall x :: !Admissible(bt, r, x)
  }

  /** The least address from lo on that has the phase, in unbounded arithmetic. */
  function FirstAligned(lo: int, align: int, phase: int): int
    requires align > 0
  {
    lo + (phase - lo) % align
  }

  lemma FirstAlignedIsFirst(lo: int, align: int, phase: int)
    requires align > 0 && 0 <= phase < align
    ensures var a := FirstAligned(lo, align, phase);
      && lo <= a < lo + align && a % align == phase
      && forall x :: lo <= x && x % align == phase ==> a <= x
  {
    var a := FirstAligned(lo, align, phase);
    ShiftMod(lo, align, phase);
    forall x | lo <= x && x % align == phase ensures a <= x {
      if x < a { AlignedGap(x, a, align); }
    }
  }

  lemma ShiftMod(lo: int, align: int, phase: int)
    requires align > 0 && 0 <= phase < align
    ensures (lo + (phase - lo) % align) % align == phase
  {
    var k := (phase - lo) / align;
    assert phase - lo == align * k + (phase - lo) % align;
    DivModUnique(lo + (phase - lo) % align, align, -k, phase);
  }

  /** Two addresses with the same remainder are a whole step apart. */
  lemma AlignedGap(x: int, y: int, d: int)
    requires d > 0 && x % d == y % d && x < y
    ensures x + d <= y
  {
    var i, j := x / d, y / d;
    assert x == d * i + x % d && y == d * j + y % d;
    assert d * (j - i) == y - x;
    if j > i {
      MulAtLeast(d, j - i);
    }
  }

  // --------------------------------------------------- 64-bit rounding is exact

  /** In 64 bits, rounding up to a divisor of 2^64 is the unbounded result, wrapped. */
  lemma AlignUpWraps(x: int, a: int)
    requires 0 <= x < TWO64 && 0 < a && TWO64 % a == 0
    ensures AlignUp(x, a) == Wrap64(x + (-x) % a)
  {
    if x != 0 {
      NegatedRemainder(x, a);
      RemainderAtMost(TWO64 - x, a);
    }
  }

  lemma NegatedRemainder(x: int, a: int)
    requires 0 < a && TWO64 % a == 0
    ensures (TWO64 - x) % a == (-x) % a
  {
    assert TWO64 == a * (TWO64 / a);
    ModShift(-x, a, TWO64 / a);
  }

  lemma RemainderAtMost(n: int, a: int)
    requires 0 <= n && 0 < a
    ensures 0 <= n % a <= n
  {
    assert n == a * (n / a) + n % a;
  }

  lemma AlignedStart(lo: int, a: int, phase: int)
    requires 0 <= lo < TWO64 && 0 < a < TWO64 && TWO64 % a == 0 && 0 <= phase < a
    ensures Wrap64(AlignUp(Wrap64(lo - phase), a) + phase) == Wrap64(FirstAligned(lo, a, phase))
  {
    var y := Wrap64(lo - phase);
    AlignUpWraps(y, a);
    if lo < phase {
      assert TWO64 == a * (TWO64 / a);
      ModShift(phase - lo, a, -(TWO64 / a));
    }
    assert (-y) % a == (phase - lo) % a;
    if lo < phase {
      DivModUnique(phase - lo, a, 0, phase - lo);
    }
    FirstAlignedIsFirst(lo, a, phase);
  }

  // ------------------------------------------------------------ the boundary

  /** The addresses a..b straddle a boundary multiple exactly if some multiple lies in (a, b]. */
  lemma StraddleCrosses(a: int, b: int, n: int, k: int)
    requires n > 0 && a < n * k <= b
    ensures Crosses(a, b, n)
  {
    assert a == n * (a / n) + a % n && b == n * (b / n) + b % n;
    if a / n >= k { MulMono(n, k, a / n); }
    if b / n < k { MulMono(n, b / n, k - 1); }
  }

  /** From an address with the phase's own remainder, size bytes cross no boundary. */
  lemma PhaseDoesNotCross(a: int, r: Request)
    requires Wellformed(r) && r.nocross != 0 && a % r.nocross == r.phase % r.nocross
    ensures !Crosses(a, a + r.size - 1, r.nocross)
  {
    var n := r.nocross;
    var d := r.phase % n;
    if d + r.size > n {
      NextMultiple(r.phase, n);
      StraddleCrosses(r.phase, r.phase + r.size - 1, n, r.phase / n + 1);
    }
    assert a == n * (a / n) + d;
    DivModUnique(a + r.size - 1, n, a / n, d + r.size - 1);
  }

  lemma NextMultiple(x: int, n: int)
    requires n > 0
    ensures n * (x / n + 1) == x - x % n + n
  {
  }

  /** A remainder modulo a multiple of d determines the remainder modulo d. */
  lemma ModOfMultiple(x: int, y: int, m: int, d: int)
    requires m > 0 && d > 0 && Divides(d, m) && x % m == y % m
    ensures x % d == y % d
  {
    var c := m / d;
    assert m == d * c;
    var k := x / m - y / m;
    assert x - y == m * (x / m) - m * (y / m) == m * k;
    assert m * k == d * (c * k) by { MulAssoc(d, c, k); }
    ModShift(y, d, c * k);
  }

  /** Past a crossing, the next candidate is the phase after the boundary: admissible addresses from lo on are not below it. */
  lemma CrossingSkips(r: Request, lo: int, x: int)
    requires Wellformed(r) && r.nocross != 0 && lo % r.align == r.phase
    requires Crosses(lo, lo + r.size - 1, r.nocross)
    ensures r.align < r.nocross
    ensures var s := FirstAligned(lo, r.nocross, r.phase);
      && s % r.align == r.phase && !Crosses(s, s + r.size - 1, r.nocross)
      && s - r.phase <= lo + r.size - 1
      && (lo <= x && x % r.align == r.phase && !Crosses(x, x + r.size - 1, r.nocross) ==> s <= x)
  {
    var n := r.nocross;
    CrossingMeansFineAlign(r, lo);
    var s := FirstAligned(lo, n, r.phase);
    FirstAlignedIsFirst(lo, n, r.phase);
    SmallRemainder(r.phase, n);
    SmallRemainder(r.phase, r.align);
    ModOfMultiple(s, r.phase, n, r.align);
    PhaseDoesNotCross(s, r);
    var k := s / n;
    assert s == n * k + r.phase;
    BelowBoundary(r, k, lo);
    if lo <= x && x % r.align == r.phase && x < s {
      BelowBoundary(r, k, x);
      assert lo < n * k;
      CrossedBoundary(lo, lo + r.size - 1, n, k);
      StraddleCrosses(x, x + r.size - 1, n, k);
    }
    CrossedBoundary(lo, lo + r.size - 1, n, k);
  }

  lemma CrossingMeansFineAlign(r: Request, lo: int)
    requires Wellformed(r) && r.nocross != 0 && lo % r.align == r.phase
    requires Crosses(lo, lo + r.size - 1, r.nocross)
    ensures r.align < r.nocross && Divides(r.align, r.nocross)
  {
    SmallRemainder(r.phase, r.align);
    if Divides(r.nocross, r.align) {
      ModOfMultiple(lo, r.phase, r.align, r.nocross);
      PhaseDoesNotCross(lo, r);
      assert false;
    }
    DivisorAtMost(r.align, r.nocross);
  }

  lemma DivisorAtMost(a: int, n: int)
    requires 0 < a && 0 < n && Divides(a, n)
    ensures a <= n && (a == n ==> Divides(n, a))
  {
    if n < a { SmallRemainder(n, a); }
  }

  lemma SmallRemainder(x: int, d: int)
    requires 0 <= x < d
    ensures x % d == x
  {
  }

  /** Below n*k + phase, an address with the phase lies below the boundary n*k itself. */
  lemma BelowBoundary(r: Request, k: int, x: int)
    requires Wellformed(r) && r.nocross != 0 && Divides(r.align, r.nocross)
    requires x % r.align == r.phase && x < r.nocross * k + r.phase
    ensures x < r.nocross * k
  {
    var n := r.nocross;
    var c := n / r.align;
    assert n == r.align * c;
    MulAssoc(r.align, c, k);
    ModShift(r.phase, r.align, c * k);
    SmallRemainder(r.phase, r.align);
    AlignedGap(x, n * k + r.phase, r.align);
  }

  /** If a..b crosses and n*k is the first multiple above a, then b reaches n*k. */
  lemma CrossedBoundary(a: int, b: int, n: int, k: int)
    requires n > 0 && a <= b && Crosses(a, b, n) && n * k - n <= a < n * k
    ensures n * k <= b
  {
    assert n * (k - 1) == n * k - n;
    DivModUnique(a, n, k - 1, a - n * (k - 1));
    if b < n * k {
      DivModUnique(b, n, k - 1, b - n * (k - 1));
    }
  }

  // ------------------------------------------------------------- main theorem

  /** The aligned request, placed as low as the range allows, ends below the top of the address space. */
  predicate NoWrap(bt: Block, r: Request)
    requires r.align > 0
  {
    FirstAligned(LowEnd(bt, r), r.align, r.phase) + r.size <= TWO64
  }

  /** A candidate below which nothing is admissible is the answer if there is room for it. */
  lemma PlaceIsLeast(bt: Block, r: Request, t: int)
    requires BlockOk(bt) && Wellformed(r)
    requires LowEnd(bt, r) <= t && t % r.align == r.phase && !Crosses(t, t + r.size - 1, r.nocross)
    requires forall x :: Admissible(bt, r, x) ==> t <= x
    ensures IsLeast(bt, r, Place(r, HighEnd(bt, r), t))
  {
  }

  /** Nothing admissible lies below the first aligned address of the range. */
  lemma AlignedIsLow(bt: Block, r: Request)
    requires Wellformed(r)
    ensures var s := FirstAligned(LowEnd(bt, r), r.align, r.phase);
      LowEnd(bt, r) <= s && s % r.align == r.phase && forall x :: Admissible(bt, r, x) ==> s <= x
  {
    FirstAlignedIsFirst(LowEnd(bt, r), r.align, r.phase);
  }

  /** From a crossing candidate, the next one that code and specification agree on. */
  lemma CrossedIsLow(bt: Block, r: Request, s: int) returns (t: int)
    requires BlockOk(bt) && Wellformed(r)
    requires 0 <= s && s + r.size <= TWO64 && s % r.align == r.phase
    requires Crosses(s, s + r.size - 1, r.nocross)
    requires forall x :: Admissible(bt, r, x) ==> s <= x
    ensures s <= t && t % r.align == r.phase && !Crosses(t, t + r.size - 1, r.nocross)
    ensures forall x :: Admissible(bt, r, x) ==> t <= x
    ensures Wrap64(AlignUp(Wrap64(s - r.phase), r.nocross) + r.phase) == t
  {
    t := FirstAligned(s, r.nocross, r.phase);
    CrossingSkips(r, s, s);
    AlignedStart(s, r.nocross, r.phase);
    FirstAlignedIsFirst(s, r.nocross, r.phase);
    TopBoundary(r, t);
    forall x | Admissible(bt, r, x) ensures t <= x { CrossingSkips(r, s, x); }
  }

  lemma FitFromIsLeast(bt: Block, r: Request, s: int)
    requires BlockOk(bt) && Wellformed(r)
    requires LowEnd(bt, r) <= s && s + r.size <= TWO64 && s % r.align == r.phase
    requires forall x :: Admissible(bt, r, x) ==> s <= x
    ensures IsLeast(bt, r, FitFrom(bt, r, s))
  {
    hide AlignUp;
    if Crosses(s, s + r.size - 1, r.nocross) {
      var t := CrossedIsLow(bt, r, s);
      PlaceIsLeast(bt, r, t);
    } else {
      PlaceIsLeast(bt, r, s);
    }
  }

  /** Absent address wrap, vmem_fit returns the least admissible address of the block, and fails only if there is none. */
  lemma FitIsLeast(bt: Block, r: Request)
    requires BlockOk(bt) && Wellformed(r) && NoWrap(bt, r)
    ensures IsLeast(bt, r, Fit(bt, r))
  {
    hide AlignUp, FirstAligned;
    if LowEnd(bt, r) <= HighEnd(bt, r) {
      AlignedIsLow(bt, r);
      AlignedStart(LowEnd(bt, r), r.align, r.phase);
      FitFromIsLeast(bt, r, FirstAligned(LowEnd(bt, r), r.align, r.phase));
    }
  }

  /** A boundary below 2^64 leaves room for the phase above it. */
  lemma TopBoundary(r: Request, t: int)
    requires Wellformed(r) && r.nocross != 0 && r.align < r.nocross
    requires t % r.nocross == r.phase && t - r.phase < TWO64
    ensures t < TWO64
  {
    var n := r.nocross;
    var b := t - r.phase;
    assert t == n * (t / n) + r.phase;
    assert b == n * (t / n);
    DivModUnique(b, n, t / n, 0);
    AlignedGap(b, TWO64, n);
  }

  // -------------------------------------------- at the top of the address space

  /** Where the rounding lands when the aligned request would end past the top of the address space. */
  function Landing(bt: Block, r: Request): int
    requires r.align > 0 && r.nocross >= 0
  {
    if FirstAligned(LowEnd(bt, r), r.align, r.phase) < TWO64 then
      if r.nocross == 0 then FirstAligned(LowEnd(bt, r), r.align, r.phase) else r.phase
    else if r.phase >= bt.start then r.phase
    else if Crosses(r.phase + r.align, r.phase + r.align + r.size - 1, r.nocross) then r.nocross + r.phase
    else r.phase + r.align
  }

  /** A proper divisor of 2^64 is at most half of it. */
  lemma HalfAtMost(n: int)
    requires 0 < n < TWO64 && TWO64 % n == 0
    ensures 2 * n <= TWO64
  {
    var q := TWO64 / n;
    assert TWO64 == n * q;
    if q <= 1 { MulMono(n, q, 1); } else { MulMono(n, 2, q); }
  }

  /** Addresses in one block of a boundary that divides 2^64 are on the same side of the top. */
  lemma BelowTop(a: int, b: int, n: int)
    requires 0 < n && TWO64 % n == 0 && 0 <= a < TWO64 && a <= b && a / n == b / n
    ensures b < TWO64
  {
    var k := TWO64 / n;
    assert TWO64 == n * k;
    if b >= TWO64 { StraddleCrosses(a, b, n, k); }
  }

  lemma WrappedStart(lo: int, a: int, phase: int)
    requires 0 <= lo < TWO64 && 0 < a < TWO64 && TWO64 % a == 0 && 0 <= phase < a
    requires FirstAligned(lo, a, phase) >= TWO64
    ensures FirstAligned(lo, a, phase) == TWO64 + phase && lo > phase && phase + a < TWO64
  {
    var s := FirstAligned(lo, a, phase);
    FirstAlignedIsFirst(lo, a, phase);
    assert TWO64 == a * (TWO64 / a);
    ModShift(phase, a, TWO64 / a);
    SmallRemainder(phase, a);
    if s < TWO64 + phase { AlignedGap(s, TWO64 + phase, a); }
  }

  /** Only the end of the request is past the top: with a boundary, the next one is the top itself, which wraps to 0. */
  lemma EndWraps(bt: Block, r: Request)
    requires BlockOk(bt) && Wellformed(r) && r.nocross != 0
    requires var s := FirstAligned(LowEnd(bt, r), r.align, r.phase); bt.start <= s < TWO64 < s + r.size && s % r.align == r.phase
    ensures FitFrom(bt, r, FirstAligned(LowEnd(bt, r), r.align, r.phase)) == Place(r, HighEnd(bt, r), r.phase)
  {
    hide AlignUp, FirstAligned, Place, Crosses;
    var s, n := FirstAligned(LowEnd(bt, r), r.align, r.phase), r.nocross;
    WrapCrosses(s, r.size, n);
    CrossingMeansFineAlign(r, s);
    AlignedStart(s, n, r.phase);
    NextIsTop(r, s);
  }

  /** A request over the top crosses the boundary, and its wrapped end makes the code see that too. */
  lemma WrapCrosses(s: int, size: int, n: int)
    requires 0 < n < TWO64 && TWO64 % n == 0 && 0 < size <= n && 0 <= s < TWO64 < s + size
    ensures Crosses(s, s + size - 1, n) && Crosses(s, Wrap64(s + size - 1), n)
  {
    var b := s + size - 1;
    var top := TWO64 / n;
    assert TWO64 == n * top;
    StraddleCrosses(s, b, n, top);
    HalfAtMost(n);
    DivModUnique(b - TWO64, n, 0, b - TWO64);
    assert s == n * (s / n) + s % n;
  }

  lemma NextIsTop(r: Request, s: int)
    requires Wellformed(r) && r.nocross != 0 && s % r.align == r.phase && r.align < r.nocross && Divides(r.align, r.nocross)
    requires 0 <= s < TWO64 < s + r.size && Crosses(s, s + r.size - 1, r.nocross)
    ensures FirstAligned(s, r.nocross, r.phase) == TWO64 + r.phase
  {
    var n := r.nocross;
    var t := FirstAligned(s, n, r.phase);
    hide FirstAligned, Crosses;
    CrossingSkips(r, s, s);
    FirstAlignedIsFirst(s, n, r.phase);
    assert s != t;
    hide Wellformed;
    QuotientForm(t, n, r.phase);
    BelowBoundary(r, t / n, s);
    OnlyMultiple(s, n, t / n);
  }

  lemma QuotientForm(t: int, n: int, phase: int)
    requires 0 < n && t % n == phase
    ensures t == n * (t / n) + phase
  {
  }

  /** Between an address less than a step below the top and a step above it, the top is the only multiple. */
  lemma OnlyMultiple(s: int, n: int, k: int)
    requires 0 < n && TWO64 % n == 0 && TWO64 - n <= s < TWO64 && n * k - n < s < n * k
    ensures n * k == TWO64
  {
    var top := TWO64 / n;
    assert TWO64 == n * top;
    assert n * (top - 1) == TWO64 - n && n * (top + 1) == TWO64 + n;
    if k < top { MulMono(n, k, top - 1); } else if k > top { MulMono(n, top + 1, k); }
  }

  /** The start itself is past the top: it wraps to the phase, and from there the code goes on as usual. */
  lemma StartWraps(bt: Block, r: Request)
    requires BlockOk(bt) && Wellformed(r) && r.phase + r.align < TWO64
    requires FirstAligned(LowEnd(bt, r), r.align, r.phase) >= TWO64
    ensures FitFrom(bt, r, r.phase) == Place(r, HighEnd(bt, r), Landing(bt, r))
  {
    hide AlignUp, FirstAligned, Place, Crosses;
    var t := if r.phase < bt.start then r.phase + r.align else r.phase;
    SameCrossing(r, t);
    assert FitFrom(bt, r, r.phase) == if Crosses(t, t + r.size - 1, r.nocross)
      then Place(r, HighEnd(bt, r), Wrap64(AlignUp(Wrap64(t - r.phase), r.nocross) + r.phase))
      else Place(r, HighEnd(bt, r), t);
    if Crosses(t, t + r.size - 1, r.nocross) { CrossedLanding(r); }
  }

  /** From the wrapped start, the end does not wrap unless nothing is crossed anyway. */
  lemma SameCrossing(r: Request, t: int)
    requires Wellformed(r) && r.phase + r.align < TWO64 && (t == r.phase || t == r.phase + r.align)
    ensures Crosses(t, Wrap64(t + r.size - 1), r.nocross) <==> Crosses(t, t + r.size - 1, r.nocross)
    ensures Crosses(t, t + r.size - 1, r.nocross) ==> r.nocross != 0 && t == r.phase + r.align
  {
    hide AlignUp;
    if r.nocross != 0 {
      if Crosses(t, t + r.size - 1, r.nocross) { CrossedLanding(r); } else { BelowTop(t, t + r.size - 1, r.nocross); }
    }
  }

  lemma CrossedLanding(r: Request)
    requires Wellformed(r) && r.nocross != 0 && Crosses(r.phase + r.align, r.phase + r.align + r.size - 1, r.nocross)
    ensures r.phase + r.align + r.size - 1 < TWO64
    ensures Wrap64(AlignUp(Wrap64(r.phase + r.align - r.phase), r.nocross) + r.phase) == r.nocross + r.phase
  {
    hide AlignUp;
    var n, t := r.nocross, r.phase + r.align;
    SmallRemainder(r.phase, r.align);
    ModShift(r.phase, r.align, 1);
    CrossingMeansFineAlign(r, t);
    HalfAtMost(n);
    var c := n / r.align;
    assert n == r.align * c;
    if c <= 1 { MulMono(r.align, c, 1); } else { MulMono(r.align, 2, c); }
    assert 2 * r.align <= n;
    AlignedStart(t, n, r.phase);
    DivModUnique(r.phase - t, n, -1, n - r.align);
  }

  /**
   * Nothing of the range is left, or the aligned request ends below the top of the address space, or what the
   * rounding wraps to is rejected for lack of room.
   */
  predicate Sound(bt: Block, r: Request)
    requires r.align > 0 && r.nocross >= 0
  {
    LowEnd(bt, r) > HighEnd(bt, r) || NoWrap(bt, r) || Landing(bt, r) + r.size - 1 > HighEnd(bt, r)
  }

  /**
   * vmem_fit is right exactly in these cases. Otherwise the block has no admissible address at all and vmem_fit
   * returns one nevertheless.
   */
  lemma FitAtTheTop(bt: Block, r: Request)
    requires BlockOk(bt) && Wellformed(r)
    ensures IsLeast(bt, r, Fit(bt, r)) <==> Sound(bt, r)
    ensures !Sound(bt, r) ==> Fit(bt, r).Some? && forall x :: !Admissible(bt, r, x)
  {
    hide AlignUp, FirstAligned, Crosses, FitFrom;
    var lo := LowEnd(bt, r);
    var s := FirstAligned(lo, r.align, r.phase);
    AlignedIsLow(bt, r);
    AlignedStart(lo, r.align, r.phase);
    if lo > HighEnd(bt, r) {
    } else if NoWrap(bt, r) {
      FitIsLeast(bt, r);
    } else {
      assert forall x :: !Admissible(bt, r, x);
      if s >= TWO64 {
        WrappedStart(lo, r.align, r.phase);
        StartWraps(bt, r);
      } else if r.nocross != 0 {
        EndWraps(bt, r);
      } else {
        NoBoundary(bt, r, s);
      }
      assert Fit(bt, r) == Place(r, HighEnd(bt, r), Landing(bt, r));
    }
  }

  /** A block that ends the size and the alignment below the top is never near enough. */
  lemma FarFromTheTop(bt: Block, r: Request)
    requires BlockOk(bt) && Wellformed(r) && bt.start + bt.size + r.align + r.size <= TWO64
    ensures Sound(bt, r)
  {
    FirstAlignedIsFirst(LowEnd(bt, r), r.align, r.phase);
  }

  lemma NoBoundary(bt: Block, r: Request, s: int)
    requires r.nocross == 0 && bt.start <= s
    ensures FitFrom(bt, r, s) == Place(r, HighEnd(bt, r), s)
  {
  }

  /** Such a block: the last page of the address space asked for two-page alignment yields an address below it. */
  lemma TopBlockEscapes()
    ensures var bt := Block(TWO64 - 4096, 4096); var r := Request(4096, 8192, 0, 0, 0, TWO64 - 1);
      BlockOk(bt) && Wellformed(r) && Fit(bt, r) == Some(8192)
  {
  }
}
