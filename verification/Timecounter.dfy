/** Timekeeping of kern_tc.c: 64.64 fixed-point accumulation of counter deltas across windups. */
module Timecounter {
  import opened Words

  /** struct bintime: seconds and 1/2^64 fractions. */
  datatype Bintime = Bintime(sec: int, frac: int)

  predicate FracOk(bt: Bintime) { 0 <= bt.frac < TWO64 }

  /** Time in units of 1/2^64 s. */
  function Value(bt: Bintime): int { bt.sec * TWO64 + bt.frac }

  /** bintime_addx: add a 64-bit fraction, with carry. */
  function AddX(bt: Bintime, x: int): Bintime {
    var frac := Wrap64(bt.frac + x);
    Bintime(if bt.frac > frac then bt.sec + 1 else bt.sec, frac)
  }

  lemma AddXExact(bt: Bintime, x: int)
    requires FracOk(bt) && 0 <= x < TWO64
    ensures FracOk(AddX(bt, x)) && Value(AddX(bt, x)) == Value(bt) + x
  {
  }

  /** tc_bintime_addscaled: the 96-bit product in two halves, each within 64 bits. */
  function AddScaled(bt: Bintime, scale: int, delta: int): Bintime {
    var x := Wrap64((scale / TWO32) * delta);
    var bt1 := Bintime(bt.sec + x / TWO32, bt.frac);
    AddX(AddX(bt1, Wrap64(x * TWO32)), Wrap64((scale % TWO32) * delta))
  }

  lemma HalfProduct(a: int, b: int)
    requires 0 <= a < TWO32 && 0 <= b < TWO32
    ensures 0 <= a * b < TWO64
  {
    MulMono(TWO32, a, TWO32 - 1);
    if a > 0 { MulMono(a, b, TWO32 - 1); }
    assert a * b <= a * (TWO32 - 1) <= (TWO32 - 1) * (TWO32 - 1);
  }

  lemma ShiftedHalf(x: int)
    requires 0 <= x < TWO64
    ensures Wrap64(x * TWO32) == (x % TWO32) * TWO32
  {
    var q, r := x / TWO32, x % TWO32;
    assert x == TWO32 * q + r;
    assert x * TWO32 == TWO64 * q + r * TWO32;
    DivModUnique(x * TWO32, TWO64, q, r * TWO32);
  }

  /** No bit of scale * delta is lost, however many seconds it is worth. */
  lemma AddScaledExact(bt: Bintime, scale: int, delta: int)
    requires FracOk(bt) && 0 <= scale < TWO64 && 0 <= delta < TWO32
    ensures FracOk(AddScaled(bt, scale, delta))
    ensures Value(AddScaled(bt, scale, delta)) == Value(bt) + scale * delta
  {
    var hi, lo := scale / TWO32, scale % TWO32;
    HalfProduct(hi, delta);
    HalfProduct(lo, delta);
    var x := hi * delta;
    ShiftedHalf(x);
    var bt1 := Bintime(bt.sec + x / TWO32, bt.frac);
    AddXExact(bt1, (x % TWO32) * TWO32);
    AddXExact(AddX(bt1, (x % TWO32) * TWO32), lo * delta);
    Halves(scale, delta);
  }

  lemma Halves(scale: int, delta: int)
    ensures ((scale / TWO32) * delta) / TWO32 * TWO64 + ((scale / TWO32) * delta) % TWO32 * TWO32 + (scale % TWO32) * delta == scale * delta
  {
    var hi, lo := scale / TWO32, scale % TWO32;
    var x := hi * delta;
    assert x == TWO32 * (x / TWO32) + x % TWO32;
    assert x / TWO32 * TWO64 + x % TWO32 * TWO32 == x * TWO32;
    assert scale == TWO32 * hi + lo;
    assert scale * delta == TWO32 * (hi * delta) + lo * delta by { Distribute(hi, lo, delta); }
  }

  lemma Distribute(hi: int, lo: int, d: int)
    ensures (TWO32 * hi + lo) * d == TWO32 * (hi * d) + lo * d
  {
  }

  // ---------------------------------------------------------- the windup bound

  const INT_MAX: int := 0x7fff_ffff
  const UINT64_MAX: int := TWO64 - 1

  /** A counter of mask + 1 states, a power of two, running at freq. */
  datatype Counter = Counter(mask: int, freq: int)

  predicate CounterOk(c: Counter) { 0 <= c.mask < TWO32 && TWO64 % (c.mask + 1) == 0 && 0 <= c.freq < TWO64 }

  /** tc_half_wrap_ticks. */
  function HalfWrapTicks(c: Counter, hz: nat): int {
    if c.freq <= 0 then UINT64_MAX else c.mask * hz / c.freq / 2
  }

  /** tc_max_windup_ticks, from the active and the selected counter. */
  function MaxWindupTicks(active: Counter, selected: Counter, hz: nat): int {
    Min(Min(HalfWrapTicks(active, hz), HalfWrapTicks(selected, hz)), INT_MAX)
  }

  /** In g ticks of 1/hz s a counter makes at most g * freq / hz counts. */
  predicate CountsIn(c: Counter, hz: nat, g: int, counts: int) { 0 <= counts && counts * hz <= g * c.freq }

  lemma HalfWrapMeans(c: Counter, hz: nat, g: int)
    requires CounterOk(c) && hz > 0 && 0 <= g <= HalfWrapTicks(c, hz) && c.freq > 0
    ensures 2 * (g * c.freq) <= c.mask * hz
  {
    var q := c.mask * hz / c.freq;
    assert c.mask * hz == c.freq * q + (c.mask * hz) % c.freq;
    assert 2 * g <= q;
    MulMono(c.freq, 2 * g, q);
    assert c.freq * (2 * g) == 2 * (g * c.freq);
  }

  /** A sleep within the bound moves neither counter by more than half its range, so neither wraps. */
  lemma SleepsDoNotWrap(active: Counter, selected: Counter, hz: nat, g: int, counts: int, counts2: int)
    requires CounterOk(active) && CounterOk(selected) && hz > 0 && 0 <= g <= MaxWindupTicks(active, selected, hz)
    requires CountsIn(active, hz, g, counts) && CountsIn(selected, hz, g, counts2)
    ensures 2 * counts <= active.mask && 2 * counts2 <= selected.mask
  {
    hide HalfWrapTicks;
    OneDoesNotWrap(active, hz, g, counts);
    OneDoesNotWrap(selected, hz, g, counts2);
  }

  lemma SleepStays(active: Counter, selected: Counter, hz: nat, g: int, counts: int)
    requires CounterOk(active) && CounterOk(selected) && hz > 0 && 0 <= g <= MaxWindupTicks(active, selected, hz)
    requires CountsIn(active, hz, g, counts)
    ensures 0 <= counts <= active.mask
  {
    hide MaxWindupTicks;
    assert CountsIn(selected, hz, g, 0) by { Zero(g, selected.freq); }
    SleepsDoNotWrap(active, selected, hz, g, counts, 0);
  }

  lemma OneDoesNotWrap(c: Counter, hz: nat, g: int, counts: int)
    requires CounterOk(c) && hz > 0 && 0 <= g <= HalfWrapTicks(c, hz) && CountsIn(c, hz, g, counts)
    ensures 2 * counts <= c.mask
  {
    Double(counts, hz);
    if c.freq > 0 {
      HalfWrapMeans(c, hz, g);
      hide HalfWrapTicks;
      Cancel(2 * counts, c.mask, hz);
    } else {
      Cancel(2 * counts, 0, hz);
    }
  }

  lemma Double(a: int, b: int)
    ensures (2 * a) * b == 2 * (a * b)
  {
  }

  lemma Cancel(a: int, b: int, d: int)
    requires d > 0 && a * d <= b * d
    ensures a <= b
  {
    if a > b { MulMono(d, b + 1, a); }
  }

  // -------------------------------------------------------------------- windup

  /** The part of struct timehands that says what time it is. */
  datatype Hand = Hand(counter: Counter, scale: int, offsetCount: int, offset: Bintime)

  predicate HandOk(th: Hand) {
    CounterOk(th.counter) && 0 <= th.scale < TWO64 && 0 <= th.offsetCount < TWO64 && FracOk(th.offset)
  }

  /** What the hardware shows after count steps in all. */
  function Reading(c: Counter, count: int): int
    requires c.mask >= 0
  {
    count % (c.mask + 1)
  }

  /** tc_delta: masking with mask is the remainder by mask + 1. */
  function Delta(th: Hand, reading: int): int
    requires th.counter.mask >= 0
  {
    Wrap64(reading - th.offsetCount) % (th.counter.mask + 1)
  }

  /** binuptime, once it has a consistent timehands. */
  function Read(th: Hand, reading: int): Bintime
    requires th.counter.mask >= 0
  {
    AddScaled(th.offset, th.scale, Delta(th, reading))
  }

  /** tc_windup's accumulation, while counter and scale stay. */
  function Windup(th: Hand, reading: int): Hand
    requires th.counter.mask >= 0
  {
    th.(offsetCount := Wrap64(th.offsetCount + Delta(th, reading)), offset := Read(th, reading))
  }

  /** The timehands th was wound up when the counter had made count steps. */
  predicate At(th: Hand, count: int) { HandOk(th) && 0 <= count && th.offsetCount % (th.counter.mask + 1) == count % (th.counter.mask + 1) }

  /** Remainders by a divisor d of m see through remainders by m. */
  lemma ModMod(x: int, m: int, d: int)
    requires m > 0 && d > 0 && m % d == 0
    ensures (x % m) % d == x % d
  {
    assert x == m * (x / m) + x % m;
    assert m == d * (m / d);
    var k := (m / d) * (x / m);
    assert m * (x / m) == d * k by { MulAssoc(d, m / d, x / m); }
    ModShift(x % m, d, k);
  }

  lemma ModDiff(x: int, y: int, u: int, d: int)
    requires d > 0 && x % d == y % d
    ensures (u - x) % d == (u - y) % d && (u + x) % d == (u + y) % d
  {
    assert x == d * (x / d) + x % d && y == d * (y / d) + y % d;
    var k := y / d - x / d;
    assert u - x == (u - y) + d * k;
    ModShift(u - y, d, k);
    assert u + y == (u + x) + d * k;
    ModShift(u + x, d, k);
  }

  /** Counts made since the windup, if fewer than the counter's range. */
  lemma DeltaIsElapsed(th: Hand, c0: int, c: int)
    requires At(th, c0) && c0 <= c <= c0 + th.counter.mask
    ensures Delta(th, Reading(th.counter, c)) == c - c0
  {
    var d := th.counter.mask + 1;
    var r := Reading(th.counter, c);
    ModMod(r - th.offsetCount, TWO64, d);
    ModMod(c, d, d);
    ModDiff(r, c, -th.offsetCount, d);
    ModDiff(th.offsetCount, c0, c, d);
    DivModUnique(c - c0, d, 0, c - c0);
    assert Wrap64(r - th.offsetCount) == (r - th.offsetCount) % TWO64;
  }

  /** A reading is exact, and so is a windup, which moves the reference to its own count. */
  lemma ReadIsExact(th: Hand, c0: int, c: int)
    requires At(th, c0) && c0 <= c <= c0 + th.counter.mask
    ensures FracOk(Read(th, Reading(th.counter, c))) && Value(Read(th, Reading(th.counter, c))) == Value(th.offset) + th.scale * (c - c0)
  {
    hide AddScaled, Delta, Reading, Value;
    DeltaIsElapsed(th, c0, c);
    AddScaledExact(th.offset, th.scale, c - c0);
  }

  lemma WindupIsExact(th: Hand, c0: int, c: int)
    requires At(th, c0) && c0 <= c <= c0 + th.counter.mask
    ensures var th' := Windup(th, Reading(th.counter, c));
      && At(th', c) && th'.counter == th.counter && th'.scale == th.scale
      && Value(th'.offset) == Value(th.offset) + th.scale * (c - c0)
  {
    hide AddScaled, Delta, Reading, Value;
    ReadIsExact(th, c0, c);
    DeltaIsElapsed(th, c0, c);
    var d := th.counter.mask + 1;
    var th' := Windup(th, Reading(th.counter, c));
    assert th'.offsetCount == (th.offsetCount + (c - c0)) % TWO64;
    ModMod(th.offsetCount + (c - c0), TWO64, d);
    ModDiff(th.offsetCount, c0, c - c0, d);
  }

  // --------------------------------------------------------------------- runs

  /** Windups at the given counts, one after the other. */
  function Wound(th: Hand, counts: seq<int>): (w: Hand)
    requires th.counter.mask >= 0
    ensures w.counter == th.counter && w.scale == th.scale
    decreases |counts|
  {
    if counts == [] then th else Wound(Windup(th, Reading(th.counter, counts[0])), counts[1..])
  }

  function Prev(c0: int, counts: seq<int>, i: nat): int
    requires i < |counts|
  {
    if i == 0 then c0 else counts[i - 1]
  }

  /** A sleep of g ticks within the bound, in which the active counter makes the given counts. */
  ghost predicate Sleep(c: Counter, selected: Counter, hz: nat, g: int, counts: int) {
    0 <= g <= MaxWindupTicks(c, selected, hz) && CountsIn(c, hz, g, counts)
  }

  /** Each gap between windups is such a sleep. */
  ghost predicate Paced(c: Counter, selected: Counter, hz: nat, c0: int, counts: seq<int>, gaps: seq<int>) {
    |gaps| == |counts| && forall i :: 0 <= i < |counts| ==> Sleep(c, selected, hz, gaps[i], counts[i] - Prev(c0, counts, i))
  }

  function LastOf(c0: int, counts: seq<int>): int { if counts == [] then c0 else counts[|counts| - 1] }

  /** Any schedule of windups with gaps within the bound accumulates exactly scale for every count. */
  lemma {:induction false} AnyScheduleIsExact(th: Hand, selected: Counter, hz: nat, c0: int, counts: seq<int>, gaps: seq<int>)
    requires At(th, c0) && CounterOk(selected) && hz > 0 && Paced(th.counter, selected, hz, c0, counts, gaps)
    ensures var w := Wound(th, counts); var last := LastOf(c0, counts);
      && At(w, last) && w.counter == th.counter && w.scale == th.scale && c0 <= last
      && Value(w.offset) == Value(th.offset) + th.scale * (last - c0)
    decreases |counts|
  {
    hide Windup, Value, MaxWindupTicks;
    if counts != [] {
      assert Sleep(th.counter, selected, hz, gaps[0], counts[0] - Prev(c0, counts, 0));
      SleepStays(th.counter, selected, hz, gaps[0], counts[0] - c0);
      WindupIsExact(th, c0, counts[0]);
      var th1 := Windup(th, Reading(th.counter, counts[0]));
      forall i | 0 <= i < |counts[1..]|
        ensures Sleep(th1.counter, selected, hz, gaps[1..][i], counts[1..][i] - Prev(counts[0], counts[1..], i))
      {
        assert Sleep(th.counter, selected, hz, gaps[i + 1], counts[i + 1] - Prev(c0, counts, i + 1));
      }
      AnyScheduleIsExact(th1, selected, hz, counts[0], counts[1..], gaps[1..]);
      var last := LastOf(c0, counts);
      assert last == LastOf(counts[0], counts[1..]);
      Sum(th.scale, c0, counts[0], last);
    }
  }

  lemma Zero(g: int, f: int)
    requires g >= 0 && f >= 0
    ensures 0 <= g * f
  {
  }

  lemma Sum(s: int, a: int, b: int, c: int)
    ensures s * (b - a) + s * (c - b) == s * (c - a)
  {
  }

  /**
   * At every count within the bound of the last windup, whatever the windups before, the time read is the
   * starting time plus scale for every count since: sleeping neither loses time nor steps it back.
   */
  lemma TimeIsExact(th: Hand, selected: Counter, hz: nat, c0: int, counts: seq<int>, gaps: seq<int>, c: int, g: int)
    requires At(th, c0) && CounterOk(selected) && hz > 0 && Paced(th.counter, selected, hz, c0, counts, gaps)
    requires Sleep(th.counter, selected, hz, g, c - LastOf(c0, counts))
    ensures Value(Read(Wound(th, counts), Reading(th.counter, c))) == Value(th.offset) + th.scale * (c - c0)
  {
    hide Value, Read, Wound, MaxWindupTicks;
    AnyScheduleIsExact(th, selected, hz, c0, counts, gaps);
    var last := LastOf(c0, counts);
    SleepStays(th.counter, selected, hz, g, c - last);
    ReadIsExact(Wound(th, counts), last, c);
    Sum(th.scale, c0, last, c);
  }
}
