/** tc_windup as the kernel runs it: the ring of timehands, crossed seconds, counter changes, the scale. */
module TimeWindup {
  import opened Words
  import opened Timecounter

  const HANDS: nat := 10
  const LARGE_STEP: int := 200

  /** struct timehands up to the generation; `second` is the second of the cached UTC time. */
  datatype Full = Full(hand: Hand, adjustment: int, second: int)

  /** bintime_add. */
  function Add(a: Bintime, b: Bintime): Bintime {
    var x := AddX(a, b.frac);
    Bintime(x.sec + b.sec, x.frac)
  }

  lemma AddExact(a: Bintime, b: Bintime)
    requires FracOk(a) && FracOk(b)
    ensures FracOk(Add(a, b)) && Value(Add(a, b)) == Value(a) + Value(b)
  {
    AddXExact(a, b.frac);
  }

  /** Division as C does it, towards zero. */
  function TruncDiv(a: int, d: int): int
    requires d > 0
  {
    if a >= 0 then a / d else -(-a / d)
  }

  /** The scale for a frequency adjustment: twice the quotient of half a second's fractions. */
  function Scale(adjustment: int, freq: int): int
    requires freq > 0
  {
    var half := Wrap64(TWO64 / 2 + TruncDiv(adjustment, 1024) * 2199);
    Wrap64(half / freq * 2)
  }

  /** Unadjusted, a second's worth of counts is a second less at most 2/2^64 s per count. */
  lemma ScaleIsClose(freq: int)
    requires 1 < freq < TWO64 / 2
    ensures 0 <= Scale(0, freq) < TWO64 && TWO64 - 2 * freq < Scale(0, freq) * freq <= TWO64
  {
    var half := TWO64 / 2;
    var q := half / freq;
    Quotient(half, freq);
    assert TruncDiv(0, 1024) * 2199 == 0;
    assert Scale(0, freq) == q * 2;
    Twice(q, freq);
  }

  lemma Quotient(half: int, freq: int)
    requires 1 < freq < half
    ensures 0 <= half / freq < half && half - freq < (half / freq) * freq <= half
  {
    QuotientIs(half, freq, half / freq, half % freq);
  }

  lemma QuotientIs(half: int, freq: int, q: int, r: int)
    requires 1 < freq < half && half == q * freq + r && 0 <= r < freq
    ensures 0 <= q < half && half - freq < q * freq <= half
  {
    assert q < 0 ==> q * freq <= -freq;
    assert q > 0 ==> q * freq >= q * 2;
  }

  lemma Twice(q: int, freq: int)
    ensures (q * 2) * freq == 2 * (q * freq)
  {
  }

  /** What ntp_update_second does on its n-th call: (adjustment, second) to new ones. */
  type Ntp = (nat, int, int) -> (int, int)

  /** A run of ntp_update_second calls: the adjustment before each and after the last, what went in and what came out. */
  datatype Calls = Calls(adjs: seq<int>, presented: seq<int>, returned: seq<int>)

  /** The calls were made, in this order, as calls number start, start + 1, ...; each was given the adjustment the one before left. */
  ghost predicate Made(c: Calls, ntp: Ntp, start: nat, before: int, after: int) {
    && |c.adjs| == |c.presented| + 1 && |c.returned| == |c.presented|
    && c.adjs[0] == before && c.adjs[|c.presented|] == after
    && forall t :: 0 <= t < |c.presented| ==> (c.adjs[t + 1], c.returned[t]) == ntp(start + t, c.adjs[t], c.presented[t])
  }

  /** Each second presented follows what the one before it became. */
  ghost predicate InOrder(first: int, c: Calls) {
    && |c.presented| == |c.returned|
    && forall t :: 0 <= t < |c.presented| ==> c.presented[t] == Became(first, c.returned, t) + 1
  }

  /** The second the clock stood at before the t-th was presented. */
  function Became(first: int, returned: seq<int>, t: nat): int
    requires t <= |returned|
  {
    if t == 0 then first else returned[t - 1]
  }

  /** One more call. */
  function OneMore(c: Calls, sec: int, adj: int, sec': int): Calls { Calls(c.adjs + [adj], c.presented + [sec], c.returned + [sec']) }

  lemma OneMoreMade(c: Calls, ntp: Ntp, start: nat, before: int, after: int, sec: int)
    requires Made(c, ntp, start, before, after)
    ensures var (a, s) := ntp(start + |c.presented|, after, sec); Made(OneMore(c, sec, a, s), ntp, start, before, a)
  {
  }

  /** What the seconds processing does when the UTC second by the old timebase is sec and the last one was first. */
  ghost predicate Processed(c: Calls, first: int, sec: int, sec': int) {
    var i := Int32(sec - first);
    && (i <= 0 ==> c.presented == [] && sec' == sec)
    && (0 < i <= LARGE_STEP ==>
          |c.presented| == i && InOrder(first, c) && sec' == Became(first, c.returned, i) + (sec - (first + i)))
    && (i > LARGE_STEP ==>
          |c.presented| == 2 == |c.returned| && c.presented == [sec, c.returned[0]] && sec' == c.returned[1])
  }

  class TimeHands {
    const ring: array<Full>
    const gens: array<int>
    var cur: nat
    var selected: Counter
    var base: Bintime
    var baseGen: nat
    var ntpCalls: nat

    ghost predicate Valid()
      reads this, ring, gens
    {
      && ring.Length == HANDS && gens.Length == HANDS && cur < HANDS
      && HandOk(ring[cur].hand) && FracOk(base) && CounterOk(selected) && selected.freq > 0
      && (forall i :: 0 <= i < HANDS ==> 0 <= gens[i] < TWO32)
    }

    /** The crossed-seconds loop: each second of the clock as adjusted so far is presented once, in order. */
    method CrossSeconds(ntp: Ntp, first: int, i: int, adjustment: int)
      returns (adjustment': int, adj: int, ghost c: Calls)
      requires 0 < i
      modifies this`ntpCalls
      ensures Made(c, ntp, old(ntpCalls), adjustment, adjustment') && ntpCalls == old(ntpCalls) + i
      ensures |c.presented| == i && InOrder(first, c)
      ensures first + i + adj == Became(first, c.returned, i)
    {
      adjustment', adj, c := adjustment, 0, Calls([adjustment], [], []);
      var t := 1;
      while t <= i
        invariant 1 <= t <= i + 1 && |c.presented| == t - 1 && InOrder(first, c)
        invariant Made(c, ntp, old(ntpCalls), adjustment, adjustment')
        invariant first + (t - 1) + adj == Became(first, c.returned, t - 1)
        invariant ntpCalls == old(ntpCalls) + t - 1
      {
        var sec := first + t + adj;
        var seen := sec;
        OneMoreMade(c, ntp, old(ntpCalls), adjustment, adjustment', sec);
        var (a, s) := ntp(ntpCalls, adjustment', sec);
        adjustment', sec := a, s;
        ntpCalls := ntpCalls + 1;
        if sec != seen { adj := adj + (sec - seen); }
        c := OneMore(c, seen, adjustment', sec);
        t := t + 1;
      }
    }

    /** A step of more than LARGE_STEP seconds: the final second, and then what it became. */
    method LargeStep(ntp: Ntp, adjustment: int, sec: int) returns (adjustment': int, sec': int, ghost c: Calls)
      requires FracOk(base)
      modifies this`ntpCalls, this`base, this`baseGen
      ensures FracOk(base) && base == old(base).(sec := old(base).sec + (sec' - sec)) && ntpCalls == old(ntpCalls) + 2
      ensures Made(c, ntp, old(ntpCalls), adjustment, adjustment')
      ensures |c.presented| == 2 && c.presented == [sec, c.returned[0]] && sec' == c.returned[1]
    {
      adjustment', sec', c := adjustment, sec, Calls([adjustment], [], []);
      var i := 2;
      while i > 0
        invariant 0 <= i <= 2 && ntpCalls == old(ntpCalls) + 2 - i
        invariant base == old(base).(sec := old(base).sec + (sec' - sec))
        invariant Made(c, ntp, old(ntpCalls), adjustment, adjustment') && |c.presented| == 2 - i
        invariant sec' == Became(sec, c.returned, 2 - i)
        invariant forall t :: 0 <= t < 2 - i ==> c.presented[t] == Became(sec, c.returned, t)
      {
        var t := sec';
        OneMoreMade(c, ntp, old(ntpCalls), adjustment, adjustment', t);
        var (a, s) := ntp(ntpCalls, adjustment', sec');
        adjustment', sec' := a, s;
        ntpCalls := ntpCalls + 1;
        if sec' != t { Rebase(sec' - t); }
        c := OneMore(c, t, adjustment', sec');
        i := i - 1;
      }
    }

    /** The timebase moves by whole seconds, between two changes of its generation. */
    method Rebase(step: int)
      modifies this`base, this`baseGen
      ensures base == old(base).(sec := old(base).sec + step) && baseGen > old(baseGen) && baseGen % 2 == 0
    {
      baseGen := if baseGen % 2 == 0 then baseGen + 1 else baseGen;
      base := base.(sec := base.sec + step);
      baseGen := baseGen + 1;
    }

    /** The seconds processing of tc_windup: bt is the UTC time by the old timebase. */
    method Seconds(ntp: Ntp, first: int, bt: Bintime, adjustment: int)
      returns (adjustment': int, bt': Bintime, updated: bool, ghost c: Calls)
      requires FracOk(base)
      modifies this`ntpCalls, this`base, this`baseGen
      ensures FracOk(base) && base == old(base).(sec := old(base).sec + (bt'.sec - bt.sec)) && bt'.frac == bt.frac
      ensures Made(c, ntp, old(ntpCalls), adjustment, adjustment') && ntpCalls == old(ntpCalls) + |c.presented|
      ensures Processed(c, first, bt.sec, bt'.sec) && (updated <==> c.presented != [])
    {
      adjustment', bt', updated, c := adjustment, bt, false, Calls([adjustment], [], []);
      var i := Int32(bt.sec - first);
      if i > LARGE_STEP {
        var sec;
        adjustment', sec, c := LargeStep(ntp, adjustment, bt.sec);
        bt' := bt.(sec := sec);
        updated := true;
      } else if i > 0 {
        var adj;
        adjustment', adj, c := CrossSeconds(ntp, first, i, adjustment);
        updated := true;
        if adj != 0 {
          bt' := bt.(sec := bt.sec + adj);
          Rebase(adj);
        }
      }
    }

    /** A generation goes up by one, never to zero. */
    function Bumped(gen: int): int { if gen + 1 == TWO32 then 1 else gen + 1 }

    /**
     * tc_windup, with what the active and the selected counter read. The next timehands of the ring becomes
     * current; its uptime is the old one plus scale for every count; its UTC second is that uptime by the new
     * timebase; its adjustment is what the seconds processing left, and its scale follows from it.
     */
    method Windup(ntp: Ntp, reading: int, ncount: int) returns (ghost c: Calls)
      requires Valid() && 0 <= ncount < TWO32
      modifies this`cur, this`base, this`baseGen, this`ntpCalls, ring, gens
      ensures Valid() && cur == (old(cur) + 1) % HANDS
      ensures forall i :: 0 <= i < HANDS && i != cur ==> ring[i] == old(ring[i])
      ensures forall i :: 0 <= i < HANDS && i != cur && i != old(cur) ==> gens[i] == old(gens[i])
      ensures gens[cur] == Bumped(old(gens[..])[cur]) != 0 && gens[old(cur)] == Bumped(old(gens[cur])) != 0
      ensures var th, th' := old(ring[cur].hand), ring[cur].hand;
        && Value(th'.offset) == Value(th.offset) + th.scale * Delta(th, reading)
        && th'.counter == selected
        && (th.counter == selected ==> th'.offsetCount == Timecounter.Windup(th, reading).offsetCount)
        && (th.counter != selected ==> th'.offsetCount == ncount)
        && th'.scale == (if c.presented == [] && th.counter == selected then th.scale else Scale(ring[cur].adjustment, selected.freq))
        && (c.presented == [] && th.counter == selected ==> th' == Timecounter.Windup(th, reading))
      ensures ring[cur].second == Add(ring[cur].hand.offset, base).sec
      ensures Made(c, ntp, old(ntpCalls), old(ring[cur].adjustment), ring[cur].adjustment) && ntpCalls == old(ntpCalls) + |c.presented|
      ensures Processed(c, old(ring[cur].second), Add(ring[cur].hand.offset, old(base)).sec, ring[cur].second)
    {
      hide Value, AddScaled, Delta;
      var tho := ring[cur];
      var next := (cur + 1) % HANDS;
      var ogen := gens[next];
      gens[next] := 0;
      var th := tho.hand;
      DeltaInRange(th, reading);
      AddScaledExact(th.offset, th.scale, Delta(th, reading));
      var delta := Delta(th, reading);
      th := th.(offsetCount := Wrap64(th.offsetCount + delta), offset := AddScaled(th.offset, th.scale, delta));
      var bt := Add(th.offset, base);
      var adjustment, bt', update;
      adjustment, bt', update, c := Seconds(ntp, tho.second, bt, tho.adjustment);
      if th.counter != selected {
        th := th.(counter := selected, offsetCount := ncount);
        update := true;
      }
      if update { th := th.(scale := Scale(adjustment, th.counter.freq)); }
      ring[next] := Full(th, adjustment, bt'.sec);
      gens[next] := Bumped(ogen);
      var last := cur;
      cur := next;
      gens[last] := Bumped(gens[last]);
    }
  }

  lemma DeltaInRange(th: Hand, reading: int)
    requires HandOk(th)
    ensures 0 <= Delta(th, reading) < TWO32
  {
  }
}
