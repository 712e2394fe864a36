/** Timekeeping of Arduino/wiring.c: the timer 0 overflow handler, micros() and delay(). */
module Timer {
  import opened Words

  /** After `n` overflows of `us` microseconds each, `whole` milliseconds and `fract`
      units of 8 microseconds have been counted; what is missing are the lowest three
      bits of `us`, once per overflow. */
  ghost predicate Counted(us: nat, n: nat, whole: nat, fract: nat) {
    fract < 125 && 1000 * whole + 8 * fract + (us % 8) * n == us * n
  }

  function MillisInc(us: nat): nat { us / 1000 }

  function FractInc(us: nat): nat { us % 1000 / 8 }

  lemma CountOne(us: nat, n: nat, whole: nat, fract: nat)
    requires Counted(us, n, whole, fract)
    ensures var f := fract + FractInc(us);
            && 0 <= f < 0x100 && Wrap8(f) == f
            && if f >= 125 then Counted(us, n + 1, whole + MillisInc(us) + 1, f - 125)
               else Counted(us, n + 1, whole + MillisInc(us), f)
  {
    assert us % 1000 % 8 == us % 8;
    assert us == 1000 * (us / 1000) + 8 * (us % 1000 / 8) + us % 8;
    Distribute(us, n);
    Distribute(us % 8, n);
  }

  lemma Distribute(a: nat, n: nat)
    ensures a * (n + 1) == a * n + a
  {}

  /** The millisecond count never runs ahead, and is exact for ever when the overflow
      period is a multiple of 8 microseconds, as at 16 and 8 MHz; with any other
      period it falls behind within 1000 overflows. */
  lemma Drift(us: nat, n: nat, whole: nat, fract: nat)
    requires Counted(us, n, whole, fract)
    ensures us % 8 == 0 ==> whole == us * n / 1000
    ensures us % 8 != 0 && n >= 1000 ==> whole < us * n / 1000
  {
    var lost := (us % 8) * n;
    if us % 8 == 0 {
      assert lost == 0;
    } else if n >= 1000 {
      AtLeast(us % 8, n);
    }
  }

  lemma AtLeast(a: nat, n: nat)
    requires a >= 1
    ensures a * n >= n
  {}

  lemma WrapPlus(a: nat, b: nat)
    ensures Wrap32(Wrap32(a) + b) == Wrap32(a + b)
  {}

  class Timer0 {
    const us: nat               // microseconds per overflow: 1024 at 16 MHz
    var millis: u32
    var fract: u8
    var overflowCount: u32
    ghost var total: nat        // overflows handled so far
    ghost var whole: nat        // the milliseconds before they are cut to 32 bits

    ghost predicate Valid()
      reads this
    {
      overflowCount == Wrap32(total) && millis == Wrap32(whole) && Counted(us, total, whole, fract)
    }

    constructor (us: nat)
      ensures Valid() && total == 0 && this.us == us
    {
      this.us := us;
      millis, fract, overflowCount, total, whole := 0, 0, 0, 0, 0;
    }

    /** ISR(TIMER0_OVF_vect). */
    method Overflow()
      requires Valid()
      modifies this
      ensures Valid() && total == old(total) + 1
    {
      CountOne(us, total, whole, fract);
      WrapPlus(whole, MillisInc(us));
      WrapPlus(whole + MillisInc(us), 1);
      WrapPlus(total, 1);
      hide Wrap32, Wrap8, Counted, MillisInc, FractInc;
      var m := Wrap32(millis as int + MillisInc(us));
      var f := Wrap8(fract as int + FractInc(us));
      whole := whole + MillisInc(us);
      if f >= 125 {
        f := f - 125;
        m := Wrap32(m as int + 1);
        whole := whole + 1;
      }
      fract := f;
      millis := m;
      overflowCount := Wrap32(overflowCount as int + 1);
      total := total + 1;
    }
  }

  /** micros() at 16 MHz: from the overflow count, the counter and its overflow flag. */
  function Micros(overflows: u32, counter: u8, flag: bool): u32 {
    var m := Wrap32(overflows as int + if flag && counter < 255 then 1 else 0);
    Wrap32(Wrap32(Wrap32(m * 0x100) + counter) * 4)
  }

  /** The counter is read at tick `ticks` (of 4 microseconds), with `pending` overflows
      not handled yet, and the flag at that tick or the next. The reading is the time,
      cut to 32 bits, unless an overflow has been pending for 255 ticks. */
  lemma MicrosIsExact(ticks: nat, pending: nat, later: nat)
    requires pending <= 1 && pending <= ticks / 0x100 && ticks <= later <= ticks + 1
    ensures var flag := pending == 1 || later / 0x100 > ticks / 0x100;
            var reading := Micros(Wrap32(ticks / 0x100 - pending), ticks % 0x100, flag);
            reading == Wrap32(4 * ticks) <==> !(pending == 1 && ticks % 0x100 == 255)
  {
    var q, t := ticks / 0x100, ticks % 0x100;
    var flag := pending == 1 || later / 0x100 > q;
    MicrosValue(q - pending, t, flag);
    assert ticks == q * 0x100 + t && (t < 255 ==> later / 0x100 == q);
    if pending == 1 && t == 255 {
      OffByAnOverflow(ticks);
    }
  }

  lemma MicrosValue(overflows: nat, counter: u8, flag: bool)
    ensures var m := if flag && counter < 255 then overflows + 1 else overflows;
            Micros(Wrap32(overflows), counter, flag) == Wrap32(4 * (m * 0x100 + counter))
  {
    WrapPlus(overflows, 1);
    WrapPlus(overflows, 0);
    CutLater(if flag && counter < 255 then overflows + 1 else overflows, counter);
    hide Wrap32;
  }

  lemma OffByAnOverflow(ticks: nat)
    ensures ticks >= 0x100 ==> Wrap32(4 * ticks - 1024) != Wrap32(4 * ticks)
  {}

  /** Cutting to 32 bits at every step is cutting once at the end. */
  lemma CutLater(m: nat, t: u8)
    ensures Wrap32(Wrap32(Wrap32(Wrap32(m) * 0x100) + t) * 4) == Wrap32(4 * (m * 0x100 + t))
  {
    Congruent(m, 0x100);
    WrapPlus(m * 0x100, t);
    Congruent(m * 0x100 + t, 4);
    hide Wrap32;
  }

  lemma Congruent(a: nat, k: nat)
    ensures Wrap32(Wrap32(a) * k) == Wrap32(a * k)
  {
    var q := a / 0x1_0000_0000;
    assert a == q * 0x1_0000_0000 + Wrap32(a);
    assert a * k == (q * k) * 0x1_0000_0000 + Wrap32(a) * k;
    AddMultiple(Wrap32(a) * k, q * k);
  }

  // ---- delay ----

  /** One call of micros(): the tick at which the counter is read, the overflows then
      pending, and the tick at which the overflow flag is read. */
  datatype Poll = Poll(ticks: nat, pending: nat, later: nat)
  {
    predicate Valid() { pending <= 1 && pending <= ticks / 0x100 && ticks <= later <= ticks + 1 }

    function Reading(): u32
      requires Valid()
    {
      Micros(Wrap32(ticks / 0x100 - pending), ticks % 0x100, pending == 1 || later / 0x100 > ticks / 0x100)
    }

    /** Is the reading an overflow short, as in `MicrosIsExact`? */
    predicate Low() { pending == 1 && ticks % 0x100 == 255 }

    /** In microseconds. */
    function Time(): nat { 4 * ticks }
  }

  lemma ReadingIs(p: Poll)
    requires p.Valid()
    ensures p.Low() ==> p.Time() >= 1024
    ensures p.Reading() == Wrap32(if p.Low() then p.Time() - 1024 else p.Time())
  {
    var q, t := p.ticks / 0x100, p.ticks % 0x100;
    assert t < 255 ==> p.later / 0x100 == q;
    MicrosValue(q - p.pending, t, p.pending == 1 || p.later / 0x100 > q);
    hide Micros;
  }

  ghost predicate InOrder(ps: seq<Poll>) {
    && (forall k :: 0 <= k < |ps| ==> ps[k].Valid())
    && forall i, j :: 0 <= i <= j < |ps| ==> ps[i].ticks <= ps[j].ticks
  }

  /** The loops of delay(), which both call micros() once per test: with `left`
      milliseconds to go and `used` polls made, is the delay over after some of the
      others, and after how many? */
  function Wait(left: nat, start: u32, ps: seq<Poll>, used: nat): (r: (bool, nat))
    requires used <= |ps| && forall k :: 0 <= k < |ps| ==> ps[k].Valid()
    ensures used <= r.1 <= |ps|
    decreases |ps| - used
  {
    if left == 0 then (true, used)
    else if used == |ps| then (false, used)
    else if Wrap32(ps[used].Reading() - start) >= 1000 then Wait(left - 1, Wrap32(start as int + 1000), ps, used + 1)
    else Wait(left, start, ps, used + 1)
  }

  function DelayOf(ms: nat, ps: seq<Poll>): (r: (bool, nat))
    requires |ps| > 0 && forall k :: 0 <= k < |ps| ==> ps[k].Valid()
    ensures 1 <= r.1 <= |ps|
  {
    Wait(ms, ps[0].Reading(), ps, 1)
  }

  /** delay(ms), with the calls of micros() that it can make; `done` is false when it is
      still waiting after the last of them. */
  method Delay(ms: u32, ps: seq<Poll>) returns (done: bool, used: nat)
    requires |ps| > 0 && forall k :: 0 <= k < |ps| ==> ps[k].Valid()
    ensures (done, used) == DelayOf(ms, ps)
  {
    var start := ps[0].Reading();
    var left := ms;
    used := 1;
    while left > 0
      invariant 0 <= left <= ms && 1 <= used <= |ps|
      invariant Wait(left, start, ps, used) == DelayOf(ms, ps)
      decreases |ps| - used
    {
      // yield()
      if used == |ps| {
        return false, used;
      }
      var elapsed := Wrap32(ps[used].Reading() - start);
      used := used + 1;
      if elapsed >= 1000 {
        left := left - 1;
        start := Wrap32(start as int + 1000);
      }
    }
    done := true;
  }

  lemma WrappedGap(from: nat, t: nat)
    requires from <= t
    ensures Wrap32(Wrap32(t) - Wrap32(from)) == Wrap32(t - from) <= t - from
    ensures t - from < 0x1_0000_0000 ==> Wrap32(t - from) == t - from
  {
    var q := t / 0x1_0000_0000 - from / 0x1_0000_0000;
    assert t - from == q * 0x1_0000_0000 + (Wrap32(t) - Wrap32(from));
  }

  /** One good poll: it counts a millisecond if the difference, cut, is large enough. */
  lemma WaitStep(left: nat, from: nat, ps: seq<Poll>, used: nat)
    requires InOrder(ps) && left > 0 && used < |ps| && !ps[used].Low() && from <= ps[used].Time()
    ensures Wait(left, Wrap32(from), ps, used) ==
              if Wrap32(ps[used].Time() - from) >= 1000 then Wait(left - 1, Wrap32(from + 1000), ps, used + 1)
              else Wait(left, Wrap32(from), ps, used + 1)
    ensures Wrap32(ps[used].Time() - from) <= ps[used].Time() - from
    ensures ps[used].Time() - from < 0x1_0000_0000 ==> Wrap32(ps[used].Time() - from) == ps[used].Time() - from
  {
    ReadingIs(ps[used]);
    WrappedGap(from, ps[used].Time());
    WrapPlus(from, 1000);
    hide Wrap32;
  }

  ghost predicate OnTime(ms: nat, ps: seq<Poll>)
    requires |ps| > 0 && InOrder(ps)
  {
    var (done, used) := DelayOf(ms, ps);
    done ==> ps[used - 1].Time() - ps[0].Time() >= 1000 * ms
  }

  /** From where the count of milliseconds has got to, `from`, the rest is waited for. */
  lemma {:induction false} WaitIsLong(left: nat, from: nat, ps: seq<Poll>, used: nat)
    requires InOrder(ps) && 1 <= used <= |ps| && from <= ps[used - 1].Time()
    requires forall k :: used <= k < |ps| ==> !ps[k].Low()
    ensures var (done, u) := Wait(left, Wrap32(from), ps, used);
            done ==> ps[u - 1].Time() >= from + 1000 * left
    decreases |ps| - used
  {
    if left > 0 && used < |ps| {
      WaitStep(left, from, ps, used);
      hide Wait, Wrap32;
      if Wrap32(ps[used].Time() - from) >= 1000 {
        WaitIsLong(left - 1, from + 1000, ps, used + 1);
      } else {
        WaitIsLong(left, from, ps, used + 1);
      }
    }
  }

  /** Unless a reading is low, delay() never returns before its time, however often the
      32-bit clock wraps meanwhile. */
  lemma NeverEarly(ms: nat, ps: seq<Poll>)
    requires |ps| > 0 && InOrder(ps) && forall k :: 0 <= k < |ps| ==> !ps[k].Low()
    ensures OnTime(ms, ps)
  {
    ReadingIs(ps[0]);
    WaitIsLong(ms, ps[0].Time(), ps, 1);
  }

  /** Each of the next polls counts a millisecond. */
  lemma {:induction false} EachCounts(left: nat, from: nat, ps: seq<Poll>, used: nat)
    requires InOrder(ps) && 1 <= used && used + left <= |ps|
    requires forall k :: used <= k < used + left ==>
               !ps[k].Low() && from + 1000 * (k - used + 1) <= ps[k].Time() < from + 1000 * (k - used) + 0x1_0000_0000
    ensures Wait(left, Wrap32(from), ps, used) == (true, used + left)
  {
    if left > 0 {
      WaitStep(left, from, ps, used);
      hide Wait, Wrap32;
      EachCounts(left - 1, from + 1000, ps, used + 1);
    }
  }

  /** Polls that begin with `p` and of which no other is low. */
  ghost predicate Follow(p: Poll, ps: seq<Poll>) {
    |ps| > 0 && InOrder(ps) && ps[0] == p && forall k :: 1 <= k < |ps| ==> !ps[k].Low()
  }

  ghost predicate AlwaysOnTime(p: Poll, ms: nat) { forall ps :: Follow(p, ps) ==> OnTime(ms, ps) }

  /** The reading at the start decides: if it is low, then every delay can end early. */
  lemma StartDecides(p: Poll, ms: nat)
    requires p.Valid() && ms > 0
    ensures AlwaysOnTime(p, ms) <==> !p.Low()
  {
    if p.Low() {
      var ps := [p] + seq(ms, i requires 0 <= i < ms => Poll(p.ticks + 1 + 250 * i, 0, p.ticks + 1 + 250 * i));
      ReadingIs(p);
      EachCounts(ms, p.Time() - 1024, ps, 1);
      assert Follow(p, ps) && !OnTime(ms, ps);
    } else {
      forall ps | Follow(p, ps) ensures OnTime(ms, ps) {
        NeverEarly(ms, ps);
      }
    }
  }

  /** So can a low reading later on: for each of them there is a delay that it ends. */
  lemma LowReadingEndsEarly(p: Poll, ms: nat) returns (ps: seq<Poll>)
    requires p.Valid() && p.Low() && ms > 0 && p.ticks >= 250 * (ms - 1)
    ensures |ps| == ms + 1 && InOrder(ps) && ps[ms] == p && forall k :: 0 <= k < ms ==> !ps[k].Low()
    ensures DelayOf(ms, ps) == (true, ms + 1) && !OnTime(ms, ps)
  {
    var t := p.ticks - 250 * (ms - 1);
    ps := seq(ms, i requires 0 <= i < ms => Poll(t + 250 * i, 0, t + 250 * i)) + [p];
    ReadingIs(ps[0]);
    CountsThenWraps(ms, 4 * t, ps, 1);
  }

  /** Each poll counts a millisecond, the last one because its reading is low: the
      difference wraps. */
  lemma {:induction false} CountsThenWraps(left: nat, from: nat, ps: seq<Poll>, used: nat)
    requires InOrder(ps) && 1 <= used && used + left == |ps| && left > 0
    requires forall k :: used <= k < |ps| - 1 ==> !ps[k].Low() && ps[k].Time() == from + 1000 * (k - used + 1)
    requires ps[|ps| - 1].Low() && ps[|ps| - 1].Time() == from + 1000 * (left - 1)
    ensures Wait(left, Wrap32(from), ps, used) == (true, |ps|)
  {
    hide Wrap32, Micros;
    ReadingIs(ps[used]);
    if left == 1 {
      WrapsBelow(from);
    } else {
      WrappedGap(from, ps[used].Time());
      WrapPlus(from, 1000);
      CountsThenWraps(left - 1, from + 1000, ps, used + 1);
    }
  }

  lemma WrapsBelow(t: nat)
    requires t >= 1024
    ensures Wrap32(Wrap32(t - 1024) - Wrap32(t)) == 0x1_0000_0000 - 1024
  {}

  /** How many milliseconds fit the 32 bits of the clock. */
  const MAX_LOST := 4_294_967

  /** Once the count of milliseconds is ahead of the clock, every poll wraps and counts
      another one, as long as the clock does not catch up. */
  lemma {:induction false} EachWraps(left: nat, from: nat, ps: seq<Poll>, used: nat)
    requires InOrder(ps) && 1 <= used && used + left <= |ps|
    requires forall k :: used <= k < used + left ==>
               !ps[k].Low() && ps[k].Time() < from + 1000 * (k - used)
               && from + 1000 * (k - used) <= ps[k].Time() + 0x1_0000_0000 - 1000
    ensures Wait(left, Wrap32(from), ps, used) == (true, used + left)
  {
    if left > 0 {
      ReadingIs(ps[used]);
      WrapsAround(ps[used].Time(), from);
      WrapPlus(from, 1000);
      hide Wrap32;
      EachWraps(left - 1, from + 1000, ps, used + 1);
    }
  }

  lemma WrapsAround(t: nat, from: nat)
    requires t < from <= t + 0x1_0000_0000 - 1000
    ensures Wrap32(Wrap32(t) - Wrap32(from)) >= 1000
  {
    WrappedGap(t, from);
    assert Wrap32(Wrap32(t) - Wrap32(from)) == Wrap32(0 - (Wrap32(from) - Wrap32(t)));
    NegatedWrap(Wrap32(from) - Wrap32(t));
  }

  lemma NegatedWrap(d: int)
    requires 0 < Wrap32(d)
    ensures Wrap32(0 - d) == 0x1_0000_0000 - Wrap32(d)
  {
    var q := d / 0x1_0000_0000;
    assert d == q * 0x1_0000_0000 + Wrap32(d);
  }

  /** Worse, a low reading soon after the start loses the whole delay: if all later polls
      come faster than one per millisecond, each of them counts for one. */
  lemma LowReadingLosesAll(ms: nat, ps: seq<Poll>)
    requires 0 < ms <= MAX_LOST && |ps| > ms && InOrder(ps)
    requires ps[1].Low() && ps[1].Time() < ps[0].Time() + 1024
    requires !ps[0].Low() && forall k :: 2 <= k <= ms ==> !ps[k].Low() && ps[k].Time() < ps[0].Time() + 1000 * (k - 1)
    ensures DelayOf(ms, ps) == (true, ms + 1)
  {
    var from := ps[0].Time();
    ReadingIs(ps[0]);
    ReadingIs(ps[1]);
    WrapsAround(ps[1].Time() - 1024, from);
    WrapPlus(from, 1000);
    EachWraps(ms - 1, from + 1000, ps, 2);
  }

  /** So up to 71 minutes can pass in 8 microseconds. */
  lemma LowReadingLosesDelay(p: Poll, ms: nat) returns (ps: seq<Poll>)
    requires p.Valid() && p.Low() && 0 < ms <= MAX_LOST
    ensures |ps| == ms + 1 && InOrder(ps) && ps[1] == p && forall k :: 0 <= k <= ms && k != 1 ==> !ps[k].Low()
    ensures DelayOf(ms, ps) == (true, ms + 1) && ps[ms].Time() - ps[0].Time() <= 8
  {
    var before, after := Poll(p.ticks - 1, 1, p.ticks - 1), Poll(p.ticks + 1, 1, p.ticks + 1);
    ps := [before, p] + seq(ms - 1, _ => after);
    LowReadingLosesAll(ms, ps);
  }

  /** No two successive polls are more than a millisecond apart. */
  ghost predicate Dense(ps: seq<Poll>) {
    forall i, j :: 0 <= i < j < |ps| && j == i + 1 ==> ps[j].Time() <= ps[i].Time() + 1000
  }

  /** Of the polls from `used` on, does the delay end at the first at or after `target`? */
  ghost predicate EndsAtFirst(target: nat, ps: seq<Poll>, used: nat, r: (bool, nat)) {
    && used <= r.1 <= |ps| && (r.0 ==> r.1 >= 1 && ps[r.1 - 1].Time() >= target)
    && forall k :: used <= k < (if r.0 then r.1 - 1 else |ps|) ==> ps[k].Time() < target
  }

  lemma EndsLater(target: nat, ps: seq<Poll>, used: nat, r: (bool, nat))
    requires used < |ps| && EndsAtFirst(target, ps, used + 1, r)
    requires ps[used].Time() < target || r == (true, used + 1)
    ensures EndsAtFirst(target, ps, used, r)
  {}

  lemma {:induction false} WaitIsExact(left: nat, from: nat, ps: seq<Poll>, used: nat)
    requires InOrder(ps) && 1 <= used <= |ps| && from <= ps[used - 1].Time() < from + 1000
    requires Dense(ps) && forall k :: used <= k < |ps| ==> !ps[k].Low()
    ensures EndsAtFirst(from + 1000 * left, ps, used, Wait(left, Wrap32(from), ps, used))
    decreases |ps| - used
  {
    hide Dense, EndsAtFirst, Wrap32, Wait;
    if left == 0 || used == |ps| {
      WaitIsOver(left, from, ps, used);
    } else {
      NextPoll(ps, used);
      WaitStep(left, from, ps, used);
      var target := from + 1000 * left;
      if Wrap32(ps[used].Time() - from) >= 1000 {
        WaitIsExact(left - 1, from + 1000, ps, used + 1);
        NothingLeft(Wrap32(from + 1000), ps, used + 1);
        EndsLater(target, ps, used, Wait(left - 1, Wrap32(from + 1000), ps, used + 1));
      } else {
        WaitIsExact(left, from, ps, used + 1);
        EndsLater(target, ps, used, Wait(left, Wrap32(from), ps, used + 1));
      }
    }
  }

  lemma WaitIsOver(left: nat, from: nat, ps: seq<Poll>, used: nat)
    requires InOrder(ps) && 1 <= used <= |ps| && from <= ps[used - 1].Time() < from + 1000
    requires left == 0 || used == |ps|
    ensures EndsAtFirst(from + 1000 * left, ps, used, Wait(left, Wrap32(from), ps, used))
  {
    hide Wrap32;
  }

  lemma NothingLeft(start: u32, ps: seq<Poll>, used: nat)
    requires InOrder(ps) && used <= |ps|
    ensures Wait(0, start, ps, used) == (true, used)
  {}

  lemma NextPoll(ps: seq<Poll>, used: nat)
    requires InOrder(ps) && Dense(ps) && 1 <= used < |ps|
    ensures ps[used - 1].Time() <= ps[used].Time() <= ps[used - 1].Time() + 1000
  {
    assert ps[used - 1].ticks <= ps[used].ticks;
  }

  ghost predicate Over(ms: nat, ps: seq<Poll>, k: nat)
    requires k < |ps|
  {
    ps[k].Time() - ps[0].Time() >= 1000 * ms
  }

  /** Polled at least once every millisecond, delay() returns at the first poll at which
      its time is over. */
  lemma ReturnsAtOnce(ms: nat, ps: seq<Poll>)
    requires |ps| > 0 && InOrder(ps) && forall k :: 0 <= k < |ps| ==> !ps[k].Low()
    requires Dense(ps)
    ensures var (done, used) := DelayOf(ms, ps);
            && (done <==> exists k :: 0 <= k < |ps| && Over(ms, ps, k))
            && (done ==> Over(ms, ps, used - 1) && forall k :: 0 <= k < used - 1 ==> !Over(ms, ps, k))
  {
    ReadingIs(ps[0]);
    WaitIsExact(ms, ps[0].Time(), ps, 1);
    var (done, used) := DelayOf(ms, ps);
    if done {
      assert Over(ms, ps, used - 1);
    }
  }

  /** Does no difference that the loop computes hide a wrap of the clock? */
  ghost predicate NoWrap(left: nat, from: nat, ps: seq<Poll>, used: nat)
    requires used <= |ps|
    decreases |ps| - used
  {
    left == 0 || used == |ps| ||
    (ps[used].Time() < from + 0x1_0000_0000 &&
     if ps[used].Time() >= from + 1000 then NoWrap(left - 1, from + 1000, ps, used + 1)
         else NoWrap(left, from, ps, used + 1))
  }

  lemma {:induction false} WaitCatchesUp(left: nat, from: nat, ps: seq<Poll>, used: nat, k: nat)
    requires InOrder(ps) && 1 <= used <= |ps| && from <= ps[used - 1].Time() && NoWrap(left, from, ps, used)
    requires forall k :: used <= k < |ps| ==> !ps[k].Low()
    requires k < |ps| && ps[k].Time() >= from + 1000 * left && (if used < k then k else used) + left <= |ps|
    ensures var (done, u) := Wait(left, Wrap32(from), ps, used);
            done && u <= (if used < k then k else used) + left
    decreases |ps| - used
  {
    if left > 0 {
      WaitStep(left, from, ps, used);
      hide Wait, Wrap32;
      if ps[used].Time() >= from + 1000 {
        WaitCatchesUp(left - 1, from + 1000, ps, used + 1, k);
      } else {
        WaitCatchesUp(left, from, ps, used + 1, k);
      }
    }
  }

  /** However unevenly it is polled, once its time is over delay() returns with the
      `ms`-th further poll at the latest, unless it has stood still for 2^32 microseconds. */
  lemma CatchesUp(ms: nat, ps: seq<Poll>, k: nat)
    requires |ps| > 0 && InOrder(ps) && forall k :: 0 <= k < |ps| ==> !ps[k].Low()
    requires 1 <= k && k + ms <= |ps| && k < |ps| && Over(ms, ps, k) && NoWrap(ms, ps[0].Time(), ps, 1)
    ensures DelayOf(ms, ps).0 && DelayOf(ms, ps).1 <= k + ms
  {
    ReadingIs(ps[0]);
    WaitCatchesUp(ms, ps[0].Time(), ps, 1, k);
  }

  /** Polls within 2^32 microseconds of the start do not wrap. */
  lemma {:induction false} CloseDoesNotWrap(left: nat, from: nat, ps: seq<Poll>, used: nat)
    requires used <= |ps| && forall k :: used <= k < |ps| ==> ps[k].Time() < from + 0x1_0000_0000
    ensures NoWrap(left, from, ps, used)
    decreases |ps| - used
  {
    if left > 0 && used < |ps| {
      CloseDoesNotWrap(left - 1, from + 1000, ps, used + 1);
      CloseDoesNotWrap(left, from, ps, used + 1);
    }
  }

  /** In particular, when all polls are within 2^32 microseconds of the start. */
  lemma ReturnsAfterStall(ms: nat, ps: seq<Poll>, k: nat)
    requires |ps| > 0 && InOrder(ps) && forall k :: 0 <= k < |ps| ==> !ps[k].Low()
    requires ps[|ps| - 1].Time() < ps[0].Time() + 0x1_0000_0000
    requires 1 <= k && k + ms <= |ps| && k < |ps| && Over(ms, ps, k)
    ensures DelayOf(ms, ps).0 && DelayOf(ms, ps).1 <= k + ms
  {
    CloseDoesNotWrap(ms, ps[0].Time(), ps, 1);
    CatchesUp(ms, ps, k);
  }
}
