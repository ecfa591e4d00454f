/**
 * The retransmission timeout: the smoothed round trip `sa` (scaled by 8) and its deviation
 * `sv` (scaled by 4) of Jacobson's estimator, in ticks of 500 ms and in signed 16-bit
 * fields, and the exponential back-off computed from them.
 */
module Rto {
  import opened Common

  lemma TruncatesNothing(x: int)
    ensures Truncate16(x) == x <==> -0x8000 <= x < 0x8000
  {
  }

  const TCP_BACKOFF: seq<nat> := [1, 2, 3, 4, 5, 6, 7, 7, 7, 7, 7, 7, 7]
  const TCP_MAXRTX: nat := 12
  /** 3000 ms in ticks of TCP_SLOW_INTERVAL */
  const INITIAL_RTO: nat := 3000 / 500

  datatype Estimate = Estimate(sa: int, sv: int) {
    /** The timeout before back-off. */
    function Base(): int { sa / 8 + sv }
  }

  const START := Estimate(0, INITIAL_RTO)

  function Abs(x: int): nat { if x < 0 then -x else x }

  /** One measured round trip, in unbounded arithmetic. */
  function Next(e: Estimate, m: int): Estimate {
    var err := m - e.sa / 8;
    Estimate(e.sa + err, e.sv + Abs(err) - e.sv / 4)
  }

  function After(e: Estimate, trips: seq<int>): Estimate
    decreases |trips|
  {
    if trips == [] then e else After(Next(e, trips[0]), trips[1..])
  }

  ghost predicate Within(trips: seq<int>, longest: nat) {
    forall i :: 0 <= i < |trips| ==> 0 <= trips[i] <= longest
  }

  /** What no sequence of round trips of at most `longest` ticks gets out of. */
  predicate Bounded(e: Estimate, longest: nat) {
    && 0 <= e.sa <= 8 * longest + 7
    && 3 <= e.sv <= 4 * longest + 3
  }

  lemma BaseBounded(e: Estimate, longest: nat)
    requires Bounded(e, longest)
    ensures 3 <= e.Base() <= 5 * longest + 3
  {
  }

  lemma NextBounded(e: Estimate, m: int, longest: nat)
    requires Bounded(e, longest) && 0 <= m <= longest
    ensures Bounded(Next(e, m), longest)
  {
  }

  /** Over every sequence of measured round trips the estimator stays within its bounds. */
  lemma {:induction false} AfterBounded(e: Estimate, trips: seq<int>, longest: nat)
    requires Bounded(e, longest) && Within(trips, longest)
    ensures Bounded(After(e, trips), longest)
    decreases |trips|
  {
    if trips != [] {
      NextBounded(e, trips[0], longest);
      AfterBounded(Next(e, trips[0]), trips[1..], longest);
    }
  }

  lemma {:induction false} AfterOneMore(e: Estimate, trips: seq<int>, m: int)
    ensures After(e, trips + [m]) == Next(After(e, trips), m)
    decreases |trips|
  {
    if trips != [] {
      AfterOneMore(Next(e, trips[0]), trips[1..], m);
      assert (trips + [m])[1..] == trips[1..] + [m];
    } else {
      assert (trips + [m])[1..] == [];
    }
  }

  function Power2(n: nat): nat {
    if n == 0 then 1 else 2 * Power2(n - 1)
  }

  /** The factor starts at two and doubles with every retransmission, up to 128. */
  lemma BackoffFactors(nrtx: nat)
    requires nrtx < |TCP_BACKOFF|
    ensures 2 <= Power2(TCP_BACKOFF[nrtx]) <= 128
    ensures nrtx == 0 ==> Power2(TCP_BACKOFF[nrtx]) == 2
    ensures nrtx + 1 < |TCP_BACKOFF| ==> Power2(TCP_BACKOFF[nrtx + 1]) == Min(2 * Power2(TCP_BACKOFF[nrtx]), 128)
    ensures |TCP_BACKOFF| == TCP_MAXRTX + 1
  {
    assert Power2(1) == 2 && Power2(2) == 4 && Power2(3) == 8 && Power2(4) == 16;
    assert Power2(5) == 2 * Power2(4) && Power2(6) == 2 * Power2(5) && Power2(7) == 2 * Power2(6);
  }

  lemma ShiftFits(b: int, p: int)
    requires 3 <= b && 2 <= p <= 128
    ensures 0 < b * p
    ensures b <= 253 ==> b * p < 0x8000
  {
    assert b <= 253 ==> b * p <= 253 * p;
  }

  /** Round trips of up to 50 ticks: no back-off overflows the signed 16-bit timeout. */
  lemma BackoffFits(trips: seq<int>, longest: nat, nrtx: nat)
    requires 1 <= longest <= 50 && Within(trips, longest) && nrtx < |TCP_BACKOFF|
    ensures 3 <= After(START, trips).Base() <= 5 * longest + 3
    ensures 0 < After(START, trips).Base() * Power2(TCP_BACKOFF[nrtx]) < 0x8000
  {
    hide After, Power2;
    assert Bounded(START, longest);
    AfterBounded(START, trips, longest);
    BaseBounded(After(START, trips), longest);
    BackoffFactors(nrtx);
    ShiftFits(After(START, trips).Base(), Power2(TCP_BACKOFF[nrtx]));
  }

  /** Some bound is needed: three round trips of a minute make the last back-off negative. */
  lemma LongTripsOverflow()
    ensures After(START, [120, 120, 120]) == Estimate(317, 242)
    ensures Truncate16(Estimate(317, 242).Base() * Power2(7)) < 0
  {
    hide After, Power2, Next;
    ThreeMinutes();
    AfterThree(START, 120, 120, 120);
    SeventhPower();
  }

  lemma ThreeMinutes()
    ensures Next(Next(Next(START, 120), 120), 120) == Estimate(317, 242)
  {
    hide Next;
    NextIs(Estimate(0, 6), 120, 0, 1);
    NextIs(Estimate(120, 125), 120, 15, 31);
    NextIs(Estimate(225, 199), 120, 28, 49);
  }

  lemma NextIs(e: Estimate, m: int, mean: int, quarter: int)
    requires 8 * mean <= e.sa < 8 * mean + 8 && 4 * quarter <= e.sv < 4 * quarter + 4 && mean <= m
    ensures Next(e, m) == Estimate(e.sa + m - mean, e.sv + m - mean - quarter)
  {
  }

  lemma AfterThree(e: Estimate, a: int, b: int, c: int)
    ensures After(e, [a, b, c]) == Next(Next(Next(e, a), b), c)
  {
    hide After, Next;
    assert [a, b, c] == [a] + ([b] + ([c] + []));
    AfterCons(e, a, [b] + ([c] + []));
    AfterCons(Next(e, a), b, [c] + []);
    AfterCons(Next(Next(e, a), b), c, []);
    AfterNone(Next(Next(Next(e, a), b), c));
  }

  lemma AfterCons(e: Estimate, m: int, rest: seq<int>)
    ensures After(e, [m] + rest) == After(Next(e, m), rest)
  {
    assert ([m] + rest)[1..] == rest;
  }

  lemma AfterNone(e: Estimate)
    ensures After(e, []) == e
  {
  }

  lemma SeventhPower()
    ensures Power2(7) == 128
  {
    assert Power2(4) == 16;
    assert Power2(7) == 2 * Power2(6) && Power2(6) == 2 * Power2(5) && Power2(5) == 2 * Power2(4);
  }

  function Repeat(m: int, n: nat): seq<int> {
    if n == 0 then [] else [m] + Repeat(m, n - 1)
  }

  lemma AfterRepeat(e: Estimate, m: int, n: nat)
    requires n > 0
    ensures After(e, Repeat(m, n)) == After(Next(e, m), Repeat(m, n - 1))
  {
    assert Repeat(m, n)[1..] == Repeat(m, n - 1);
  }

  /** Round trips that all equal the smoothed one only shrink the deviation, down to 3. */
  lemma {:induction false} Settles(e: Estimate, m: nat, n: nat)
    requires e.sa / 8 == m && 3 <= e.sv <= n + 3
    ensures After(e, Repeat(m, n)) == Estimate(e.sa, 3)
    decreases n
  {
    if n > 0 {
      AfterRepeat(e, m, n);
      Settles(Next(e, m), m, n - 1);
    }
  }

  /** Steady round trips of m ticks end in a timeout of m + 3 ticks, whatever went before. */
  lemma {:induction false} Converges(e: Estimate, m: nat, longest: nat, n: nat)
    requires Bounded(e, longest) && m <= longest
    requires n >= Abs(8 * m - e.sa) + 4 * longest
    ensures After(e, Repeat(m, n)).sa / 8 == m && After(e, Repeat(m, n)).Base() == m + 3
    decreases n
  {
    if e.sa / 8 == m {
      Settles(e, m, n);
    } else {
      AfterRepeat(e, m, n);
      NextBounded(e, m, longest);
      Converges(Next(e, m), m, longest, n - 1);
    }
  }

  /** The new estimate fits the 16-bit fields. */
  predicate Storable(e: Estimate) { e.sa < 0x8000 && e.sv < 0x8000 }

  /** Of the 16-bit stores of a measurement only the last two can lose something, when the new estimate is too large. */
  lemma StoresLose(sa: s16, sv: s16, trip: s16)
    requires 0 <= sa && 3 <= sv && 0 <= trip
    ensures var err := trip - sa / 8;
            && Truncate16(err) == err && (err < 0 ==> Truncate16(-err) == -err)
            && Truncate16(Abs(err) - sv / 4) == Abs(err) - sv / 4
            && Next(Estimate(sa, sv), trip) == Estimate(sa + err, sv + Abs(err) - sv / 4)
            && (Storable(Next(Estimate(sa, sv), trip)) <==>
                Truncate16(sa + err) == sa + err && Truncate16(sv + Abs(err) - sv / 4) == sv + Abs(err) - sv / 4)
  {
    hide Truncate16;
    var err := trip - sa / 8;
    TruncatesNothing(err);
    TruncatesNothing(sa + err);
    TruncatesNothing(-err);
    TruncatesNothing(Abs(err) - sv / 4);
    TruncatesNothing(sv + Abs(err) - sv / 4);
  }

  /** Round trips of up to 4095 ticks always give an estimate that fits, and a timeout that does. */
  lemma ShortTripsFit(e: Estimate, m: int, longest: nat)
    requires Bounded(e, longest) && 0 <= m <= longest <= 4095
    ensures Storable(Next(e, m)) && Next(e, m).Base() < 0x8000
  {
    NextBounded(e, m, longest);
  }

  /** Longer ones do not, if they go on: for 4096 ticks or more the smoothed round trip outgrows its field. */
  lemma LongTripsDoNotFit(m: nat)
    requires m > 4095
    ensures !Storable(After(START, Repeat(m, 12 * m)))
  {
    Converges(START, m, m, 12 * m);
  }

  class RttEstimator {
    var sa: s16
    var sv: s16
    var rto: s16
    /** the round trips measured so far */
    ghost var trips: seq<int>

    ghost function Value(): Estimate
      reads this
    {
      Estimate(sa, sv)
    }

    /** The fields are what the unbounded estimator makes of all round trips so far. */
    ghost predicate Valid(longest: nat)
      reads this
    {
      1 <= longest && Within(trips, longest) && Value() == After(START, trips)
    }

    /** tcp_alloc */
    constructor (ghost longest: nat)
      requires 1 <= longest
      ensures Valid(longest) && trips == [] && rto == Value().Base()
    {
      sa, sv, rto := 0, INITIAL_RTO, INITIAL_RTO;
      trips := [];
    }

    /** The measurement in tcp_receive: 16-bit arithmetic agrees with the unbounded one as long as the estimate fits. */
    method Measure(trip: s16, ghost longest: nat)
      requires Valid(longest) && 0 <= trip <= longest
      modifies this
      ensures trips == old(trips) + [trip as int]
      ensures Valid(longest) <==> Storable(Next(old(Value()), trip))
      ensures longest <= 4095 ==> Valid(longest)
      ensures Valid(longest) ==> (rto == Value().Base() <==> Value().Base() < 0x8000)
    {
      hide Truncate16, After, Next;
      assert Bounded(START, longest);
      AfterBounded(START, trips, longest);
      AfterOneMore(START, trips, trip);
      AfterBounded(START, trips + [trip as int], longest);
      if longest <= 4095 {
        ShortTripsFit(Value(), trip, longest);
      }
      Adjust(trip);
      trips := trips + [trip as int];
      TruncatesNothing(Value().Base());
    }

    method Adjust(trip: s16)
      requires 0 <= sa && 3 <= sv && 0 <= trip
      modifies this`sa, this`sv, this`rto
      ensures Value() == Next(old(Value()), trip) <==> Storable(Next(old(Value()), trip))
      ensures rto == Truncate16(Value().Base())
    {
      hide Truncate16, Next, Storable;
      StoresLose(sa, sv, trip);
      var m := Truncate16(trip - sa / 8);
      sa := Truncate16(sa + m);
      if m < 0 {
        m := Truncate16(-m);
      }
      m := Truncate16(m - sv / 4);
      sv := Truncate16(sv + m);
      rto := Truncate16(sa / 8 + sv);
    }

    /** The retransmission branch of tcp_slowtmr: exact as long as the shifted value fits. */
    method BackOff(nrtx: nat, ghost longest: nat)
      requires Valid(longest) && nrtx < TCP_MAXRTX
      modifies this`rto
      ensures rto == Value().Base() * Power2(TCP_BACKOFF[nrtx])
              <==> Value().Base() * Power2(TCP_BACKOFF[nrtx]) < 0x8000
      ensures rto == Truncate16(Value().Base() * Power2(TCP_BACKOFF[nrtx]))
      ensures Valid(longest)
      ensures longest <= 50 ==> rto > 0
    {
      hide Power2, After;
      assert Bounded(START, longest);
      AfterBounded(START, trips, longest);
      rto := Truncate16((sa / 8 + sv) * Power2(TCP_BACKOFF[nrtx]));
      BackoffFactors(nrtx);
      BaseBounded(Value(), longest);
      ShiftFits(Value().Base(), Power2(TCP_BACKOFF[nrtx]));
      TruncatesNothing(Value().Base() * Power2(TCP_BACKOFF[nrtx]));
    }
  }
}
