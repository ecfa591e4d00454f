/**
 * The list of timeouts. Each entry holds its distance to the one before it, the first one
 * its distance to timeouts_last_time; the clock and the distances are 32 bits wide.
 * The list is compared with the alarms it stands for, each with an absolute deadline on
 * an unbounded clock.
 */
module Timeouts {
  import opened SequenceNumbers
  import opened Common

  type Handler = nat
  type Arg = nat

  /** struct sys_timeo; `time` is relative to the previous entry */
  datatype Timer = Timer(h: Handler, arg: Arg, time: u32)

  /** The same with an absolute deadline. */
  datatype Alarm = Alarm(h: Handler, arg: Arg, due: int)

  /** What a list means when its first entry counts from `base`. */
  ghost function Alarms(l: seq<Timer>, base: int): (r: seq<Alarm>)
    ensures |r| == |l|
  {
    if l == [] then [] else [Alarm(l[0].h, l[0].arg, base + l[0].time)] + Alarms(l[1..], base + l[0].time)
  }

  ghost function Total(l: seq<Timer>): nat {
    if l == [] then 0 else l[0].time + Total(l[1..])
  }

  /** Where a new alarm belongs: behind all that are due no later. */
  ghost function Scheduled(a: seq<Alarm>, x: Alarm): seq<Alarm> {
    if a == [] || a[0].due > x.due then [x] + a else [a[0]] + Scheduled(a[1..], x)
  }

  /** The alarms without the first one for a handler and argument. */
  ghost function Cancelled(a: seq<Alarm>, h: Handler, arg: Arg): seq<Alarm> {
    if a == [] then [] else
    if a[0].h == h && a[0].arg == arg then a[1..] else [a[0]] + Cancelled(a[1..], h, arg)
  }

  ghost function SumOfDues(a: seq<Alarm>): int {
    if a == [] then 0 else a[0].due + SumOfDues(a[1..])
  }

  /** A delta list is always in the order of the deadlines. */
  lemma {:induction false} AlarmsSorted(l: seq<Timer>, base: int)
    ensures |Alarms(l, base)| == |l|
    ensures forall i :: 0 <= i < |l| ==> base <= Alarms(l, base)[i].due <= base + Total(l)
    ensures forall i, j :: 0 <= i < j < |l| ==> Alarms(l, base)[i].due <= Alarms(l, base)[j].due
  {
    if l != [] {
      AlarmsSorted(l[1..], base + l[0].time);
    }
  }

  lemma NothingLeft(base: int)
    ensures Total([]) == 0 && Alarms([], base) == []
  {
  }

  lemma AlarmsCons(l: seq<Timer>, base: int)
    requires l != []
    ensures Alarms(l, base) == [Alarm(l[0].h, l[0].arg, base + l[0].time)] + Alarms(l[1..], base + l[0].time)
    ensures Total(l) == l[0].time + Total(l[1..])
  {
  }

  lemma {:induction false} AlarmsConcat(a: seq<Timer>, b: seq<Timer>, base: int)
    ensures Alarms(a + b, base) == Alarms(a, base) + Alarms(b, base + Total(a))
  {
    hide Alarms, Total;
    if a == [] {
      NothingLeft(base);
      assert a + b == b;
    } else {
      var next := base + a[0].time;
      AlarmsConcat(a[1..], b, next);
      AlarmsCons(a, base);
      AlarmsCons(a + b, base);
      assert (a + b)[1..] == a[1..] + b;
      Associates([Alarm(a[0].h, a[0].arg, next)], Alarms(a[1..], next), Alarms(b, base + Total(a)));
    }
  }

  lemma {:induction false} TotalConcat(a: seq<Timer>, b: seq<Timer>)
    ensures Total(a + b) == Total(a) + Total(b)
  {
    if a == [] {
      assert a + b == b;
    } else {
      TotalConcat(a[1..], b);
      assert (a + b)[1..] == a[1..] + b;
    }
  }

  /** Behind a prefix that is due no later, scheduling happens in the rest. */
  lemma {:induction false} ScheduledBehind(a: seq<Alarm>, b: seq<Alarm>, x: Alarm)
    requires forall i :: 0 <= i < |a| ==> a[i].due <= x.due
    ensures Scheduled(a + b, x) == a + Scheduled(b, x)
  {
    if a == [] {
      assert a + b == b && a + Scheduled(b, x) == Scheduled(b, x);
    } else {
      ScheduledBehind(a[1..], b, x);
      assert (a + b)[1..] == a[1..] + b;
      assert a + Scheduled(b, x) == [a[0]] + (a[1..] + Scheduled(b, x));
    }
  }

  lemma {:induction false} SumOfScheduled(a: seq<Alarm>, x: Alarm)
    ensures SumOfDues(Scheduled(a, x)) == SumOfDues(a) + x.due
  {
    if a == [] || a[0].due > x.due {
      assert ([x] + a)[1..] == a;
    } else {
      SumOfScheduled(a[1..], x);
      assert ([a[0]] + Scheduled(a[1..], x))[1..] == Scheduled(a[1..], x);
    }
  }

  lemma {:induction false} SumOfConcat(a: seq<Alarm>, b: seq<Alarm>)
    ensures SumOfDues(a + b) == SumOfDues(a) + SumOfDues(b)
  {
    if a == [] {
      assert a + b == b;
    } else {
      SumOfConcat(a[1..], b);
      assert (a + b)[1..] == a[1..] + b;
    }
  }

  /** A list counted from another base: every deadline moves. */
  lemma {:induction false} SumOfMoved(l: seq<Timer>, base: int, d: int)
    ensures SumOfDues(Alarms(l, base + d)) == SumOfDues(Alarms(l, base)) + |l| * d
  {
    if l != [] {
      SumOfMoved(l[1..], base + l[0].time, d);
    }
  }

  /** The list with a timer linked in before position k; the one behind it counts from there. */
  function LinkedAt(l: seq<Timer>, k: nat, x: Timer): seq<Timer>
    requires k <= |l|
    requires k < |l| ==> x.time <= l[k].time
  {
    l[..k] + [x] + if k < |l| then [l[k].(time := l[k].time - x.time)] + l[k + 1..] else []
  }

  /** Linking a timer in moves no other deadline. */
  lemma LinkedAlarms(l: seq<Timer>, k: nat, x: Timer, base: int)
    requires k <= |l|
    requires k < |l| ==> x.time <= l[k].time
    ensures var at := base + Total(l[..k]);
            Alarms(LinkedAt(l, k, x), base)
            == Alarms(l[..k], base) + ([Alarm(x.h, x.arg, at + x.time)] + Alarms(l[k..], at))
  {
    hide Alarms, Total, LinkedInFront;
    var at := base + Total(l[..k]);
    if k < |l| {
      LinkedIsFront(l, k, x);
      AlarmsConcat(l[..k], LinkedInFront(l[k..], x, x.time), base);
      InFrontAlarms(l[k..], x, x.time, at);
    } else {
      assert l[k..] == [] && LinkedAt(l, k, x) == l[..k] + [x];
      AlarmsConcat(l[..k], [x], base);
      AlarmsCons([x], at);
      NothingLeft(at);
      NothingLeft(at + x.time);
    }
  }

  lemma LinkedIsFront(l: seq<Timer>, k: nat, x: Timer)
    requires k < |l| && x.time <= l[k].time
    ensures LinkedAt(l, k, x) == l[..k] + LinkedInFront(l[k..], x, x.time)
  {
    assert l[k..][1..] == l[k + 1..];
  }

  lemma AlarmsSplit(l: seq<Timer>, k: nat, base: int)
    requires k <= |l|
    ensures Alarms(l, base) == Alarms(l[..k], base) + Alarms(l[k..], base + Total(l[..k]))
    ensures Total(l) == Total(l[..k]) + Total(l[k..])
  {
    assert l == l[..k] + l[k..];
    AlarmsConcat(l[..k], l[k..], base);
    TotalConcat(l[..k], l[k..]);
  }

  /** A timer linked in at its place is scheduled exactly when it carries its deadline. */
  lemma LinkedIsScheduled(l: seq<Timer>, k: nat, x: Timer, base: int, delay: nat)
    requires k <= |l|
    requires k < |l| ==> x.time <= l[k].time
    requires Total(l[..k]) + x.time == delay ==> k < |l| ==> x.time < l[k].time
    ensures Alarms(LinkedAt(l, k, x), base) == Scheduled(Alarms(l, base), Alarm(x.h, x.arg, base + delay))
            <==> Total(l[..k]) + x.time == delay
  {
    hide Total, LinkedAt, Alarms, Scheduled;
    var at := base + Total(l[..k]);
    var a, b := Alarms(l[..k], base), Alarms(l[k..], at);
    LinkedAlarms(l, k, x, base);
    AlarmsSplit(l, k, base);
    if Total(l[..k]) + x.time == delay {
      AlarmsSorted(l[..k], base);
      ScheduledBehind(a, b, Alarm(x.h, x.arg, base + delay));
      assert Scheduled(b, Alarm(x.h, x.arg, base + delay)) == [Alarm(x.h, x.arg, base + delay)] + b by {
        if k < |l| {
          AlarmsCons(l[k..], at);
        } else {
          assert l[k..] == [];
          NothingLeft(at);
        }
        ScheduledFirst(b, Alarm(x.h, x.arg, base + delay));
      }
    } else {
      OtherDue(a, b, Alarm(x.h, x.arg, at + x.time), Alarm(x.h, x.arg, base + delay));
    }
  }

  lemma ScheduledFirst(a: seq<Alarm>, x: Alarm)
    requires a != [] ==> a[0].due > x.due
    ensures Scheduled(a, x) == [x] + a
  {
  }

  /** With another deadline it is not what was to be scheduled. */
  lemma OtherDue(a: seq<Alarm>, b: seq<Alarm>, stored: Alarm, wanted: Alarm)
    requires stored.due != wanted.due
    ensures a + ([stored] + b) != Scheduled(a + b, wanted)
  {
    hide Scheduled;
    SumOfConcat(a, [stored] + b);
    SumOfConcat([stored], b);
    SumOfConcat(a, b);
    SumOfScheduled(a + b, wanted);
    assert [stored][1..] == [];
  }

  /** When sys_timeout enters the deadline it was asked for and leaves the others alone. */
  ghost predicate Exact(l: seq<Timer>, elapsed: nat, msecs: u32) {
    l == [] ||
    if l[0].time > msecs then elapsed == 0
    else
      && l[0].time > msecs + elapsed - MOD
      && (elapsed <= Total(l) || Total(l) + (msecs + l[0].time) % MOD == msecs + elapsed)
  }

  lemma TotalUpTo(l: seq<Timer>, k: nat)
    requires k < |l|
    ensures Total(l[..k + 1]) == Total(l[..k]) + l[k].time
  {
    assert l[..k + 1] == l[..k] + [l[k]];
    TotalConcat(l[..k], [l[k]]);
  }

  /** The walk behind the first timer, taking each distance off the new timer's. */
  method FindPlace(l: seq<Timer>, t: u32, ghost d: nat) returns (k: nat, time: u32)
    requires l != [] && l[0].time <= d < l[0].time + MOD && t == d % MOD
    ensures 1 <= k <= |l| && time == d - Total(l[..k])
    ensures k < |l| ==> time < l[k].time
  {
    time := Sub(t, l[0].time);
    TotalUpTo(l, 0);
    k := 1;
    while k < |l| && l[k].time <= time
      invariant 1 <= k <= |l|
      invariant time == d - Total(l[..k])
    {
      TotalUpTo(l, k);
      time := Sub(time, l[k].time);
      k := k + 1;
    }
  }

  /**
   * The deadline sys_timeout enters behind the first timer: the one asked for, one period earlier if the 32-bit sum
   * loses it; a timer that would be due longer than its delay after all others is due its own and the first one's delay after.
   */
  ghost function EnteredDue(l: seq<Timer>, base: int, elapsed: nat, msecs: u32, behindAll: bool): int
    requires l != []
  {
    var d := if l[0].time > msecs + elapsed - MOD then msecs + elapsed else msecs + elapsed - MOD;
    if behindAll && d - Total(l) > msecs then base + Total(l) + (msecs + l[0].time) % MOD else base + d
  }

  /** `r` is `a` with `x` entered behind the first `k`, in front of alarms that are due later. */
  ghost predicate Entered(a: seq<Alarm>, k: nat, x: Alarm, r: seq<Alarm>) {
    && 1 <= k <= |a| && r == a[..k] + [x] + a[k..]
    && (k < |a| ==> x.due < a[k].due)
  }

  lemma LinkedEntered(l: seq<Timer>, k: nat, x: Timer, base: int)
    requires 1 <= k <= |l|
    requires k < |l| ==> x.time < l[k].time
    ensures Entered(Alarms(l, base), k, Alarm(x.h, x.arg, base + Total(l[..k]) + x.time), Alarms(LinkedAt(l, k, x), base))
  {
    hide Total, LinkedAt, Alarms;
    LinkedAlarms(l, k, x, base);
    AlarmsSplit(l, k, base);
    if k < |l| {
      AlarmsCons(l[k..], base + Total(l[..k]));
    }
  }

  /** Behind the first timer: the new one is linked in where the walk ends. */
  method LinkBehind(l: seq<Timer>, x: Timer, msecs: u32, ghost elapsed: nat, ghost base: int)
    returns (r: seq<Timer>, ghost place: nat)
    requires l != [] && l[0].time <= msecs
    requires elapsed < MOD && x.time == (msecs + elapsed) % MOD
    ensures Alarms(r, base) == Scheduled(Alarms(l, base), Alarm(x.h, x.arg, base + msecs + elapsed))
            <==> Exact(l, elapsed, msecs)
    ensures Entered(Alarms(l, base), place, Alarm(x.h, x.arg, EnteredDue(l, base, elapsed, msecs, place == |l|)), Alarms(r, base))
  {
    hide Alarms, Scheduled, Total, Entered;
    ghost var late := l[0].time > msecs + elapsed - MOD;
    var k, time := FindPlace(l, x.time, if late then msecs + elapsed else msecs + elapsed - MOD);
    AlarmsSplit(l, k, base);
    assert k == |l| ==> l[..k] == l && Total(l[k..]) == 0 by {
      assert l[|l|..] == [];
      NothingLeft(base);
    }
    assert k < |l| ==> Total(l[k..]) >= l[k].time by {
      if k < |l| { TotalUpTo(l, k); AlarmsSplit(l, k + 1, base); }
    }
    if k == |l| && time > msecs {
      time := (msecs + l[0].time) % MOD;
    }
    var y := x.(time := time);
    r, place := LinkedAt(l, k, y), k;
    LinkedEntered(l, k, y, base);
    LinkedIsScheduled(l, k, y, base, msecs + elapsed);
  }

  /** The list with a timer linked in before the first one, which then counts from it, by the delay alone. */
  function LinkedInFront(l: seq<Timer>, x: Timer, msecs: u32): seq<Timer>
    requires l != [] && l[0].time >= msecs
  {
    [x, l[0].(time := l[0].time - msecs)] + l[1..]
  }

  /** The timers behind a new first one move with it. */
  lemma InFrontAlarms(l: seq<Timer>, x: Timer, msecs: u32, base: int)
    requires l != [] && l[0].time >= msecs
    ensures Alarms(LinkedInFront(l, x, msecs), base)
            == [Alarm(x.h, x.arg, base + x.time)] + Alarms(l, base + (x.time - msecs))
  {
    hide Alarms, Total;
    var first, r := l[0].(time := l[0].time - msecs), LinkedInFront(l, x, msecs);
    assert r[1..] == [first] + l[1..] && ([first] + l[1..])[1..] == l[1..];
    AlarmsCons(r, base);
    AlarmsCons([first] + l[1..], base + x.time);
    AlarmsCons(l, base + (x.time - msecs));
  }

  /** So the new one is scheduled exactly when no time has passed since the last check. */
  lemma InFrontIsScheduled(l: seq<Timer>, x: Timer, msecs: u32, elapsed: nat, base: int)
    requires l != [] && l[0].time > msecs
    requires elapsed < MOD && x.time == (msecs + elapsed) % MOD
    ensures Alarms(LinkedInFront(l, x, msecs), base)
            == Scheduled(Alarms(l, base), Alarm(x.h, x.arg, base + msecs + elapsed))
            <==> elapsed == 0
  {
    hide Alarms, Total, LinkedInFront;
    InFrontAlarms(l, x, msecs, base);
    if elapsed == 0 {
      AlarmsCons(l, base);
    } else {
      hide Scheduled;
      var shift := x.time - msecs;
      assert shift == elapsed || shift == elapsed - MOD;
      MovedIsNotScheduled(l, base, shift, Alarm(x.h, x.arg, base + x.time), Alarm(x.h, x.arg, base + msecs + elapsed));
    }
  }

  lemma MovedIsNotScheduled(l: seq<Timer>, base: int, shift: int, x: Alarm, wanted: Alarm)
    requires l != [] && shift != 0
    requires if shift > 0 then x.due == wanted.due else x.due < wanted.due
    ensures [x] + Alarms(l, base + shift) != Scheduled(Alarms(l, base), wanted)
  {
    hide Alarms, Scheduled;
    SumOfScheduled(Alarms(l, base), wanted);
    SumOfMoved(l, base, shift);
    assert ([x] + Alarms(l, base + shift))[1..] == Alarms(l, base + shift);
    SameSign(|l|, shift);
  }

  lemma SameSign(n: nat, d: int)
    requires n > 0
    ensures d > 0 ==> n * d > 0
    ensures d < 0 ==> n * d < 0
  {
  }

  function FirstFor(l: seq<Timer>, h: Handler, arg: Arg): (k: nat)
    ensures k <= |l|
    ensures forall i :: 0 <= i < k ==> !(l[i].h == h && l[i].arg == arg)
    ensures k < |l| ==> l[k].h == h && l[k].arg == arg
  {
    if l == [] || (l[0].h == h && l[0].arg == arg) then 0 else 1 + FirstFor(l[1..], h, arg)
  }

  /** The list without entry k, whose distance the next one takes over. */
  function Unlinked(l: seq<Timer>, k: nat): seq<Timer>
    requires k < |l|
  {
    l[..k] + if k + 1 < |l| then [l[k + 1].(time := (l[k + 1].time + l[k].time) % MOD)] + l[k + 2..] else []
  }

  /** The distances either side of the entry to cancel fit one 32-bit distance. */
  predicate Joinable(l: seq<Timer>, h: Handler, arg: Arg) {
    var k := FirstFor(l, h, arg);
    k + 1 < |l| ==> l[k].time + l[k + 1].time < MOD
  }

  lemma {:induction false} CancelledAt(l: seq<Timer>, k: nat, h: Handler, arg: Arg, base: int)
    requires k == FirstFor(l, h, arg)
    ensures Cancelled(Alarms(l, base), h, arg)
            == Alarms(l[..k], base) + if k < |l| then Alarms(l[k + 1..], base + Total(l[..k]) + l[k].time) else []
  {
    hide Alarms, Total;
    if l == [] {
      NothingLeft(base);
    } else if k == 0 {
      AlarmsCons(l, base);
      NothingLeft(base);
    } else {
      var next, rest := base + l[0].time, l[1..];
      CancelledAt(rest, k - 1, h, arg, next);
      AlarmsCons(l, base);
      AlarmsCons(l[..k], base);
      assert l[..k][1..] == rest[..k - 1];
      assert k < |l| ==> rest[k..] == l[k + 1..];
      var tail := if k < |l| then Alarms(l[k + 1..], base + Total(l[..k]) + l[k].time) else [];
      Associates([Alarm(l[0].h, l[0].arg, next)], Alarms(rest[..k - 1], next), tail);
    }
  }

  /** Unlinking an entry moves no other deadline, exactly when the joined distance fits. */
  lemma UnlinkedAlarms(l: seq<Timer>, h: Handler, arg: Arg, base: int)
    requires FirstFor(l, h, arg) < |l|
    ensures Alarms(Unlinked(l, FirstFor(l, h, arg)), base) == Cancelled(Alarms(l, base), h, arg)
            <==> Joinable(l, h, arg)
  {
    hide Cancelled, Total, FirstFor, Alarms;
    var k := FirstFor(l, h, arg);
    var at := base + Total(l[..k]);
    CancelledAt(l, k, h, arg, base);
    if k + 1 < |l| {
      var joined := l[k + 1].(time := (l[k + 1].time + l[k].time) % MOD);
      var rest := [joined] + l[k + 2..];
      assert Unlinked(l, k) == l[..k] + rest;
      AlarmsConcat(l[..k], rest, base);
      SameFront(Alarms(l[..k], base), Alarms(rest, at), Alarms(l[k + 1..], at + l[k].time));
      JoinedAlarms(l, k, at);
    } else {
      assert Unlinked(l, k) == l[..k] && l[k + 1..] == [];
      NothingLeft(at + l[k].time);
    }
  }

  /** The entry behind the one removed keeps its deadline exactly when the joined distance fits. */
  lemma JoinedAlarms(l: seq<Timer>, k: nat, at: int)
    requires k + 1 < |l|
    ensures Alarms([l[k + 1].(time := (l[k + 1].time + l[k].time) % MOD)] + l[k + 2..], at) == Alarms(l[k + 1..], at + l[k].time)
            <==> l[k].time + l[k + 1].time < MOD
  {
    hide Alarms, Total;
    var rest := [l[k + 1].(time := (l[k + 1].time + l[k].time) % MOD)] + l[k + 2..];
    AlarmsCons(rest, at);
    AlarmsCons(l[k + 1..], at + l[k].time);
    assert rest[1..] == l[k + 2..] == l[k + 1..][1..];
    if l[k].time + l[k + 1].time >= MOD {
      assert Alarms(rest, at)[0].due != Alarms(l[k + 1..], at + l[k].time)[0].due;
    }
  }

  /** What unlinking entry k makes of the deadlines in any case. */
  lemma UnlinkedDue(l: seq<Timer>, k: nat, base: int)
    requires k < |l|
    ensures var lost := if k + 1 < |l| && l[k].time + l[k + 1].time >= MOD then MOD else 0;
            Alarms(Unlinked(l, k), base) == Alarms(l, base)[..k] + Alarms(l[k + 1..], Alarms(l, base)[k].due - lost)
  {
    hide Total, Alarms;
    var at := base + Total(l[..k]);
    AlarmsSplit(l, k, base);
    AlarmsCons(l[k..], at);
    assert Alarms(l, base)[k].due == at + l[k].time;
    if k + 1 < |l| {
      var lost := if l[k].time + l[k + 1].time >= MOD then MOD else 0;
      var rest := [l[k + 1].(time := (l[k + 1].time + l[k].time) % MOD)] + l[k + 2..];
      AlarmsConcat(l[..k], rest, base);
      AlarmsCons(rest, at);
      AlarmsCons(l[k + 1..], at + l[k].time - lost);
      assert rest[1..] == l[k + 2..] == l[k + 1..][1..];
    } else {
      assert Unlinked(l, k) == l[..k] && l[k + 1..] == [];
      NothingLeft(at + l[k].time);
    }
  }

  lemma SameFront(a: seq<Alarm>, b: seq<Alarm>, c: seq<Alarm>)
    ensures a + b == a + c <==> b == c
  {
    assert (a + b)[|a|..] == b && (a + c)[|a|..] == c;
  }

  /** Scheduling puts the alarm behind all that are due no later and in front of all that are due later. */
  lemma {:induction false} ScheduledMeaning(a: seq<Alarm>, x: Alarm) returns (k: nat)
    requires forall i, j :: 0 <= i < j < |a| ==> a[i].due <= a[j].due
    ensures k <= |a| && Scheduled(a, x) == a[..k] + [x] + a[k..]
    ensures forall i :: 0 <= i < k ==> a[i].due <= x.due
    ensures forall i :: k <= i < |a| ==> a[i].due > x.due
  {
    if a == [] || a[0].due > x.due {
      k := 0;
    } else {
      k := ScheduledMeaning(a[1..], x);
      assert a[1..][..k] == a[..k + 1][1..] && a[1..][k..] == a[k + 1..];
      k := k + 1;
    }
  }

  /** A new head counts the time since the last check twice: the timer behind it comes late. */
  lemma HeadInsertionDelays()
    ensures !Exact([Timer(1, 0, 100)], 5, 50)
    ensures Alarms([Timer(2, 0, 55), Timer(1, 0, 50)], 0) == [Alarm(2, 0, 55), Alarm(1, 0, 105)]
    ensures Scheduled(Alarms([Timer(1, 0, 100)], 0), Alarm(2, 0, 55)) == [Alarm(2, 0, 55), Alarm(1, 0, 100)]
  {
    assert [Timer(2, 0, 55), Timer(1, 0, 50)][1..] == [Timer(1, 0, 50)];
  }

  /** The calls that alarms going off make. */
  function Calls(a: seq<Alarm>): seq<(Handler, Arg)> {
    if a == [] then [] else [(a[0].h, a[0].arg)] + Calls(a[1..])
  }

  lemma {:induction false} CallsAppend(a: seq<Alarm>, x: Alarm)
    ensures Calls(a + [x]) == Calls(a) + [(x.h, x.arg)]
  {
    if a != [] {
      CallsAppend(a[1..], x);
      assert (a + [x])[1..] == a[1..] + [x];
    }
  }

  /** Alarms that went off in the order of their deadlines, none due after `last`. */
  ghost predicate InOrder(a: seq<Alarm>, last: int) {
    && (forall i :: 0 <= i < |a| ==> a[i].due <= last)
    && (forall i, j :: 0 <= i < j < |a| ==> a[i].due <= a[j].due)
  }

  lemma OneMore(a: seq<Alarm>, last: int, x: Alarm)
    requires InOrder(a, last) && last <= x.due
    ensures InOrder(a + [x], x.due)
  {
  }

  lemma StillInOrder(a: seq<Alarm>, last: int, later: int)
    requires InOrder(a, last) && last <= later
    ensures InOrder(a, later) && forall x :: x in a ==> x.due <= later
  {
  }

  lemma NothingFired(last: int)
    ensures Calls([]) == [] && InOrder([], last)
  {
  }

  /** What a handler does to the list. */
  datatype Action = Set(msecs: u32, h: Handler, arg: Arg, room: bool) | Cancel(h: Handler, arg: Arg)

  /** The list and the time its first entry counts from. */
  datatype Snapshot = Snapshot(timers: seq<Timer>, base: int) {
    ghost function Pending(): seq<Alarm> { Alarms(timers, base) }
  }

  ghost predicate EnteredAt(s: Snapshot, t: Snapshot, msecs: u32, h: Handler, arg: Arg, elapsed: nat, k: nat)
    requires s.timers != []
  {
    Entered(s.Pending(), k, Alarm(h, arg, EnteredDue(s.timers, s.base, elapsed, msecs, k == |s.timers|)), t.Pending())
  }

  /**
   * What an action at `clock` does to the alarms. A new one in front of the first moves all others by the time since
   * the last check, or by a period less; behind the first it moves none. Cancelling takes one out, and moves those
   * behind it a period back if the joined distance does not fit.
   */
  ghost predicate Done(a: Action, s: Snapshot, t: Snapshot, clock: int) {
    match a
    case Set(msecs, h, arg, room) =>
      if !room then t == s
      else if s.timers == [] then t.base == clock && t.Pending() == [Alarm(h, arg, clock + msecs)]
      else
        var elapsed := clock - s.base;
        && 0 <= elapsed < MOD && t.base == s.base
        && if s.timers[0].time > msecs then
             var shift := if msecs + elapsed < MOD then elapsed else elapsed - MOD;
             t.Pending() == [Alarm(h, arg, s.base + msecs + shift)] + Alarms(s.timers, s.base + shift)
           else
             exists k: nat :: EnteredAt(s, t, msecs, h, arg, elapsed, k)
    case Cancel(h, arg) =>
      var k := FirstFor(s.timers, h, arg);
      if k == |s.timers| then t == s
      else
        var lost := if k + 1 < |s.timers| && s.timers[k].time + s.timers[k + 1].time >= MOD then MOD else 0;
        t.base == s.base && t.Pending() == s.Pending()[..k] + Alarms(s.timers[k + 1..], s.Pending()[k].due - lost)
  }

  /** One action after the other: `trace` is where each left the list. */
  ghost predicate AllDone(acts: seq<Action>, trace: seq<Snapshot>, clock: int) {
    |trace| == |acts| + 1 && forall i :: 0 <= i < |acts| ==> Done(acts[i], trace[i], trace[i + 1], clock)
  }

  lemma DoneNext(acts: seq<Action>, i: nat, trace: seq<Snapshot>, t: Snapshot, clock: int)
    requires i < |acts| && AllDone(acts[..i], trace, clock) && Done(acts[i], trace[i], t, clock)
    ensures AllDone(acts[..i + 1], trace + [t], clock)
  {
    hide Done;
    var next := trace + [t];
    forall j | 0 <= j < i + 1
      ensures Done(acts[..i + 1][j], next[j], next[j + 1], clock)
    {
      assert acts[..i + 1][j] == if j < i then acts[..i][j] else acts[i];
    }
  }

  /** Unlinking the first match is cancelling, and with room in the joined distance it is nothing else. */
  lemma CancelDone(l: seq<Timer>, h: Handler, arg: Arg, base: int)
    ensures var k := FirstFor(l, h, arg);
            var r := if k < |l| then Unlinked(l, k) else l;
            && Done(Cancel(h, arg), Snapshot(l, base), Snapshot(r, base), base)
            && (Alarms(r, base) == Cancelled(Alarms(l, base), h, arg) <==> Joinable(l, h, arg))
  {
    hide Alarms, Cancelled, Total, Unlinked;
    var k := FirstFor(l, h, arg);
    if k < |l| {
      UnlinkedAlarms(l, h, arg, base);
      UnlinkedDue(l, k, base);
    } else {
      CancelledAt(l, k, h, arg, base);
      assert l[..k] == l;
    }
  }

  lemma NothingDone(acts: seq<Action>, s: Snapshot, clock: int)
    ensures AllDone(acts[..0], [s], clock) && SetCount(acts[..0]) == 0 == CancelCount(acts[..0])
  {
  }

  lemma CancelAnyTime(h: Handler, arg: Arg, s: Snapshot, t: Snapshot, clock: int, clock': int)
    requires Done(Cancel(h, arg), s, t, clock)
    ensures Done(Cancel(h, arg), s, t, clock')
  {
  }

  /** How many timers the actions set and how many they may cancel. */
  ghost function SetCount(acts: seq<Action>): nat {
    if acts == [] then 0 else SetCount(acts[..|acts| - 1]) + if acts[|acts| - 1].Set? && acts[|acts| - 1].room then 1 else 0
  }

  ghost function CancelCount(acts: seq<Action>): nat {
    if acts == [] then 0 else CancelCount(acts[..|acts| - 1]) + if acts[|acts| - 1].Cancel? then 1 else 0
  }

  lemma CountNext(acts: seq<Action>, i: nat)
    requires i < |acts|
    ensures SetCount(acts[..i + 1]) == SetCount(acts[..i]) + if acts[i].Set? && acts[i].room then 1 else 0
    ensures CancelCount(acts[..i + 1]) == CancelCount(acts[..i]) + if acts[i].Cancel? then 1 else 0
  {
    assert acts[..i + 1][..i] == acts[..i];
  }

  /** The same for the first `n` handlers. */
  ghost function SetsBy(script: seq<seq<Action>>, n: nat): nat {
    if n == 0 then 0 else SetsBy(script, n - 1) + if n <= |script| then SetCount(script[n - 1]) else 0
  }

  ghost function CancelsBy(script: seq<seq<Action>>, n: nat): nat {
    if n == 0 then 0 else CancelsBy(script, n - 1) + if n <= |script| then CancelCount(script[n - 1]) else 0
  }

  /** The number of timers that are left or went off is that of those set, less some of those cancelled. */
  ghost predicate Balanced(before: nat, after: nat, script: seq<seq<Action>>, n: nat) {
    before + SetsBy(script, n) - CancelsBy(script, n) <= after <= before + SetsBy(script, n)
  }

  lemma BalancedNext(before: nat, after: nat, script: seq<seq<Action>>, n: nat, after': nat)
    requires Balanced(before, after, script, n)
    requires if n < |script| then after + SetCount(script[n]) - CancelCount(script[n]) <= after' <= after + SetCount(script[n])
             else after' == after
    ensures Balanced(before, after', script, n + 1)
  {
  }

  lemma Balance(before: nat, script: seq<seq<Action>>, fired: seq<Alarm>, early: seq<Alarm>, behind: seq<Alarm>, next: seq<Timer>)
    requires Balanced(before, |fired| + |behind|, script, |fired|) && |behind| == |early| + |next|
    ensures before + SetsBy(script, |fired|) - CancelsBy(script, |fired|) <= |fired| + |early| + |next| <= before + SetsBy(script, |fired|)
  {
  }

  lemma BalancedAtFirst(before: nat, script: seq<seq<Action>>)
    ensures Balanced(before, before, script, 0)
  {
  }

  /** Every action counts one timer more, one less, or none. */
  lemma DoneCounts(a: Action, s: Snapshot, t: Snapshot, clock: int)
    requires Done(a, s, t, clock)
    ensures a.Set? ==> |t.timers| == |s.timers| + if a.room then 1 else 0
    ensures a.Cancel? ==> |t.timers| == |s.timers| - if FirstFor(s.timers, a.h, a.arg) < |s.timers| then 1 else 0
  {
    hide Alarms, EnteredDue;
    assert |t.timers| == |t.Pending()| && |s.timers| == |s.Pending()|;
    if a.Set? && a.room && s.timers != [] && s.timers[0].time <= a.msecs {
      var k: nat :| EnteredAt(s, t, a.msecs, a.h, a.arg, clock - s.base, k);
      var p := s.Pending();
      assert |p[..k]| + |p[k..]| == |p|;
    }
  }

  lemma AllLater(l: seq<Timer>, base: int, clock: int)
    requires l != [] ==> clock < base + l[0].time
    ensures forall a :: a in Alarms(l, base) ==> a.due > clock
  {
    if l != [] {
      AlarmsSorted(l[1..], base + l[0].time);
    }
  }

  lemma WireAdd(x: int, d: int)
    ensures Wire(x + d) == (Wire(x) + d) % MOD
  {
    assert x + d == Wire(x) + d + MOD * (x / MOD);
    ModOfSum(Wire(x) + d, x / MOD);
  }

  class TimerList {
    var next: seq<Timer>
    var lastTime: u32
    /** timeouts_last_time on the unbounded clock */
    ghost var last: int

    ghost predicate Valid()
      reads this
    {
      lastTime == Wire(last)
    }

    /** The alarms set and neither cancelled nor gone off. */
    ghost function Pending(): seq<Alarm>
      reads this
    {
      Alarms(next, last)
    }

    ghost function Now(): Snapshot
      reads this
    {
      Snapshot(next, last)
    }

    /** `now` is what sys_now() answers at `clock`, and the list was looked after within the clock's period. */
    ghost predicate Reads(now: u32, clock: int)
      reads this
    {
      now == Wire(clock) && 0 <= clock - last < MOD
    }

    /** sys_timeouts_init */
    constructor (now: u32, ghost clock: int)
      requires now == Wire(clock)
      ensures Valid() && Reads(now, clock) && next == [] && Pending() == []
      ensures last == clock
    {
      next, lastTime := [], now;
      last := clock;
    }

    method Elapsed(now: u32, ghost clock: int) returns (diff: u32)
      requires Valid() && Reads(now, clock)
      ensures diff == clock - last
    {
      diff := Sub(now, lastTime);
      WireSub(clock, last);
    }

    /** sys_timeout; `room`: the pool of timeouts has one left */
    method Timeout(msecs: u32, h: Handler, arg: Arg, room: bool, now: u32, ghost clock: int)
      requires Valid() && Reads(now, clock)
      modifies this
      ensures Valid() && Reads(now, clock) && last == (if room && old(next) == [] then clock else old(last))
      ensures !room ==> Pending() == old(Pending())
      ensures room ==>
        (Pending() == Scheduled(old(Pending()), Alarm(h, arg, clock + msecs))
         <==> Exact(old(next), clock - old(last), msecs))
      ensures Done(Set(msecs, h, arg, room), old(Now()), Now(), clock)
    {
      hide Alarms, Scheduled, Total, Entered, EnteredDue;
      if !room {
        return;
      }
      if next == [] {
        lastTime := now;
        last := clock;
        next := [Timer(h, arg, msecs)];
        AlarmsOfPair(next[0], next[0], clock);
        NothingLeft(old(last));
        ScheduledFirst([], Alarm(h, arg, clock + msecs));
        return;
      }
      var diff := Elapsed(now, clock);
      var x := Timer(h, arg, (msecs + diff) % MOD);
      if next[0].time > msecs {
        InFrontIsScheduled(next, x, msecs, diff, last);
        InFrontAlarms(next, x, msecs, last);
        next := LinkedInFront(next, x, msecs);
      } else {
        ghost var k;
        next, k := LinkBehind(next, x, msecs, diff, last);
        assert EnteredAt(old(Now()), Now(), msecs, h, arg, diff, k);
      }
    }

    /** The walk of sys_untimeout to the first matching entry. */
    method Find(h: Handler, arg: Arg) returns (k: nat)
      ensures k == FirstFor(next, h, arg)
    {
      k := 0;
      while k < |next| && !(next[k].h == h && next[k].arg == arg)
        invariant 0 <= k <= |next|
        invariant FirstFor(next, h, arg) == k + FirstFor(next[k..], h, arg)
      {
        assert next[k..][1..] == next[k + 1..];
        k := k + 1;
      }
    }

    /** sys_untimeout */
    method Untimeout(h: Handler, arg: Arg)
      requires Valid()
      modifies this`next
      ensures Valid()
      ensures var k := FirstFor(old(next), h, arg); next == if k < |old(next)| then Unlinked(old(next), k) else old(next)
      ensures Pending() == Cancelled(old(Pending()), h, arg) <==> Joinable(old(next), h, arg)
      ensures Done(Cancel(h, arg), old(Now()), Now(), last)
    {
      hide Alarms, Cancelled, Total, Unlinked, FirstFor, Done, Joinable;
      var k := Find(h, arg);
      CancelDone(next, h, arg, last);
      if k < |next| {
        next := Unlinked(next, k);
      }
    }

    /** The first timer goes off, with `diff` ms left of the time to account for. */
    method Expire(diff: u32) returns (call: (Handler, Arg), left: u32)
      requires Valid() && next != [] && next[0].time <= diff
      modifies this
      ensures Valid() && next == old(next)[1..] && last == old(last) + old(next)[0].time
      ensures call == (old(next)[0].h, old(next)[0].arg) && left == diff - old(next)[0].time
    {
      WireAdd(last, next[0].time);
      call, left := (next[0].h, next[0].arg), diff - next[0].time;
      lastTime := (lastTime + next[0].time) % MOD;
      last := last + next[0].time;
      next := next[1..];
    }

    /** A handler sets and cancels timeouts. `restarted`: it set one when there was none. */
    method Handle(acts: seq<Action>, now: u32, ghost clock: int) returns (restarted: bool, ghost trace: seq<Snapshot>)
      requires Valid() && Reads(now, clock)
      modifies this
      ensures Valid() && Reads(now, clock) && last == (if restarted then clock else old(last))
      ensures AllDone(acts, trace, clock) && trace[0] == old(Now()) && trace[|acts|] == Now()
      ensures |old(next)| + SetCount(acts) - CancelCount(acts) <= |next| <= |old(next)| + SetCount(acts)
      ensures acts == [] ==> !restarted && next == old(next)
    {
      hide Alarms, Scheduled, Cancelled, Unlinked, FirstFor, Exact, Joinable, Wire, Done, AllDone, SetCount, CancelCount;
      restarted, trace := false, [Now()];
      NothingDone(acts, Now(), clock);
      for i := 0 to |acts|
        invariant Valid() && Reads(now, clock) && last == (if restarted then clock else old(last))
        invariant AllDone(acts[..i], trace, clock) && |trace| == i + 1 && trace[0] == old(Now()) && trace[i] == Now()
        invariant |old(next)| + SetCount(acts[..i]) - CancelCount(acts[..i]) <= |next| <= |old(next)| + SetCount(acts[..i])
        invariant acts == [] ==> !restarted && next == old(next)
      {
        ghost var before := Now();
        match acts[i] {
          case Set(msecs, h, arg, room) =>
            restarted := restarted || (next == [] && room);
            Timeout(msecs, h, arg, room, now, clock);
          case Cancel(h, arg) =>
            Untimeout(h, arg);
            CancelAnyTime(h, arg, before, Now(), last, clock);
        }
        DoneCounts(acts[i], before, Now(), clock);
        CountNext(acts, i);
        DoneNext(acts, i, trace, Now(), clock);
        trace := trace + [Now()];
      }
      assert acts[..|acts|] == acts;
    }

    /** One timer goes off, and is noted down. */
    method Fire(diff: u32, calls: seq<(Handler, Arg)>, ghost fired: seq<Alarm>)
      returns (left: u32, calls': seq<(Handler, Arg)>, ghost fired': seq<Alarm>)
      requires Valid() && next != [] && next[0].time <= diff
      requires calls == Calls(fired) && InOrder(fired, last)
      modifies this
      ensures Valid() && left == diff - old(next)[0].time && last == old(last) + old(next)[0].time && |next| == |old(next)| - 1
      ensures old(Pending()) == [Alarm(old(next)[0].h, old(next)[0].arg, last)] + Pending()
      ensures fired' == fired + [Alarm(old(next)[0].h, old(next)[0].arg, last)]
      ensures calls' == Calls(fired') && InOrder(fired', last)
    {
      hide Alarms, Total, Calls, Wire, InOrder;
      AlarmsCons(next, last);
      ghost var x := Alarm(next[0].h, next[0].arg, last + next[0].time);
      CallsAppend(fired, x);
      OneMore(fired, last, x);
      var call;
      call, left := Expire(diff);
      calls', fired' := calls + [call], fired + [x];
    }

    /** The loop of sys_check_timeouts with handlers that leave the list alone: all that is due within `diff` ms of the base. */
    method FireAll(diff: u32, calls: seq<(Handler, Arg)>, ghost fired: seq<Alarm>)
      returns (calls': seq<(Handler, Arg)>, ghost more: seq<Alarm>)
      requires Valid() && calls == Calls(fired) && InOrder(fired, last)
      modifies this
      ensures Valid() && old(last) <= last <= old(last) + diff
      ensures old(Pending()) == more + Pending() && calls' == Calls(fired + more) && InOrder(fired + more, last)
      ensures forall a :: a in more ==> old(last) <= a.due <= old(last) + diff
      ensures forall a :: a in Pending() ==> a.due > old(last) + diff
    {
      hide Alarms, Calls, InOrder;
      var left: u32 := diff;
      calls', more := calls, [];
      assert fired + [] == fired && [] + Pending() == Pending();
      while next != [] && next[0].time <= left
        invariant Valid() && last + left == old(last) + diff && old(last) <= last
        invariant old(Pending()) == more + Pending() && calls' == Calls(fired + more) && InOrder(fired + more, last)
        invariant forall a :: a in more ==> old(last) <= a.due <= old(last) + diff
        decreases |next|
      {
        ghost var x, rest := Alarm(next[0].h, next[0].arg, last + next[0].time), Pending();
        ghost var all;
        left, calls', all := Fire(left, calls', fired + more);
        Associates(more, [x], Pending());
        Associates(fired, more, [x]);
        more := more + [x];
      }
      AllLater(next, last, old(last) + diff);
    }

    /** One turn of the loop: the first timer goes off, and its handler, number `i`, does what the script says. */
    method FireAndHandle(script: seq<seq<Action>>, i: nat, diff: u32, calls: seq<(Handler, Arg)>, now: u32,
                         ghost fired: seq<Alarm>, ghost clock: int)
      returns (left: u32, calls': seq<(Handler, Arg)>, restarted: bool, ghost fired': seq<Alarm>)
      requires Valid() && Reads(now, clock) && next != [] && next[0].time <= diff == clock - last
      requires calls == Calls(fired) && InOrder(fired, last)
      modifies this
      ensures Valid() && Reads(now, clock) && left == diff - old(next)[0].time
      ensures if restarted then last == clock else left == clock - last
      ensures calls' == Calls(fired') && InOrder(fired', last) && |fired'| == |fired| + 1
      ensures i >= |script| ==> !restarted && |next| == |old(next)| - 1 && fired + old(Pending()) == fired' + Pending()
      ensures i < |script| ==>
                var sets := |old(next)| - 1 + SetCount(script[i]);
                sets - CancelCount(script[i]) <= |next| <= sets
    {
      hide Alarms, Total, Calls, Wire, InOrder, AllDone, SetCount, CancelCount;
      ghost var x := Alarm(next[0].h, next[0].arg, last + next[0].time);
      left, calls', fired' := Fire(diff, calls, fired);
      Associates(fired, [x], Pending());
      restarted := false;
      if i < |script| {
        ghost var base := last;
        ghost var trace;
        restarted, trace := Handle(script[i], now, clock);
        StillInOrder(fired', base, last);
      }
    }

    /**
     * sys_check_timeouts; the i-th handler called does script[i], later ones nothing. It is `punctual` unless a handler
     * restarts the empty list while the check is late. From then on the time by which it was late counts twice: of
     * the list the handler leaves behind, `behind`, all that is due that much later goes off at once, as `early`. The
     * handlers of those leave the list alone.
     */
    method Check(script: seq<seq<Action>>, now: u32, ghost clock: int)
      returns (calls: seq<(Handler, Arg)>, punctual: bool, late: u32,
               ghost fired: seq<Alarm>, ghost behind: seq<Alarm>, ghost early: seq<Alarm>)
      requires Valid() && Reads(now, clock)
      modifies this
      ensures Valid() && calls == Calls(fired + early) && InOrder(fired + early, last)
      ensures forall a :: a in fired ==> a.due <= clock
      ensures behind == early + Pending()
      ensures punctual ==> early == [] && Reads(now, clock) && forall a :: a in Pending() ==> a.due > clock
      ensures !punctual ==> late > 0 && forall a :: a in early ==> clock <= a.due <= clock + late
      ensures !punctual ==> forall a :: a in Pending() ==> a.due > clock + late
      ensures script == [] ==> punctual && old(Pending()) == fired + Pending()
      ensures var after := |fired| + |early| + |next|;
              && after <= |old(next)| + SetsBy(script, |fired|)
              && after >= |old(next)| + SetsBy(script, |fired|) - CancelsBy(script, |fired|)
    {
      hide Alarms, Total, Calls, Wire, InOrder, Balanced, SetCount, CancelCount, SetsBy, CancelsBy;
      BalancedAtFirst(|next|, script);
      calls, fired, early, punctual, late := [], [], [], true, 0;
      ghost var start := Pending();
      NothingFired(last);
      var left: u32 := 0;
      if next != [] {
        left := Elapsed(now, clock);
      }
      var i := 0;
      while next != [] && next[0].time <= left
        invariant Valid() && Reads(now, clock) && (next != [] ==> left == clock - last)
        invariant script == [] ==> start == fired + Pending()
        invariant calls == Calls(fired) && InOrder(fired, last)
        invariant i == |fired| && Balanced(|old(next)|, i + |next|, script, i)
        decreases Max(0, |script| - i), |next|
      {
        ghost var n := |next| - 1;
        var restarted;
        left, calls, restarted, fired := FireAndHandle(script, i, left, calls, now, fired, clock);
        BalancedNext(|old(next)|, i + 1 + n, script, i, i + 1 + |next|);
        if restarted && left > 0 {
          StillInOrder(fired, last, clock);
          punctual, late, behind := false, left, Pending();
          calls, early := FireAll(left, calls, fired);
          Balance(|old(next)|, script, fired, early, behind, next);
          return;
        }
        i := i + 1;
      }
      behind := Pending();
      assert fired + [] == fired && [] + behind == behind;
      Balance(|old(next)|, script, fired, early, behind, next);
      StillInOrder(fired, last, clock);
      AllLater(next, last, clock);
    }

    /** sys_timeouts_sleeptime */
    method SleepTime(now: u32, ghost clock: int) returns (r: u32)
      requires Valid() && Reads(now, clock)
      ensures Pending() == [] ==> r == 0xFFFF_FFFF
      ensures Pending() != [] ==> r == Max(0, Pending()[0].due - clock)
    {
      if next == [] {
        return 0xFFFF_FFFF;
      }
      var diff := Elapsed(now, clock);
      r := if diff > next[0].time then 0 else next[0].time - diff;
    }
  }

  /** The alarms of a list determine it. */
  lemma {:induction false} AlarmsDetermine(l: seq<Timer>, l': seq<Timer>, base: int)
    requires Alarms(l, base) == Alarms(l', base)
    ensures l == l'
  {
    AlarmsSorted(l, base);
    AlarmsSorted(l', base);
    if l != [] {
      assert Alarms(l, base)[1..] == Alarms(l[1..], base + l[0].time);
      assert Alarms(l', base)[1..] == Alarms(l'[1..], base + l'[0].time);
      assert Alarms(l, base)[0] == Alarms(l', base)[0];
      AlarmsDetermine(l[1..], l'[1..], base + l[0].time);
      assert l == [l[0]] + l[1..] && l' == [l'[0]] + l'[1..];
    }
  }

  lemma AlarmsOfPair(x: Timer, y: Timer, base: int)
    ensures Alarms([x], base) == [Alarm(x.h, x.arg, base + x.time)]
    ensures Alarms([x, y], base) == [Alarm(x.h, x.arg, base + x.time), Alarm(y.h, y.arg, base + x.time + y.time)]
  {
    AlarmsCons([x, y], base);
    assert [x, y][1..] == [y] && [x][1..] == [] == [y][1..];
  }

  lemma ScheduledBehindOne(a: Alarm, x: Alarm)
    requires a.due <= x.due
    ensures Scheduled([], x) == [x] && Scheduled([a], x) == [a, x]
  {
  }

  lemma SecondOfTwo(x: Timer, y: Timer)
    ensures FirstFor([x, y], x.h, x.arg) == 0 && Unlinked([x, y], 0) == [y.(time := (y.time + x.time) % MOD)]
  {
  }

  /**
   * Two timeouts of the longest delay, set 10 ms apart, are exact. Cancelling the first joins two distances that do
   * not fit 32 bits: the second, due at 2^32 + 9, is due at 9 from then on.
   */
  method CancellingWraps() returns (list: TimerList, ghost before: seq<Alarm>)
    ensures before == [Alarm(1, 0, MOD - 1), Alarm(2, 0, MOD + 9)]
    ensures fresh(list) && list.Valid() && list.Reads(10, 10) && list.Pending() == [Alarm(2, 0, 9)]
  {
    hide Alarms, Scheduled, Total, Cancelled, Unlinked, FirstFor;
    var x, y := Timer(1, 0, MOD - 1), Timer(2, 0, 10);
    list := new TimerList(0, 0);
    list.Timeout(MOD - 1, 1, 0, true, 0, 0);
    ScheduledBehindOne(Alarm(1, 0, MOD - 1), Alarm(1, 0, MOD - 1));
    AlarmsOfPair(x, y, 0);
    AlarmsDetermine(list.next, [x], 0);
    AlarmsCons([x], 0);
    list.Timeout(MOD - 1, 2, 0, true, 10, 10);
    ScheduledBehindOne(Alarm(1, 0, MOD - 1), Alarm(2, 0, MOD + 9));
    AlarmsDetermine(list.next, [x, y], 0);
    before := list.Pending();
    SecondOfTwo(x, y);
    list.Untimeout(1, 0);
    AlarmsOfPair(Timer(2, 0, 9), y, 0);
  }

  lemma OnlyTimer(l: seq<Timer>, base: int, h: Handler, arg: Arg, msecs: u32)
    requires Alarms(l, base) == Scheduled([], Alarm(h, arg, base + msecs))
    ensures l == [Timer(h, arg, msecs)]
  {
    AlarmsOfPair(Timer(h, arg, msecs), Timer(h, arg, msecs), base);
    AlarmsDetermine(l, [Timer(h, arg, msecs)], base);
  }

  /**
   * The handler of the only timer sets it again. The new delay counts from now, but the time by which the check is late
   * is still to be accounted for: with a delay up to that, it goes off again in the same check, before it is due.
   */
  method SetAgain(list: TimerList, msecs: u32, now: u32, ghost clock: int) returns (again: bool, ghost due: int)
    requires list.Valid() && list.Reads(now, clock) && |list.next| == 1 && list.next[0].time <= clock - list.last
    modifies list
    ensures due == clock + msecs
    ensures again <==> msecs <= clock - old(list.last + list.next[0].time)
    ensures list.Valid() && if again then list.next == [] && list.last == due
                            else list.Pending() == [Alarm(old(list.next[0].h), old(list.next[0].arg), due)]
  {
    hide Alarms, Scheduled, Cancelled, Unlinked, FirstFor;
    var diff := list.Elapsed(now, clock);
    var call, left := list.Expire(diff);
    NothingLeft(list.last);
    list.Timeout(msecs, call.0, call.1, true, now, clock);
    due := clock + msecs;
    ScheduledBehindOne(Alarm(call.0, call.1, due), Alarm(call.0, call.1, due));
    OnlyTimer(list.next, clock, call.0, call.1, msecs);
    again := list.next[0].time <= left;
    if again {
      var _, _ := list.Expire(left);
    }
  }
}
