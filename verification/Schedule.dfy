/** The dynamic allow/deny cycle of the daemon. */
module Schedule {

  datatype Status = Status(filter: bool, denyTime: int, allowTime: int, matchTime: bool,
                           remainTime: int, usedTime: int, periodBlocked: bool)

  /** `af_init_time_status` */
  const INITIAL := Status(false, 0, 0, false, 0, 0, false)

  /** Segment bounds are minutes of the day. */
  datatype Config = Config(mode: int, days: set<nat>, start: int, end: int, allow: int, deny: int)

  datatype Clock = Clock(weekday: nat, minutes: int)

  predicate InWindow(c: Config, now: Clock) {
    now.weekday in c.days && c.start <= now.minutes <= c.end
  }

  function Max(a: int, b: int): int {
    if a >= b then a else b
  }

  /** How many updates the cycle allows before it denies; zero and negative settings act as one. */
  function AllowTicks(c: Config): int {
    Max(1, c.allow)
  }

  function DenyTicks(c: Config): int {
    Max(1, c.deny)
  }

  function Period(c: Config): int {
    AllowTicks(c) + DenyTicks(c)
  }

  /** What the cycle looks like `n` updates after it started: position `n` modulo the period,
      first the allowed ticks, then the denied ones. */
  function CycleAt(c: Config, n: nat): Status {
    var r := n % Period(c);
    Status(r >= AllowTicks(c), if r >= AllowTicks(c) then r - AllowTicks(c) else 0,
           if r >= AllowTicks(c) then 0 else r, n > 0, 0, 0, false)
  }

  /** Updates since the clock was last seen outside the window. */
  function SinceOutside(c: Config, seen: seq<Clock>): nat {
    if seen == [] then 0
    else if seen[|seen| - 1].weekday !in c.days then 0
    else if seen[|seen| - 1].minutes < c.start || c.end < seen[|seen| - 1].minutes then 0
    else 1 + SinceOutside(c, seen[..|seen| - 1])
  }

  lemma NextPosition(n: nat, p: int)
    requires p > 0
    ensures (n + 1) % p == if n % p + 1 == p then 0 else n % p + 1
  {
    var q := n / p;
    assert n == q * p + n % p;
    if n % p + 1 == p {
      assert n + 1 == (q + 1) * p;
      MultipleRest(q + 1, p, 0);
    } else {
      MultipleRest(q, p, n % p + 1);
    }
  }

  lemma {:induction false} MultipleRest(q: nat, p: int, r: int)
    requires p > 0 && 0 <= r < p
    ensures (q * p + r) % p == r && (q * p + r) / p == q
    decreases q
  {
    if q > 0 {
      MultipleRest(q - 1, p, r);
      assert q * p + r == (q - 1) * p + r + p;
      AddPeriod((q - 1) * p + r, p);
    }
  }

  /** A multiple of `p` strictly between `-p` and `p` is zero. */
  lemma MultiplesAreFar(d: int, p: int)
    requires p > 0
    ensures d >= 1 ==> d * p >= p
    ensures d <= -1 ==> d * p <= -p
  {
  }

  lemma AddPeriod(n: int, p: int)
    requires p > 0
    ensures (n + p) % p == n % p && (n + p) / p == n / p + 1
  {
    var q, q', r, r' := n / p, (n + p) / p, n % p, (n + p) % p;
    assert n == q * p + r && n + p == q' * p + r';
    assert (q' - q - 1) * p == q' * p - q * p - p;
    MultiplesAreFar(q' - q - 1, p);
  }

  // ----- One update and whole runs -----

  function Step(c: Config, s: Status, now: Clock): Status {
    if c.mode != 1 then s
    else if !InWindow(c, now) then INITIAL
    else if s.filter then
      if s.denyTime + 1 >= c.deny then s.(matchTime := true, filter := false, denyTime := 0)
      else s.(matchTime := true, denyTime := s.denyTime + 1)
    else
      if s.allowTime + 1 >= c.allow then s.(matchTime := true, filter := true, allowTime := 0)
      else s.(matchTime := true, allowTime := s.allowTime + 1)
  }

  function After(c: Config, seen: seq<Clock>): Status {
    if seen == [] then INITIAL else Step(c, After(c, seen[..|seen| - 1]), seen[|seen| - 1])
  }

  lemma StepAdvances(c: Config, n: nat, now: Clock)
    requires c.mode == 1 && InWindow(c, now)
    ensures Step(c, CycleAt(c, n), now) == CycleAt(c, n + 1)
  {
    NextPosition(n, Period(c));
  }

  /** Over every run of clock readings the state is the one that many updates into a fresh
      cycle as passed since the clock was last seen outside the window. */
  lemma {:induction false} CycleOverRuns(c: Config, seen: seq<Clock>)
    requires c.mode == 1
    ensures After(c, seen) == CycleAt(c, SinceOutside(c, seen))
    decreases |seen|
  {
    if seen != [] {
      var front := seen[..|seen| - 1];
      CycleOverRuns(c, front);
      if InWindow(c, seen[|seen| - 1]) {
        StepAdvances(c, SinceOutside(c, front), seen[|seen| - 1]);
      }
    }
  }

  class Daemon {
    var status: Status

    constructor ()
      ensures status == INITIAL
    {
      status := INITIAL;
    }

    /** `update_dynamic_used_time` */
    method Update(c: Config, now: Clock)
      modifies this
      ensures status == Step(c, old(status), now)
    {
      if c.mode != 1 {
        return;
      }
      if now.weekday !in c.days {
        status := INITIAL;
        return;
      }
      if !(now.minutes >= c.start && now.minutes <= c.end) {
        status := INITIAL;
        return;
      }
      status := status.(matchTime := true);
      if status.filter {
        status := status.(denyTime := status.denyTime + 1);
        if status.denyTime >= c.deny {
          status := status.(filter := false, denyTime := 0);
        }
      } else {
        status := status.(allowTime := status.allowTime + 1);
        if status.allowTime >= c.allow {
          status := status.(filter := true, allowTime := 0);
        }
      }
    }
  }

  // ----- Fairness of the cycle -----

  function Filtering(c: Config, from: nat, n: nat): nat
    decreases n
  {
    if n == 0 then 0 else (if CycleAt(c, from).filter then 1 else 0) + Filtering(c, from + 1, n - 1)
  }

  lemma {:induction false} FilteringSplits(c: Config, from: nat, m: nat, n: nat)
    ensures Filtering(c, from, m + n) == Filtering(c, from, m) + Filtering(c, from + m, n)
    decreases m
  {
    if m > 0 {
      FilteringSplits(c, from + 1, m - 1, n);
    }
  }

  /** The states from position `r` to the end of a cycle. */
  lemma {:induction false} FilteringToEnd(c: Config, q: nat, r: nat)
    requires r <= Period(c)
    ensures Filtering(c, q * Period(c) + r, Period(c) - r) == if r <= AllowTicks(c) then DenyTicks(c) else Period(c) - r
    decreases Period(c) - r
  {
    if r < Period(c) {
      MultipleRest(q, Period(c), r);
      FilteringToEnd(c, q, r + 1);
    }
  }

  /** Any whole period, wherever it starts, holds exactly the denied ticks. */
  lemma {:induction false} OnePeriod(c: Config, from: nat)
    ensures Filtering(c, from, Period(c)) == DenyTicks(c)
    decreases from
  {
    if from == 0 {
      FilteringToEnd(c, 0, 0);
    } else {
      OnePeriod(c, from - 1);
      FilteringSplits(c, from - 1, 1, Period(c));
      FilteringSplits(c, from - 1, Period(c), 1);
      AddPeriod(from - 1, Period(c));
      assert Filtering(c, from - 1, 1) == Filtering(c, from - 1 + Period(c), 1) by {
        assert Filtering(c, from, 0) == 0 && Filtering(c, from + Period(c), 0) == 0;
      }
    }
  }

  /** `k` full cycles filter in exactly `k` times the denied ticks, from any position on. */
  lemma {:induction false} FullCycles(c: Config, from: nat, k: nat)
    ensures k * Period(c) >= 0
    ensures Filtering(c, from, k * Period(c)) == k * DenyTicks(c)
    decreases k
  {
    if k > 0 {
      FullCycles(c, from + Period(c), k - 1);
      OnePeriod(c, from);
      assert k * Period(c) == Period(c) + (k - 1) * Period(c);
      FilteringSplits(c, from, Period(c), (k - 1) * Period(c));
      assert k * DenyTicks(c) == DenyTicks(c) + (k - 1) * DenyTicks(c);
    }
  }
}
