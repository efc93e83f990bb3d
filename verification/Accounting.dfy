/** Per-client accounting: the kernel samples counters every two seconds, reports every
    30 ticks, and the daemon adds the reports up. */
module Accounting {
  import opened Types

  const REPORT_TICKS := 30
  const IDLE_TICKS := 30
  const TWO32 := 0x1_0000_0000
  const TWO41 := 0x200_0000_0000
  const TWO63 := 0x8000_0000_0000_0000
  const TWO64 := 0x1_0000_0000_0000_0000

  // ----- One tick of one client -----

  /** Bytes of one direction: the latest sample and what has come in since the last report. */
  datatype Meter = Meter(last: nat, period: nat)

  /** The first nonzero sample only sets the base line. */
  function Metered(m: Meter, sample: nat): Meter
    requires sample >= m.last
  {
    Meter(sample, if m.last > 0 then m.period + (sample - m.last) else m.period)
  }

  /** Kilobytes as they travel: a 32-bit unsigned value read back as a signed one. */
  function Wire(period: nat): int {
    var k := period / 1024 % TWO32;
    if k < TWO32 / 2 then k else k - TWO32
  }

  /** Packet rates are halved differences cut to 32 bits. */
  predicate Busy(downPkts: nat, upPkts: nat) {
    downPkts / 2 % TWO32 > 10 || upPkts / 2 % TWO32 > 5
  }

  datatype Activity = Activity(active: bool, inactive: nat)

  function Observed(a: Activity, busy: bool): Activity {
    if busy then Activity(true, 0)
    else Activity(a.active && a.inactive + 1 <= IDLE_TICKS, a.inactive + 1)
  }

  datatype Flow = Flow(upBytes: nat, downBytes: nat, upPkts: nat, downPkts: nat)

  datatype Report = Report(up: int, down: int, active: bool)

  /** A kernel client with the counters that its timer maintains. */
  class Client {
    var flow: Flow
    var last: Flow
    var upPeriod: nat
    var downPeriod: nat
    var activity: Activity
    var timerCount: nat

    constructor ()
      ensures flow == last == Flow(0, 0, 0, 0) && upPeriod == downPeriod == timerCount == 0
      ensures activity == Activity(false, 0)
    {
      flow, last := Flow(0, 0, 0, 0), Flow(0, 0, 0, 0);
      upPeriod, downPeriod, timerCount := 0, 0, 0;
      activity := Activity(false, 0);
    }

    ghost predicate Valid()
      reads this
    {
      && flow.upBytes >= last.upBytes && flow.downBytes >= last.downBytes
      && flow.upPkts >= last.upPkts && flow.downPkts >= last.downPkts
    }

    ghost function Up(): Meter
      reads this
    {
      Meter(last.upBytes, upPeriod)
    }

    ghost function Down(): Meter
      reads this
    {
      Meter(last.downBytes, downPeriod)
    }

    method CountUp(len: nat)
      requires Valid()
      modifies this`flow
      ensures Valid() && flow == old(flow).(upBytes := old(flow).upBytes + len, upPkts := old(flow).upPkts + 1)
    {
      flow := flow.(upBytes := flow.upBytes + len, upPkts := flow.upPkts + 1);
    }

    method CountDown(len: nat)
      requires Valid()
      modifies this`flow
      ensures Valid() && flow == old(flow).(downBytes := old(flow).downBytes + len, downPkts := old(flow).downPkts + 1)
    {
      flow := flow.(downBytes := flow.downBytes + len, downPkts := flow.downPkts + 1);
    }

    /** `af_update_client_status` */
    method UpdateStatus()
      requires Valid()
      modifies this
      ensures Valid() && flow == old(flow) && last == old(flow) && timerCount == old(timerCount)
      ensures Up() == Metered(old(Up()), flow.upBytes) && Down() == Metered(old(Down()), flow.downBytes)
      ensures activity == Observed(old(activity), Busy(flow.downPkts - old(last).downPkts, flow.upPkts - old(last).upPkts))
    {
      if last.downBytes > 0 {
        downPeriod := downPeriod + (flow.downBytes - last.downBytes);
      }
      if last.upBytes > 0 {
        upPeriod := upPeriod + (flow.upBytes - last.upBytes);
      }
      var upRate := (flow.upPkts - last.upPkts) / 2 % TWO32;
      var downRate := (flow.downPkts - last.downPkts) / 2 % TWO32;
      last := flow;
      if downRate > 10 || upRate > 5 {
        activity := Activity(true, 0);
      } else {
        activity := activity.(inactive := activity.inactive + 1);
        if activity.active && activity.inactive > IDLE_TICKS {
          activity := activity.(active := false);
        }
      }
    }

    /** `client_timer_handler`: a report, when due, goes out before the new sample is taken. */
    method TimerHandler() returns (r: Option<Report>)
      requires Valid()
      modifies this
      ensures Valid() && flow == old(flow) && last == old(flow)
      ensures r == if old(timerCount) >= REPORT_TICKS
                   then Some(Report(Wire(old(upPeriod)), Wire(old(downPeriod)), old(activity).active)) else None
      ensures timerCount == (if r.Some? then 0 else old(timerCount)) + 1
      ensures Up() == Metered(if r.Some? then old(Up()).(period := 0) else old(Up()), flow.upBytes)
      ensures Down() == Metered(if r.Some? then old(Down()).(period := 0) else old(Down()), flow.downBytes)
      ensures activity == Observed(old(activity), Busy(flow.downPkts - old(last).downPkts, flow.upPkts - old(last).upPkts))
    {
      r := None;
      if timerCount >= REPORT_TICKS {
        r := Some(Report(Wire(upPeriod), Wire(downPeriod), activity.active));
        upPeriod, downPeriod := 0, 0;
        timerCount := 0;
      }
      UpdateStatus();
      timerCount := timerCount + 1;
    }
  }

  /** The daemon's totals for a device since the daily reset. */
  class Device {
    var upBytes: nat
    var downBytes: nat
    var am: nat
    var pm: nat

    constructor ()
      ensures upBytes == downBytes == am == pm == 0
    {
      upBytes, downBytes, am, pm := 0, 0, 0, 0;
    }

    /** The counting part of `appfilter_nl_handler`. */
    method Receive(r: Report, hour: nat)
      modifies this
      ensures upBytes == Credit(old(upBytes), r.up) && downBytes == Credit(old(downBytes), r.down)
      ensures am == (if r.active && hour < 12 then (old(am) + 1) % TWO32 else old(am))
      ensures pm == (if r.active && hour >= 12 then (old(pm) + 1) % TWO32 else old(pm))
    {
      if r.active {
        if hour < 12 {
          am := (am + 1) % TWO32;
        } else {
          pm := (pm + 1) % TWO32;
        }
      }
      upBytes := (upBytes + r.up * 1024) % TWO64;
      downBytes := (downBytes + r.down * 1024) % TWO64;
    }
  }

  function Credit(bytes: nat, kilobytes: int): nat {
    (bytes + kilobytes * 1024) % TWO64
  }

  // ----- Bytes: conservation from the kernel counter to the daemon's total -----

  /** The value that arrives is the whole kilobytes of the period exactly below 2^41 bytes. */
  lemma WireIsExactIff(period: nat)
    ensures Wire(period) * 1024 == period - period % 1024 <==> period < TWO41
  {
    var k := period / 1024;
    assert period == k * 1024 + period % 1024;
    assert k < TWO32 / 2 <==> period < TWO41;
    if k < TWO32 / 2 {
      assert k % TWO32 == k;
    } else if k < TWO32 {
      assert k % TWO32 == k;
    } else {
      assert k % TWO32 < TWO32;
    }
  }

  /** Beyond that, the signed 32-bit number that differs from the kilobytes by a multiple of 2^32. */
  lemma WireMeaning(period: nat)
    ensures -2147483648 <= Wire(period) <= 2147483647
    ensures exists k :: period / 1024 - Wire(period) == k * 4294967296
  {
    var n := period / 1024;
    var k := if n % TWO32 < TWO32 / 2 then n / TWO32 else n / TWO32 + 1;
    assert n - Wire(period) == k * 4294967296;
  }

  /** A period of 2^41 bytes arrives as a negative number. */
  lemma LargePeriodArrivesNegative()
    ensures Wire(TWO41) == -0x8000_0000
  {
    assert TWO41 / 1024 == 0x8000_0000;
  }

  /** One tick of one direction: the sampled counter, and whether a report sent in it arrives. */
  datatype ByteTick = ByteTick(sample: nat, delivered: bool)

  /** `first` is the base line, `slack` what reports rounded away or lost, `lossless` that
      every report so far arrived. */
  datatype Account = Account(meter: Meter, timer: nat, credited: nat, first: nat, slack: nat, reports: nat, lossless: bool)

  /** The daemon's total is zero: a client that has just appeared, or any moment right after
      a daily reset; `first` is what the kernel had counted before the pending period. */
  predicate Opened(a: Account) {
    && a.credited == 0 && a.slack == 0 && a.reports == 0 && a.lossless
    && a.first + a.meter.period == a.meter.last < TWO63 && (a.first == 0 ==> a.meter.last == 0)
  }

  function AfterTick(a: Account, t: ByteTick): Account
    requires t.sample >= a.meter.last
  {
    var due := a.timer >= REPORT_TICKS;
    var credited := if due && t.delivered then Credit(a.credited, Wire(a.meter.period)) else a.credited;
    var meter := Metered(if due then a.meter.(period := 0) else a.meter, t.sample);
    Account(meter, (if due then 0 else a.timer) + 1, credited,
            if a.first == 0 then t.sample else a.first,
            if !due then a.slack else if t.delivered then a.slack + a.meter.period % 1024 else a.slack + a.meter.period,
            a.reports + (if due then 1 else 0), a.lossless && (due ==> t.delivered))
  }

  /** A long long counter that only grows, and no period of 2^41 bytes. */
  ghost predicate LegalTicks(a: Account, ts: seq<ByteTick>)
    decreases |ts|
  {
    ts != [] ==>
      && a.meter.period < TWO41
      && a.meter.last <= ts[0].sample < TWO63
      && LegalTicks(AfterTick(a, ts[0]), ts[1..])
  }

  function RunTicks(a: Account, ts: seq<ByteTick>): Account
    requires LegalTicks(a, ts)
    decreases |ts|
  {
    if ts == [] then a else RunTicks(AfterTick(a, ts[0]), ts[1..])
  }

  ghost predicate Conserved(a: Account) {
    && a.meter.last == a.first + a.meter.period + a.credited + a.slack
    && a.meter.last < TWO63
    && (a.first == 0 ==> a.meter.last == 0)
    && (a.lossless ==> a.slack <= 1023 * a.reports)
  }

  lemma TickConserves(a: Account, t: ByteTick)
    requires Conserved(a) && a.meter.period < TWO41 && a.meter.last <= t.sample < TWO63
    ensures Conserved(AfterTick(a, t))
  {
    if a.timer >= REPORT_TICKS {
      WireIsExactIff(a.meter.period);
    }
  }

  lemma {:induction false} RunConserves(a: Account, ts: seq<ByteTick>)
    requires Conserved(a) && LegalTicks(a, ts)
    ensures Conserved(RunTicks(a, ts))
    decreases |ts|
  {
    if ts != [] {
      TickConserves(a, ts[0]);
      RunConserves(AfterTick(a, ts[0]), ts[1..]);
    }
  }

  /** Between daily resets: the bytes credited never exceed what the kernel counted since the
      base line, and if every report arrives the last sample is the base line plus the pending
      period plus the credit plus less than a kilobyte for every report. The base line is
      the first nonzero sample of a client that starts from nothing. */
  lemma BytesAreConserved(start: Account, ts: seq<ByteTick>)
    requires Opened(start) && LegalTicks(start, ts)
    ensures var end := RunTicks(start, ts);
            && end.first + end.meter.period + end.credited <= end.meter.last
            && (end.lossless ==> end.meter.last - (end.first + end.meter.period + end.credited) <= 1023 * end.reports)
            && (ts != [] ==> end.meter.last == ts[|ts| - 1].sample)
            && (start.first == 0 ==> end.first == FirstNonzero(ts)) && (start.first != 0 ==> end.first == start.first)
  {
    RunConserves(start, ts);
    if ts != [] {
      LastSample(start, ts);
    }
    BaseLine(start, ts);
  }

  function FirstNonzero(ts: seq<ByteTick>): nat {
    if ts == [] then 0 else if ts[0].sample != 0 then ts[0].sample else FirstNonzero(ts[1..])
  }

  lemma {:induction false} BaseLine(a: Account, ts: seq<ByteTick>)
    requires LegalTicks(a, ts)
    ensures RunTicks(a, ts).first == if a.first == 0 then FirstNonzero(ts) else a.first
    decreases |ts|
  {
    if ts != [] {
      BaseLine(AfterTick(a, ts[0]), ts[1..]);
    }
  }

  lemma {:induction false} LastSample(a: Account, ts: seq<ByteTick>)
    requires LegalTicks(a, ts) && ts != []
    ensures RunTicks(a, ts).meter.last == ts[|ts| - 1].sample
    decreases |ts|
  {
    if |ts| > 1 {
      LastSample(AfterTick(a, ts[0]), ts[1..]);
    } else {
      assert ts[1..] == [];
    }
  }

  // ----- Minutes: the activity window -----

  datatype BusyTick = BusyTick(busy: bool, delivered: bool)

  /** `minutes` counts delivered reports that said active; `busy` counts busy ticks. */
  datatype Usage = Usage(activity: Activity, timer: nat, minutes: nat, busy: nat)

  const NEW_USAGE := Usage(Activity(false, 0), 0, 0, 0)

  predicate Due(u: Usage) {
    u.timer >= REPORT_TICKS
  }

  function AfterBusyTick(u: Usage, t: BusyTick): Usage {
    Usage(Observed(u.activity, t.busy), (if Due(u) then 0 else u.timer) + 1,
          u.minutes + (if Due(u) && t.delivered && u.activity.active then 1 else 0),
          u.busy + (if t.busy then 1 else 0))
  }

  function Used(ts: seq<BusyTick>): Usage
    decreases |ts|
  {
    if ts == [] then NEW_USAGE else AfterBusyTick(Used(ts[..|ts| - 1]), ts[|ts| - 1])
  }

  ghost predicate BusyAmongLast(ts: seq<BusyTick>, n: nat) {
    exists i :: 0 <= i < |ts| && |ts| - n <= i && ts[i].busy
  }

  /** How long ago the last busy tick was. */
  lemma {:induction false} InactiveSinceBusy(ts: seq<BusyTick>, n: nat)
    ensures var a := Used(ts).activity;
            && (a.active ==> a.inactive <= IDLE_TICKS)
            && (BusyAmongLast(ts, n + 1) && n <= IDLE_TICKS <==> a.active && a.inactive <= n && n <= IDLE_TICKS)
    decreases |ts|
  {
    if ts != [] {
      var front, t := ts[..|ts| - 1], ts[|ts| - 1];
      if n > 0 {
        InactiveSinceBusy(front, n - 1);
        WindowMoves(ts, n);
      } else {
        InactiveSinceBusy(front, 0);
        WindowMoves(ts, 0);
      }
    }
  }

  lemma WindowMoves(ts: seq<BusyTick>, n: nat)
    requires ts != []
    ensures BusyAmongLast(ts, n + 1) <==> ts[|ts| - 1].busy || (n > 0 && BusyAmongLast(ts[..|ts| - 1], n))
  {
  }

  /** A client is active exactly when one of the last 31 ticks was busy. */
  lemma ActiveIffBusyIn31(ts: seq<BusyTick>)
    ensures Used(ts).activity.active <==> BusyAmongLast(ts, 31)
  {
    InactiveSinceBusy(ts, 30);
  }

  /** Reports fall exactly after every 30 ticks. */
  lemma {:induction false} ReportsEvery30(ts: seq<BusyTick>)
    ensures Due(Used(ts)) <==> ts != [] && |ts| % 30 == 0
    ensures Used(ts).timer == if ts == [] then 0 else (|ts| - 1) % 30 + 1
    decreases |ts|
  {
    if ts != [] {
      ReportsEvery30(ts[..|ts| - 1]);
    }
  }

  /** A minute that a tick counts has a busy tick among the 31 before it. */
  lemma CountedMinuteWasBusy(ts: seq<BusyTick>, t: BusyTick)
    requires Used(ts + [t]).minutes > Used(ts).minutes
    ensures BusyAmongLast(ts, 31) && ts != [] && |ts| % 30 == 0
  {
    assert (ts + [t])[..|ts|] == ts;
    ActiveIffBusyIn31(ts);
    ReportsEvery30(ts);
  }

  /** How many of the next reports count even if no tick is busy any more. */
  function Pending(u: Usage): nat {
    (if u.activity.active && u.activity.inactive <= u.timer then 1 else 0)
    + (if u.activity.active && u.activity.inactive + REPORT_TICKS <= u.timer then 1 else 0)
  }

  lemma {:induction false} MinutesWithPending(ts: seq<BusyTick>)
    ensures Used(ts).minutes + Pending(Used(ts)) <= 2 * Used(ts).busy
    ensures Used(ts).timer <= REPORT_TICKS && (Used(ts).activity.active ==> Used(ts).activity.inactive <= IDLE_TICKS)
    decreases |ts|
  {
    if ts != [] {
      MinutesWithPending(ts[..|ts| - 1]);
    }
  }

  function BusyCount(ts: seq<BusyTick>): nat {
    if ts == [] then 0 else (if ts[0].busy then 1 else 0) + BusyCount(ts[1..])
  }

  /** Over every run, the minutes counted are at most twice the busy ticks. */
  lemma MinutesAtMostTwiceBusy(ts: seq<BusyTick>)
    ensures Used(ts).minutes <= 2 * BusyCount(ts)
  {
    MinutesWithPending(ts);
    BusyIsCounted(ts);
  }

  lemma {:induction false} BusyIsCounted(ts: seq<BusyTick>)
    ensures Used(ts).busy == BusyCount(ts)
    decreases |ts|
  {
    if ts != [] {
      BusyIsCounted(ts[..|ts| - 1]);
      BusyCountLast(ts);
    }
  }

  lemma {:induction false} BusyCountLast(ts: seq<BusyTick>)
    requires ts != []
    ensures BusyCount(ts) == BusyCount(ts[..|ts| - 1]) + if ts[|ts| - 1].busy then 1 else 0
    decreases |ts|
  {
    if |ts| > 1 {
      BusyCountLast(ts[1..]);
      assert ts[1..][..|ts| - 2] == ts[..|ts| - 1][1..];
    } else {
      assert ts[1..] == [] && ts[..0] == [];
    }
  }

  // ----- The run models are what the two sides do -----

  ghost predicate Tracks(a: Account, m: Meter, timer: nat, credited: nat) {
    a.meter == m && a.timer == timer && a.credited == credited
  }

  ghost predicate Follows(u: Usage, c: Client, d: Device)
    reads c, d
  {
    u.activity == c.activity && u.timer == c.timerCount && u.minutes == d.am + d.pm
  }

  /** One timer tick of a client, and the daemon's side of the report if it arrives. */
  method Exchange(c: Client, d: Device, delivered: bool, hour: nat, ghost up: Account, ghost down: Account, ghost u: Usage)
    requires c.Valid() && d.am + 1 < TWO32 && d.pm + 1 < TWO32
    requires Tracks(up, c.Up(), c.timerCount, d.upBytes) && Tracks(down, c.Down(), c.timerCount, d.downBytes)
    requires Follows(u, c, d)
    modifies c, d
    ensures c.Valid() && c.flow == old(c.flow)
    ensures Tracks(AfterTick(up, ByteTick(c.flow.upBytes, delivered)), c.Up(), c.timerCount, d.upBytes)
    ensures Tracks(AfterTick(down, ByteTick(c.flow.downBytes, delivered)), c.Down(), c.timerCount, d.downBytes)
    ensures var down, up := c.flow.downPkts - old(c.last).downPkts, c.flow.upPkts - old(c.last).upPkts;
            var busy := down / 2 % 4294967296 > 10 || up / 2 % 4294967296 > 5;
            Follows(AfterBusyTick(u, BusyTick(busy, delivered)), c, d)
  {
    var r := c.TimerHandler();
    if r.Some? && delivered {
      d.Receive(r.value, hour);
    }
  }
}
