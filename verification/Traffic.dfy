/** The traffic collector: counter deltas, snapshots and the calendar tables. */
module Traffic {
  import opened MapSums

  // ----- Deltas of one counter -----

  /** `compute_delta` */
  function Delta(current: int, last: int): int {
    if last <= 0 then current
    else if current >= last then current - last
    else current
  }

  /** What happens to a device's daily counter: it grows, it restarts from zero, it is sampled. */
  datatype CounterEvent = Grow(bytes: nat) | Restart | Sample

  /** `truth` counts every byte, `recorded` sums the deltas of the samples. */
  datatype Counter = Counter(value: nat, truth: nat, snapshot: nat, recorded: int)

  const NEW_COUNTER := Counter(0, 0, 0, 0)

  function Observe(c: Counter, e: CounterEvent): Counter {
    match e
    case Grow(bytes) => c.(value := c.value + bytes, truth := c.truth + bytes)
    case Restart => c.(value := 0)
    case Sample => c.(recorded := c.recorded + Delta(c.value, c.snapshot), snapshot := c.value)
  }

  function ObserveAll(c: Counter, es: seq<CounterEvent>): Counter
    decreases |es|
  {
    if es == [] then c else ObserveAll(Observe(c, es[0]), es[1..])
  }

  ghost predicate Covered(c: Counter) {
    c.recorded + Delta(c.value, c.snapshot) <= c.truth
  }

  lemma {:induction false} DeltasStayCovered(c: Counter, es: seq<CounterEvent>)
    requires Covered(c)
    ensures Covered(ObserveAll(c, es))
    decreases |es|
  {
    if es != [] {
      DeltasStayCovered(Observe(c, es[0]), es[1..]);
    }
  }

  /** However often a counter restarts between samples, the recorded deltas never exceed
      the bytes that really passed. */
  lemma RecordedAtMostTruth(es: seq<CounterEvent>)
    ensures ObserveAll(NEW_COUNTER, es).recorded <= ObserveAll(NEW_COUNTER, es).truth
  {
    DeltasStayCovered(NEW_COUNTER, es);
  }

  /** A counter that never restarts is recorded exactly: after a sample, the deltas add up
      to the counter itself. */
  lemma {:induction false} NoRestartIsExact(c: Counter, es: seq<CounterEvent>)
    requires c.truth == c.value && c.snapshot <= c.value && c.recorded == c.snapshot
    requires forall i :: 0 <= i < |es| ==> !es[i].Restart?
    ensures var end := ObserveAll(c, es);
            && end.truth == end.value && end.snapshot <= end.value && end.recorded == end.snapshot
            && (es != [] && es[|es| - 1].Sample? ==> end.recorded == end.value)
    decreases |es|
  {
    if es != [] {
      NoRestartIsExact(Observe(c, es[0]), es[1..]);
      if |es| == 1 {
        assert es[1..] == [];
      }
    }
  }

  /** What a sample after a restart records: all bytes since the restart, unless they have
      already outgrown the old snapshot, which then hides that much of them. */
  lemma RestartIsRecorded(c: Counter, bytes: nat)
    requires c.snapshot == c.value
    ensures ObserveAll(c, [Restart, Grow(bytes), Sample]).recorded - c.recorded
         == if bytes < c.snapshot then bytes else bytes - c.snapshot
  {
    var es := [Restart, Grow(bytes), Sample];
    assert es[1..] == [Grow(bytes), Sample] && es[1..][1..] == [Sample] && es[1..][1..][1..] == [];
    var c1 := Observe(c, es[0]);
    var c2 := Observe(c1, es[1..][0]);
    assert ObserveAll(c2, [Sample]) == Observe(c2, Sample);
  }

  // ----- One collection of one column -----

  /** A device that takes part in a collection, with its counter of this column. */
  datatype Item = Item(mac: string, amount: nat)

  datatype Snapshot = Snapshot(all: int, macs: map<string, int>)

  function Sum(items: seq<Item>): nat {
    if items == [] then 0 else items[0].amount + Sum(items[1..])
  }

  function DeltaSum(items: seq<Item>, macs: map<string, int>): int {
    if items == [] then 0 else Delta(items[0].amount, Get(macs, items[0].mac)) + DeltaSum(items[1..], macs)
  }

  function Replace(macs: map<string, int>, items: seq<Item>): map<string, int>
    decreases |items|
  {
    if items == [] then macs else Replace(macs[items[0].mac := items[0].amount], items[1..])
  }

  function Collected(items: seq<Item>, s: Snapshot): Snapshot {
    Snapshot(Sum(items), Replace(s.macs, items))
  }

  predicate Distinct(items: seq<Item>) {
    forall i, j :: 0 <= i < j < |items| ==> items[i].mac != items[j].mac
  }

  predicate Mentions(items: seq<Item>, mac: string) {
    exists i :: 0 <= i < |items| && items[i].mac == mac
  }

  /** Every snapshotted device is still there and no counter fell. */
  ghost predicate Steady(items: seq<Item>, s: Snapshot) {
    && Distinct(items)
    && (forall mac :: mac in s.macs ==> Mentions(items, mac))
    && (forall i :: 0 <= i < |items| ==> 0 <= Get(s.macs, items[i].mac) <= items[i].amount)
  }

  /** The global snapshot is the sum of the device snapshots. */
  ghost predicate Balanced(s: Snapshot) {
    s.all == Total(s.macs)
  }

  lemma MentionsRest(items: seq<Item>, mac: string)
    requires items != []
    ensures Mentions(items, mac) <==> items[0].mac == mac || Mentions(items[1..], mac)
  {
  }

  lemma HeadIsNew(items: seq<Item>)
    requires items != [] && Distinct(items)
    ensures Distinct(items[1..]) && !Mentions(items[1..], items[0].mac)
  {
  }

  lemma {:induction false} ReplaceFromEmpty(macs: map<string, int>, items: seq<Item>)
    requires Distinct(items)
    requires forall i :: 0 <= i < |items| ==> items[i].mac !in macs
    ensures Total(Replace(macs, items)) == Total(macs) + Sum(items)
    decreases |items|
  {
    if items != [] {
      TotalPut(macs, items[0].mac, items[0].amount);
      HeadIsNew(items);
      ReplaceFromEmpty(macs[items[0].mac := items[0].amount], items[1..]);
    }
  }

  /** Old rows that every item overwrites make no difference. */
  lemma {:induction false} ReplaceCovers(a: map<string, int>, b: map<string, int>, items: seq<Item>)
    requires forall mac :: mac in a || mac in b ==>
               Mentions(items, mac) || (mac in a && mac in b && a[mac] == b[mac])
    ensures Replace(a, items) == Replace(b, items)
    decreases |items|
  {
    if items == [] {
      assert a == b;
    } else {
      var a', b' := a[items[0].mac := items[0].amount], b[items[0].mac := items[0].amount];
      forall mac | mac in a' || mac in b'
        ensures Mentions(items[1..], mac) || (mac in a' && mac in b' && a'[mac] == b'[mac])
      {
        MentionsRest(items, mac);
      }
      ReplaceCovers(a', b', items[1..]);
    }
  }

  // ----- Exactly when the deltas add up -----

  /** How much of a snapshot a delta takes off the counter. */
  function Counted(last: int, amount: int): int {
    if 0 < last <= amount then last else 0
  }

  function CountedSum(items: seq<Item>, macs: map<string, int>): int {
    if items == [] then 0 else Counted(Get(macs, items[0].mac), items[0].amount) + CountedSum(items[1..], macs)
  }

  lemma {:induction false} DeltaSumSplits(items: seq<Item>, macs: map<string, int>)
    ensures DeltaSum(items, macs) == Sum(items) - CountedSum(items, macs) >= 0
    decreases |items|
  {
    if items != [] {
      DeltaSumSplits(items[1..], macs);
    }
  }

  /** The device is listed and its counter has not fallen below its snapshot. */
  predicate Continued(items: seq<Item>, mac: string, row: int) {
    exists i :: 0 <= i < |items| && items[i].mac == mac && row <= items[i].amount
  }

  /** The snapshots that no delta accounts for: of devices that dropped out or fell. */
  function Lost(items: seq<Item>, macs: map<string, int>): map<string, int> {
    map mac | mac in macs :: if Continued(items, mac, macs[mac]) then 0 else macs[mac]
  }

  ghost predicate NonNegative(macs: map<string, int>) {
    forall mac :: mac in macs ==> macs[mac] >= 0
  }

  lemma ContinuedRest(items: seq<Item>, mac: string, row: int)
    requires items != []
    ensures Continued(items, mac, row) <==>
            (items[0].mac == mac && row <= items[0].amount) || Continued(items[1..], mac, row)
  {
    if i :| 0 <= i < |items| && items[i].mac == mac && row <= items[i].amount {
      assert i > 0 ==> items[1..][i - 1] == items[i];
    }
    if i :| 0 <= i < |items[1..]| && items[1..][i].mac == mac && row <= items[1..][i].amount {
      assert items[i + 1] == items[1..][i];
    }
  }

  lemma LostStep(items: seq<Item>, macs: map<string, int>)
    requires items != [] && Distinct(items) && NonNegative(macs)
    ensures Total(Lost(items[1..], macs)) == Total(Lost(items, macs)) + Counted(Get(macs, items[0].mac), items[0].amount)
  {
    var mac, rest := items[0].mac, Lost(items[1..], macs);
    HeadIsNew(items);
    forall m | m in macs
      ensures Continued(items, m, macs[m]) <==> (m == mac && macs[m] <= items[0].amount) || Continued(items[1..], m, macs[m])
    {
      ContinuedRest(items, m, macs[m]);
    }
    if mac in macs && macs[mac] <= items[0].amount {
      assert rest[mac] == macs[mac];
      assert Lost(items, macs) == rest[mac := 0];
      TotalPut(rest, mac, 0);
    } else {
      assert Lost(items, macs) == rest;
    }
  }

  lemma {:induction false} CountedAndLost(items: seq<Item>, macs: map<string, int>)
    requires Distinct(items) && NonNegative(macs)
    ensures Total(macs) == CountedSum(items, macs) + Total(Lost(items, macs))
    decreases |items|
  {
    if items == [] {
      assert Lost(items, macs) == macs;
    } else {
      HeadIsNew(items);
      LostStep(items, macs);
      CountedAndLost(items[1..], macs);
    }
  }

  /** No device with a snapshot dropped out or fell. */
  predicate NothingLost(items: seq<Item>, macs: map<string, int>) {
    forall mac :: mac in macs ==> macs[mac] == 0 || Continued(items, mac, macs[mac])
  }

  /** Every listed device is new or fell. */
  predicate NothingKept(items: seq<Item>, macs: map<string, int>) {
    forall i :: 0 <= i < |items| ==> Get(macs, items[i].mac) <= 0 || items[i].amount < Get(macs, items[i].mac)
  }

  lemma {:induction false} CountedZeroIff(items: seq<Item>, macs: map<string, int>)
    ensures CountedSum(items, macs) >= 0
    ensures CountedSum(items, macs) == 0 <==> NothingKept(items, macs)
    decreases |items|
  {
    if items != [] {
      CountedZeroIff(items[1..], macs);
      assert forall i :: 0 < i < |items| ==> items[i] == items[1..][i - 1];
      assert forall i :: 0 <= i < |items| - 1 ==> items[1..][i] == items[i + 1];
    }
  }

  lemma LostZeroIff(items: seq<Item>, macs: map<string, int>)
    requires NonNegative(macs)
    ensures Total(Lost(items, macs)) == 0 <==> NothingLost(items, macs)
  {
    var lost := Lost(items, macs);
    TotalZeroIff(lost);
    if NothingLost(items, macs) {
      forall mac | mac in lost
        ensures lost[mac] == 0
      {
        assert macs[mac] == 0 || Continued(items, mac, macs[mac]);
      }
    } else {
      var mac :| mac in macs && macs[mac] != 0 && !Continued(items, mac, macs[mac]);
      assert lost[mac] != 0;
    }
  }

  /** While the global counter has not fallen: the snapshots of devices that dropped out or
      fell are what the device snapshots exceed the global one by; once it has fallen: no
      listed device went on counting from its snapshot. */
  ghost predicate AddsUp(items: seq<Item>, s: Snapshot) {
    if Sum(items) >= s.all then Total(Lost(items, s.macs)) == Total(s.macs) - s.all else NothingKept(items, s.macs)
  }

  /** For every list of devices and every snapshot, that is exactly when the device deltas
      add up to the global delta. */
  lemma DeltasAgreeIff(items: seq<Item>, s: Snapshot)
    requires Distinct(items) && NonNegative(s.macs) && s.all >= 0
    ensures DeltaSum(items, s.macs) == Delta(Sum(items), s.all) <==> AddsUp(items, s)
  {
    DeltaSumSplits(items, s.macs);
    CountedAndLost(items, s.macs);
    CountedZeroIff(items, s.macs);
  }

  /** With a balanced snapshot: exactly when no device with a snapshot dropped out or fell. */
  lemma BalancedDeltasAgreeIff(items: seq<Item>, s: Snapshot)
    requires Balanced(s) && Distinct(items) && NonNegative(s.macs)
    ensures DeltaSum(items, s.macs) == Delta(Sum(items), s.all) <==>
            if Sum(items) >= s.all then NothingLost(items, s.macs) else NothingKept(items, s.macs)
  {
    TotalNonNegative(s.macs);
    DeltasAgreeIff(items, s);
    LostZeroIff(items, s.macs);
  }

  // ----- Two collections in a row -----

  function IsListed(items: seq<Item>): string -> bool {
    (mac: string) => Mentions(items, mac)
  }

  /** Bytes in the rows of devices that `a` lists and `b` does not. */
  ghost function OnlyIn(a: seq<Item>, b: seq<Item>, macs: map<string, int>): int {
    Total(Where(macs, Except(IsListed(a), IsListed(b))))
  }

  ghost predicate NothingFell(items: seq<Item>, macs: map<string, int>) {
    forall i :: 0 <= i < |items| ==> Get(macs, items[i].mac) <= items[i].amount
  }

  function IsUnlisted(items: seq<Item>): string -> bool {
    (mac: string) => !Mentions(items, mac)
  }

  lemma ListedAndUnlisted(items: seq<Item>, macs: map<string, int>)
    ensures Total(macs) == Total(Where(macs, IsListed(items))) + Total(Where(macs, IsUnlisted(items)))
  {
    var any := (mac: string) => true;
    TotalSplits(macs, any, IsListed(items));
    assert Where(macs, any) == macs;
    assert Where(macs, Both(any, IsListed(items))) == Where(macs, IsListed(items));
    assert Where(macs, Except(any, IsListed(items))) == Where(macs, IsUnlisted(items));
  }

  lemma LostIsUnlisted(items: seq<Item>, macs: map<string, int>)
    requires NothingFell(items, macs)
    ensures Total(Lost(items, macs)) == Total(Where(macs, IsUnlisted(items)))
  {
    forall mac | mac in macs
      ensures Continued(items, mac, macs[mac]) <==> Mentions(items, mac)
    {
      if i :| 0 <= i < |items| && items[i].mac == mac {
        assert Get(macs, items[i].mac) <= items[i].amount;
      }
    }
    SameTotal(Lost(items, macs), Where(macs, IsUnlisted(items)));
  }

  /** While no counter falls, the deltas take off the snapshots of exactly the listed devices. */
  lemma CountedIsListed(items: seq<Item>, macs: map<string, int>)
    requires Distinct(items) && NonNegative(macs) && NothingFell(items, macs)
    ensures CountedSum(items, macs) == Total(Where(macs, IsListed(items)))
  {
    ListedAndUnlisted(items, macs);
    LostIsUnlisted(items, macs);
    CountedAndLost(items, macs);
  }

  lemma {:induction false} SameTotal(a: map<string, int>, b: map<string, int>)
    requires forall mac :: mac in b ==> mac in a && a[mac] == b[mac]
    requires forall mac :: mac in a && mac !in b ==> a[mac] == 0
    ensures Total(a) == Total(b)
    decreases |a|
  {
    if a == map[] {
      assert b == map[];
    } else {
      var mac :| mac in a;
      TotalRemove(a, mac);
      SameTotal(a - {mac}, b - {mac});
      if mac in b {
        TotalRemove(b, mac);
      } else {
        assert b - {mac} == b;
      }
    }
  }

  lemma {:induction false} ReplacedRows(macs: map<string, int>, items: seq<Item>)
    requires Distinct(items)
    ensures forall mac :: mac in Replace(macs, items) <==> mac in macs || Mentions(items, mac)
    ensures forall mac :: mac in macs && !Mentions(items, mac) ==> Replace(macs, items)[mac] == macs[mac]
    ensures forall i :: 0 <= i < |items| ==> Get(Replace(macs, items), items[i].mac) == items[i].amount
    decreases |items|
  {
    if items != [] {
      var macs' := macs[items[0].mac := items[0].amount];
      HeadIsNew(items);
      ReplacedRows(macs', items[1..]);
      forall mac
        ensures Mentions(items, mac) <==> items[0].mac == mac || Mentions(items[1..], mac)
      {
        MentionsRest(items, mac);
      }
      assert forall i :: 0 < i < |items| ==> items[i] == items[1..][i - 1];
    }
  }

  /** Right after a collection the rows of its devices add up to the global snapshot. */
  lemma CollectedRows(prev: seq<Item>, s: Snapshot)
    requires Distinct(prev) && NonNegative(s.macs)
    ensures Total(Where(Collected(prev, s).macs, IsListed(prev))) == Collected(prev, s).all == Sum(prev)
    ensures NonNegative(Collected(prev, s).macs)
  {
    var macs := Collected(prev, s).macs;
    ReplacedRows(s.macs, prev);
    ReplacedRows(map[], prev);
    ReplaceFromEmpty(map[], prev);
    assert Where(macs, IsListed(prev)) == Replace(map[], prev) by {
      forall mac | Mentions(prev, mac)
        ensures mac in macs && macs[mac] == Get(Replace(map[], prev), mac)
      {
        var i :| 0 <= i < |prev| && prev[i].mac == mac;
        assert Get(macs, prev[i].mac) == prev[i].amount == Get(Replace(map[], prev), prev[i].mac);
      }
    }
    forall mac | mac in macs
      ensures macs[mac] >= 0
    {
      if i :| 0 <= i < |prev| && prev[i].mac == mac {
        assert Get(macs, prev[i].mac) == prev[i].amount;
      }
    }
  }

  /** While no counter falls: exactly when the rows of the listed devices add up to the global
      snapshot. */
  lemma DroppedDevicesIff(items: seq<Item>, s: Snapshot)
    requires Distinct(items) && NonNegative(s.macs) && 0 <= s.all <= Sum(items) && NothingFell(items, s.macs)
    ensures DeltaSum(items, s.macs) == Delta(Sum(items), s.all) <==> Total(Where(s.macs, IsListed(items))) == s.all
  {
    DeltaSumSplits(items, s.macs);
    CountedIsListed(items, s.macs);
  }

  /** After any collection, from whatever snapshot: while no counter falls, the next deltas
      add up exactly when the devices that left the list and those that came back to it have
      the same number of bytes in their snapshots. */
  lemma NextDeltasAgreeIff(prev: seq<Item>, items: seq<Item>, before: Snapshot)
    requires Distinct(prev) && Distinct(items) && NonNegative(before.macs)
    requires NothingFell(items, Collected(prev, before).macs) && Sum(items) >= Sum(prev)
    ensures var s := Collected(prev, before);
            DeltaSum(items, s.macs) == Delta(Sum(items), s.all) <==>
            OnlyIn(prev, items, s.macs) == OnlyIn(items, prev, s.macs)
  {
    var s := Collected(prev, before);
    CollectedRows(prev, before);
    DroppedDevicesIff(items, s);
    TotalsDiffer(s.macs, IsListed(prev), IsListed(items));
  }

  /** A device that comes back with bytes in its snapshot while nobody leaves always makes
      the two deltas differ, although every device is listed and no counter fell. */
  lemma ReturningDeviceBreaksTheSum(prev: seq<Item>, items: seq<Item>, before: Snapshot, mac: string)
    requires Distinct(prev) && Distinct(items) && NonNegative(before.macs)
    requires NothingFell(items, Collected(prev, before).macs) && Sum(items) >= Sum(prev)
    requires forall i :: 0 <= i < |prev| ==> Mentions(items, prev[i].mac)
    requires mac in before.macs && before.macs[mac] > 0 && !Mentions(prev, mac) && Mentions(items, mac)
    ensures var s := Collected(prev, before); DeltaSum(items, s.macs) != Delta(Sum(items), s.all)
  {
    var macs := Collected(prev, before).macs;
    NextDeltasAgreeIff(prev, items, before);
    CollectedRows(prev, before);
    ReplacedRows(before.macs, prev);
    var back := Where(macs, Except(IsListed(items), IsListed(prev)));
    assert Where(macs, Except(IsListed(prev), IsListed(items))) == map[];
    TotalNonNegative(back);
    TotalZeroIff(back);
    assert back[mac] > 0;
  }

  /** Two devices are collected, one drops out, and then it comes back with one more byte:
      the devices record one byte, the global tables eight. */
  lemma ReturningDeviceExample()
    ensures var s := Collected([Item("a", 6)], Collected([Item("a", 5), Item("b", 7)], Snapshot(0, map[])));
            var items := [Item("a", 6), Item("b", 8)];
            DeltaSum(items, s.macs) == 1 && Delta(Sum(items), s.all) == 8
  {
    var items := [Item("a", 6), Item("b", 8)];
    assert items[1..] == [Item("b", 8)] && items[1..][1..] == [];
  }

  /** A device that drops out with bytes in its snapshot while another one goes on counting
      makes the two deltas differ, as long as the snapshot is balanced. */
  lemma DroppedDeviceBreaksTheSum(items: seq<Item>, s: Snapshot, mac: string, i: nat)
    requires Balanced(s) && Distinct(items) && NonNegative(s.macs)
    requires mac in s.macs && s.macs[mac] > 0 && !Mentions(items, mac)
    requires i < |items| && 0 < Get(s.macs, items[i].mac) <= items[i].amount
    ensures DeltaSum(items, s.macs) != Delta(Sum(items), s.all)
  {
    BalancedDeltasAgreeIff(items, s);
    assert !Continued(items, mac, s.macs[mac]);
  }

  /** If no snapshotted device drops out and no counter falls, the device deltas add up to
      the global delta, and the next snapshot is balanced again. */
  lemma DeviceDeltasAddUp(items: seq<Item>, s: Snapshot)
    requires Balanced(s) && Steady(items, s)
    ensures DeltaSum(items, s.macs) == Delta(Sum(items), s.all)
    ensures Balanced(Collected(items, s))
  {
    forall mac | mac in s.macs
      ensures s.macs[mac] >= 0 && Continued(items, mac, s.macs[mac])
    {
      var i :| 0 <= i < |items| && items[i].mac == mac;
      assert 0 <= Get(s.macs, items[i].mac) <= items[i].amount;
    }
    BalancedDeltasAgreeIff(items, s);
    CountedAndLost(items, s.macs);
    LostZeroIff(items, s.macs);
    DeltaSumSplits(items, s.macs);
    ReplaceCovers(s.macs, map[], items);
    ReplaceFromEmpty(map[], items);
  }

  // ----- Calendar tables -----

  datatype Date = Date(year: int, month: int, day: int)
  datatype Month = Month(year: int, month: int)
  datatype Time = Time(hour: int, min: int)
  datatype MinuteKey = MinuteKey(date: Date, time: Time)

  datatype Tables = Tables(minute: map<MinuteKey, int>, daily: map<Date, int>, monthly: map<Month, int>, yearly: map<int, int>)

  const EMPTY_TABLES := Tables(map[], map[], map[], map[])

  datatype Posting = Posting(date: Date, time: Time, amount: int)

  function MonthOf(d: Date): Month {
    Month(d.year, d.month)
  }

  /** Insert the row, or add to it. */
  function Upsert<K>(m: map<K, int>, k: K, v: int): map<K, int> {
    m[k := Get(m, k) + v]
  }

  function Post(t: Tables, p: Posting): Tables {
    Tables(Upsert(t.minute, MinuteKey(p.date, p.time), p.amount), Upsert(t.daily, p.date, p.amount),
           Upsert(t.monthly, MonthOf(p.date), p.amount), Upsert(t.yearly, p.date.year, p.amount))
  }

  /** Each row of `coarse` is the sum of the rows of `fine` that belong to it. */
  ghost predicate RollsUp<K(!new), G(!new)>(fine: map<K, int>, coarse: map<G, int>, group: K -> G) {
    forall g: G :: Total(Where(fine, Members(group, g))) == Get(coarse, g)
  }

  function Members<K, G(==)>(group: K -> G, g: G): K -> bool {
    (k: K) => group(k) == g
  }

  function DateOf(k: MinuteKey): Date {
    k.date
  }

  function YearOf(m: Month): int {
    m.year
  }

  function DateOfRow(k: (Date, string)): Date {
    k.0
  }

  ghost predicate Consistent(t: Tables) {
    && RollsUp(t.minute, t.daily, DateOf)
    && RollsUp(t.daily, t.monthly, MonthOf)
    && RollsUp(t.monthly, t.yearly, YearOf)
  }

  /** Adding the same amount to a row and to the row it belongs to. */
  lemma UpsertRollsUp<K(!new), G(!new)>(fine: map<K, int>, coarse: map<G, int>, group: K -> G, k: K, v: int)
    requires RollsUp(fine, coarse, group)
    ensures RollsUp(Upsert(fine, k, v), Upsert(coarse, group(k), v), group)
  {
    forall g: G
      ensures Total(Where(Upsert(fine, k, v), Members(group, g))) == Get(Upsert(coarse, group(k), v), g)
    {
      TotalWhereAdd(fine, Members(group, g), k, v);
    }
  }

  lemma PostKeepsConsistent(t: Tables, p: Posting)
    requires Consistent(t)
    ensures Consistent(Post(t, p))
  {
    UpsertRollsUp(t.minute, t.daily, DateOf, MinuteKey(p.date, p.time), p.amount);
    UpsertRollsUp(t.daily, t.monthly, MonthOf, p.date, p.amount);
    UpsertRollsUp(t.monthly, t.yearly, YearOf, MonthOf(p.date), p.amount);
  }

  /** Per-device daily rows of a collection. */
  function PostDevices(rows: map<(Date, string), int>, date: Date, items: seq<Item>, macs: map<string, int>): map<(Date, string), int>
    decreases |items|
  {
    if items == [] then rows
    else PostDevices(Upsert(rows, (date, items[0].mac), Delta(items[0].amount, Get(macs, items[0].mac))), date, items[1..], macs)
  }

  /** The device rows of a date grow by the sum of the device deltas. */
  lemma {:induction false} PostDevicesRollsUp(rows: map<(Date, string), int>, daily: map<Date, int>, date: Date, items: seq<Item>, macs: map<string, int>)
    requires RollsUp(rows, daily, DateOfRow)
    ensures RollsUp(PostDevices(rows, date, items, macs), Upsert(daily, date, DeltaSum(items, macs)), DateOfRow)
    decreases |items|
  {
    if items == [] {
      UpsertRollsUp(rows, daily, DateOfRow, (date, ""), 0);
      forall g: Date
        ensures Get(Upsert(daily, date, 0), g) == Get(daily, g)
      {
      }
    } else {
      var d := Delta(items[0].amount, Get(macs, items[0].mac));
      UpsertRollsUp(rows, daily, DateOfRow, (date, items[0].mac), d);
      PostDevicesRollsUp(Upsert(rows, (date, items[0].mac), d), Upsert(daily, date, d), date, items[1..], macs);
      assert Upsert(Upsert(daily, date, d), date, DeltaSum(items[1..], macs)) == Upsert(daily, date, DeltaSum(items, macs));
    }
  }

  // ----- Whole runs -----

  /** What the database holds for one column. */
  datatype Books = Books(snapshot: Snapshot, tables: Tables, devices: map<(Date, string), int>)

  const EMPTY_BOOKS := Books(Snapshot(0, map[]), EMPTY_TABLES, map[])

  datatype Collection = Collection(date: Date, time: Time, items: seq<Item>)

  function Record(b: Books, c: Collection): Books {
    Books(Collected(c.items, b.snapshot),
          Post(b.tables, Posting(c.date, c.time, Delta(Sum(c.items), b.snapshot.all))),
          PostDevices(b.devices, c.date, c.items, b.snapshot.macs))
  }

  function RecordAll(b: Books, cs: seq<Collection>): Books
    decreases |cs|
  {
    if cs == [] then b else RecordAll(Record(b, cs[0]), cs[1..])
  }

  /** Every collection of the run is steady against the snapshot it finds. */
  ghost predicate SteadyRun(b: Books, cs: seq<Collection>)
    decreases |cs|
  {
    cs != [] ==> Steady(cs[0].items, b.snapshot) && SteadyRun(Record(b, cs[0]), cs[1..])
  }

  /** A collection raises the row of its own minute, date, month and year by the global delta,
      and no other row. */
  lemma RowsOfCollection(b: Books, c: Collection)
    ensures var t, t', d := b.tables, Record(b, c).tables, Delta(Sum(c.items), b.snapshot.all);
            && (forall k :: Get(t'.minute, k) == Get(t.minute, k) + if k == MinuteKey(c.date, c.time) then d else 0)
            && (forall k :: Get(t'.daily, k) == Get(t.daily, k) + if k == c.date then d else 0)
            && (forall k :: Get(t'.monthly, k) == Get(t.monthly, k) + if k == Month(c.date.year, c.date.month) then d else 0)
            && (forall k :: Get(t'.yearly, k) == Get(t.yearly, k) + if k == c.date.year then d else 0)
  {
  }

  /** It raises the row of each of its devices on that date by the delta of that device. */
  lemma {:induction false} DeviceRowsOfCollection(rows: map<(Date, string), int>, date: Date, items: seq<Item>, macs: map<string, int>, i: nat)
    requires Distinct(items) && i < |items|
    ensures Get(PostDevices(rows, date, items, macs), (date, items[i].mac))
         == Get(rows, (date, items[i].mac)) + Delta(items[i].amount, Get(macs, items[i].mac))
    decreases |items|
  {
    var d := Delta(items[0].amount, Get(macs, items[0].mac));
    var rows' := Upsert(rows, (date, items[0].mac), d);
    HeadIsNew(items);
    if i == 0 {
      OtherRowsStay(rows', date, items[1..], macs, (date, items[0].mac));
    } else {
      DeviceRowsOfCollection(rows', date, items[1..], macs, i - 1);
    }
  }

  lemma {:induction false} OtherRowsStay(rows: map<(Date, string), int>, date: Date, items: seq<Item>, macs: map<string, int>, k: (Date, string))
    requires k.0 != date || !Mentions(items, k.1)
    ensures Get(PostDevices(rows, date, items, macs), k) == Get(rows, k)
    decreases |items|
  {
    if items != [] {
      MentionsRest(items, k.1);
      var rows' := Upsert(rows, (date, items[0].mac), Delta(items[0].amount, Get(macs, items[0].mac)));
      OtherRowsStay(rows', date, items[1..], macs, k);
    }
  }

  /** Over every sequence of collections, the minute rows of each date add up to its daily
      row, the daily rows of each month to its monthly row, and the monthly rows of each
      year to its yearly row. */
  lemma {:induction false} RollUpsAgree(b: Books, cs: seq<Collection>)
    requires Consistent(b.tables)
    ensures Consistent(RecordAll(b, cs).tables)
    decreases |cs|
  {
    if cs != [] {
      PostKeepsConsistent(b.tables, Posting(cs[0].date, cs[0].time, Delta(Sum(cs[0].items), b.snapshot.all)));
      RollUpsAgree(Record(b, cs[0]), cs[1..]);
    }
  }

  /** At every collection of the run the device deltas add up to the global delta. */
  ghost predicate DeltasAgree(b: Books, cs: seq<Collection>)
    decreases |cs|
  {
    cs != [] ==>
      && DeltaSum(cs[0].items, b.snapshot.macs) == Delta(Sum(cs[0].items), b.snapshot.all)
      && DeltasAgree(Record(b, cs[0]), cs[1..])
  }

  ghost predicate DistinctLists(cs: seq<Collection>) {
    forall i :: 0 <= i < |cs| ==> Distinct(cs[i].items)
  }

  ghost predicate AddsUpAlways(b: Books, cs: seq<Collection>)
    decreases |cs|
  {
    cs != [] ==> AddsUp(cs[0].items, b.snapshot) && AddsUpAlways(Record(b, cs[0]), cs[1..])
  }

  /** Over every run of collections, whoever drops out, comes back or restarts: the deltas
      add up at every collection exactly when the condition holds at every collection. */
  lemma {:induction false} DeltasAgreeOverRunsIff(b: Books, cs: seq<Collection>)
    requires DistinctLists(cs) && NonNegative(b.snapshot.macs) && b.snapshot.all >= 0
    ensures DeltasAgree(b, cs) <==> AddsUpAlways(b, cs)
    decreases |cs|
  {
    if cs != [] {
      DeltasAgreeIff(cs[0].items, b.snapshot);
      CollectedRows(cs[0].items, b.snapshot);
      DeltasAgreeOverRunsIff(Record(b, cs[0]), cs[1..]);
    }
  }

  /** One collection keeps the device rows in step with the daily rows exactly when its
      deltas add up. */
  lemma RowsStayInStepIff(b: Books, c: Collection)
    requires RollsUp(b.devices, b.tables.daily, DateOfRow)
    ensures RollsUp(Record(b, c).devices, Record(b, c).tables.daily, DateOfRow) <==>
            DeltaSum(c.items, b.snapshot.macs) == Delta(Sum(c.items), b.snapshot.all)
  {
    PostDevicesRollsUp(b.devices, b.tables.daily, c.date, c.items, b.snapshot.macs);
    var rows := Total(Where(Record(b, c).devices, Members(DateOfRow, c.date)));
    assert rows == Get(Upsert(b.tables.daily, c.date, DeltaSum(c.items, b.snapshot.macs)), c.date);
    if RollsUp(Record(b, c).devices, Record(b, c).tables.daily, DateOfRow) {
      assert rows == Get(Record(b, c).tables.daily, c.date);
    }
  }

  /** Over every run whose deltas add up, the device rows of each date add up to its daily
      row. */
  lemma {:induction false} RowsFollowDeltas(b: Books, cs: seq<Collection>)
    requires RollsUp(b.devices, b.tables.daily, DateOfRow) && DeltasAgree(b, cs)
    ensures RollsUp(RecordAll(b, cs).devices, RecordAll(b, cs).tables.daily, DateOfRow)
    decreases |cs|
  {
    if cs != [] {
      RowsStayInStepIff(b, cs[0]);
      RowsFollowDeltas(Record(b, cs[0]), cs[1..]);
    }
  }

  /** In particular over every steady run. */
  lemma {:induction false} SteadyDeltasAgree(b: Books, cs: seq<Collection>)
    requires Balanced(b.snapshot) && SteadyRun(b, cs)
    ensures Balanced(RecordAll(b, cs).snapshot) && DeltasAgree(b, cs)
    decreases |cs|
  {
    if cs != [] {
      DeviceDeltasAddUp(cs[0].items, b.snapshot);
      SteadyDeltasAgree(Record(b, cs[0]), cs[1..]);
    }
  }

  /** Over every steady run the device rows of each date add up to its daily row too, and
      at every collection the device deltas add up to the global delta. */
  lemma DeviceRowsAgree(b: Books, cs: seq<Collection>)
    requires Balanced(b.snapshot) && SteadyRun(b, cs)
    requires RollsUp(b.devices, b.tables.daily, DateOfRow)
    ensures Balanced(RecordAll(b, cs).snapshot) && DeltasAgree(b, cs)
    ensures RollsUp(RecordAll(b, cs).devices, RecordAll(b, cs).tables.daily, DateOfRow)
  {
    SteadyDeltasAgree(b, cs);
    RowsFollowDeltas(b, cs);
  }

  /** The database starts out in the state those runs need. */
  lemma EmptyBooksAgree()
    ensures Consistent(EMPTY_BOOKS.tables) && Balanced(EMPTY_BOOKS.snapshot) && NonNegative(EMPTY_BOOKS.snapshot.macs)
    ensures RollsUp(EMPTY_BOOKS.devices, EMPTY_BOOKS.tables.daily, DateOfRow)
  {
  }

  /** Two devices are collected, then one of them drops out and the other counts one more
      byte: the devices record one byte, the global tables six. */
  lemma DroppedDeviceExample()
    ensures var s := Collected([Item("a", 5), Item("b", 7)], Snapshot(0, map[]));
            var items := [Item("a", 6)];
            DeltaSum(items, s.macs) == 1 && Delta(Sum(items), s.all) == 6
  {
  }

  // ----- The collecting code -----

  /** A device as the daemon lists it; empty texts stand for missing fields. */
  datatype Listed = Listed(mac: string, ip: string, ipv6: string, online: int, up: nat, down: nat)

  function Addresses(d: Listed): seq<string> {
    (if d.ip != "" && d.ip != "0.0.0.0" && d.ip != "unknown" then [d.ip] else [])
    + if d.ipv6 != "" && d.ipv6 != "::" && d.ipv6 != "unknown" then [d.ipv6] else []
  }

  /** Devices without an address and idle offline devices are skipped. */
  predicate TakesPart(d: Listed) {
    Addresses(d) != [] && !(d.up == 0 && d.down == 0 && d.online == 0)
  }

  /** A device without a hardware address goes by its first network address. */
  function NameOf(d: Listed): string
    requires Addresses(d) != []
  {
    if d.mac != "" then d.mac else "unknown_" + Addresses(d)[0]
  }

  function Column(list: seq<Listed>, upload: bool): seq<Item> {
    if list == [] then []
    else
      var last := list[|list| - 1];
      Column(list[..|list| - 1], upload)
      + if TakesPart(last) then [Item(NameOf(last), if upload then last.up else last.down)] else []
  }

  // ----- Which devices are collected, in the words of the list -----

  /** Index by index: a device is collected exactly when it has an address that is none of the
      placeholders and is online or has bytes; in the order of the list, under its hardware
      address or else its first network address, with the bytes of this direction. */
  lemma {:induction false} ColumnMeaning(list: seq<Listed>, upload: bool) returns (at: seq<nat>)
    ensures |at| == |Column(list, upload)|
    ensures forall j, k :: 0 <= j < k < |at| ==> at[j] < at[k]
    ensures forall k :: 0 <= k < |at| ==> at[k] < |list|
    ensures forall k {:trigger at[k]} :: 0 <= k < |at| ==>
              var d, item := list[at[k]], Column(list, upload)[k];
              && item.amount == (if upload then d.up else d.down)
              && (d.mac != "" ==> item.mac == d.mac)
              && (d.mac == "" && d.ip != "" && d.ip != "0.0.0.0" && d.ip != "unknown" ==> item.mac == "unknown_" + d.ip)
              && (d.mac == "" && (d.ip == "" || d.ip == "0.0.0.0" || d.ip == "unknown") ==> item.mac == "unknown_" + d.ipv6)
    ensures forall i :: 0 <= i < |list| ==>
              (i in at <==>
               && ((list[i].ip != "" && list[i].ip != "0.0.0.0" && list[i].ip != "unknown")
                   || (list[i].ipv6 != "" && list[i].ipv6 != "::" && list[i].ipv6 != "unknown"))
               && (list[i].online != 0 || list[i].up != 0 || list[i].down != 0))
    decreases |list|
  {
    at := [];
    if list != [] {
      var front, last := list[..|list| - 1], |list| - 1;
      at := ColumnMeaning(front, upload);
      TakesPartMeaning(list[last]);
      if TakesPart(list[last]) {
        NameMeaning(list[last]);
        at := at + [last];
      }
    }
  }

  lemma TakesPartMeaning(d: Listed)
    ensures TakesPart(d) <==>
            && ((d.ip != "" && d.ip != "0.0.0.0" && d.ip != "unknown") || (d.ipv6 != "" && d.ipv6 != "::" && d.ipv6 != "unknown"))
            && (d.online != 0 || d.up != 0 || d.down != 0)
  {
  }

  lemma NameMeaning(d: Listed)
    requires TakesPart(d)
    ensures d.mac != "" ==> NameOf(d) == d.mac
    ensures d.mac == "" && d.ip != "" && d.ip != "0.0.0.0" && d.ip != "unknown" ==> NameOf(d) == "unknown_" + d.ip
    ensures d.mac == "" && (d.ip == "" || d.ip == "0.0.0.0" || d.ip == "unknown") ==> NameOf(d) == "unknown_" + d.ipv6
  {
  }

  /** All bytes that the collected devices sent. */
  function UpBytes(list: seq<Listed>): nat {
    if list == [] then 0
    else
      var d := list[|list| - 1];
      var addressed := (d.ip != "" && d.ip != "0.0.0.0" && d.ip != "unknown") || (d.ipv6 != "" && d.ipv6 != "::" && d.ipv6 != "unknown");
      UpBytes(list[..|list| - 1]) + if addressed then d.up else 0
  }

  /** All bytes that they received. */
  function DownBytes(list: seq<Listed>): nat {
    if list == [] then 0
    else
      var d := list[|list| - 1];
      var addressed := (d.ip != "" && d.ip != "0.0.0.0" && d.ip != "unknown") || (d.ipv6 != "" && d.ipv6 != "::" && d.ipv6 != "unknown");
      DownBytes(list[..|list| - 1]) + if addressed then d.down else 0
  }

  lemma {:induction false} SumOfAppend(items: seq<Item>, item: Item)
    ensures Sum(items + [item]) == Sum(items) + item.amount
    decreases |items|
  {
    if items == [] {
      assert (items + [item])[1..] == [];
    } else {
      assert (items + [item])[1..] == items[1..] + [item];
      SumOfAppend(items[1..], item);
    }
  }

  lemma {:induction false} ColumnSums(list: seq<Listed>)
    ensures Sum(Column(list, true)) == UpBytes(list) && Sum(Column(list, false)) == DownBytes(list)
    decreases |list|
  {
    if list != [] {
      var front, d := list[..|list| - 1], list[|list| - 1];
      ColumnSums(front);
      TakesPartMeaning(d);
      if TakesPart(d) {
        SumOfAppend(Column(front, true), Item(NameOf(d), d.up));
        SumOfAppend(Column(front, false), Item(NameOf(d), d.down));
      } else {
        assert Column(list, true) == Column(front, true) && Column(list, false) == Column(front, false);
      }
    }
  }

  /** So a collection of the upload column raises today's row by what was sent since the last
      one, and a collection of the download column by what was received. */
  lemma DailyRowOfCollection(b: Books, list: seq<Listed>, date: Date, time: Time)
    ensures Get(Record(b, Collection(date, time, Column(list, true))).tables.daily, date)
         == Get(b.tables.daily, date) + Delta(UpBytes(list), b.snapshot.all)
    ensures Get(Record(b, Collection(date, time, Column(list, false))).tables.daily, date)
         == Get(b.tables.daily, date) + Delta(DownBytes(list), b.snapshot.all)
  {
    ColumnSums(list);
  }

  /** The database of one column. */
  class Ledger {
    var snapshot: Snapshot
    var tables: Tables
    var devices: map<(Date, string), int>

    ghost function Contents(): Books
      reads this
    {
      Books(snapshot, tables, devices)
    }

    constructor ()
      ensures Contents() == EMPTY_BOOKS
    {
      snapshot, tables, devices := Snapshot(0, map[]), EMPTY_TABLES, map[];
    }

    /** Steps 2 to 5 of `collect_traffic` for this column; an empty device list is skipped. */
    method Collect(list: seq<Listed>, upload: bool, date: Date, time: Time)
      modifies this
      ensures list == [] ==> Contents() == old(Contents())
      ensures list != [] ==> Contents() == Record(old(Contents()), Collection(date, time, Column(list, upload)))
    {
      if list == [] {
        return;
      }
      var items := Gather(list, upload);
      var all := 0;
      var rows := devices;
      var macs := snapshot.macs;
      ghost var left := items;
      for i := 0 to |items|
        invariant left == items[i..]
        invariant all + Sum(left) == Sum(items)
        invariant PostDevices(rows, date, left, snapshot.macs) == PostDevices(devices, date, items, snapshot.macs)
        invariant Replace(macs, left) == Replace(snapshot.macs, items)
        invariant snapshot == old(snapshot) && tables == old(tables) && devices == old(devices)
      {
        assert left[0] == items[i];
        left := left[1..];
        all := all + items[i].amount;
        rows := Upsert(rows, (date, items[i].mac), Delta(items[i].amount, Get(snapshot.macs, items[i].mac)));
        macs := macs[items[i].mac := items[i].amount];
      }
      tables := Post(tables, Posting(date, time, Delta(all, snapshot.all)));
      devices := rows;
      snapshot := Snapshot(all, macs);
    }

    method Gather(list: seq<Listed>, upload: bool) returns (items: seq<Item>)
      ensures items == Column(list, upload)
    {
      items := [];
      for i := 0 to |list|
        invariant items == Column(list[..i], upload)
      {
        assert list[..i + 1][..i] == list[..i];
        if TakesPart(list[i]) {
          items := items + [Item(NameOf(list[i]), if upload then list[i].up else list[i].down)];
        }
      }
      assert list[..|list|] == list;
    }
  }
}
