/** The minutes behind every verdict: what each event and each tick does to them. */
module SplitMinutes {
  import opened Types
  import opened ClientTable
  import opened SplitTime
  import opened SplitProtocol

  /** The minutes of a device, none if it has no node. */
  function MinutesOf(nodes: seq<Node>, mac: string, morning: bool): nat {
    if nodes == [] then 0
    else if nodes[0].mac == mac then (if morning then nodes[0].am else nodes[0].pm)
    else MinutesOf(nodes[1..], mac, morning)
  }

  // ----- What the parts of a tick do -----

  lemma {:induction false} SameMinutes(a: seq<Node>, b: seq<Node>, mac: string, morning: bool)
    requires |a| == |b|
    requires forall i :: 0 <= i < |a| ==> a[i].mac == b[i].mac && a[i].am == b[i].am && a[i].pm == b[i].pm
    ensures MinutesOf(a, mac, morning) == MinutesOf(b, mac, morning)
    decreases |a|
  {
    if a != [] {
      SameMinutes(a[1..], b[1..], mac, morning);
    }
  }

  lemma {:induction false} NotThere(nodes: seq<Node>, mac: string, morning: bool)
    requires forall i :: 0 <= i < |nodes| ==> nodes[i].mac != mac
    ensures MinutesOf(nodes, mac, morning) == 0
    decreases |nodes|
  {
    if nodes != [] {
      NotThere(nodes[1..], mac, morning);
    }
  }

  lemma {:induction false} InsertMinutes(nodes: seq<Node>, n: Node, mac: string, morning: bool)
    requires n.am == 0 && n.pm == 0 && forall i :: 0 <= i < |nodes| ==> nodes[i].mac != n.mac
    ensures MinutesOf(InsertNode(nodes, n), mac, morning) == MinutesOf(nodes, mac, morning)
    decreases |nodes|
  {
    var r := InsertNode(nodes, n);
    if nodes == [] || Slot(nodes[0].mac) >= Slot(n.mac) {
      assert r == [n] + nodes && r[1..] == nodes;
      if mac == n.mac {
        NotThere(nodes, mac, morning);
      }
    } else {
      InsertMinutes(nodes[1..], n, mac, morning);
      assert r == [nodes[0]] + InsertNode(nodes[1..], n) && r[1..] == InsertNode(nodes[1..], n);
    }
  }

  /** A device that is new starts from nothing. */
  lemma {:induction false} SeenMinutes(nodes: seq<Node>, seen: seq<string>, mac: string, morning: bool)
    ensures MinutesOf(AddSeen(nodes, seen), mac, morning) == MinutesOf(nodes, mac, morning)
    decreases |seen|
  {
    if seen != [] {
      if exists i :: 0 <= i < |nodes| && nodes[i].mac == seen[0] {
        SeenMinutes(nodes, seen[1..], mac, morning);
      } else {
        var n := Node(seen[0], false, 0, 0, false);
        InsertMinutes(nodes, n, mac, morning);
        SeenMinutes(InsertNode(nodes, n), seen[1..], mac, morning);
      }
    }
  }

  lemma {:induction false} ExpiredMinutes(nodes: seq<Node>, gone: set<string>, mac: string, morning: bool)
    ensures MinutesOf(DropExpired(nodes, gone), mac, morning) == if mac in gone then 0 else MinutesOf(nodes, mac, morning)
    decreases |nodes|
  {
    if nodes != [] {
      ExpiredMinutes(nodes[1..], gone, mac, morning);
      var rest := DropExpired(nodes[1..], gone);
      if nodes[0].mac in gone {
        assert DropExpired(nodes, gone) == rest;
      } else {
        assert DropExpired(nodes, gone) == [nodes[0]] + rest && ([nodes[0]] + rest)[1..] == rest;
      }
    }
  }

  lemma {:induction false} ClearedMinutes(nodes: seq<Node>, mac: string, morning: bool)
    ensures MinutesOf(ClearMinutes(nodes), mac, morning) == 0
    decreases |nodes|
  {
    if nodes != [] {
      assert ClearMinutes(nodes)[1..] == ClearMinutes(nodes[1..]);
      ClearedMinutes(nodes[1..], mac, morning);
    }
  }

  /** The device that a single clear reaches. */
  predicate Reached(nodes: seq<Node>, text: string, mac: string) {
    && nodes != []
    && if EqualFold(nodes[0].mac, text) then nodes[0].mac == mac else Reached(nodes[1..], text, mac)
  }

  lemma {:induction false} ClearOneMinutes(nodes: seq<Node>, text: string, mac: string, morning: bool)
    ensures MinutesOf(ClearFirst(nodes, text), mac, morning) == if Reached(nodes, text, mac) then 0 else MinutesOf(nodes, mac, morning)
    decreases |nodes|
  {
    if nodes != [] {
      var r := ClearFirst(nodes, text);
      if EqualFold(nodes[0].mac, text) {
        assert r[1..] == nodes[1..];
      } else {
        assert r[1..] == ClearFirst(nodes[1..], text);
        ClearOneMinutes(nodes[1..], text, mac, morning);
        if nodes[0].mac == mac {
          OthersAreReached(nodes[1..], text, mac);
        }
      }
    }
  }

  lemma {:induction false} OthersAreReached(nodes: seq<Node>, text: string, mac: string)
    requires !EqualFold(mac, text)
    ensures !Reached(nodes, text, mac)
    decreases |nodes|
  {
    if nodes != [] {
      OthersAreReached(nodes[1..], text, mac);
    }
  }

  /** A reported minute counts once, for its device and its half day. */
  lemma {:induction false} CountedMinutes(nodes: seq<Node>, used: string, half: bool, mac: string, morning: bool)
    requires exists i :: 0 <= i < |nodes| && nodes[i].mac == used
    ensures MinutesOf(CountMinute(nodes, used, half), mac, morning)
         == MinutesOf(nodes, mac, morning) + if mac == used && morning == half then 1 else 0
    decreases |nodes|
  {
    var r := CountMinute(nodes, used, half);
    if nodes[0].mac == used {
      assert r[1..] == nodes[1..];
    } else {
      var i :| 0 <= i < |nodes| && nodes[i].mac == used;
      assert nodes[1..][i - 1].mac == used;
      assert r[1..] == CountMinute(nodes[1..], used, half);
      CountedMinutes(nodes[1..], used, half, mac, morning);
    }
  }

  lemma {:induction false} SeenIsThere(nodes: seq<Node>, mac: string)
    ensures exists i :: 0 <= i < |AddSeen(nodes, [mac])| && AddSeen(nodes, [mac])[i].mac == mac
  {
    assert [mac][1..] == [];
    if forall i :: 0 <= i < |nodes| ==> nodes[i].mac != mac {
      var n := Node(mac, false, 0, 0, false);
      InsertedIsThere(nodes, n);
      assert AddSeen(nodes, [mac]) == InsertNode(nodes, n);
    } else {
      assert AddSeen(nodes, [mac]) == nodes;
    }
  }

  lemma {:induction false} InsertedIsThere(nodes: seq<Node>, n: Node)
    ensures exists i :: 0 <= i < |InsertNode(nodes, n)| && InsertNode(nodes, n)[i] == n
    decreases |nodes|
  {
    var r := InsertNode(nodes, n);
    if nodes == [] || Slot(nodes[0].mac) >= Slot(n.mac) {
      assert r[0] == n;
    } else {
      InsertedIsThere(nodes[1..], n);
      var i :| 0 <= i < |InsertNode(nodes[1..], n)| && InsertNode(nodes[1..], n)[i] == n;
      assert r[i + 1] == n;
    }
  }

  // ----- Noon -----

  /** A pass at twelve o'clock in a minute not yet marked finds this device first. */
  predicate PassClears(nodes: seq<Node>, last: NoonMark, now: Clock, mac: string) {
    now.hour == 12 && now.min == 0 && last != NoonMark(12, 0) && nodes != [] && nodes[0].mac == mac
  }

  lemma PassMinutes(nodes: seq<Node>, last: NoonMark, now: Clock, mac: string, morning: bool)
    ensures MinutesOf(NoonReset(nodes, last, now), mac, morning)
         == if morning && PassClears(nodes, last, now, mac) then 0 else MinutesOf(nodes, mac, morning)
  {
    NoonResetMeaning(nodes, last, now);
    if nodes != [] && now.hour == 12 && now.min == 0 && last != NoonMark(12, 0) {
      assert NoonReset(nodes, last, now)[1..] == nodes[1..];
    }
  }

  /** A status update makes such a pass only where limits are checked: in time mode 2, with a
      positive limit for the afternoon of an enabled day. */
  predicate StatusClears(s: System, now: Clock, mac: string)
    requires GoodConfig(s.config) && GoodClock(now)
  {
    && s.config.enable == 1 && s.config.time.mode == 2
    && s.config.time.limits[now.wday].enable != 0 && s.config.time.limits[now.wday].pm > 0
    && PassClears(s.nodes, s.last, now, mac)
  }

  lemma StatusMinutes(scan: Scanner, s: System, now: Clock, other: bool, mac: string, morning: bool)
    requires GoodConfig(s.config) && GoodClock(now)
    ensures MinutesOf(UpdateStatus(scan, s, now, other).nodes, mac, morning)
         == if morning && StatusClears(s, now, mac) then 0 else MinutesOf(s.nodes, mac, morning)
  {
    var t := s.config.time;
    PassMinutes(s.nodes, s.last, now, mac, morning);
    var mid := if LimitAt(t, now) <= 0 then s.nodes else NoonReset(s.nodes, s.last, now);
    SameMinutes(JudgeAll(mid, LimitAt(t, now), now), mid, mac, morning);
  }

  /** The passes of a tick, one after the other. */
  predicate TickClears(scan: Scanner, s: System, o: Outside, mac: string)
    requires GoodConfig(s.config) && GoodOutside(o)
  {
    var s1 := if s.count % 10 == 0 then EveryTen(scan, s, o) else s;
    var s2 := if s.count % 60 == 0 then EverySixty(scan, s1, o) else s1;
    var checked := UpdateStatus(scan, s1, o.sixty.now, o.sixty.other);
    var kept := DropExpired(checked.nodes, o.expired);
    || (s.count % 10 == 0 && StatusClears(s.(nodes := Select(AddSeen(s.nodes, o.seen), o.picked)), o.ten.now, mac))
    || (s.count % 60 == 0 && StatusClears(s1, o.sixty.now, mac))
    || (s.count % 60 == 0 && PassClears(kept, checked.last, o.noon, mac))
    || (s.changed && StatusClears(s2.(config := o.stored, nodes := Select(s2.nodes, o.repicked)), o.reload.now, mac))
  }

  lemma TenMinutes(scan: Scanner, s: System, o: Outside, mac: string, morning: bool)
    requires GoodConfig(s.config) && GoodOutside(o)
    ensures var picked := s.(nodes := Select(AddSeen(s.nodes, o.seen), o.picked));
            MinutesOf(EveryTen(scan, s, o).nodes, mac, morning) ==
            if morning && StatusClears(picked, o.ten.now, mac) then 0 else MinutesOf(s.nodes, mac, morning)
  {
    var seen := AddSeen(s.nodes, o.seen);
    SeenMinutes(s.nodes, o.seen, mac, morning);
    SameMinutes(Select(seen, o.picked), seen, mac, morning);
    StatusMinutes(scan, s.(nodes := Select(seen, o.picked)), o.ten.now, o.ten.other, mac, morning);
  }

  lemma SixtyMinutes(scan: Scanner, s: System, o: Outside, mac: string, morning: bool)
    requires GoodConfig(s.config) && GoodOutside(o)
    ensures var checked := UpdateStatus(scan, s, o.sixty.now, o.sixty.other);
            var kept := DropExpired(checked.nodes, o.expired);
            MinutesOf(EverySixty(scan, s, o).nodes, mac, morning) ==
            if o.newDay || mac in o.expired then 0
            else if morning && (StatusClears(s, o.sixty.now, mac) || PassClears(kept, checked.last, o.noon, mac)) then 0
            else MinutesOf(s.nodes, mac, morning)
  {
    var checked := UpdateStatus(scan, s, o.sixty.now, o.sixty.other);
    var kept := DropExpired(checked.nodes, o.expired);
    var today := if o.newDay then ClearMinutes(kept) else kept;
    StatusMinutes(scan, s, o.sixty.now, o.sixty.other, mac, morning);
    ExpiredMinutes(checked.nodes, o.expired, mac, morning);
    ClearedMinutes(kept, mac, morning);
    PassMinutes(today, checked.last, o.noon, mac, morning);
  }

  lemma ReloadMinutes(scan: Scanner, s: System, o: Outside, mac: string, morning: bool)
    requires GoodOutside(o)
    ensures var picked := s.(config := o.stored, nodes := Select(s.nodes, o.repicked));
            MinutesOf(Reload(scan, s, o).nodes, mac, morning) ==
            if morning && StatusClears(picked, o.reload.now, mac) then 0 else MinutesOf(s.nodes, mac, morning)
  {
    var picked := s.(config := o.stored, nodes := Select(s.nodes, o.repicked));
    SameMinutes(picked.nodes, s.nodes, mac, morning);
    StatusMinutes(scan, picked, o.reload.now, o.reload.other, mac, morning);
  }

  /** Every tick leaves the minutes of every device as they are, except that a sixtieth tick
      clears both halves on a new day and drops expired devices, and that a noon pass clears
      the morning of the first device. */
  lemma TickMinutes(scan: Scanner, s: System, o: Outside, mac: string, morning: bool)
    requires GoodConfig(s.config) && GoodOutside(o)
    ensures MinutesOf(Tick(scan, s, o).nodes, mac, morning)
         == if s.count % 60 == 0 && (o.newDay || mac in o.expired) then 0
            else if morning && TickClears(scan, s, o, mac) then 0
            else MinutesOf(s.nodes, mac, morning)
  {
    var s1 := if s.count % 10 == 0 then EveryTen(scan, s, o) else s;
    TenMinutes(scan, s, o, mac, morning);
    SixtyMinutes(scan, s1, o, mac, morning);
    var s2 := if s.count % 60 == 0 then EverySixty(scan, s1, o) else s1;
    ReloadMinutes(scan, s2, o, mac, morning);
  }

  // ----- Whole runs -----

  /** The event that takes all minutes of this half day away from the device. */
  predicate Wiped(scan: Scanner, s: System, e: Event, mac: string, morning: bool)
    requires GoodConfig(s.config) && (e.TickNow? ==> GoodOutside(e.o))
  {
    match e
    case TickNow(o) => (s.count % 60 == 0 && (o.newDay || mac in o.expired)) || (morning && TickClears(scan, s, o, mac))
    case ClearDevice(text) => text == "" || Reached(s.nodes, text, mac)
    case ClearEveryone => true
    case OfflineFlushed(gone) => mac in gone
    case _ => false
  }

  lemma EventMinutes(scan: Scanner, s: System, e: Event, mac: string, morning: bool)
    requires GoodConfig(s.config) && (e.TickNow? ==> GoodOutside(e.o))
    ensures MinutesOf(Next(scan, s, e).nodes, mac, morning)
         == if Wiped(scan, s, e, mac, morning) then 0
            else MinutesOf(s.nodes, mac, morning) + if e == MinuteUsed(mac, morning) then 1 else 0
  {
    match e
    case TickNow(o) => TickMinutes(scan, s, o, mac, morning);
    case ClearDevice(text) =>
      ClearedMinutes(s.nodes, mac, morning);
      ClearOneMinutes(s.nodes, text, mac, morning);
      if !HasNode(s.nodes, text) {
        NobodyReached(s.nodes, text, mac);
      }
    case ClearEveryone => ClearedMinutes(s.nodes, mac, morning);
    case OfflineFlushed(gone) => ExpiredMinutes(s.nodes, gone, mac, morning);
    case MinuteUsed(used, half) =>
      SeenMinutes(s.nodes, [used], mac, morning);
      SeenIsThere(s.nodes, used);
      CountedMinutes(AddSeen(s.nodes, [used]), used, half, mac, morning);
    case _ =>
  }

  lemma {:induction false} NobodyReached(nodes: seq<Node>, text: string, mac: string)
    requires !HasNode(nodes, text)
    ensures !Reached(nodes, text, mac)
    decreases |nodes|
  {
    if nodes != [] {
      assert !EqualFold(nodes[0].mac, text);
      assert forall i :: 0 <= i < |nodes[1..]| ==> nodes[1..][i] == nodes[i + 1];
      NobodyReached(nodes[1..], text, mac);
    }
  }

  ghost predicate GoodEvents(es: seq<Event>) {
    forall i :: 0 <= i < |es| ==> es[i].TickNow? ==> GoodOutside(es[i].o)
  }

  function After(scan: Scanner, s: System, es: seq<Event>): (r: System)
    requires GoodConfig(s.config) && GoodEvents(es)
    ensures GoodConfig(r.config)
    decreases |es|
  {
    if es == [] then s
    else
      var mid := After(scan, s, es[..|es| - 1]);
      ConfigStaysGood(scan, mid, es[|es| - 1]);
      Next(scan, mid, es[|es| - 1])
  }

  lemma ConfigStaysGood(scan: Scanner, s: System, e: Event)
    requires GoodConfig(s.config) && (e.TickNow? ==> GoodOutside(e.o))
    ensures GoodConfig(Next(scan, s, e).config)
  {
  }

  /** Minutes reported for a device and half day since the latest event that wiped them. */
  function Reported(scan: Scanner, s: System, es: seq<Event>, mac: string, morning: bool): nat
    requires GoodConfig(s.config) && GoodEvents(es)
    decreases |es|
  {
    if es == [] then MinutesOf(s.nodes, mac, morning)
    else
      var e := es[|es| - 1];
      if Wiped(scan, After(scan, s, es[..|es| - 1]), e, mac, morning) then 0
      else Reported(scan, s, es[..|es| - 1], mac, morning) + if e == MinuteUsed(mac, morning) then 1 else 0
  }

  /** Over every run the minutes of every device are those reported since they were wiped. */
  lemma {:induction false} MinutesOverRuns(scan: Scanner, s: System, es: seq<Event>, mac: string, morning: bool)
    requires GoodConfig(s.config) && GoodEvents(es)
    ensures MinutesOf(After(scan, s, es).nodes, mac, morning) == Reported(scan, s, es, mac, morning)
    decreases |es|
  {
    if es != [] {
      var front := es[..|es| - 1];
      MinutesOverRuns(scan, s, front, mac, morning);
      EventMinutes(scan, After(scan, s, front), es[|es| - 1], mac, morning);
    }
  }

  // ----- The shared budget -----

  function MorningTotal(nodes: seq<Node>): nat {
    if nodes == [] then 0 else (if nodes[0].selected then nodes[0].am else 0) + MorningTotal(nodes[1..])
  }

  function AfternoonTotal(nodes: seq<Node>): nat {
    if nodes == [] then 0 else (if nodes[0].selected then nodes[0].pm else 0) + AfternoonTotal(nodes[1..])
  }

  lemma {:induction false} TotalMeaning(nodes: seq<Node>, now: Clock)
    ensures TotalMinutes(nodes, now) == if now.hour < 12 then MorningTotal(nodes) else AfternoonTotal(nodes)
    decreases |nodes|
  {
    if nodes != [] {
      TotalMeaning(nodes[1..], now);
    }
  }

  lemma {:induction false} NoonKeepsAfternoon(nodes: seq<Node>, last: NoonMark, now: Clock)
    ensures AfternoonTotal(NoonReset(nodes, last, now)) == AfternoonTotal(nodes)
  {
    if nodes != [] {
      assert NoonReset(nodes, last, now)[1..] == nodes[1..];
    }
  }

  /** Without split time the filter is on exactly when all managed devices together have used
      up a positive limit of the half day of an enabled day. */
  lemma SharedBudget(scan: Scanner, s: System, now: Clock, other: bool)
    requires GoodConfig(s.config) && GoodClock(now)
    requires s.config.enable == 1 && s.config.time.mode == 2 && s.config.time.split == 0
    ensures UpdateStatus(scan, s, now, other).kernel.enable == Bit(
              var day := s.config.time.limits[now.wday];
              day.enable != 0 && if now.hour < 12 then 0 < day.am <= MorningTotal(s.nodes) else 0 < day.pm <= AfternoonTotal(s.nodes))
  {
    NoonResetMeaning(s.nodes, s.last, now);
    TotalMeaning(NoonReset(s.nodes, s.last, now), now);
    NoonKeepsAfternoon(s.nodes, s.last, now);
  }

  /** In the other time modes the schedule decides, and a filter that is not enabled is off. */
  lemma OtherModes(scan: Scanner, s: System, now: Clock, other: bool)
    requires GoodConfig(s.config) && GoodClock(now)
    ensures s.config.enable != 1 ==> UpdateStatus(scan, s, now, other).kernel.enable == 0
    ensures s.config.enable == 1 && (s.config.time.mode == 0 || s.config.time.mode == 1) ==>
              (UpdateStatus(scan, s, now, other).kernel.enable == 1 <==> other)
    ensures s.config.time.mode != 0 && s.config.time.mode != 1 && s.config.time.mode != 2 ==>
              UpdateStatus(scan, s, now, other).kernel.enable == 0
  {
  }
}
