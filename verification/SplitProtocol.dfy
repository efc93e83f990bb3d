/** The daemon and the kernel together: what packets are dropped, what clearing does,
    and what holds at the end of every daemon tick. */
module SplitProtocol {
  import opened Types
  import opened ClientTable
  import opened SplitTime
  import Gateway
  import ConnMark

  // ----- State -----

  /** Kernel state that the daemon writes: per-client flags and the /proc/sys/oaf values. */
  datatype Kernel = Kernel(flags: map<Mac, bool>, enable: int, splitTime: int, appFilterMode: int)

  datatype System = System(nodes: seq<Node>, last: NoonMark, config: Config, kernel: Kernel, count: nat, changed: bool)

  function Bit(b: bool): int {
    if b then 1 else 0
  }

  // ----- Setting the filter switch -----

  function TotalMinutes(nodes: seq<Node>, now: Clock): nat {
    if nodes == [] then 0 else (if nodes[0].selected then MinutesAt(nodes[0], now) else 0) + TotalMinutes(nodes[1..], now)
  }

  /** The check of time mode 2: per device with split time, one shared budget without. */
  function CheckLimits(scan: Scanner, s: System, now: Clock): System
    requires GoodConfig(s.config) && GoodClock(now)
  {
    var t := s.config.time;
    var limit := LimitAt(t, now);
    if t.split != 0 then
      var nodes' := Checked(s.nodes, t, s.last, now);
      s.(nodes := nodes',
         last := if limit <= 0 then s.last else NextNoonMark(s.nodes, s.last, now),
         kernel := s.kernel.(flags := Synced(scan, s.kernel.flags, nodes'),
                             enable := Bit(limit > 0 && exists i :: 0 <= i < |nodes'| && nodes'[i].selected && MinutesAt(nodes'[i], now) >= limit)))
    else if limit <= 0 then s.(kernel := s.kernel.(enable := 0))
    else
      var nodes' := NoonReset(s.nodes, s.last, now);
      s.(nodes := nodes', last := NextNoonMark(s.nodes, s.last, now),
         kernel := s.kernel.(enable := Bit(TotalMinutes(nodes', now) >= limit)))
  }

  /** `update_oaf_status`; `other` is the answer of the schedule in time modes 0 and 1. */
  function UpdateStatus(scan: Scanner, s: System, now: Clock, other: bool): System
    requires GoodConfig(s.config) && GoodClock(now)
  {
    if s.config.enable != 1 then s.(kernel := s.kernel.(enable := 0))
    else if s.config.time.mode == 2 then CheckLimits(scan, s, now)
    else s.(kernel := s.kernel.(enable := Bit((s.config.time.mode == 0 || s.config.time.mode == 1) && other)))
  }

  // ----- Packets after a check -----

  /** The verdict that the gateway hook gives a packet of client `m`. */
  function PacketVerdict(k: Kernel, m: Mac, rules: Gateway.Rules, userMode: int, quic: int, hz: nat,
                         now: nat, updated: nat, p: Gateway.Packet, mark: ConnMark.Mark): Verdict
    requires m in k.flags
  {
    Gateway.Decide(Gateway.Globals(k.enable, k.splitTime, k.appFilterMode, quic, userMode, hz), rules,
                   Client(m, k.flags[m]), now, updated, p, mark).verdict
  }

  /** Split mode with all-apps filtering, seen from both sides. */
  predicate SplitAllApps(s: System) {
    && s.config.enable == 1 && s.config.time.mode == 2 && s.config.time.split == 1
    && s.kernel.splitTime == 1 && s.kernel.appFilterMode == 1
  }

  lemma EnableAfterCheck(scan: Scanner, s: System, now: Clock, other: bool)
    requires GoodConfig(s.config) && GoodClock(now) && SplitAllApps(s)
    ensures UpdateStatus(scan, s, now, other).kernel.enable == Bit(AnyOutOfTime(s.nodes, s.config.time, now))
  {
    var t := s.config.time;
    CheckedMeaning(s.nodes, t, s.last, now);
    var r := Checked(s.nodes, t, s.last, now);
    if i :| 0 <= i < |s.nodes| && OutOfTime(s.nodes[i], t, now) {
      assert r[i].selected && MinutesAt(r[i], now) >= LimitAt(t, now);
    }
    if LimitAt(t, now) > 0 {
      if i :| 0 <= i < |r| && r[i].selected && MinutesAt(r[i], now) >= LimitAt(t, now) {
        assert OutOfTime(s.nodes[i], t, now);
      }
    }
  }

  lemma FlagsAfterCheck(scan: Scanner, s: System, now: Clock, other: bool, m: Mac)
    requires GoodConfig(s.config) && GoodClock(now) && SplitAllApps(s) && m in s.kernel.flags
    ensures var k := UpdateStatus(scan, s, now, other).kernel;
            m in k.flags && (k.flags[m] <==> OutOfTimeFor(scan, s.nodes, s.config.time, now, m))
  {
    var r := Checked(s.nodes, s.config.time, s.last, now);
    SyncedMeaning(scan, s.kernel.flags, r);
    MarkedAfterCheck(scan, s.nodes, s.config.time, s.last, now, m);
    assert m in Synced(scan, s.kernel.flags, r).Keys;
  }

  /** After each check, any packet of a client is dropped exactly when a managed device with
      its address has used up the current half day, whatever the mark and the rules hold. */
  lemma DroppedIffOutOfTime(
      scan: Scanner, s: System, now: Clock, other: bool, m: Mac, rules: Gateway.Rules, userMode: int,
      quic: int, hz: nat, at: nat, updated: nat, p: Gateway.Packet, mark: ConnMark.Mark)
    requires GoodConfig(s.config) && GoodClock(now) && SplitAllApps(s) && m in s.kernel.flags
    ensures var k := UpdateStatus(scan, s, now, other).kernel;
            && m in k.flags
            && (PacketVerdict(k, m, rules, userMode, quic, hz, at, updated, p, mark) == Drop <==>
                OutOfTimeFor(scan, s.nodes, s.config.time, now, m))
  {
    EnableAfterCheck(scan, s, now, other);
    FlagsAfterCheck(scan, s, now, other, m);
    if i :| 0 <= i < |s.nodes| && OutOfTime(s.nodes[i], s.config.time, now) && Target(scan, s.nodes[i].mac) == Some(m) {
      assert AnyOutOfTime(s.nodes, s.config.time, now);
    }
  }

  /** The two tables agree on every device that addresses client `m`. */
  predicate SameFor(scan: Scanner, a: seq<Node>, b: seq<Node>, m: Mac) {
    && |a| == |b|
    && forall i :: 0 <= i < |a| ==> a[i].mac == b[i].mac && (Target(scan, a[i].mac) == Some(m) ==> a[i] == b[i])
  }

  /** What other devices have used never changes a client's verdict, although the
      filter switch is one global flag. */
  lemma OthersUsageIsInvisible(
      scan: Scanner, s: System, nodes': seq<Node>, now: Clock, other: bool, m: Mac, rules: Gateway.Rules, userMode: int,
      quic: int, hz: nat, at: nat, updated: nat, p: Gateway.Packet, mark: ConnMark.Mark)
    requires GoodConfig(s.config) && GoodClock(now) && SplitAllApps(s) && m in s.kernel.flags
    requires SameFor(scan, s.nodes, nodes', m)
    ensures var k := UpdateStatus(scan, s, now, other).kernel;
            var k' := UpdateStatus(scan, s.(nodes := nodes'), now, other).kernel;
            && m in k.flags && m in k'.flags
            && PacketVerdict(k, m, rules, userMode, quic, hz, at, updated, p, mark) ==
               PacketVerdict(k', m, rules, userMode, quic, hz, at, updated, p, mark)
  {
    DroppedIffOutOfTime(scan, s, now, other, m, rules, userMode, quic, hz, at, updated, p, mark);
    DroppedIffOutOfTime(scan, s.(nodes := nodes'), now, other, m, rules, userMode, quic, hz, at, updated, p, mark);
    var t := s.config.time;
    if i :| 0 <= i < |s.nodes| && OutOfTime(s.nodes[i], t, now) && Target(scan, s.nodes[i].mac) == Some(m) {
      assert OutOfTime(nodes'[i], t, now) && Target(scan, nodes'[i].mac) == Some(m);
    }
    if i :| 0 <= i < |nodes'| && OutOfTime(nodes'[i], t, now) && Target(scan, nodes'[i].mac) == Some(m) {
      assert OutOfTime(s.nodes[i], t, now) && Target(scan, s.nodes[i].mac) == Some(m);
    }
  }

  // ----- Clearing -----

  function Lower(c: char): char {
    if 'A' <= c <= 'Z' then (c as int + 32) as char else c
  }

  predicate EqualFold(a: string, b: string) {
    |a| == |b| && forall i :: 0 <= i < |a| ==> Lower(a[i]) == Lower(b[i])
  }

  /** Address texts that differ only in case scan to the same address. */
  ghost predicate CaseBlind(scan: Scanner) {
    forall a, b :: EqualFold(a, b) ==> scan(a) == scan(b)
  }

  function Cleared(n: Node): Node {
    n.(am := 0, pm := 0, blocked := false)
  }

  /** The table with the first node that matches `mac` cleared. */
  function ClearFirst(nodes: seq<Node>, mac: string): (r: seq<Node>)
    ensures |r| == |nodes|
  {
    if nodes == [] then []
    else if EqualFold(nodes[0].mac, mac) then [Cleared(nodes[0])] + nodes[1..]
    else [nodes[0]] + ClearFirst(nodes[1..], mac)
  }

  predicate HasNode(nodes: seq<Node>, mac: string) {
    exists i :: 0 <= i < |nodes| && EqualFold(nodes[i].mac, mac)
  }

  /** `reset_one_user_today_active_time` */
  function ClearOne(scan: Scanner, s: System, mac: string): System {
    if mac == "" || !HasNode(s.nodes, mac) then s
    else s.(nodes := ClearFirst(s.nodes, mac), kernel := s.kernel.(flags := Exec(scan, s.kernel.flags, "-" + mac)))
  }

  lemma {:induction false} TrimFolds(a: string, b: string)
    requires EqualFold(a, b)
    ensures EqualFold(Trim(a), Trim(b))
    decreases |a|
  {
    if a != "" {
      assert Lower(a[|a| - 1]) == Lower(b[|b| - 1]);
      if Newline(a[|a| - 1]) {
        TrimFolds(a[..|a| - 1], b[..|b| - 1]);
      }
    }
  }

  lemma {:induction false} ClearFirstMeaning(nodes: seq<Node>, mac: string) returns (i: nat)
    requires HasNode(nodes, mac)
    ensures i < |nodes| && EqualFold(nodes[i].mac, mac)
    ensures forall j :: 0 <= j < i ==> !EqualFold(nodes[j].mac, mac)
    ensures ClearFirst(nodes, mac) == nodes[i := Cleared(nodes[i])]
    decreases |nodes|
  {
    if EqualFold(nodes[0].mac, mac) {
      i := 0;
    } else {
      var k :| 0 <= k < |nodes| && EqualFold(nodes[k].mac, mac);
      assert nodes[1..][k - 1] == nodes[k];
      var j := ClearFirstMeaning(nodes[1..], mac);
      i := j + 1;
      forall k | 0 <= k < i
        ensures !EqualFold(nodes[k].mac, mac)
      {
        assert k > 0 ==> nodes[k] == nodes[1..][k - 1];
      }
    }
  }

  /** Clearing one device resets it on both sides and touches no other node and no
      other client. */
  lemma ClearOneMeaning(scan: Scanner, s: System, mac: string) returns (i: nat)
    requires CaseBlind(scan) && mac != "" && HasNode(s.nodes, mac)
    ensures i < |s.nodes| && EqualFold(s.nodes[i].mac, mac)
    ensures var s' := ClearOne(scan, s, mac);
            && s'.nodes == s.nodes[i := Cleared(s.nodes[i])]
            && s'.kernel.flags.Keys == s.kernel.flags.Keys
            && forall m :: m in s.kernel.flags ==>
                 s'.kernel.flags[m] == (s.kernel.flags[m] && Target(scan, s.nodes[i].mac) != Some(m))
  {
    i := ClearFirstMeaning(s.nodes, mac);
    TrimFolds(s.nodes[i].mac, mac);
    assert Target(scan, s.nodes[i].mac) == Target(scan, mac);
    ExecSigned(scan, s.kernel.flags, false, mac);
    assert ['-'] + mac == "-" + mac;
  }

  function ClearMinutes(nodes: seq<Node>): (r: seq<Node>)
    ensures |r| == |nodes| && forall i :: 0 <= i < |r| ==> r[i] == nodes[i].(am := 0, pm := 0)
  {
    seq(|nodes|, i requires 0 <= i < |nodes| => nodes[i].(am := 0, pm := 0))
  }

  /** `reset_all_users_today_active_time` */
  function ClearAll(s: System): System {
    s.(nodes := ClearMinutes(s.nodes))
  }

  ghost predicate NoneBlocked(flags: map<Mac, bool>) {
    forall m :: m in flags ==> !flags[m]
  }

  /** Clearing everyone and then checking leaves no client blocked. */
  lemma ClearAllUnblocks(scan: Scanner, s: System, now: Clock)
    requires GoodConfig(s.config) && GoodClock(now) && s.config.time.split != 0
    ensures NoneBlocked(CheckLimits(scan, ClearAll(s), now).kernel.flags)
  {
    var s' := ClearAll(s);
    var r := Checked(s'.nodes, s.config.time, s.last, now);
    CheckedMeaning(s'.nodes, s.config.time, s.last, now);
    SyncedMeaning(scan, s.kernel.flags, r);
    forall m | m in Synced(scan, s.kernel.flags, r)
      ensures !Synced(scan, s.kernel.flags, r)[m]
    {
      assert m in s.kernel.flags;
      assert !MarkedFor(scan, r, m);
    }
  }

  // ----- Daemon ticks -----

  /** The clock and the answer of the schedule at one status update. */
  datatype Reading = Reading(now: Clock, other: bool)

  /** What a tick finds outside, in the order it looks: devices seen and devices picked by
      the user lists, a reading for each status update, expired nodes, a new day, the clock
      of the noon pass, the stored configuration and the devices picked after loading it. */
  datatype Outside = Outside(
    seen: seq<string>, picked: set<string>, ten: Reading, sixty: Reading, expired: set<string>, newDay: bool, noon: Clock,
    stored: Config, repicked: set<string>, reload: Reading)

  predicate GoodOutside(o: Outside) {
    GoodClock(o.ten.now) && GoodClock(o.sixty.now) && GoodClock(o.noon) && GoodClock(o.reload.now) && GoodConfig(o.stored)
  }

  function Select(nodes: seq<Node>, picked: set<string>): (r: seq<Node>)
    ensures |r| == |nodes| && forall i :: 0 <= i < |r| ==> r[i] == nodes[i].(selected := nodes[i].mac in picked)
  {
    seq(|nodes|, i requires 0 <= i < |nodes| => nodes[i].(selected := nodes[i].mac in picked))
  }

  const NODE_SLOTS := 64
  const MAC_CHARS := 32

  function HashFrom(mac: string, i: nat, hash: nat): nat
    decreases |mac| - i
  {
    if i < |mac| && i < MAC_CHARS then HashFrom(mac, i + 1, (hash * 31 + mac[i] as int) % 0x1_0000_0000) else hash
  }

  /** `hash_mac` */
  function Slot(mac: string): nat {
    HashFrom(mac, 0, 0) % NODE_SLOTS
  }

  lemma {:induction false} HashGoesOn(mac: string, c: char, i: nat, hash: nat)
    requires i <= |mac| < MAC_CHARS
    ensures HashFrom(mac + [c], i, hash) == (HashFrom(mac, i, hash) * 31 + c as int) % 0x1_0000_0000
    decreases |mac| - i
  {
    if i < |mac| {
      HashGoesOn(mac, c, i + 1, (hash * 31 + mac[i] as int) % 0x1_0000_0000);
    }
  }

  lemma {:induction false} HashStops(mac: string, i: nat, hash: nat)
    requires i <= MAC_CHARS <= |mac|
    ensures HashFrom(mac, i, hash) == HashFrom(mac[..MAC_CHARS], i, hash)
    decreases |mac| - i
  {
    if i < MAC_CHARS {
      HashStops(mac, i + 1, (hash * 31 + mac[i] as int) % 0x1_0000_0000);
    }
  }

  lemma SixtyFours(x: int, k: int)
    ensures (x + 64 * k) % 64 == x % 64
  {
  }

  lemma LowBits(hash: nat, c: nat)
    ensures (hash * 31 + c) % 0x1_0000_0000 % 64 == (hash % 64 * 31 + c) % 64
  {
    var x := hash * 31 + c;
    var y, z := x % 0x1_0000_0000, hash % 64 * 31 + c;
    assert x == y + 64 * (x / 0x1_0000_0000 * 0x400_0000);
    SixtyFours(y, x / 0x1_0000_0000 * 0x400_0000);
    assert x == z + 64 * (hash / 64 * 31);
    SixtyFours(z, hash / 64 * 31);
  }

  /** The slot of a text is that of its first 32 characters, a base 31 number modulo 64. */
  lemma {:induction false} SlotMeaning(mac: string, c: char)
    ensures Slot("") == 0 && Slot(mac) < 64
    ensures |mac| < 32 ==> Slot(mac + [c]) == (Slot(mac) * 31 + c as int) % 64
    ensures |mac| >= 32 ==> Slot(mac + [c]) == Slot(mac)
  {
    if |mac| < 32 {
      HashGoesOn(mac, c, 0, 0);
      LowBits(HashFrom(mac, 0, 0), c as int);
    } else {
      HashStops(mac, 0, 0);
      HashStops(mac + [c], 0, 0);
      assert (mac + [c])[..32] == mac[..32];
    }
  }

  /** A new node goes to the head of the chain of its slot. */
  function InsertNode(nodes: seq<Node>, n: Node): seq<Node> {
    if nodes == [] || Slot(nodes[0].mac) >= Slot(n.mac) then [n] + nodes
    else [nodes[0]] + InsertNode(nodes[1..], n)
  }

  function AddSeen(nodes: seq<Node>, seen: seq<string>): seq<Node>
    decreases |seen|
  {
    if seen == [] then nodes
    else if exists i :: 0 <= i < |nodes| && nodes[i].mac == seen[0] then AddSeen(nodes, seen[1..])
    else AddSeen(InsertNode(nodes, Node(seen[0], false, 0, 0, false)), seen[1..])
  }

  /** The nodes stand in the order of the slots, so each chain is one stretch of them. */
  ghost predicate SlotOrder(nodes: seq<Node>) {
    forall i, j :: 0 <= i < j < |nodes| ==> Slot(nodes[i].mac) <= Slot(nodes[j].mac)
  }

  lemma {:induction false} InsertKeepsOrder(nodes: seq<Node>, n: Node)
    requires SlotOrder(nodes)
    ensures SlotOrder(InsertNode(nodes, n))
    ensures forall x :: x in InsertNode(nodes, n) <==> x in nodes || x == n
    decreases |nodes|
  {
    if nodes != [] && Slot(nodes[0].mac) < Slot(n.mac) {
      var rest := InsertNode(nodes[1..], n);
      InsertKeepsOrder(nodes[1..], n);
      assert nodes == [nodes[0]] + nodes[1..];
      forall j | 0 <= j < |rest|
        ensures Slot(nodes[0].mac) <= Slot(rest[j].mac)
      {
        assert rest[j] in rest;
      }
    }
  }

  /** Everybody of a lower slot stays before the new node, its own chain and the higher slots behind it. */
  lemma {:induction false} InsertAtHead(nodes: seq<Node>, n: Node) returns (k: nat)
    requires SlotOrder(nodes)
    ensures k <= |nodes| && InsertNode(nodes, n) == nodes[..k] + ([n] + nodes[k..])
    ensures forall i :: 0 <= i < k ==> Slot(nodes[i].mac) < Slot(n.mac)
    ensures forall i :: k <= i < |nodes| ==> Slot(nodes[i].mac) >= Slot(n.mac)
    decreases |nodes|
  {
    k := 0;
    if nodes != [] && Slot(nodes[0].mac) < Slot(n.mac) {
      var j := InsertAtHead(nodes[1..], n);
      k := j + 1;
      assert nodes[..k] == [nodes[0]] + nodes[1..][..j] && nodes[k..] == nodes[1..][j..];
      forall i | k <= i < |nodes|
        ensures Slot(nodes[i].mac) >= Slot(n.mac)
      {
        assert nodes[i] == nodes[1..][i - 1];
      }
      forall i | 0 <= i < k
        ensures Slot(nodes[i].mac) < Slot(n.mac)
      {
        assert i > 0 ==> nodes[i] == nodes[1..][i - 1];
      }
    }
  }

  function DropExpired(nodes: seq<Node>, expired: set<string>): seq<Node> {
    if nodes == [] then []
    else (if nodes[0].mac in expired then [] else [nodes[0]]) + DropExpired(nodes[1..], expired)
  }

  function EveryTen(scan: Scanner, s: System, o: Outside): System
    requires GoodConfig(s.config) && GoodOutside(o)
  {
    UpdateStatus(scan, s.(nodes := Select(AddSeen(s.nodes, o.seen), o.picked)), o.ten.now, o.ten.other)
  }

  function EverySixty(scan: Scanner, s: System, o: Outside): System
    requires GoodConfig(s.config) && GoodOutside(o)
  {
    var s1 := UpdateStatus(scan, s, o.sixty.now, o.sixty.other);
    var kept := DropExpired(s1.nodes, o.expired);
    var today := if o.newDay then ClearMinutes(kept) else kept;
    s1.(nodes := NoonReset(today, s1.last, o.noon), last := NextNoonMark(today, s1.last, o.noon))
  }

  /** `update_oaf_split_time_status` */
  function SplitStatus(scan: Scanner, s: System): System {
    var on := s.config.time.mode == 2 && s.config.time.split == 1;
    s.(kernel := s.kernel.(splitTime := Bit(on), flags := if on then s.kernel.flags else Exec(scan, s.kernel.flags, "clear")))
  }

  function Reload(scan: Scanner, s: System, o: Outside): System
    requires GoodOutside(o)
  {
    var s1 := s.(config := o.stored, nodes := Select(s.nodes, o.repicked));
    var s2 := UpdateStatus(scan, s1, o.reload.now, o.reload.other);
    SplitStatus(scan, s2.(kernel := s2.kernel.(appFilterMode := Bit(o.stored.appFilterMode == 1)))).(changed := false)
  }

  /** `oaf_timeout_handler` */
  function Tick(scan: Scanner, s: System, o: Outside): System
    requires GoodConfig(s.config) && GoodOutside(o)
  {
    var s1 := if s.count % 10 == 0 then EveryTen(scan, s, o) else s;
    var s2 := if s.count % 60 == 0 then EverySixty(scan, s1, o) else s1;
    var s3 := if s.changed then Reload(scan, s2, o) else s2;
    s3.(count := s.count + 1)
  }

  /** Whatever can happen: ticks, clears, configuration edits, minute reports, and
      clients that come and go in the kernel. */
  datatype Event =
    | TickNow(o: Outside)
    | ClearDevice(mac: string)
    | ClearEveryone
    | OfflineFlushed(gone: set<string>)
    | ConfigEdited
    | MinuteUsed(mac: string, morning: bool)
    | ClientArrives(m: Mac)
    | ClientLeaves(m: Mac)

  function CountMinute(nodes: seq<Node>, mac: string, morning: bool): seq<Node> {
    if nodes == [] then []
    else if nodes[0].mac == mac then
      [if morning then nodes[0].(am := nodes[0].am + 1) else nodes[0].(pm := nodes[0].pm + 1)] + nodes[1..]
    else [nodes[0]] + CountMinute(nodes[1..], mac, morning)
  }

  function Next(scan: Scanner, s: System, e: Event): System
    requires GoodConfig(s.config) && (e.TickNow? ==> GoodOutside(e.o))
  {
    match e
    case TickNow(o) => Tick(scan, s, o)
    case ClearDevice(mac) => (if mac == "" then ClearAll(s) else ClearOne(scan, s, mac)).(changed := true)
    case OfflineFlushed(gone) => s.(nodes := DropExpired(s.nodes, gone))
    case ClearEveryone => ClearAll(s).(changed := true)
    case ConfigEdited => s.(changed := true)
    case MinuteUsed(mac, morning) => s.(nodes := CountMinute(AddSeen(s.nodes, [mac]), mac, morning))
    case ClientArrives(m) =>
      if m in s.kernel.flags then s else s.(kernel := s.kernel.(flags := s.kernel.flags[m := false]))
    case ClientLeaves(m) => s.(kernel := s.kernel.(flags := s.kernel.flags - {m}))
  }

  /** The stored option is a proper switch. */
  predicate ProperSwitch(c: Config) {
    c.time.split == 0 || c.time.split == 1
  }

  ghost predicate Ready(s: System) {
    && s.kernel.splitTime == Bit(s.config.time.mode == 2 && s.config.time.split == 1)
    && (s.kernel.splitTime == 0 ==> NoneBlocked(s.kernel.flags))
  }

  ghost predicate Inv(s: System) {
    GoodConfig(s.config) && ProperSwitch(s.config) && (s.changed || Ready(s))
  }

  ghost predicate GoodEvent(e: Event) {
    e.TickNow? ==> GoodOutside(e.o) && ProperSwitch(e.o.stored)
  }

  lemma StatusKeepsReady(scan: Scanner, s: System, now: Clock, other: bool)
    requires GoodConfig(s.config) && GoodClock(now) && ProperSwitch(s.config)
    ensures var s' := UpdateStatus(scan, s, now, other);
            s'.config == s.config && s'.changed == s.changed && s'.count == s.count && (Ready(s) ==> Ready(s'))
  {
  }

  lemma ReloadMakesReady(scan: Scanner, s: System, o: Outside)
    requires GoodOutside(o)
    ensures var s' := Reload(scan, s, o); Ready(s') && s'.config == o.stored && !s'.changed
  {
    var s1 := s.(config := o.stored, nodes := Select(s.nodes, o.repicked));
    ExecClear(scan, UpdateStatus(scan, s1, o.reload.now, o.reload.other).kernel.flags);
  }

  lemma TickMakesReady(scan: Scanner, s: System, o: Outside)
    requires Inv(s) && GoodEvent(TickNow(o))
    ensures Ready(Tick(scan, s, o)) && Inv(Tick(scan, s, o))
  {
    var picked := s.(nodes := Select(AddSeen(s.nodes, o.seen), o.picked));
    StatusKeepsReady(scan, picked, o.ten.now, o.ten.other);
    var s1 := if s.count % 10 == 0 then EveryTen(scan, s, o) else s;
    StatusKeepsReady(scan, s1, o.sixty.now, o.sixty.other);
    var s2 := if s.count % 60 == 0 then EverySixty(scan, s1, o) else s1;
    assert s2.changed == s.changed && s2.config == s.config && (Ready(s) ==> Ready(s2));
    if s.changed {
      ReloadMakesReady(scan, s2, o);
    }
  }

  lemma NextKeepsInv(scan: Scanner, s: System, e: Event)
    requires Inv(s) && GoodEvent(e)
    ensures Inv(Next(scan, s, e))
  {
    if e.TickNow? {
      TickMakesReady(scan, s, e.o);
    }
  }

  ghost predicate RunsTo(scan: Scanner, s: System, es: seq<Event>, end: System)
    decreases |es|
  {
    if es == [] then s == end
    else exists mid ::
           && RunsTo(scan, s, es[..|es| - 1], mid)
           && GoodConfig(mid.config) && GoodEvent(es[|es| - 1]) && Next(scan, mid, es[|es| - 1]) == end
  }

  lemma {:induction false} RunKeepsInv(scan: Scanner, s: System, es: seq<Event>, end: System)
    requires Inv(s) && RunsTo(scan, s, es, end)
    ensures Inv(end)
    decreases |es|
  {
    if es != [] {
      var mid :| RunsTo(scan, s, es[..|es| - 1], mid)
                 && GoodConfig(mid.config) && GoodEvent(es[|es| - 1]) && Next(scan, mid, es[|es| - 1]) == end;
      RunKeepsInv(scan, s, es[..|es| - 1], mid);
      NextKeepsInv(scan, mid, es[|es| - 1]);
    }
  }

  /** Started with a pending configuration, whatever the kernel held before: at the end of
      every tick of every run, split mode off in the kernel means nobody is blocked. */
  lemma NobodyBlockedWhenOff(scan: Scanner, s: System, es: seq<Event>, before: System, o: Outside)
    requires GoodConfig(s.config) && ProperSwitch(s.config) && s.changed
    requires RunsTo(scan, s, es, before) && GoodEvent(TickNow(o))
    ensures GoodConfig(before.config)
    ensures Tick(scan, before, o).kernel.splitTime == 0 ==> NoneBlocked(Tick(scan, before, o).kernel.flags)
  {
    RunKeepsInv(scan, s, es, before);
    TickMakesReady(scan, before, o);
  }

  /** No client has a device that is out of time. */
  ghost predicate NobodyOut(scan: Scanner, nodes: seq<Node>, t: TimeConfig, now: Clock, flags: map<Mac, bool>)
    requires |t.limits| == 7 && now.wday < 7
  {
    forall m :: m in flags ==> !OutOfTimeFor(scan, nodes, t, now, m)
  }

  /** With any other value of the option (a missing one loads as -1) the check still runs
      while split mode is off in the kernel: after it nobody is blocked exactly when no
      client's device is out of time, whatever was blocked before. */
  lemma OddSwitchBlocksIff(scan: Scanner, s: System, now: Clock, other: bool)
    requires GoodConfig(s.config) && GoodClock(now) && !ProperSwitch(s.config)
    requires s.config.enable == 1 && s.config.time.mode == 2
    ensures UpdateStatus(scan, s, now, other).kernel.splitTime == s.kernel.splitTime
    ensures UpdateStatus(scan, s, now, other).kernel.flags.Keys == s.kernel.flags.Keys
    ensures NoneBlocked(UpdateStatus(scan, s, now, other).kernel.flags) <==>
            NobodyOut(scan, s.nodes, s.config.time, now, s.kernel.flags)
  {
    var r := Checked(s.nodes, s.config.time, s.last, now);
    SyncedMeaning(scan, s.kernel.flags, r);
    forall m | m in s.kernel.flags
      ensures Synced(scan, s.kernel.flags, r)[m] <==> OutOfTimeFor(scan, s.nodes, s.config.time, now, m)
    {
      MarkedAfterCheck(scan, s.nodes, s.config.time, s.last, now, m);
    }
  }

  /** The nodes and the clock of the last check in a tick that has one. */
  function LastCheck(scan: Scanner, s: System, o: Outside): (seq<Node>, Clock)
    requires GoodConfig(s.config) && GoodOutside(o)
  {
    if s.count % 60 == 0 then (EveryTen(scan, s, o).nodes, o.sixty.now)
    else (Select(AddSeen(s.nodes, o.seen), o.picked), o.ten.now)
  }

  /** So with such an option the law holds at the end of a tick exactly when the tick
      reloads, or nobody is out of time at its last check, or it has no check and nobody was
      blocked before. */
  lemma OddSwitchBreaksIt(scan: Scanner, s: System, o: Outside)
    requires GoodConfig(s.config) && GoodOutside(o) && !ProperSwitch(s.config)
    requires s.config.enable == 1 && s.config.time.mode == 2 && s.kernel.splitTime == 0
    ensures var k := Tick(scan, s, o).kernel;
            (k.splitTime == 0 ==> NoneBlocked(k.flags)) <==>
            || s.changed
            || (s.count % 10 != 0 && NoneBlocked(s.kernel.flags))
            || (s.count % 10 == 0 && NobodyOut(scan, LastCheck(scan, s, o).0, s.config.time, LastCheck(scan, s, o).1, s.kernel.flags))
  {
    if s.changed {
      var s1 := if s.count % 10 == 0 then EveryTen(scan, s, o) else s;
      ReloadMakesReady(scan, if s.count % 60 == 0 then EverySixty(scan, s1, o) else s1, o);
    } else if s.count % 10 == 0 {
      OddTenBlocksIff(scan, s, o);
      if s.count % 60 == 0 {
        OddSixtyBlocksIff(scan, EveryTen(scan, s, o), s.kernel.flags, o);
      }
    }
  }

  lemma OddTenBlocksIff(scan: Scanner, s: System, o: Outside)
    requires GoodConfig(s.config) && GoodOutside(o) && !ProperSwitch(s.config)
    requires s.config.enable == 1 && s.config.time.mode == 2
    ensures var s' := EveryTen(scan, s, o);
            && s'.config == s.config && s'.kernel.splitTime == s.kernel.splitTime && s'.kernel.flags.Keys == s.kernel.flags.Keys
            && (NoneBlocked(s'.kernel.flags) <==>
                NobodyOut(scan, Select(AddSeen(s.nodes, o.seen), o.picked), s.config.time, o.ten.now, s.kernel.flags))
  {
    OddSwitchBlocksIff(scan, s.(nodes := Select(AddSeen(s.nodes, o.seen), o.picked)), o.ten.now, o.ten.other);
  }

  lemma OddSixtyBlocksIff(scan: Scanner, s: System, clients: map<Mac, bool>, o: Outside)
    requires GoodConfig(s.config) && GoodOutside(o) && !ProperSwitch(s.config) && clients.Keys == s.kernel.flags.Keys
    requires s.config.enable == 1 && s.config.time.mode == 2
    ensures EverySixty(scan, s, o).kernel.splitTime == s.kernel.splitTime
    ensures NoneBlocked(EverySixty(scan, s, o).kernel.flags) <==> NobodyOut(scan, s.nodes, s.config.time, o.sixty.now, clients)
  {
    OddSwitchBlocksIff(scan, s, o.sixty.now, o.sixty.other);
    assert forall m :: m in clients <==> m in s.kernel.flags;
  }

  /** In split mode with all apps filtered, a tick without a reload checks every tenth time,
      and then blocks exactly the clients whose devices are out of time; other ticks leave the
      kernel alone. */
  lemma TickEnforces(scan: Scanner, s: System, o: Outside, m: Mac)
    requires GoodConfig(s.config) && GoodOutside(o) && SplitAllApps(s) && !s.changed && m in s.kernel.flags
    ensures var k := Tick(scan, s, o).kernel;
            && m in k.flags && k.splitTime == 1 && k.appFilterMode == 1
            && (s.count % 10 != 0 ==> k == s.kernel)
            && (s.count % 10 == 0 ==>
                  (k.flags[m] <==> OutOfTimeFor(scan, LastCheck(scan, s, o).0, s.config.time, LastCheck(scan, s, o).1, m)))
  {
    if s.count % 10 == 0 {
      TenEnforces(scan, s, o, m);
      if s.count % 60 == 0 {
        SixtyEnforces(scan, EveryTen(scan, s, o), o, m);
      }
    }
  }

  lemma TenEnforces(scan: Scanner, s: System, o: Outside, m: Mac)
    requires GoodConfig(s.config) && GoodOutside(o) && SplitAllApps(s) && m in s.kernel.flags
    ensures var s' := EveryTen(scan, s, o);
            && SplitAllApps(s') && s'.config == s.config && m in s'.kernel.flags
            && (s'.kernel.flags[m] <==>
                OutOfTimeFor(scan, Select(AddSeen(s.nodes, o.seen), o.picked), s.config.time, o.ten.now, m))
  {
    FlagsAfterCheck(scan, s.(nodes := Select(AddSeen(s.nodes, o.seen), o.picked)), o.ten.now, o.ten.other, m);
  }

  lemma SixtyEnforces(scan: Scanner, s: System, o: Outside, m: Mac)
    requires GoodConfig(s.config) && GoodOutside(o) && SplitAllApps(s) && m in s.kernel.flags
    ensures var k := EverySixty(scan, s, o).kernel;
            && k.splitTime == 1 && k.appFilterMode == 1 && m in k.flags
            && (k.flags[m] <==> OutOfTimeFor(scan, s.nodes, s.config.time, o.sixty.now, m))
  {
    FlagsAfterCheck(scan, s, o.sixty.now, o.sixty.other, m);
  }

  /** A reload takes over the stored configuration and its modes. */
  lemma ReloadTakesOver(scan: Scanner, s: System, o: Outside)
    requires GoodOutside(o)
    ensures var r := Reload(scan, s, o);
            && r.config == o.stored && !r.changed
            && (r.kernel.appFilterMode == 1 <==> o.stored.appFilterMode == 1)
            && (r.kernel.splitTime == 1 <==> o.stored.time.mode == 2 && o.stored.time.split == 1)
  {
  }

  /** A missing option, and one managed device that has used its hour of the morning. */
  function OddState(text: string, m: Mac): System {
    var limits := seq(7, _ => DailyLimit(1, 60, 60));
    System([Node(text, true, 60, 0, false)], NoonMark(-1, -1), Config(1, 1, TimeConfig(2, -1, limits)),
           Kernel(map[m := false], 0, 0, 1), 0, false)
  }

  /** There the law holds before a check at nine o'clock, and after it the client is blocked
      although split mode is off in the kernel. */
  lemma OddSwitchExample(scan: Scanner, text: string, m: Mac)
    requires Target(scan, text) == Some(m)
    ensures var s := OddState(text, m);
            && Ready(s) && GoodConfig(s.config)
            && UpdateStatus(scan, s, Clock(1, 9, 0), false).kernel.splitTime == 0
            && UpdateStatus(scan, s, Clock(1, 9, 0), false).kernel.flags == map[m := true]
  {
    var s, now := OddState(text, m), Clock(1, 9, 0);
    var r := Checked(s.nodes, s.config.time, s.last, now);
    SyncedMeaning(scan, s.kernel.flags, r);
    MarkedAfterCheck(scan, s.nodes, s.config.time, s.last, now, m);
    assert OutOfTime(s.nodes[0], s.config.time, now) && Target(scan, s.nodes[0].mac) == Some(m);
    assert Synced(scan, s.kernel.flags, r) == map[m := true];
  }
}
