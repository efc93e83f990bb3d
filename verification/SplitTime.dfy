/** Per-device time limits: the daemon counts minutes, decides who is out of time,
    replays the result into the kernel and sets the global filter switch. */
module SplitTime {
  import opened Types
  import opened ClientTable

  datatype Node = Node(mac: string, selected: bool, am: nat, pm: nat, blocked: bool)

  datatype DailyLimit = DailyLimit(enable: int, am: int, pm: int)

  datatype TimeConfig = TimeConfig(mode: int, split: int, limits: seq<DailyLimit>)

  datatype Config = Config(enable: int, appFilterMode: int, time: TimeConfig)

  datatype Clock = Clock(wday: nat, hour: nat, min: nat)

  predicate GoodClock(now: Clock) {
    now.wday < 7 && now.hour < 24 && now.min < 60
  }

  predicate GoodConfig(c: Config) {
    |c.time.limits| == 7
  }

  predicate Morning(now: Clock) {
    now.hour < 12
  }

  /** The limit of the current half day in minutes; no positive limit means no restriction. */
  function LimitAt(t: TimeConfig, now: Clock): int
    requires |t.limits| == 7 && now.wday < 7
  {
    var day := t.limits[now.wday];
    if day.enable == 0 then 0 else if Morning(now) then day.am else day.pm
  }

  function MinutesAt(n: Node, now: Clock): nat {
    if Morning(now) then n.am else n.pm
  }

  /** Reference meaning: this device is managed, the day has limits, and the device has used
      up a positive one, that of the morning before twelve and that of the afternoon after. */
  predicate OutOfTime(n: Node, t: TimeConfig, now: Clock)
    requires |t.limits| == 7 && now.wday < 7
  {
    && n.selected && t.limits[now.wday].enable != 0
    && if now.hour < 12 then 0 < t.limits[now.wday].am <= n.am else 0 < t.limits[now.wday].pm <= n.pm
  }

  // ----- Replaying the flags into the kernel -----

  /** The client that a command with this address text reaches. */
  function Target(scan: Scanner, mac: string): Option<Mac> {
    if |mac| + 1 >= COMMAND_BUFFER || |Trim(mac)| < 17 then None else scan(Trim(mac))
  }

  /** An address text of 17 to 254 characters reaches the client that the scanner reads in it;
      line ends behind it do not matter. */
  lemma TargetMeaning(scan: Scanner, mac: string)
    ensures mac != "" && mac[|mac| - 1] as int != 10 && mac[|mac| - 1] as int != 13 ==>
              Target(scan, mac) == if 17 <= |mac| <= 254 then scan(mac) else None
    ensures |mac| < 254 ==> Target(scan, mac + [10 as char]) == Target(scan, mac) == Target(scan, mac + [13 as char])
  {
    assert (mac + [10 as char])[..|mac|] == mac && (mac + [13 as char])[..|mac|] == mac;
  }

  function Marked(n: Node): bool {
    n.selected && n.blocked
  }

  function BlockAll(scan: Scanner, flags: map<Mac, bool>, nodes: seq<Node>): map<Mac, bool> {
    if nodes == [] then flags
    else BlockAll(scan, if Marked(nodes[0]) then Exec(scan, flags, "+" + nodes[0].mac) else flags, nodes[1..])
  }

  /** `clear`, then one `+MAC` for every marked node in table order. */
  function Synced(scan: Scanner, flags: map<Mac, bool>, nodes: seq<Node>): map<Mac, bool> {
    BlockAll(scan, Exec(scan, flags, "clear"), nodes)
  }

  lemma {:induction false} TrimSigned(c: char, s: string)
    requires !Newline(c)
    ensures Trim([c] + s) == [c] + Trim(s)
    decreases |s|
  {
    if s != "" && Newline(s[|s| - 1]) {
      assert ([c] + s)[..|s|] == [c] + s[..|s| - 1];
      TrimSigned(c, s[..|s| - 1]);
    }
  }

  lemma ExecSigned(scan: Scanner, flags: map<Mac, bool>, plus: bool, mac: string)
    ensures Exec(scan, flags, [if plus then '+' else '-'] + mac) ==
            match Target(scan, mac)
            case None => flags
            case Some(m) => if m in flags then flags[m := plus] else flags
  {
    var c := if plus then '+' else '-';
    TrimSigned(c, mac);
    var t := [c] + Trim(mac);
    assert t[0] == c && t[1..] == Trim(mac);
    assert t != "clear" by {
      assert "clear"[0] == 'c';
    }
  }

  lemma ExecClear(scan: Scanner, flags: map<Mac, bool>)
    ensures Exec(scan, flags, "clear") == map m | m in flags :: false
  {
  }

  /** Some marked node addresses this client. */
  ghost predicate MarkedFor(scan: Scanner, nodes: seq<Node>, m: Mac) {
    exists i :: 0 <= i < |nodes| && Marked(nodes[i]) && Target(scan, nodes[i].mac) == Some(m)
  }

  lemma {:induction false} BlockAllMeaning(scan: Scanner, flags: map<Mac, bool>, nodes: seq<Node>)
    ensures BlockAll(scan, flags, nodes).Keys == flags.Keys
    ensures forall m :: m in flags ==> (BlockAll(scan, flags, nodes)[m] <==> flags[m] || MarkedFor(scan, nodes, m))
    decreases |nodes|
  {
    if nodes != [] {
      var n := nodes[0];
      var flags' := if Marked(n) then Exec(scan, flags, "+" + n.mac) else flags;
      ExecSigned(scan, flags, true, n.mac);
      BlockAllMeaning(scan, flags', nodes[1..]);
      forall m | m in flags
        ensures MarkedFor(scan, nodes, m) <==> (Marked(n) && Target(scan, n.mac) == Some(m)) || MarkedFor(scan, nodes[1..], m)
      {
        MarkedForSplits(scan, nodes, m);
      }
    }
  }

  lemma MarkedForSplits(scan: Scanner, nodes: seq<Node>, m: Mac)
    requires nodes != []
    ensures MarkedFor(scan, nodes, m) <==>
            (Marked(nodes[0]) && Target(scan, nodes[0].mac) == Some(m)) || MarkedFor(scan, nodes[1..], m)
  {
  }

  /** After a sync, a client is blocked exactly when some marked node addresses it,
      whatever the kernel held before. */
  lemma SyncedMeaning(scan: Scanner, flags: map<Mac, bool>, nodes: seq<Node>)
    ensures Synced(scan, flags, nodes).Keys == flags.Keys
    ensures forall m :: m in flags ==> (Synced(scan, flags, nodes)[m] <==> MarkedFor(scan, nodes, m))
  {
    ExecClear(scan, flags);
    BlockAllMeaning(scan, Exec(scan, flags, "clear"), nodes);
  }

  // ----- The check -----

  function Judge(n: Node, limit: int, now: Clock): Node {
    if limit <= 0 then n.(blocked := false)
    else if n.selected then n.(blocked := MinutesAt(n, now) >= limit)
    else n
  }

  function JudgeAll(nodes: seq<Node>, limit: int, now: Clock): (r: seq<Node>)
    ensures |r| == |nodes| && forall i :: 0 <= i < |r| ==> r[i] == Judge(nodes[i], limit, now)
  {
    seq(|nodes|, i requires 0 <= i < |nodes| => Judge(nodes[i], limit, now))
  }

  /** When the noon reset last ran; a node is reset only if the minute 12:00 is new. */
  datatype NoonMark = NoonMark(hour: int, min: int)

  predicate Noon(now: Clock) {
    now.hour == 12 && now.min == 0
  }

  /** `check_all_users_period_time`: the mark is shared, so only the first node is reset. */
  function NoonReset(nodes: seq<Node>, last: NoonMark, now: Clock): (r: seq<Node>)
    ensures |r| == |nodes|
  {
    if nodes != [] && Noon(now) && last != NoonMark(12, 0) then [nodes[0].(am := 0)] + nodes[1..] else nodes
  }

  function NextNoonMark(nodes: seq<Node>, last: NoonMark, now: Clock): NoonMark {
    if nodes == [] then last else NoonMark(now.hour, now.min)
  }

  /** Only twelve o'clock sharp resets anything, and only the morning of the first device;
      the mark becomes the minute of the pass. */
  lemma NoonResetMeaning(nodes: seq<Node>, last: NoonMark, now: Clock)
    ensures now.hour != 12 || now.min != 0 ==> NoonReset(nodes, last, now) == nodes
    ensures nodes != [] && now.hour == 12 && now.min == 0 && last != NoonMark(12, 0) ==>
              NoonReset(nodes, last, now) == nodes[0 := nodes[0].(am := 0)]
    ensures nodes != [] ==> NextNoonMark(nodes, last, now) == NoonMark(now.hour, now.min)
  {
  }

  /** A noon pass clears the morning of every device exactly when those behind the first one
      have none; once the minute is marked it clears nobody's. */
  lemma NoonResetsAllIff(nodes: seq<Node>, last: NoonMark, now: Clock)
    requires Noon(now)
    ensures last == NoonMark(12, 0) ==> NoonReset(nodes, last, now) == nodes
    ensures (forall i :: 0 <= i < |nodes| ==> NoonReset(nodes, last, now)[i].am == 0) <==>
            forall i :: (if last == NoonMark(12, 0) then 0 else 1) <= i < |nodes| ==> nodes[i].am == 0
  {
    if nodes != [] && last != NoonMark(12, 0) {
      var r := NoonReset(nodes, last, now);
      assert r[0].am == 0 && forall i :: 1 <= i < |nodes| ==> r[i] == nodes[i];
    }
  }

  /** The table and the mark after several passes at one time. */
  function NoonPasses(nodes: seq<Node>, last: NoonMark, now: Clock, passes: nat): (seq<Node>, NoonMark)
    decreases passes
  {
    if passes == 0 then (nodes, last)
    else NoonPasses(NoonReset(nodes, last, now), NextNoonMark(nodes, last, now), now, passes - 1)
  }

  /** All passes of the noon minute together clear no more than the first one. */
  lemma {:induction false} LaterNoonPassesClearNobody(nodes: seq<Node>, last: NoonMark, now: Clock, passes: nat)
    requires Noon(now) && passes > 0
    ensures NoonPasses(nodes, last, now, passes) == (NoonReset(nodes, last, now), NextNoonMark(nodes, last, now))
    decreases passes
  {
    if passes > 1 {
      LaterNoonPassesClearNobody(NoonReset(nodes, last, now), NextNoonMark(nodes, last, now), now, passes - 1);
    }
  }

  /** Two devices at noon: the second one keeps its seven minutes. */
  lemma NoonMissesSecondDevice()
    ensures var nodes := [Node("a", true, 5, 0, false), Node("b", true, 7, 0, false)];
            var r := NoonReset(nodes, NoonMark(11, 59), Clock(1, 12, 0));
            r[0].am == 0 && r[1].am == 7
  {
  }

  /** At noon the current half day is the afternoon, so the minutes that count stay. */
  lemma NoonKeeps(nodes: seq<Node>, last: NoonMark, now: Clock, i: nat)
    requires i < |nodes|
    ensures var n := NoonReset(nodes, last, now)[i];
            && n.mac == nodes[i].mac && n.selected == nodes[i].selected && n.blocked == nodes[i].blocked
            && MinutesAt(n, now) == MinutesAt(nodes[i], now)
  {
  }

  /** The node table after `af_split_check_period_limit`. */
  function Checked(nodes: seq<Node>, t: TimeConfig, last: NoonMark, now: Clock): seq<Node>
    requires |t.limits| == 7 && now.wday < 7
  {
    var limit := LimitAt(t, now);
    JudgeAll(if limit <= 0 then nodes else NoonReset(nodes, last, now), limit, now)
  }

  ghost predicate AnyOutOfTime(nodes: seq<Node>, t: TimeConfig, now: Clock)
    requires |t.limits| == 7 && now.wday < 7
  {
    exists i :: 0 <= i < |nodes| && OutOfTime(nodes[i], t, now)
  }

  /** The check marks exactly the devices that are out of time and keeps everyone's
      identity, selection and minutes of the current half day. */
  lemma CheckedMeaning(nodes: seq<Node>, t: TimeConfig, last: NoonMark, now: Clock)
    requires |t.limits| == 7 && GoodClock(now)
    ensures var r := Checked(nodes, t, last, now);
            && |r| == |nodes|
            && forall i :: 0 <= i < |r| ==>
                 && r[i].mac == nodes[i].mac && r[i].selected == nodes[i].selected
                 && (if now.hour < 12 then r[i].am == nodes[i].am else r[i].pm == nodes[i].pm)
                 && (r[i].selected && r[i].blocked <==> OutOfTime(nodes[i], t, now))
  {
    forall i | 0 <= i < |nodes|
      ensures var r := Checked(nodes, t, last, now)[i];
              && r.mac == nodes[i].mac && r.selected == nodes[i].selected
              && MinutesAt(r, now) == MinutesAt(nodes[i], now) && (Marked(r) <==> OutOfTime(nodes[i], t, now))
    {
      NoonKeeps(nodes, last, now, i);
    }
  }

  /** Some device that addresses this client is out of time. */
  ghost predicate OutOfTimeFor(scan: Scanner, nodes: seq<Node>, t: TimeConfig, now: Clock, m: Mac)
    requires |t.limits| == 7 && now.wday < 7
  {
    exists i :: 0 <= i < |nodes| && OutOfTime(nodes[i], t, now) && Target(scan, nodes[i].mac) == Some(m)
  }

  lemma MarkedAfterCheck(scan: Scanner, nodes: seq<Node>, t: TimeConfig, last: NoonMark, now: Clock, m: Mac)
    requires |t.limits| == 7 && GoodClock(now)
    ensures MarkedFor(scan, Checked(nodes, t, last, now), m) <==> OutOfTimeFor(scan, nodes, t, now, m)
  {
    CheckedMeaning(nodes, t, last, now);
    var r := Checked(nodes, t, last, now);
    if i :| 0 <= i < |r| && Marked(r[i]) && Target(scan, r[i].mac) == Some(m) {
      assert OutOfTime(nodes[i], t, now);
    }
    if i :| 0 <= i < |nodes| && OutOfTime(nodes[i], t, now) && Target(scan, nodes[i].mac) == Some(m) {
      assert Marked(r[i]);
    }
  }
}
