/** The daemon's loops over its node table, writing commands into the kernel table. */
module SplitDaemon {
  import opened ClientTable
  import opened SplitTime
  import opened SplitProtocol

  class Daemon {
    /** The chains of the hash table, bucket by bucket, each from its head. */
    var nodes: seq<Node>
    var last: NoonMark
    const scan: Scanner
    const table: Table

    constructor (scan: Scanner, table: Table)
      ensures nodes == [] && last == NoonMark(-1, -1) && this.scan == scan && this.table == table
    {
      nodes, last := [], NoonMark(-1, -1);
      this.scan, this.table := scan, table;
    }

    ghost predicate Valid()
      reads this, table, table.buckets
    {
      table.Valid()
    }

    /** `af_split_sync_blocked_macs` */
    method Sync()
      requires Valid()
      modifies table, table.buckets
      ensures Valid() && table.buckets == old(table.buckets)
      ensures table.flags == Synced(scan, old(table.flags), nodes)
    {
      var ret := table.Write(scan, "clear");
      ghost var start := table.flags;
      assert nodes[0..] == nodes;
      for i := 0 to |nodes|
        invariant Valid() && table.buckets == old(table.buckets)
        invariant BlockAll(scan, table.flags, nodes[i..]) == BlockAll(scan, start, nodes)
      {
        assert nodes[i..][0] == nodes[i] && nodes[i..][1..] == nodes[i + 1..];
        if nodes[i].selected && nodes[i].blocked {
          ret := table.Write(scan, "+" + nodes[i].mac);
        }
      }
    }

    /** `check_all_users_period_time` */
    method CheckNoon(now: Clock)
      modifies this
      ensures nodes == NoonReset(old(nodes), old(last), now)
      ensures last == NextNoonMark(old(nodes), old(last), now)
    {
      ghost var start, mark := nodes, last;
      for i := 0 to |nodes|
        invariant |nodes| == |start|
        invariant i == 0 ==> nodes == start && last == mark
        invariant i > 0 ==> nodes == NoonReset(start, mark, now) && last == NoonMark(now.hour, now.min)
      {
        if now.hour == 12 && now.min == 0 {
          if last != NoonMark(12, 0) {
            nodes := nodes[i := nodes[i].(am := 0)];
            last := NoonMark(12, 0);
          }
        } else {
          last := NoonMark(now.hour, now.min);
        }
      }
    }

    method UnblockAll(ghost now: Clock)
      modifies this`nodes
      ensures nodes == JudgeAll(old(nodes), 0, now)
    {
      ghost var start := nodes;
      for i := 0 to |nodes|
        invariant |nodes| == |start|
        invariant forall k :: 0 <= k < i ==> nodes[k] == start[k].(blocked := false)
        invariant forall k :: i <= k < |nodes| ==> nodes[k] == start[k]
      {
        nodes := nodes[i := nodes[i].(blocked := false)];
      }
    }

    method JudgeNodes(limit: int, now: Clock) returns (ret: int)
      requires limit > 0
      modifies this`nodes
      ensures nodes == JudgeAll(old(nodes), limit, now)
      ensures ret == Bit(exists k :: 0 <= k < |old(nodes)| && old(nodes)[k].selected && MinutesAt(old(nodes)[k], now) >= limit)
    {
      ghost var start := nodes;
      ret := 0;
      for i := 0 to |nodes|
        invariant |nodes| == |start|
        invariant forall k :: 0 <= k < i ==> nodes[k] == Judge(start[k], limit, now)
        invariant forall k :: i <= k < |nodes| ==> nodes[k] == start[k]
        invariant ret == Bit(exists k :: 0 <= k < i && start[k].selected && MinutesAt(start[k], now) >= limit)
      {
        if nodes[i].selected {
          var used := if now.hour < 12 then nodes[i].am else nodes[i].pm;
          if used >= limit {
            ret := 1;
          }
          nodes := nodes[i := nodes[i].(blocked := used >= limit)];
        }
      }
    }

    /** `af_split_check_period_limit`: returns 1 when some managed device is out of time. */
    method CheckPeriodLimit(t: TimeConfig, now: Clock) returns (ret: int)
      requires Valid() && |t.limits| == 7 && GoodClock(now)
      modifies this, table, table.buckets
      ensures Valid() && table.buckets == old(table.buckets)
      ensures nodes == Checked(old(nodes), t, old(last), now)
      ensures last == if LimitAt(t, now) <= 0 then old(last) else NextNoonMark(old(nodes), old(last), now)
      ensures table.flags == Synced(scan, old(table.flags), nodes)
      ensures ret == Bit(AnyOutOfTime(old(nodes), t, now))
    {
      ghost var start := nodes;
      CheckedMeaning(nodes, t, last, now);
      var day := t.limits[now.wday];
      var limit := if now.hour < 12 then day.am else day.pm;
      if day.enable == 0 || limit <= 0 {
        UnblockAll(now);
        assert nodes == Checked(start, t, old(last), now);
        Sync();
        return 0;
      }
      CheckNoon(now);
      ghost var mid := nodes;
      ret := JudgeNodes(limit, now);
      assert nodes == Checked(start, t, old(last), now);
      AnyoneOver(start, mid, t, now);
      Sync();
    }

    /** `reset_one_user_today_active_time` */
    method ResetOne(mac: string)
      requires Valid()
      modifies this`nodes, table, table.buckets
      ensures Valid() && table.buckets == old(table.buckets)
      ensures mac != "" && HasNode(old(nodes), mac) ==>
                nodes == ClearFirst(old(nodes), mac) && table.flags == Exec(scan, old(table.flags), "-" + mac)
      ensures mac == "" || !HasNode(old(nodes), mac) ==> nodes == old(nodes) && table.flags == old(table.flags)
    {
      if mac == "" {
        return;
      }
      for i := 0 to |nodes|
        invariant Valid() && table.buckets == old(table.buckets) && table.flags == old(table.flags) && nodes == old(nodes)
        invariant forall k :: 0 <= k < i ==> !EqualFold(nodes[k].mac, mac)
      {
        if EqualFold(nodes[i].mac, mac) {
          var j := ClearFirstMeaning(nodes, mac);
          nodes := nodes[i := nodes[i].(am := 0, pm := 0, blocked := false)];
          var ret := table.Write(scan, "-" + mac);
          return;
        }
      }
    }

    /** `reset_all_users_today_active_time` */
    method ResetAll()
      modifies this`nodes
      ensures nodes == ClearMinutes(old(nodes))
    {
      ghost var start := nodes;
      for i := 0 to |nodes|
        invariant |nodes| == |start|
        invariant forall k :: 0 <= k < i ==> nodes[k] == start[k].(am := 0, pm := 0)
        invariant forall k :: i <= k < |nodes| ==> nodes[k] == start[k]
      {
        nodes := nodes[i := nodes[i].(am := 0, pm := 0)];
      }
    }
  }

  lemma AnyoneOver(start: seq<Node>, mid: seq<Node>, t: TimeConfig, now: Clock)
    requires |t.limits| == 7 && GoodClock(now) && LimitAt(t, now) > 0 && |mid| == |start|
    requires forall i :: 0 <= i < |mid| ==> mid[i].selected == start[i].selected && MinutesAt(mid[i], now) == MinutesAt(start[i], now)
    ensures AnyOutOfTime(start, t, now) <==> exists k :: 0 <= k < |mid| && mid[k].selected && MinutesAt(mid[k], now) >= LimitAt(t, now)
  {
  }
}
