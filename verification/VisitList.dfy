/** The linked list of visit records behind one hash slot of a device. */
module VisitList {
  import opened Visits

  class Node {
    var appid: int
    var action: int
    var firstTime: int
    var latestTime: int
    var expire: bool
    var next: Node?

    constructor (appid: int, now: int)
      ensures this.appid == appid && firstTime == now && !expire && next == null
    {
      this.appid, action, firstTime, latestTime, expire, next := appid, 0, now, 0, false, null;
    }

    ghost function Value(): Visit
      reads this
    {
      Visit(appid, action, firstTime, latestTime, expire)
    }
  }

  /** The node at a position, null past the end. */
  ghost function At(nodes: seq<Node>, i: nat): Node? {
    if i < |nodes| then nodes[i] else null
  }

  ghost predicate Distinct(nodes: seq<Node>) {
    forall i, j :: 0 <= i < j < |nodes| ==> nodes[i] != nodes[j]
  }

  /** The `next` pointers run through exactly these nodes and then stop. */
  ghost predicate Linked(nodes: seq<Node>)
    reads nodes
  {
    forall i {:trigger nodes[i].next} :: 0 <= i < |nodes| ==> nodes[i].next == At(nodes, i + 1)
  }

  ghost predicate Holds(nodes: seq<Node>, vs: seq<Visit>)
    reads nodes
  {
    |nodes| == |vs| && forall i {:trigger nodes[i].Value()} :: 0 <= i < |nodes| ==> nodes[i].Value() == vs[i]
  }

  class Chain {
    var head: Node?
    ghost var nodes: seq<Node>
    ghost var visits: seq<Visit>

    ghost predicate Valid()
      reads this, nodes
    {
      head == At(nodes, 0) && Distinct(nodes) && Linked(nodes) && Holds(nodes, visits)
    }

    constructor ()
      ensures Valid() && visits == []
    {
      head, nodes, visits := null, [], [];
    }

    /** The session part of `appfilter_nl_handler`. */
    method Report(appid: int, action: int, now: int)
      requires Valid()
      modifies this, nodes
      ensures Valid() && forall x :: x in nodes ==> x in old(nodes) || fresh(x)
      ensures visits == Reported(old(visits), appid, action, now)
    {
      var p, i := FindOpen(appid, now);
      if p == null {
        p := new Node(appid, now);
        AddNode(p);
        i := 0;
        ghost var started := Visit(appid, action, now, now, false);
        assert visits[0 := started] == [started] + old(visits);
      }
      Extend(p, i, action, now);
    }

    method FindOpen(appid: int, now: int) returns (p: Node?, ghost i: nat)
      requires Valid()
      ensures i == FirstOpen(visits, appid, now) && p == At(nodes, FirstOpen(visits, appid, now))
    {
      p, i := head, 0;
      while p != null && !(p.appid == appid && now - p.latestTime < MERGE_GAP)
        invariant i <= |nodes| && p == At(nodes, i)
        invariant forall k :: 0 <= k < i ==> !Continues(visits[k], appid, now)
        decreases |nodes| - i
      {
        assert p.Value() == visits[i];
        i := i + 1;
        p := p.next;
      }
      assert p != null ==> p.Value() == visits[i];
    }

    /** `add_visit_info_node`: the new node becomes the head. */
    method AddNode(p: Node)
      requires Valid() && p !in nodes && p.next == null
      modifies this, p
      ensures Valid() && nodes == [p] + old(nodes) && visits == [old(p.Value())] + old(visits)
    {
      if head == null {
        head := p;
      } else {
        p.next := head;
        head := p;
      }
      nodes, visits := [p] + nodes, [p.Value()] + visits;
    }

    method Extend(p: Node, ghost i: nat, action: int, now: int)
      requires Valid() && i < |nodes| && p == nodes[i]
      modifies this`visits, p
      ensures Valid() && nodes == old(nodes)
      ensures visits == old(visits)[i := old(visits)[i].(action := action, latestTime := now)]
    {
      assert p.Value() == visits[i];
      p.action := action;
      p.latestTime := now;
      visits := visits[i := p.Value()];
    }

    /** `check_dev_visit_info_expire` on this chain. */
    method CheckExpire(now: int)
      requires Valid()
      modifies this`visits, nodes
      ensures Valid() && nodes == old(nodes)
      ensures visits == FlagAll(old(visits), now)
    {
      var p := head;
      ghost var i := 0;
      while p != null
        invariant i <= |nodes| && p == At(nodes, i) && nodes == old(nodes)
        invariant Valid() && |visits| == |old(visits)|
        invariant forall k :: 0 <= k < i ==> visits[k] == Flagged(old(visits)[k], now)
        invariant forall k :: i <= k < |visits| ==> visits[k] == old(visits)[k]
        decreases |nodes| - i
      {
        CheckNode(p, i, now);
        i := i + 1;
        p := p.next;
      }
    }

    method CheckNode(p: Node, ghost i: nat, now: int)
      requires Valid() && i < |nodes| && p == nodes[i]
      modifies this`visits, p`expire
      ensures Valid() && nodes == old(nodes)
      ensures visits == old(visits)[i := Flagged(old(visits)[i], now)]
    {
      assert p.Value() == visits[i];
      var total := p.latestTime - p.firstTime;
      var interval := now - p.firstTime;
      if interval > MAX_RECORD_TIME || interval < 0 {
        p.expire := true;
      } else if interval > RECORD_REMAIN_TIME {
        if total < INVALID_RECORD_TIME {
          p.expire := true;
        }
      }
      visits := visits[i := p.Value()];
    }

    /** `flush_expire_visit_info` on this chain: flagged nodes are unlinked while the list
        is walked. */
    method Flush()
      requires Valid()
      modifies this, nodes
      ensures Valid() && forall x :: x in nodes ==> x in old(nodes)
      ensures visits == Unexpired(old(visits))
    {
      var p := head;
      var prev: Node? := null;
      ghost var i: nat, k: nat := 0, 0;
      while p != null
        invariant Valid() && forall x :: x in nodes ==> x in old(nodes)
        invariant k <= |nodes| && p == At(nodes, k)
        invariant prev == if k == 0 then null else nodes[k - 1]
        invariant prev != null ==> prev in old(nodes)
        invariant Walked(old(visits), visits, i, k)
        decreases |old(visits)| - i
      {
        assert p.Value() == visits[k];
        WalkedStep(old(visits), visits, i, k);
        if p.expire {
          p := Unlink(prev, p, k);
        } else {
          assert p in nodes;
          prev := p;
          p := p.next;
          k := k + 1;
        }
        i := i + 1;
      }
      WalkedEnd(old(visits), visits, i, k);
    }

    /** The two passes as the minute timer runs them. */
    method ExpireRound(now: int)
      requires Valid()
      modifies this, nodes
      ensures Valid() && visits == Expired(old(visits), now)
    {
      CheckExpire(now);
      Flush();
    }

    /** Takes one node out; gives the node that follows. */
    method Unlink(prev: Node?, p: Node, ghost k: nat) returns (next: Node?)
      requires Valid() && k < |nodes| && p == nodes[k]
      requires prev == if k == 0 then null else nodes[k - 1]
      modifies this, prev
      ensures Valid() && nodes == Without(old(nodes), k)
      ensures forall x :: x in nodes ==> x in old(nodes)
      ensures visits == Without(old(visits), k) && next == At(nodes, k)
    {
      if prev == null {
        head := p.next;
        next := head;
        LinkedWithout(nodes, k);
      } else {
        Bypass(prev, p, nodes, visits, k);
        next := prev.next;
      }
      DistinctWithout(nodes, k);
      HoldsWithout(nodes, visits, k);
      nodes, visits := Without(nodes, k), Without(visits, k);
    }
  }

  method Bypass(prev: Node, p: Node, ghost nodes: seq<Node>, ghost visits: seq<Visit>, ghost k: nat)
    requires Distinct(nodes) && Linked(nodes) && Holds(nodes, visits)
    requires 0 < k < |nodes| && p == nodes[k] && prev == nodes[k - 1]
    modifies prev`next
    ensures Linked(Without(nodes, k)) && Holds(nodes, visits) && prev.next == At(nodes, k + 1)
  {
    prev.next := p.next;
    LinkedWithout(nodes, k);
  }

  lemma HoldsWithout(nodes: seq<Node>, visits: seq<Visit>, k: nat)
    requires Holds(nodes, visits) && k < |nodes|
    ensures Holds(Without(nodes, k), Without(visits, k))
  {
  }

  ghost function Without<T>(s: seq<T>, k: nat): (r: seq<T>)
    requires k < |s|
    ensures |r| == |s| - 1
    ensures forall j {:trigger r[j]} :: 0 <= j < |r| ==> r[j] == if j < k then s[j] else s[j + 1]
  {
    s[..k] + s[k + 1..]
  }

  lemma DistinctWithout(nodes: seq<Node>, k: nat)
    requires k < |nodes| && Distinct(nodes)
    ensures Distinct(Without(nodes, k))
  {
  }

  /** Once the pointer into position `k` passes it by, the remaining nodes are linked. */
  lemma LinkedWithout(nodes: seq<Node>, k: nat)
    requires k < |nodes|
    requires forall i {:trigger nodes[i].next} :: 0 <= i < |nodes| && i != k - 1 ==> nodes[i].next == At(nodes, i + 1)
    requires k > 0 ==> nodes[k - 1].next == At(nodes, k + 1)
    ensures Linked(Without(nodes, k))
  {
  }

  /** The first `i` records are dealt with: the unflagged ones come first, `k` of them. */
  ghost predicate Walked(was: seq<Visit>, now: seq<Visit>, i: nat, k: nat) {
    i <= |was| && k == |Unexpired(was[..i])| && now == Unexpired(was[..i]) + was[i..]
  }

  lemma WalkedStep(was: seq<Visit>, now: seq<Visit>, i: nat, k: nat)
    requires Walked(was, now, i, k) && k < |now|
    ensures i < |was| && now[k] == was[i]
    ensures was[i].expire ==> Walked(was, Without(now, k), i + 1, k)
    ensures !was[i].expire ==> Walked(was, now, i + 1, k + 1)
  {
    assert was[..i + 1][..i] == was[..i];
    var done := Unexpired(was[..i]);
    assert Unexpired(was[..i + 1]) == done + if was[i].expire then [] else [was[i]];
    if was[i].expire {
      assert Without(now, k) == done + was[i + 1..];
    } else {
      assert now == done + [was[i]] + was[i + 1..];
    }
  }

  lemma WalkedEnd(was: seq<Visit>, now: seq<Visit>, i: nat, k: nat)
    requires Walked(was, now, i, k) && k == |now|
    ensures now == Unexpired(was)
  {
    assert was[..i] == was;
  }
}
