/** The simple connection table: hash buckets, and a timeout sweep that visits a few
    buckets per timer tick. */
module Conntrack {
  import opened Types
  import opened Sequences

  const HASH_SIZE := 256
  const MAX_CHECK := 5
  const LAST_CURSOR := 250

  datatype Key = Key(srcIp: nat, dstIp: nat, srcPort: nat, dstPort: nat, protocol: nat)

  datatype Entry = Entry(key: Key, lastJiffies: nat)

  /** The hash is arbitrary, but it stays inside the table. */
  type Hash = Key -> int

  ghost predicate GoodHash(hash: Hash) {
    forall k :: 0 <= hash(k) < HASH_SIZE
  }

  // ----- The table as a map from keys to the time of last use -----

  type View = map<Key, nat>

  predicate Stale(last: nat, now: nat, timeout: nat) {
    now > last + timeout
  }

  /** One sweep: stale entries leave the six buckets from the cursor on. */
  function SweepView(hash: Hash, view: View, cursor: int, now: nat, timeout: nat): View {
    map k | k in view && !(cursor <= hash(k) <= cursor + MAX_CHECK && Stale(view[k], now, timeout)) :: view[k]
  }

  function NextCursor(cursor: int): int {
    if cursor + MAX_CHECK == HASH_SIZE - 1 then 0 else cursor + MAX_CHECK
  }

  predicate GoodCursor(c: int) {
    0 <= c <= LAST_CURSOR && c % MAX_CHECK == 0
  }

  // ----- The buckets -----

  ghost predicate Listed(es: seq<Entry>, k: Key) {
    exists i :: 0 <= i < |es| && es[i].key == k
  }

  ghost predicate Distinct(es: seq<Entry>) {
    forall i, j :: 0 <= i < j < |es| ==> es[i].key != es[j].key
  }

  ghost predicate BucketOk(hash: Hash, es: seq<Entry>, b: int, view: View) {
    && (forall i :: 0 <= i < |es| ==> hash(es[i].key) == b && es[i].key in view && view[es[i].key] == es[i].lastJiffies)
    && Distinct(es)
    && (forall k :: k in view && hash(k) == b ==> Listed(es, k))
  }

  class Table {
    var buckets: array<seq<Entry>>
    var cursor: int
    ghost var view: View
    const hash: Hash

    ghost predicate Valid()
      reads this, buckets
    {
      && GoodHash(hash) && buckets.Length == HASH_SIZE && GoodCursor(cursor)
      && forall b :: 0 <= b < HASH_SIZE ==> BucketOk(hash, buckets[b], b, view)
    }

    constructor (hash: Hash)
      requires GoodHash(hash)
      ensures Valid() && view == map[] && cursor == 0 && this.hash == hash && fresh(buckets)
    {
      this.hash := hash;
      buckets := new seq<Entry>[HASH_SIZE](_ => []);
      cursor := 0;
      view := map[];
    }

    /** `af_conn_find` */
    method Find(k: Key) returns (r: Option<Entry>)
      requires Valid()
      ensures r.Some? <==> k in view
      ensures r.Some? ==> r.value == Entry(k, view[k])
    {
      var es := buckets[hash(k)];
      assert BucketOk(hash, es, hash(k), view);
      for i := 0 to |es|
        invariant forall j :: 0 <= j < i ==> es[j].key != k
      {
        if es[i].key == k {
          return Some(es[i]);
        }
      }
      return None;
    }

    /** `af_conn_find_and_add`, and the caller's refresh of the time of last use. */
    method Touch(k: Key, now: nat)
      requires Valid()
      modifies this`view, buckets
      ensures Valid() && view == old(view)[k := now]
    {
      var b := hash(k);
      var es := buckets[b];
      assert BucketOk(hash, es, b, view);
      var at := 0;
      while at < |es| && es[at].key != k
        invariant 0 <= at <= |es|
        invariant forall j :: 0 <= j < at ==> es[j].key != k
      {
        at := at + 1;
      }
      ghost var view' := view[k := now];
      ghost var before := buckets[..];
      if at < |es| {
        RefreshInBucket(hash, es, b, at, view, now);
        buckets[b] := es[at := Entry(k, now)];
      } else {
        AddToBucket(hash, es, k, view, now);
        buckets[b] := [Entry(k, now)] + es;
      }
      forall c | 0 <= c < HASH_SIZE
        ensures BucketOk(hash, buckets[c], c, view')
      {
        if c != b {
          assert buckets[c] == before[c];
          OtherBucket(hash, before[c], c, view, view');
        }
      }
      view := view';
    }

    /** `af_conn_clean_timeout` */
    method CleanTimeout(now: nat, timeout: nat)
      requires Valid()
      modifies this, buckets
      ensures Valid() && buckets == old(buckets)
      ensures view == SweepView(hash, old(view), old(cursor), now, timeout)
      ensures cursor == NextCursor(old(cursor))
    {
      var from := cursor;
      var i := cursor;
      var count := 0;
      ghost var view' := SweepView(hash, view, from, now, timeout);
      while i < HASH_SIZE && count <= MAX_CHECK
        invariant buckets == old(buckets) && buckets.Length == HASH_SIZE
        invariant view == old(view) && i == from + count && 0 <= count <= MAX_CHECK + 1
        invariant cursor == if count == 0 then from else from + count - 1
        invariant forall b :: from <= b < i ==> BucketOk(hash, buckets[b], b, view')
        invariant forall b :: 0 <= b < HASH_SIZE && !(from <= b < i) ==> BucketOk(hash, buckets[b], b, view)
      {
        LiveBucketOk(hash, buckets[i], i, view, from, now, timeout);
        var es := CleanBucket(buckets[i], now, timeout);
        buckets[i] := es;
        cursor := i;
        count := count + 1;
        i := i + 1;
      }
      forall b | 0 <= b < HASH_SIZE && !(from <= b < i)
        ensures BucketOk(hash, buckets[b], b, view')
      {
        OtherBucket(hash, buckets[b], b, view, view');
      }
      view := view';
      if cursor == HASH_SIZE - 1 {
        cursor := 0;
      }
    }
  }

  /** The entries of a bucket that are not stale, in order. */
  function Live(es: seq<Entry>, now: nat, timeout: nat): seq<Entry> {
    if es == [] then []
    else (if Stale(es[0].lastJiffies, now, timeout) then [] else [es[0]]) + Live(es[1..], now, timeout)
  }

  /** Deletes the stale entries of one bucket. */
  method CleanBucket(es: seq<Entry>, now: nat, timeout: nat) returns (r: seq<Entry>)
    ensures r == Live(es, now, timeout)
  {
    r := [];
    assert es[0..] == es;
    for i := 0 to |es|
      invariant r + Live(es[i..], now, timeout) == Live(es, now, timeout)
    {
      assert es[i..][1..] == es[i + 1..];
      if !Stale(es[i].lastJiffies, now, timeout) {
        Regroup(r, [es[i]], Live(es[i + 1..], now, timeout));
        r := r + [es[i]];
      }
    }
  }

  lemma {:induction false} LiveMembers(es: seq<Entry>, now: nat, timeout: nat)
    ensures forall e :: e in Live(es, now, timeout) <==> e in es && !Stale(e.lastJiffies, now, timeout)
    decreases |es|
  {
    if es != [] {
      LiveMembers(es[1..], now, timeout);
      assert es == [es[0]] + es[1..];
    }
  }

  lemma {:induction false} LiveDistinct(es: seq<Entry>, now: nat, timeout: nat)
    requires Distinct(es)
    ensures Distinct(Live(es, now, timeout))
    decreases |es|
  {
    if es != [] {
      var tail := Live(es[1..], now, timeout);
      LiveDistinct(es[1..], now, timeout);
      LiveMembers(es[1..], now, timeout);
      forall j | 0 <= j < |tail|
        ensures tail[j].key != es[0].key
      {
        assert tail[j] in es[1..];
      }
      var r := Live(es, now, timeout);
      if !Stale(es[0].lastJiffies, now, timeout) {
        assert r == [es[0]] + tail;
      } else {
        assert r == tail;
      }
    }
  }

  lemma LiveBucketOk(hash: Hash, es: seq<Entry>, b: int, view: View, cursor: int, now: nat, timeout: nat)
    requires BucketOk(hash, es, b, view) && cursor <= b <= cursor + MAX_CHECK
    ensures BucketOk(hash, Live(es, now, timeout), b, SweepView(hash, view, cursor, now, timeout))
  {
    var r := Live(es, now, timeout);
    var view' := SweepView(hash, view, cursor, now, timeout);
    LiveDistinct(es, now, timeout);
    LiveMembers(es, now, timeout);
    forall i | 0 <= i < |r|
      ensures hash(r[i].key) == b && r[i].key in view' && view'[r[i].key] == r[i].lastJiffies
    {
      assert r[i] in es;
    }
    forall k | k in view' && hash(k) == b
      ensures Listed(r, k)
    {
      assert Listed(es, k);
      var j :| 0 <= j < |es| && es[j].key == k;
      assert es[j] in es && es[j] in r;
    }
  }

  lemma OtherBucket(hash: Hash, es: seq<Entry>, b: int, view: View, view': View)
    requires BucketOk(hash, es, b, view)
    requires forall k :: hash(k) == b ==> (k in view <==> k in view') && (k in view ==> view[k] == view'[k])
    ensures BucketOk(hash, es, b, view')
  {
  }

  lemma AddToBucket(hash: Hash, es: seq<Entry>, k: Key, view: View, now: nat)
    requires BucketOk(hash, es, hash(k), view)
    requires forall j :: 0 <= j < |es| ==> es[j].key != k
    ensures BucketOk(hash, [Entry(k, now)] + es, hash(k), view[k := now])
  {
    var r := [Entry(k, now)] + es;
    forall n | n in view[k := now] && hash(n) == hash(k)
      ensures Listed(r, n)
    {
      if n == k {
        assert r[0].key == n;
      } else {
        assert Listed(es, n);
        var i :| 0 <= i < |es| && es[i].key == n;
        assert r[i + 1].key == n;
      }
    }
  }

  lemma RefreshInBucket(hash: Hash, es: seq<Entry>, b: int, at: nat, view: View, now: nat)
    requires BucketOk(hash, es, b, view) && at < |es|
    ensures BucketOk(hash, es[at := Entry(es[at].key, now)], b, view[es[at].key := now])
  {
    var r := es[at := Entry(es[at].key, now)];
    forall n | n in view[es[at].key := now] && hash(n) == b
      ensures Listed(r, n)
    {
      assert n in view && Listed(es, n);
      var i :| 0 <= i < |es| && es[i].key == n;
      assert r[i].key == n;
    }
  }

  // ----- Runs: what is freed and when -----

  datatype Event = Used(key: Key, at: nat) | Sweep(now: nat)

  datatype State = State(view: View, cursor: int)

  function Next(hash: Hash, timeout: nat, s: State, e: Event): State {
    match e
    case Used(k, at) => s.(view := s.view[k := at])
    case Sweep(now) => State(SweepView(hash, s.view, s.cursor, now, timeout), NextCursor(s.cursor))
  }

  function Run(hash: Hash, timeout: nat, s: State, es: seq<Event>): State
    decreases |es|
  {
    if es == [] then s else Run(hash, timeout, Next(hash, timeout, s, es[0]), es[1..])
  }

  function Sweeps(es: seq<Event>): nat {
    if es == [] then 0 else (if es[0].Sweep? then 1 else 0) + Sweeps(es[1..])
  }

  /** The cursor is always a multiple of five between 0 and 250, so no bucket is missed. */
  lemma {:induction false} CursorStaysGood(hash: Hash, timeout: nat, s: State, es: seq<Event>)
    requires GoodCursor(s.cursor)
    ensures var c := Run(hash, timeout, s, es).cursor; 0 <= c <= 250 && c % 5 == 0
    decreases |es|
  {
    if es != [] {
      CursorStaysGood(hash, timeout, Next(hash, timeout, s, es[0]), es[1..]);
    }
  }

  /** How many more sweeps pass before bucket `b` is visited from cursor `c`. */
  function Wait(b: int, c: int): int {
    if c <= b <= c + MAX_CHECK then 0
    else if b > c then (b - c - 1) / MAX_CHECK
    else (LAST_CURSOR - c) / MAX_CHECK + 1 + (if b == 0 then 0 else (b - 1) / MAX_CHECK)
  }

  lemma WaitShrinks(b: int, c: int)
    requires 0 <= b < HASH_SIZE && GoodCursor(c)
    ensures 0 <= Wait(b, c) <= 50
    ensures Wait(b, c) > 0 ==> Wait(b, NextCursor(c)) == Wait(b, c) - 1
    ensures Wait(b, c) == 0 <==> c <= b <= c + MAX_CHECK
  {
  }

  /** Every event leaves connection `k` alone and every sweep finds it stale. */
  ghost predicate LeavesIdle(es: seq<Event>, k: Key, last: nat, timeout: nat) {
    forall i :: 0 <= i < |es| ==>
      match es[i] case Used(key, _) => key != k case Sweep(now) => now > last + timeout
  }

  lemma {:induction false} FreedAfterWait(hash: Hash, timeout: nat, s: State, es: seq<Event>, k: Key, last: nat)
    requires GoodHash(hash) && GoodCursor(s.cursor)
    requires k in s.view ==> s.view[k] == last
    requires LeavesIdle(es, k, last, timeout)
    requires k in s.view ==> Sweeps(es) > Wait(hash(k), s.cursor)
    ensures k !in Run(hash, timeout, s, es).view
    decreases |es|
  {
    if es != [] {
      WaitShrinks(hash(k), s.cursor);
      FreedAfterWait(hash, timeout, Next(hash, timeout, s, es[0]), es[1..], k, last);
    }
  }

  /** A connection left idle past the timeout is gone after 51 further sweeps, whatever
      else the table does in between. */
  lemma IdleIsFreedIn51Sweeps(hash: Hash, timeout: nat, s: State, es: seq<Event>, k: Key)
    requires GoodHash(hash) && GoodCursor(s.cursor)
    requires k in s.view && LeavesIdle(es, k, s.view[k], timeout) && Sweeps(es) >= 51
    ensures k !in Run(hash, timeout, s, es).view
  {
    WaitShrinks(hash(k), s.cursor);
    FreedAfterWait(hash, timeout, s, es, k, s.view[k]);
  }

  lemma {:induction false} SweepsMissBucketZero(hash: Hash, timeout: nat, s: State, es: seq<Event>, k: Key)
    requires hash(k) == 0 && k in s.view && GoodCursor(s.cursor) && s.cursor > 0
    requires forall i :: 0 <= i < |es| ==> es[i].Sweep?
    requires |es| * MAX_CHECK <= LAST_CURSOR - s.cursor + MAX_CHECK
    ensures k in Run(hash, timeout, s, es).view
    decreases |es|
  {
    if es != [] {
      var s' := Next(hash, timeout, s, es[0]);
      if s'.cursor == 0 {
        assert |es| == 1;
        assert es[1..] == [];
      } else {
        SweepsMissBucketZero(hash, timeout, s', es[1..], k);
      }
    }
  }

  /** Fifty sweeps are not enough: a connection in bucket 0 survives them when the cursor
      has just moved on to 5. */
  lemma FiftySweepsAreNotEnough(hash: Hash, timeout: nat, view: View, es: seq<Event>, k: Key)
    requires hash(k) == 0 && k in view && |es| == 50 && forall i :: 0 <= i < |es| ==> es[i].Sweep?
    ensures k in Run(hash, timeout, State(view, 5), es).view
  {
    SweepsMissBucketZero(hash, timeout, State(view, 5), es, k);
  }

  /** A connection used at time `t` is still there, with its latest use, as long as no
      sweep comes later than the timeout after `t`. */
  lemma {:induction false} FreshIsNeverFreed(hash: Hash, timeout: nat, s: State, es: seq<Event>, k: Key, t: nat)
    requires k in s.view && s.view[k] >= t
    requires forall i :: 0 <= i < |es| ==>
               match es[i] case Used(key, at) => (key == k ==> at >= t) case Sweep(now) => now <= t + timeout
    ensures k in Run(hash, timeout, s, es).view && Run(hash, timeout, s, es).view[k] >= t
    decreases |es|
  {
    if es != [] {
      var s' := Next(hash, timeout, s, es[0]);
      assert k in s'.view && s'.view[k] >= t;
      FreshIsNeverFreed(hash, timeout, s', es[1..], k, t);
    }
  }
}
