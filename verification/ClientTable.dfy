/** The kernel's table of client devices and the command file that blocks and
    unblocks them. */
module ClientTable {
  import opened Types

  const HASH_SIZE := 64
  const COMMAND_BUFFER := 256

  /** Text to address, as the kernel's scanner reads it. */
  type Scanner = string -> Option<Mac>

  // ----- What a command does to the blocked flags -----

  predicate Newline(c: char) {
    c == '\n' || c == '\r'
  }

  function Trim(s: string): (r: string)
    ensures |r| <= |s|
  {
    if s != "" && Newline(s[|s| - 1]) then Trim(s[..|s| - 1]) else s
  }

  /** Exactly the line ends at the end are taken off. */
  lemma {:induction false} TrimMeaning(s: string)
    ensures Trim(s) <= s && forall i :: |Trim(s)| <= i < |s| ==> s[i] as int == 10 || s[i] as int == 13
    ensures Trim(s) != "" ==> Trim(s)[|Trim(s)| - 1] as int != 10 && Trim(s)[|Trim(s)| - 1] as int != 13
    decreases |s|
  {
    if s != "" && Newline(s[|s| - 1]) {
      TrimMeaning(s[..|s| - 1]);
    }
  }

  /** The blocked flags after one write to `blocked_macs`; malformed writes change nothing. */
  function Exec(scan: Scanner, flags: map<Mac, bool>, text: string): map<Mac, bool> {
    var t := Trim(text);
    if |text| >= COMMAND_BUFFER then flags
    else if t == "clear" then map m | m in flags :: false
    else if |t| < 18 || (t[0] != '+' && t[0] != '-') then flags
    else match scan(t[1..])
      case None => flags
      case Some(mac) => if mac in flags then flags[mac := t[0] == '+'] else flags
  }

  /** Whether the write is a command at all; the others are refused with -EINVAL. */
  predicate WellFormed(scan: Scanner, text: string) {
    var t := Trim(text);
    && |text| < COMMAND_BUFFER
    && (t == "clear" || (|t| >= 18 && (t[0] == '+' || t[0] == '-') && scan(t[1..]).Some?))
  }

  // ----- The table -----

  function Bucket(mac: Mac): nat {
    mac[5] % HASH_SIZE
  }

  ghost predicate Lists(cs: seq<Client>, m: Mac) {
    exists i :: 0 <= i < |cs| && cs[i].mac == m
  }

  /** Bucket `b` holds exactly the clients of `flags` that hash to it, each once. */
  ghost predicate BucketOk(cs: seq<Client>, b: nat, flags: map<Mac, bool>) {
    && (forall i :: 0 <= i < |cs| ==> Bucket(cs[i].mac) == b && cs[i].mac in flags && flags[cs[i].mac] == cs[i].blocked)
    && (forall i, j :: 0 <= i < j < |cs| ==> cs[i].mac != cs[j].mac)
    && (forall m :: m in flags && Bucket(m) == b ==> Lists(cs, m))
  }

  class Table {
    var buckets: array<seq<Client>>
    ghost var flags: map<Mac, bool>

    ghost predicate Valid()
      reads this, buckets
    {
      && buckets.Length == HASH_SIZE
      && forall b :: 0 <= b < HASH_SIZE ==> BucketOk(buckets[b], b, flags)
    }

    constructor ()
      ensures Valid() && flags == map[] && fresh(buckets)
    {
      buckets := new seq<Client>[HASH_SIZE](_ => []);
      flags := map[];
    }

    /** `find_af_client` looks only in the bucket of the address. */
    method Find(mac: Mac) returns (r: Option<Client>)
      requires Valid()
      ensures r.Some? <==> mac in flags
      ensures r.Some? ==> r.value == Client(mac, flags[mac])
    {
      var cs := buckets[Bucket(mac)];
      assert BucketOk(cs, Bucket(mac), flags);
      for i := 0 to |cs|
        invariant forall k :: 0 <= k < i ==> cs[k].mac != mac
      {
        if cs[i].mac == mac {
          return Some(cs[i]);
        }
      }
      return None;
    }

    /** A packet of an unknown device adds it, unblocked, at the head of its bucket. */
    method FindOrAdd(mac: Mac)
      requires Valid()
      modifies this, buckets
      ensures Valid() && buckets == old(buckets)
      ensures flags == if mac in old(flags) then old(flags) else old(flags)[mac := false]
    {
      var found := Find(mac);
      if found.None? {
        var b := Bucket(mac);
        AddToBuckets(buckets[..], mac, flags);
        buckets[b] := [Client(mac, false)] + buckets[b];
        flags := flags[mac := false];
      }
    }

    /** The handler behind `blocked_macs`. */
    method Write(scan: Scanner, text: string) returns (ret: int)
      requires Valid()
      modifies this, buckets
      ensures Valid() && buckets == old(buckets)
      ensures flags == Exec(scan, old(flags), text)
      ensures ret == if WellFormed(scan, text) then 0 else -22
    {
      if |text| >= COMMAND_BUFFER {
        return -22;
      }
      var len := |text|;
      assert text[..len] == text;
      while len > 0 && Newline(text[len - 1])
        invariant 0 <= len <= |text| && Trim(text[..len]) == Trim(text)
      {
        assert text[..len][..len - 1] == text[..len - 1];
        len := len - 1;
      }
      var t := text[..len];
      if t == "clear" {
        Clear();
        return 0;
      }
      if |t| < 18 || (t[0] != '+' && t[0] != '-') {
        return -22;
      }
      var mac := scan(t[1..]);
      if mac.None? {
        return -22;
      }
      SetFlag(mac.value, t[0] == '+');
      return 0;
    }

    method Clear()
      requires Valid()
      modifies this, buckets
      ensures Valid() && buckets == old(buckets)
      ensures flags == map m | m in old(flags) :: false
    {
      ghost var flags' := map m | m in flags :: false;
      for b := 0 to HASH_SIZE
        invariant buckets == old(buckets) && buckets.Length == HASH_SIZE && flags == old(flags)
        invariant forall k :: 0 <= k < b ==> BucketOk(buckets[k], k, flags')
        invariant forall k :: b <= k < HASH_SIZE ==> BucketOk(buckets[k], k, flags)
      {
        var cs := ClearBucket(buckets[b], b, flags);
        buckets[b] := cs;
      }
      flags := flags';
    }

    /** The first client with this address, in bucket order, takes the new flag. */
    method SetFlag(mac: Mac, blocked: bool)
      requires Valid()
      modifies this, buckets
      ensures Valid() && buckets == old(buckets)
      ensures flags == if mac in old(flags) then old(flags)[mac := blocked] else old(flags)
    {
      for b := 0 to HASH_SIZE
        invariant Valid() && buckets == old(buckets) && flags == old(flags)
        invariant forall k :: 0 <= k < b ==> forall j :: 0 <= j < |buckets[k]| ==> buckets[k][j].mac != mac
      {
        var cs := buckets[b];
        assert BucketOk(cs, b, flags);
        for i := 0 to |cs|
          invariant forall k :: 0 <= k < i ==> cs[k].mac != mac
        {
          if cs[i].mac == mac {
            SetInBuckets(buckets[..], b, i, blocked, flags);
            buckets[b] := cs[i := Client(mac, blocked)];
            flags := flags[mac := blocked];
            return;
          }
        }
      }
      assert BucketOk(buckets[Bucket(mac)], Bucket(mac), flags);
      assert mac !in flags;
    }

    /** A client that has been silent for too long is taken out of its bucket. */
    method Remove(mac: Mac)
      requires Valid()
      modifies this, buckets
      ensures Valid() && buckets == old(buckets)
      ensures flags == old(flags) - {mac}
    {
      var cs := buckets[Bucket(mac)];
      assert BucketOk(cs, Bucket(mac), flags);
      for i := 0 to |cs|
        invariant forall k :: 0 <= k < i ==> cs[k].mac != mac
      {
        if cs[i].mac == mac {
          RemoveFromBuckets(buckets[..], Bucket(mac), i, flags);
          buckets[Bucket(mac)] := cs[..i] + cs[i + 1..];
          flags := flags - {mac};
          return;
        }
      }
      assert mac !in flags;
      assert flags - {mac} == flags;
    }
  }

  method ClearBucket(cs: seq<Client>, b: nat, ghost flags: map<Mac, bool>) returns (r: seq<Client>)
    requires BucketOk(cs, b, flags)
    ensures BucketOk(r, b, map m | m in flags :: false)
  {
    r := cs;
    for i := 0 to |cs|
      invariant |r| == |cs|
      invariant forall k :: 0 <= k < |cs| ==> r[k].mac == cs[k].mac
      invariant forall k :: 0 <= k < i ==> !r[k].blocked
    {
      r := r[i := r[i].(blocked := false)];
    }
    forall m | m in flags && Bucket(m) == b
      ensures Lists(r, m)
    {
      var i :| 0 <= i < |cs| && cs[i].mac == m;
      assert r[i].mac == m;
    }
  }

  /** A bucket is not affected by changes to clients that hash elsewhere. */
  lemma OtherBucket(cs: seq<Client>, b: nat, flags: map<Mac, bool>, flags': map<Mac, bool>)
    requires BucketOk(cs, b, flags)
    requires forall m :: Bucket(m) == b ==> (m in flags <==> m in flags') && (m in flags ==> flags[m] == flags'[m])
    ensures BucketOk(cs, b, flags')
  {
  }

  lemma AddToBucket(cs: seq<Client>, mac: Mac, flags: map<Mac, bool>)
    requires BucketOk(cs, Bucket(mac), flags) && mac !in flags
    ensures BucketOk([Client(mac, false)] + cs, Bucket(mac), flags[mac := false])
  {
    var r := [Client(mac, false)] + cs;
    forall m | m in flags[mac := false] && Bucket(m) == Bucket(mac)
      ensures Lists(r, m)
    {
      if m == mac {
        assert r[0].mac == m;
      } else {
        assert Lists(cs, m);
        var i :| 0 <= i < |cs| && cs[i].mac == m;
        assert r[i + 1].mac == m;
      }
    }
  }

  lemma AddToBuckets(bs: seq<seq<Client>>, mac: Mac, flags: map<Mac, bool>)
    requires |bs| == HASH_SIZE && mac !in flags
    requires forall b :: 0 <= b < HASH_SIZE ==> BucketOk(bs[b], b, flags)
    ensures forall b :: 0 <= b < HASH_SIZE ==>
              BucketOk(if b == Bucket(mac) then [Client(mac, false)] + bs[b] else bs[b], b, flags[mac := false])
  {
    forall b | 0 <= b < HASH_SIZE
      ensures BucketOk(if b == Bucket(mac) then [Client(mac, false)] + bs[b] else bs[b], b, flags[mac := false])
    {
      if b == Bucket(mac) {
        AddToBucket(bs[b], mac, flags);
      } else {
        OtherBucket(bs[b], b, flags, flags[mac := false]);
      }
    }
  }

  lemma SetInBucket(cs: seq<Client>, b: nat, i: nat, blocked: bool, flags: map<Mac, bool>)
    requires BucketOk(cs, b, flags) && i < |cs|
    ensures BucketOk(cs[i := Client(cs[i].mac, blocked)], b, flags[cs[i].mac := blocked])
  {
    var r := cs[i := Client(cs[i].mac, blocked)];
    forall m | m in flags[cs[i].mac := blocked] && Bucket(m) == b
      ensures Lists(r, m)
    {
      assert m in flags && Lists(cs, m);
      var j :| 0 <= j < |cs| && cs[j].mac == m;
      assert r[j].mac == m;
    }
  }

  lemma SetInBuckets(bs: seq<seq<Client>>, b: nat, i: nat, blocked: bool, flags: map<Mac, bool>)
    requires |bs| == HASH_SIZE && b < HASH_SIZE && i < |bs[b]|
    requires forall k :: 0 <= k < HASH_SIZE ==> BucketOk(bs[k], k, flags)
    ensures var mac := bs[b][i].mac;
            forall k :: 0 <= k < HASH_SIZE ==>
              BucketOk(if k == b then bs[k][i := Client(mac, blocked)] else bs[k], k, flags[mac := blocked])
  {
    var mac := bs[b][i].mac;
    forall k | 0 <= k < HASH_SIZE
      ensures BucketOk(if k == b then bs[k][i := Client(mac, blocked)] else bs[k], k, flags[mac := blocked])
    {
      if k == b {
        SetInBucket(bs[b], b, i, blocked, flags);
      } else {
        assert BucketOk(bs[b], b, flags);
        OtherBucket(bs[k], k, flags, flags[mac := blocked]);
      }
    }
  }

  lemma RemoveFromBucket(cs: seq<Client>, b: nat, i: nat, flags: map<Mac, bool>)
    requires BucketOk(cs, b, flags) && i < |cs|
    ensures BucketOk(cs[..i] + cs[i + 1..], b, flags - {cs[i].mac})
  {
    var r := cs[..i] + cs[i + 1..];
    RestOfBucket(cs, i);
    forall m | m in flags - {cs[i].mac} && Bucket(m) == b
      ensures Lists(r, m)
    {
      assert m in flags && Lists(cs, m);
    }
  }

  lemma {:induction false} RestOfBucket(cs: seq<Client>, i: nat)
    requires i < |cs| && forall j, k :: 0 <= j < k < |cs| ==> cs[j].mac != cs[k].mac
    ensures var r := cs[..i] + cs[i + 1..];
            && (forall k :: 0 <= k < |r| ==> r[k] in cs && r[k].mac != cs[i].mac)
            && (forall j, k :: 0 <= j < k < |r| ==> r[j].mac != r[k].mac)
            && (forall m :: Lists(cs, m) && m != cs[i].mac ==> Lists(r, m))
  {
    var r := cs[..i] + cs[i + 1..];
    forall m | Lists(cs, m) && m != cs[i].mac
      ensures Lists(r, m)
    {
      var j :| 0 <= j < |cs| && cs[j].mac == m;
      assert r[if j > i then j - 1 else j].mac == m;
    }
  }

  lemma RemoveFromBuckets(bs: seq<seq<Client>>, b: nat, i: nat, flags: map<Mac, bool>)
    requires |bs| == HASH_SIZE && b < HASH_SIZE && i < |bs[b]|
    requires forall k :: 0 <= k < HASH_SIZE ==> BucketOk(bs[k], k, flags)
    ensures forall k :: 0 <= k < HASH_SIZE ==>
              BucketOk(if k == b then bs[k][..i] + bs[k][i + 1..] else bs[k], k, flags - {bs[b][i].mac})
  {
    forall k | 0 <= k < HASH_SIZE
      ensures BucketOk(if k == b then bs[k][..i] + bs[k][i + 1..] else bs[k], k, flags - {bs[b][i].mac})
    {
      if k == b {
        RemoveFromBucket(bs[b], b, i, flags);
      } else {
        assert BucketOk(bs[b], b, flags);
        OtherBucket(bs[k], k, flags, flags - {bs[b][i].mac});
      }
    }
  }
}
