/** Finding the server name in a TLS ClientHello by scanning the payload. */
module Sni {

  type Byte = b: int | 0 <= b < 256

  const HTTPS_URL_OFFSET := 9
  const HTTPS_LEN_OFFSET := 7
  const MIN_HOST_LEN := 4
  const MAX_HOST_LEN := 64
  const MIN_HELLO_LEN := 16

  predicate DomainByte(b: Byte) {
    || 'a' as int <= b <= 'z' as int
    || 'A' as int <= b <= 'Z' as int
    || '0' as int <= b <= '9' as int
    || b == '.' as int || b == '-' as int || b == ':' as int
  }

  predicate IsDomain(s: seq<Byte>) {
    forall i :: 0 <= i < |s| ==> DomainByte(s[i])
  }

  /** The big-endian 16-bit length field that belongs to position `i`. */
  function NameLen(p: seq<Byte>, i: nat): nat
    requires i + HTTPS_URL_OFFSET <= |p|
  {
    p[i + HTTPS_LEN_OFFSET] as int * 256 + p[i + HTTPS_LEN_OFFSET + 1] as int
  }

  /** Position `i` is taken as an extension whose host name fits inside the payload. */
  predicate Candidate(p: seq<Byte>, i: nat) {
    && i + HTTPS_URL_OFFSET < |p|
    && p[i] == 0 && p[i + 1] == 0 && p[i + 2] == 0 && p[i + 3] != 0
    && MIN_HOST_LEN < NameLen(p, i) <= MAX_HOST_LEN
    && i + HTTPS_URL_OFFSET + NameLen(p, i) < |p|
    && IsDomain(p[i + HTTPS_URL_OFFSET..i + HTTPS_URL_OFFSET + NameLen(p, i)])
  }

  predicate LooksLikeHello(p: seq<Byte>, carried: bool) {
    |p| >= MIN_HELLO_LEN && ((p[0] == 0x16 && p[1] == 0x03 && p[5] == 0x01) || carried)
  }

  /** The flow fields that the scan sets; `pos` and `len` are meaningful only on a match. */
  class Flow {
    var clientHello: bool
    var found: bool
    var pos: nat
    var len: nat

    constructor (carried: bool)
      ensures clientHello == carried && !found
    {
      clientHello := carried;
      found := false;
      pos, len := 0, 0;
    }

    method CheckDomain(h: seq<Byte>) returns (r: bool)
      ensures r == IsDomain(h)
    {
      for i := 0 to |h|
        invariant IsDomain(h[..i])
      {
        if !DomainByte(h[i]) {
          return false;
        }
      }
      assert h == h[..|h|];
      return true;
    }

    /** Reports the leftmost candidate; a hello without one raises the carry-over
        flag, a payload that is no hello changes nothing. */
    method ScanHello(p: seq<Byte>) returns (ret: int)
      modifies this
      ensures |p| < 16 || !((p[0] == 22 && p[1] == 3 && p[5] == 1) || old(clientHello)) ==>
                ret == -1 && clientHello == old(clientHello) && found == old(found) && pos == old(pos) && len == old(len)
      ensures LooksLikeHello(p, old(clientHello)) ==> (ret == 0 <==> exists i :: Candidate(p, i))
      ensures ret == 0 || ret == -1
      ensures ret == 0 ==>
                && found && !clientHello
                && 9 <= pos && pos + len < |p| && 5 <= len <= 64 && IsDomain(p[pos..pos + len])
                && Candidate(p, pos - 9) && len == NameLen(p, pos - 9)
                && forall j :: 0 <= j < pos - 9 ==> !Candidate(p, j)
      ensures ret == -1 && LooksLikeHello(p, old(clientHello)) ==>
                clientHello && found == old(found) && pos == old(pos) && len == old(len)
    {
      if |p| < MIN_HELLO_LEN {
        return -1;
      }
      if !((p[0] == 0x16 && p[1] == 0x03 && p[5] == 0x01) || clientHello) {
        return -1;
      }
      var i := 0;
      while i < |p|
        invariant 0 <= i && i + HTTPS_URL_OFFSET <= |p|
        invariant forall j :: 0 <= j < i ==> !Candidate(p, j)
        invariant clientHello == old(clientHello) && found == old(found) && pos == old(pos) && len == old(len)
      {
        if i + HTTPS_URL_OFFSET >= |p| {
          clientHello := true;
          assert !exists k :: Candidate(p, k);
          return -1;
        }
        if p[i] == 0 && p[i + 1] == 0 && p[i + 2] == 0 && p[i + 3] != 0 {
          var urlLen := NameLen(p, i);
          if !(urlLen <= MIN_HOST_LEN || urlLen > |p| || urlLen > MAX_HOST_LEN) {
            if i + HTTPS_URL_OFFSET + urlLen < |p| {
              var ok := CheckDomain(p[i + HTTPS_URL_OFFSET..i + HTTPS_URL_OFFSET + urlLen]);
              if ok {
                assert Candidate(p, i);
                found, pos, len := true, i + HTTPS_URL_OFFSET, urlLen;
                clientHello := false;
                return 0;
              }
            }
          }
        }
        i := i + 1;
      }
      return -1;
    }
  }

  /** The candidates in plain numbers: three zero bytes and a nonzero one, a length of 5 to 64
      in the eighth and ninth byte, and that many letters, digits, dots, dashes or colons,
      with a byte behind them. */
  lemma CandidateMeaning(p: seq<Byte>, i: nat)
    ensures Candidate(p, i) <==>
            && i + 9 < |p| && p[i] == 0 && p[i + 1] == 0 && p[i + 2] == 0 && p[i + 3] != 0
            && var len := p[i + 7] as int * 256 + p[i + 8] as int;
               && 5 <= len <= 64 && i + 9 + len < |p|
               && forall k {:trigger p[k]} :: i + 9 <= k < i + 9 + len ==>
                    || 97 <= p[k] <= 122 || 65 <= p[k] <= 90 || 48 <= p[k] <= 57 || p[k] == 46 || p[k] == 45 || p[k] == 58
  {
    if i + 9 < |p| && i + 9 + NameLen(p, i) < |p| {
      var host := p[i + 9..i + 9 + NameLen(p, i)];
      assert forall k {:trigger host[k]} :: 0 <= k < |host| ==> host[k] == p[i + 9 + k];
      assert forall k {:trigger p[k]} :: i + 9 <= k < i + 9 + |host| ==> p[k] == host[k - (i + 9)];
    }
  }

  // ----- Server name entries as section 3 of RFC 6066 lays them out -----

  function U16(n: nat): seq<Byte>
    requires n < 65536
  {
    [n / 256, n % 256]
  }

  /** extension type 0, extension length, list length, name type 0, name length, name */
  function ServerNameExtension(name: seq<Byte>, extLen: nat, listLen: nat): seq<Byte>
    requires |name| < 65536 && extLen < 65536 && listLen < 65536
  {
    U16(0) + U16(extLen) + U16(listLen) + [0] + U16(|name|) + name
  }

  /** A server name extension that ends before the last byte is a candidate, so the
      scan reports some host at or before it. */
  lemma ServerNameIsCandidate(before: seq<Byte>, name: seq<Byte>, extLen: nat, listLen: nat, after: seq<Byte>)
    requires 1 <= extLen <= 255 && listLen < 65536
    requires MIN_HOST_LEN < |name| <= MAX_HOST_LEN && IsDomain(name)
    requires after != []
    ensures Candidate(before + ServerNameExtension(name, extLen, listLen) + after, |before|)
  {
  }

  method FindServerName(before: seq<Byte>, name: seq<Byte>, extLen: nat, listLen: nat, after: seq<Byte>, carried: bool)
    returns (pos: nat, len: nat)
    requires 1 <= extLen <= 255 && listLen < 65536
    requires MIN_HOST_LEN < |name| <= MAX_HOST_LEN && IsDomain(name)
    requires after != []
    requires LooksLikeHello(before + ServerNameExtension(name, extLen, listLen) + after, carried)
    ensures HTTPS_URL_OFFSET <= pos <= |before| + HTTPS_URL_OFFSET
    ensures Candidate(before + ServerNameExtension(name, extLen, listLen) + after, pos - HTTPS_URL_OFFSET)
    ensures len == NameLen(before + ServerNameExtension(name, extLen, listLen) + after, pos - HTTPS_URL_OFFSET)
  {
    ServerNameIsCandidate(before, name, extLen, listLen, after);
    var flow := new Flow(carried);
    var ret := flow.ScanHello(before + ServerNameExtension(name, extLen, listLen) + after);
    return flow.pos, flow.len;
  }
}
