/** Visit sessions: what a list of records means, apart from how it is linked. */
module Visits {
  import opened Sequences

  datatype Visit = Visit(appid: int, action: int, firstTime: int, latestTime: int, expire: bool)

  const MERGE_GAP := 300
  const MAX_RECORD_TIME := 24 * 60 * 60
  const RECORD_REMAIN_TIME := 60 * 60
  const INVALID_RECORD_TIME := 5 * 60

  // ----- Reports -----

  predicate Continues(v: Visit, appid: int, now: int) {
    v.appid == appid && now - v.latestTime < MERGE_GAP
  }

  /** Position of the first record that the report continues; the length if there is none. */
  function FirstOpen(vs: seq<Visit>, appid: int, now: int): (i: nat)
    ensures i <= |vs|
    ensures i < |vs| ==> Continues(vs[i], appid, now)
    ensures forall k :: 0 <= k < i ==> !Continues(vs[k], appid, now)
  {
    if vs == [] || Continues(vs[0], appid, now) then 0 else 1 + FirstOpen(vs[1..], appid, now)
  }

  /** The report continues an open record, or starts one at the head. */
  function Reported(vs: seq<Visit>, appid: int, action: int, now: int): seq<Visit> {
    var i := FirstOpen(vs, appid, now);
    if i < |vs| then vs[i := vs[i].(action := action, latestTime := now)]
    else [Visit(appid, action, now, now, false)] + vs
  }

  /** A report touches one record of its app and no other: one seen less than 300 s ago, which
      only moves its latest time and takes the action, or else a new one at the head. */
  lemma ReportedMeaning(vs: seq<Visit>, appid: int, action: int, now: int)
    ensures var r := Reported(vs, appid, action, now);
            || (exists i :: 0 <= i < |vs| && vs[i].appid == appid && now - vs[i].latestTime < 300
                  && r == vs[i := Visit(appid, action, vs[i].firstTime, now, vs[i].expire)])
            || ((forall i :: 0 <= i < |vs| && vs[i].appid == appid ==> now - vs[i].latestTime >= 300)
                  && r == [Visit(appid, action, now, now, false)] + vs)
  {
    var i := FirstOpen(vs, appid, now);
    if i < |vs| {
      assert vs[i].appid == appid && now - vs[i].latestTime < 300;
    } else {
      forall k | 0 <= k < |vs| && vs[k].appid == appid
        ensures now - vs[k].latestTime >= 300
      {
        assert !Continues(vs[k], appid, now);
      }
    }
  }

  // ----- Expiry -----

  predicate TooOld(v: Visit, now: int) {
    var age := now - v.firstTime;
    if age > MAX_RECORD_TIME || age < 0 then true
    else age > RECORD_REMAIN_TIME && v.latestTime - v.firstTime < INVALID_RECORD_TIME
  }

  function Flagged(v: Visit, now: int): Visit {
    v.(expire := v.expire || TooOld(v, now))
  }

  function FlagAll(vs: seq<Visit>, now: int): (r: seq<Visit>)
    ensures |r| == |vs|
    ensures forall i :: 0 <= i < |vs| ==> r[i] == Flagged(vs[i], now)
  {
    if vs == [] then [] else [Flagged(vs[0], now)] + FlagAll(vs[1..], now)
  }

  /** The records without the flag, in order. */
  function Unexpired(vs: seq<Visit>): seq<Visit> {
    if vs == [] then []
    else Unexpired(vs[..|vs| - 1]) + if vs[|vs| - 1].expire then [] else [vs[|vs| - 1]]
  }

  function Expired(vs: seq<Visit>, now: int): seq<Visit> {
    Unexpired(FlagAll(vs, now))
  }

  /** At most a day old, and at most an hour old or at least five minutes long. */
  predicate Keeps(v: Visit, now: int) {
    && 0 <= now - v.firstTime <= 86400
    && (now - v.firstTime <= 3600 || v.latestTime - v.firstTime >= 300)
  }

  function Kept(vs: seq<Visit>, now: int): seq<Visit> {
    if vs == [] then []
    else Kept(vs[..|vs| - 1], now) + if Keeps(vs[|vs| - 1], now) then [vs[|vs| - 1]] else []
  }

  ghost predicate Unflagged(vs: seq<Visit>) {
    forall i :: 0 <= i < |vs| ==> !vs[i].expire
  }

  /** Flagging and flushing keep exactly the records worth keeping, unchanged and in their
      original order. */
  lemma {:induction false} ExpiryKeepsExactly(vs: seq<Visit>, now: int)
    requires Unflagged(vs)
    ensures Expired(vs, now) == Kept(vs, now)
    decreases |vs|
  {
    if vs != [] {
      var front := vs[..|vs| - 1];
      ExpiryKeepsExactly(front, now);
      assert FlagAll(vs, now)[..|vs| - 1] == FlagAll(front, now);
    }
  }

  // ----- Sessions over whole runs -----

  /** Newest first: an earlier position holds a later session, and sessions of one app are
      at least five minutes apart. */
  ghost predicate Apart(vs: seq<Visit>) {
    forall i, j :: 0 <= i < j < |vs| && vs[i].appid == vs[j].appid ==>
      vs[j].latestTime + 300 <= vs[i].firstTime
  }

  ghost predicate Past(vs: seq<Visit>, now: int) {
    forall i :: 0 <= i < |vs| ==> vs[i].firstTime <= vs[i].latestTime <= now
  }

  ghost predicate Sessions(vs: seq<Visit>, now: int) {
    Apart(vs) && Past(vs, now) && Unflagged(vs)
  }

  datatype Event = Report(appid: int, action: int, now: int) | Expire(now: int)

  function Handle(vs: seq<Visit>, e: Event): seq<Visit> {
    match e
    case Report(appid, action, now) => Reported(vs, appid, action, now)
    case Expire(now) => Expired(vs, now)
  }

  function HandleAll(vs: seq<Visit>, es: seq<Event>): seq<Visit>
    decreases |es|
  {
    if es == [] then vs else HandleAll(Handle(vs, es[0]), es[1..])
  }

  /** A clock that never goes back, starting at `now`. */
  ghost predicate Ordered(now: int, es: seq<Event>)
    decreases |es|
  {
    es != [] ==> now <= es[0].now && Ordered(es[0].now, es[1..])
  }

  function LastTime(now: int, es: seq<Event>): int {
    if es == [] then now else es[|es| - 1].now
  }

  lemma {:induction false} KeptIsPart(vs: seq<Visit>, now: int, v: Visit)
    ensures v in Kept(vs, now) <==> v in vs && Keeps(v, now)
    decreases |vs|
  {
    if vs != [] {
      var front := vs[..|vs| - 1];
      KeptIsPart(front, now, v);
      assert vs == front + [vs[|vs| - 1]];
    }
  }

  lemma {:induction false} KeptStaysApart(vs: seq<Visit>, now: int)
    requires Apart(vs)
    ensures Apart(Kept(vs, now))
    decreases |vs|
  {
    if vs != [] {
      var front, last := vs[..|vs| - 1], vs[|vs| - 1];
      KeptStaysApart(front, now);
      var kept := Kept(front, now);
      forall i | 0 <= i < |kept| && kept[i].appid == last.appid
        ensures last.latestTime + MERGE_GAP <= kept[i].firstTime
      {
        KeptIsPart(front, now, kept[i]);
        var at :| 0 <= at < |front| && front[at] == kept[i];
        assert vs[at] == kept[i];
      }
    }
  }

  lemma ExpiryKeepsSessions(vs: seq<Visit>, before: int, now: int)
    requires Sessions(vs, before) && before <= now
    ensures Sessions(Expired(vs, now), now)
  {
    ExpiryKeepsExactly(vs, now);
    KeptStaysApart(vs, now);
    var kept := Kept(vs, now);
    forall i | 0 <= i < |kept|
      ensures kept[i].firstTime <= kept[i].latestTime <= now && !kept[i].expire
    {
      KeptIsPart(vs, now, kept[i]);
    }
  }

  /** Over every run of reports and expiry rounds on a clock that never goes back, the
      records of one app are disjoint, at least five minutes apart and newest first. */
  lemma {:induction false} SessionsStayApart(vs: seq<Visit>, now: int, es: seq<Event>)
    requires Sessions(vs, now) && Ordered(now, es)
    ensures Sessions(HandleAll(vs, es), LastTime(now, es))
    decreases |es|
  {
    if es != [] {
      match es[0] {
        case Report(appid, action, t) =>
          ReportStaysApart(vs, appid, action, now, t);
        case Expire(t) =>
          ExpiryKeepsSessions(vs, now, t);
      }
      SessionsStayApart(Handle(vs, es[0]), es[0].now, es[1..]);
      assert LastTime(es[0].now, es[1..]) == LastTime(now, es);
    }
  }

  // ----- What the records of one app say -----

  datatype Span = Span(first: int, latest: int)

  function OwnSpan(v: Visit, appid: int): seq<Span> {
    if v.appid == appid then [Span(v.firstTime, v.latestTime)] else []
  }

  function Spans(vs: seq<Visit>, appid: int): seq<Span> {
    if vs == [] then [] else OwnSpan(vs[0], appid) + Spans(vs[1..], appid)
  }

  /** Reference definition, newest group first: a moment less than five minutes after the
      newest group belongs to it, any other moment starts a group. */
  function Extended(spans: seq<Span>, t: int): seq<Span> {
    if spans != [] && t - spans[0].latest < 300 then [spans[0].(latest := t)] + spans[1..]
    else [Span(t, t)] + spans
  }

  /** A group is kept for a day, after an hour only if it lasts five minutes. */
  predicate KeepsSpan(span: Span, now: int) {
    && 0 <= now - span.first <= 86400
    && (now - span.first <= 3600 || span.latest - span.first >= 300)
  }

  function KeptSpans(spans: seq<Span>, now: int): seq<Span> {
    if spans == [] then []
    else (if KeepsSpan(spans[0], now) then [spans[0]] else []) + KeptSpans(spans[1..], now)
  }

  /** What concerns one app: its own reports, and the expiry rounds. */
  datatype Moment = Seen(at: int) | Round(at: int)

  function Moments(es: seq<Event>, appid: int): seq<Moment> {
    if es == [] then []
    else if es[0].Expire? then [Round(es[0].now)] + Moments(es[1..], appid)
    else (if es[0].appid == appid then [Seen(es[0].now)] else []) + Moments(es[1..], appid)
  }

  function Grouped(spans: seq<Span>, ms: seq<Moment>): seq<Span>
    decreases |ms|
  {
    if ms == [] then spans
    else Grouped(if ms[0].Seen? then Extended(spans, ms[0].at) else KeptSpans(spans, ms[0].at), ms[1..])
  }

  lemma {:induction false} SpansAppend(vs: seq<Visit>, v: Visit, appid: int)
    ensures Spans(vs + [v], appid) == Spans(vs, appid) + OwnSpan(v, appid)
    decreases |vs|
  {
    if vs == [] {
      assert (vs + [v])[1..] == [];
    } else {
      assert (vs + [v])[1..] == vs[1..] + [v];
      SpansAppend(vs[1..], v, appid);
      Regroup(OwnSpan(vs[0], appid), Spans(vs[1..], appid), OwnSpan(v, appid));
    }
  }

  lemma {:induction false} KeptSpansAppend(a: seq<Span>, b: seq<Span>, now: int)
    ensures KeptSpans(a + b, now) == KeptSpans(a, now) + KeptSpans(b, now)
    decreases |a|
  {
    if a == [] {
      assert a + b == b;
    } else {
      assert (a + b)[1..] == a[1..] + b;
      KeptSpansAppend(a[1..], b, now);
      Regroup(if KeepsSpan(a[0], now) then [a[0]] else [], KeptSpans(a[1..], now), KeptSpans(b, now));
    }
  }

  lemma OneSpan(v: Visit, now: int, appid: int)
    ensures KeptSpans(OwnSpan(v, appid), now) == if Keeps(v, now) then OwnSpan(v, appid) else []
  {
    if v.appid == appid {
      assert OwnSpan(v, appid)[1..] == [];
    }
  }

  /** Expiry treats the groups of an app as it treats its records. */
  lemma {:induction false} KeptRecordsAreKeptGroups(vs: seq<Visit>, now: int, appid: int)
    ensures Spans(Kept(vs, now), appid) == KeptSpans(Spans(vs, appid), now)
    decreases |vs|
  {
    if vs != [] {
      var front, last := vs[..|vs| - 1], vs[|vs| - 1];
      assert vs == front + [last];
      KeptRecordsAreKeptGroups(front, now, appid);
      SpansAppend(front, last, appid);
      KeptSpansAppend(Spans(front, appid), OwnSpan(last, appid), now);
      OneSpan(last, now, appid);
      if Keeps(last, now) {
        SpansAppend(Kept(front, now), last, appid);
      } else {
        assert Kept(vs, now) == Kept(front, now);
        assert KeptSpans(Spans(front, appid), now) + [] == KeptSpans(Spans(front, appid), now);
      }
    }
  }

  /** The first record of an app is its newest span. */
  lemma {:induction false} FirstOfApp(vs: seq<Visit>, i: nat, v: Visit)
    requires i < |vs| && v.appid == vs[i].appid
    requires forall k :: 0 <= k < i ==> vs[k].appid != v.appid
    ensures Spans(vs, v.appid) != []
    ensures Spans(vs, v.appid)[0] == Span(vs[i].firstTime, vs[i].latestTime)
    ensures Spans(vs[i := v], v.appid) == [Span(v.firstTime, v.latestTime)] + Spans(vs, v.appid)[1..]
    decreases i
  {
    var vs' := vs[i := v];
    if i == 0 {
      assert vs'[1..] == vs[1..];
    } else {
      assert vs'[1..] == vs[1..][i - 1 := v];
      FirstOfApp(vs[1..], i - 1, v);
    }
  }

  /** A record of another app does not show. */
  lemma {:induction false} OtherApp(vs: seq<Visit>, i: nat, v: Visit, appid: int)
    requires i < |vs| && v.appid == vs[i].appid != appid
    ensures Spans(vs[i := v], appid) == Spans(vs, appid)
    decreases i
  {
    var vs' := vs[i := v];
    if i == 0 {
      assert vs'[1..] == vs[1..];
    } else {
      assert vs'[1..] == vs[1..][i - 1 := v];
      OtherApp(vs[1..], i - 1, v, appid);
    }
  }

  /** Without an open record the newest span is closed. */
  lemma {:induction false} NewestIsClosed(vs: seq<Visit>, appid: int, now: int)
    requires forall k :: 0 <= k < |vs| ==> !Continues(vs[k], appid, now)
    ensures Spans(vs, appid) != [] ==> now - Spans(vs, appid)[0].latest >= MERGE_GAP
    decreases |vs|
  {
    if vs != [] {
      assert !Continues(vs[0], appid, now);
      NewestIsClosed(vs[1..], appid, now);
    }
  }

  /** A report extends the groups of its own app and leaves those of every other app alone. */
  lemma ReportedSpans(vs: seq<Visit>, appid: int, action: int, before: int, now: int, other: int)
    requires Sessions(vs, before) && before <= now
    ensures Spans(Reported(vs, appid, action, now), other)
         == if other == appid then Extended(Spans(vs, appid), now) else Spans(vs, other)
  {
    var i := FirstOpen(vs, appid, now);
    var vs' := Reported(vs, appid, action, now);
    if i < |vs| {
      forall k | 0 <= k < i
        ensures vs[k].appid != appid
      {
        assert vs[k].firstTime <= vs[k].latestTime <= now;
      }
      if other == appid {
        FirstOfApp(vs, i, vs'[i]);
      } else {
        OtherApp(vs, i, vs'[i], other);
      }
    } else {
      assert vs'[1..] == vs;
      NewestIsClosed(vs, appid, now);
    }
  }

  lemma ReportStaysApart(vs: seq<Visit>, appid: int, action: int, before: int, now: int)
    requires Sessions(vs, before) && before <= now
    ensures Sessions(Reported(vs, appid, action, now), now)
  {
  }

  /** Over every run of reports and expiry rounds the records of an app are the groups of
      its own moments, whatever other apps share the chain. */
  lemma {:induction false} RecordsAreGroups(vs: seq<Visit>, now: int, es: seq<Event>, appid: int)
    requires Sessions(vs, now) && Ordered(now, es)
    ensures Spans(HandleAll(vs, es), appid) == Grouped(Spans(vs, appid), Moments(es, appid))
    decreases |es|
  {
    if es != [] {
      var e, ms, rest := es[0], Moments(es, appid), Moments(es[1..], appid);
      match e {
        case Report(id, action, t) =>
          ReportedSpans(vs, id, action, now, t, appid);
          ReportStaysApart(vs, id, action, now, t);
          assert ms == if id == appid then [Seen(t)] + rest else rest;
        case Expire(t) =>
          ExpiryKeepsExactly(vs, t);
          KeptRecordsAreKeptGroups(vs, t, appid);
          ExpiryKeepsSessions(vs, now, t);
          assert ms == [Round(t)] + rest;
      }
      RecordsAreGroups(Handle(vs, e), e.now, es[1..], appid);
      assert ms != rest ==> ms[1..] == rest;
    }
  }
}
