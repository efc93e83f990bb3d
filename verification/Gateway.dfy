/** The forward hook in gateway mode: what it decides for a packet and how it caches
    the application and the decision in the connection mark. */
module Gateway {
  import opened Types
  import opened ConnMark

  const APPID_QUIC: AppId := 10
  const MAX_DPI_PKT_NUM := 64
  const RECHECK_SECONDS := 30

  /** Module globals set through /proc/sys/oaf; `hz` is the number of jiffies in a second. */
  datatype Globals = Globals(enable: int, splitTime: int, appFilterMode: int, disableQuic: int, userMode: int, hz: nat)

  /** What configuration commands install: enabled application ids, managed and exempt devices. */
  datatype Rules = Rules(apps: set<AppId>, users: set<Mac>, whitelist: set<Mac>)

  datatype Feature = Feature(appId: AppId, ignore: bool)

  /** The result of inspecting a payload, given whether a ClientHello is being carried over. */
  datatype Inspection = Inspection(hello: bool, feature: Option<Feature>)

  datatype Packet = Packet(accounted: bool, totalPackets: nat, quic: bool, readable: bool, inspect: bool -> Inspection)

  datatype Outcome = Outcome(verdict: Verdict, mark: Mark, inspected: bool)

  predicate UserMatches(g: Globals, rules: Rules, mac: Mac) {
    if g.userMode == 0 then mac !in rules.whitelist else mac in rules.users
  }

  predicate RuleMatches(g: Globals, rules: Rules, mac: Mac, app: AppId) {
    UserMatches(g, rules, mac) && (g.appFilterMode == 1 || app in rules.apps)
  }

  /** Jiffies are compared as 32-bit numbers. */
  predicate RecentlyChanged(g: Globals, now: nat, updated: nat) {
    (now - updated) % 0x1_0000_0000 < RECHECK_SECONDS * g.hz
  }

  /** The ids that the hook trusts in a mark. */
  predicate Known(app: AppId) {
    1000 < app < 32000
  }

  predicate ActionChanged(g: Globals, rules: Rules, mac: Mac, now: nat, updated: nat, action: bool, app: AppId) {
    RecentlyChanged(g, now, updated) && RuleMatches(g, rules, mac, app) != action
  }

  /** The branch for a mark that holds a known application. */
  function Cached(g: Globals, rules: Rules, mac: Mac, now: nat, updated: nat, mark: Mark): Outcome {
    var mark' := if ActionChanged(g, rules, mac, now, updated, mark.drop, mark.app) then mark.(drop := !mark.drop) else mark;
    Outcome(if g.enable != 0 && mark'.drop then Drop else Accept, mark', false)
  }

  /** The branch that inspects the payload and may classify the connection. */
  function Classify(g: Globals, rules: Rules, mac: Mac, p: Packet, mark: Mark): Outcome {
    var insp := p.inspect(mark.hello);
    var mark1 := mark.(hello := insp.hello);
    if insp.feature.None? && g.appFilterMode == 0 then Outcome(Accept, mark1, true)
    else
      var app := if insp.feature.Some? then insp.feature.value.appId else 0;
      var mark2 := mark1.(app := app);
      var mark3 := if insp.feature.Some? && insp.feature.value.ignore then mark2.(ignore := true) else mark2;
      if g.enable != 0 && RuleMatches(g, rules, mac, app) then Outcome(Drop, mark3.(drop := true), true)
      else Outcome(Accept, mark3, true)
  }

  /** The hook from the client lookup on. */
  function Decide(g: Globals, rules: Rules, client: Client, now: nat, updated: nat, p: Packet, mark: Mark): Outcome {
    var splitActive := g.splitTime != 0 && g.enable != 0;
    if splitActive && client.blocked && g.appFilterMode == 1 then Outcome(Drop, mark, false)
    else if splitActive && !client.blocked then Outcome(Accept, mark, false)
    else if g.enable != 0 && mark.drop && (g.appFilterMode != 0 || (g.disableQuic != 0 && mark.app == APPID_QUIC)) then
      Outcome(Drop, mark, false)
    else if Known(mark.app) then Cached(g, rules, client.mac, now, updated, mark)
    else if !p.accounted || p.totalPackets > MAX_DPI_PKT_NUM then Outcome(Accept, mark, false)
    else if g.enable != 0 && g.disableQuic != 0 && p.quic && UserMatches(g, rules, client.mac) then
      Outcome(Drop, mark.(app := APPID_QUIC, drop := true), false)
    else if !p.readable then Outcome(Accept, mark, false)
    else Classify(g, rules, client.mac, p, mark)
  }

  /** A tracked connection. Its mark is kept as the fields that the bits stand for; each
      field update below is one of the bit operations of `ConnMark`. */
  class Conn {
    var mark: Mark

    constructor ()
      ensures mark == NO_MARK
    {
      mark := NO_MARK;
    }

    /** `app_filter_hook_gateway_handle` from the client lookup on. */
    method Hook(g: Globals, rules: Rules, client: Client, now: nat, updated: nat, p: Packet)
      returns (verdict: Verdict, inspected: bool)
      modifies this
      ensures Outcome(verdict, mark, inspected) == Decide(g, rules, client, now, updated, p, old(mark))
    {
      if g.splitTime != 0 && g.enable != 0 {
        if client.blocked {
          if g.appFilterMode == 1 {
            return Drop, false;
          }
        } else {
          return Accept, false;
        }
      }
      if mark != NO_MARK {
        if g.enable != 0 {
          if g.disableQuic != 0 && mark.app == APPID_QUIC && mark.drop {
            return Drop, false;
          }
          if g.appFilterMode != 0 && mark.drop {
            return Drop, false;
          }
        }
        if Known(mark.app) {
          if ActionChanged(g, rules, client.mac, now, updated, mark.drop, mark.app) {
            mark := mark.(drop := !mark.drop);
          }
          return if g.enable != 0 && mark.drop then Drop else Accept, false;
        }
      }
      if !p.accounted || p.totalPackets > MAX_DPI_PKT_NUM {
        return Accept, false;
      }
      if g.enable != 0 && g.disableQuic != 0 && p.quic && UserMatches(g, rules, client.mac) {
        mark := mark.(app := APPID_QUIC, drop := true);
        return Drop, false;
      }
      if !p.readable {
        return Accept, false;
      }
      verdict := Inspect(g, rules, client.mac, p);
      inspected := true;
    }

    method Inspect(g: Globals, rules: Rules, mac: Mac, p: Packet) returns (verdict: Verdict)
      modifies this
      ensures Outcome(verdict, mark, true) == Classify(g, rules, mac, p, old(mark))
    {
      var insp := p.inspect(mark.hello);
      mark := mark.(hello := insp.hello);
      if insp.feature.None? && g.appFilterMode == 0 {
        return Accept;
      }
      var app := if insp.feature.Some? then insp.feature.value.appId else 0;
      mark := mark.(app := app);
      if insp.feature.Some? && insp.feature.value.ignore {
        mark := mark.(ignore := true);
      }
      if g.enable != 0 && RuleMatches(g, rules, mac, app) {
        mark := mark.(drop := true);
        return Drop;
      }
      return Accept;
    }
  }

  /** In every mode, a mark with a known application keeps it and is never inspected again. */
  lemma KnownAppIsKept(g: Globals, rules: Rules, client: Client, now: nat, updated: nat, p: Packet, mark: Mark)
    requires Known(mark.app)
    ensures var o := Decide(g, rules, client, now, updated, p, mark);
            o.mark.app == mark.app && !o.inspected
  {
  }

  // ----- Runs of one connection -----

  /** Things that happen while a connection lives: its packets, configuration commands and
      the daemon switching the filter on or off. */
  datatype Event = PacketIn(now: nat, packet: Packet) | RuleChange(at: nat, rules: Rules) | Switch(enable: int)

  /** `settled`: since the latest change the connection sent a packet inside the recheck
      window, or was classified with the filter on and no leftover drop bit against the
      rules. */
  datatype State = State(g: Globals, rules: Rules, updated: nat, mark: Mark, settled: bool)

  function After(st: State, client: Client, e: Event): State {
    match e
    case Switch(enable) => st.(g := st.g.(enable := enable))
    case RuleChange(at, rules) => st.(rules := rules, updated := at, settled := false)
    case PacketIn(now, p) =>
      var o := Decide(st.g, st.rules, client, now, st.updated, p, st.mark);
      st.(mark := o.mark,
          settled := st.settled
                  || (Known(st.mark.app) && RecentlyChanged(st.g, now, st.updated))
                  || (!Known(st.mark.app) && Known(o.mark.app) && st.g.enable != 0
                      && (!st.mark.drop || RuleMatches(st.g, st.rules, client.mac, o.mark.app))))
  }

  function Run(st: State, client: Client, es: seq<Event>): State
    decreases |es|
  {
    if es == [] then st else After(Run(st, client, es[..|es| - 1]), client, es[|es| - 1])
  }

  /** Specified-apps mode without split time and without QUIC blocking. */
  predicate AppsMode(g: Globals) {
    g.appFilterMode == 0 && g.splitTime == 0 && g.disableQuic == 0
  }

  /** The cached decision is the one the current rules give. */
  predicate Coherent(st: State, client: Client) {
    Known(st.mark.app) && st.mark.drop == RuleMatches(st.g, st.rules, client.mac, st.mark.app)
  }

  ghost predicate Inv(st: State, client: Client) {
    AppsMode(st.g) && (st.settled ==> Coherent(st, client))
  }

  ghost predicate CurrentVerdict(st: State, client: Client, v: Verdict, app: AppId) {
    v == if st.g.enable != 0 && RuleMatches(st.g, st.rules, client.mac, app) then Drop else Accept
  }

  /** Every event keeps the invariant, and a packet that finds or leaves the connection
      settled gets the verdict of the filter switch and the current rules. */
  lemma StepKeepsInv(st: State, client: Client, e: Event)
    requires Inv(st, client)
    ensures Inv(After(st, client, e), client)
    ensures e.PacketIn? && After(st, client, e).settled ==>
              var o := Decide(st.g, st.rules, client, e.now, st.updated, e.packet, st.mark);
              Known(o.mark.app) && CurrentVerdict(st, client, o.verdict, o.mark.app)
  {
  }

  lemma {:induction false} RunKeepsInv(st: State, client: Client, es: seq<Event>)
    requires Inv(st, client)
    ensures Inv(Run(st, client, es), client)
    decreases |es|
  {
    if es != [] {
      RunKeepsInv(st, client, es[..|es| - 1]);
      StepKeepsInv(Run(st, client, es[..|es| - 1]), client, es[|es| - 1]);
    }
  }

  /** Over every run of a connection, whatever its mark holds at the start and whatever ids
      its features have: a packet that finds or leaves the connection settled gets exactly
      the verdict of the filter switch and the current rules. */
  lemma SettledVerdictIsCurrent(st: State, client: Client, es: seq<Event>, now: nat, p: Packet)
    requires AppsMode(st.g) && !st.settled
    ensures var before := Run(st, client, es);
            var o := Decide(before.g, before.rules, client, now, before.updated, p, before.mark);
            After(before, client, PacketIn(now, p)).settled ==>
              && 1000 < o.mark.app < 32000
              && (o.verdict == Drop <==>
                  && before.g.enable != 0 && o.mark.app in before.rules.apps
                  && (before.g.userMode == 0 ==> client.mac !in before.rules.whitelist)
                  && (before.g.userMode != 0 ==> client.mac in before.rules.users))
  {
    RunKeepsInv(st, client, es);
    StepKeepsInv(Run(st, client, es), client, PacketIn(now, p));
  }

  /** What settles a connection: a packet less than thirty seconds after the latest change, or
      a classification with the filter on that finds no drop bit against the rules. */
  lemma SettledIff(st: State, client: Client, now: nat, p: Packet)
    requires AppsMode(st.g)
    ensures After(st, client, PacketIn(now, p)).settled <==>
            || st.settled
            || (1000 < st.mark.app < 32000 && (now - st.updated) % 4294967296 < 30 * st.g.hz)
            || (var f := p.inspect(st.mark.hello).feature;
                && !(1000 < st.mark.app < 32000) && p.accounted && p.totalPackets <= 64 && p.readable
                && f.Some? && 1000 < f.value.appId < 32000 && st.g.enable != 0
                && (st.mark.drop ==>
                    && f.value.appId in st.rules.apps
                    && (st.g.userMode == 0 ==> client.mac !in st.rules.whitelist)
                    && (st.g.userMode != 0 ==> client.mac in st.rules.users)))
  {
  }

  // ----- The hook in the words of the configuration -----

  /** A device comes under the rules in automatic user mode unless it is on the whitelist,
      in manual user mode only if it is on the user list. */
  ghost predicate Managed(g: Globals, rules: Rules, mac: Mac) {
    (g.userMode == 0 && mac !in rules.whitelist) || (g.userMode != 0 && mac in rules.users)
  }

  /** With split time on, a device in time passes; one out of time is dropped when all apps
      are filtered. Neither touches the mark. */
  lemma SplitDecision(g: Globals, rules: Rules, client: Client, now: nat, updated: nat, p: Packet, mark: Mark)
    requires g.splitTime != 0 && g.enable != 0
    ensures !client.blocked ==> Decide(g, rules, client, now, updated, p, mark) == Outcome(Accept, mark, false)
    ensures client.blocked && g.appFilterMode == 1 ==>
              Decide(g, rules, client, now, updated, p, mark) == Outcome(Drop, mark, false)
  {
  }

  /** A known application in specified-apps mode: inside the recheck window the rules decide
      and are written into the mark, outside it the mark decides. */
  lemma CachedDecision(g: Globals, rules: Rules, client: Client, now: nat, updated: nat, p: Packet, mark: Mark)
    requires AppsMode(g) && 1000 < mark.app < 32000
    ensures var o := Decide(g, rules, client, now, updated, p, mark);
            var recent := (now - updated) % 4294967296 < 30 * g.hz;
            var drop := if recent then mark.app in rules.apps && Managed(g, rules, client.mac) else mark.drop;
            o == Outcome(if g.enable != 0 && drop then Drop else Accept, mark.(drop := drop), false)
  {
  }

  /** A packet of an unknown application is inspected only if it is counted, among the first
      64 and readable. */
  lemma UninspectedDecision(g: Globals, rules: Rules, client: Client, now: nat, updated: nat, p: Packet, mark: Mark)
    requires AppsMode(g) && !(1000 < mark.app < 32000)
    ensures var o := Decide(g, rules, client, now, updated, p, mark);
            && (o.inspected <==> p.accounted && p.totalPackets <= 64 && p.readable)
            && (!o.inspected ==> o == Outcome(Accept, mark, false))
  {
  }

  /** The first classification in specified-apps mode. */
  lemma FirstDecision(g: Globals, rules: Rules, client: Client, now: nat, updated: nat, p: Packet, mark: Mark)
    requires AppsMode(g) && !(1000 < mark.app < 32000) && p.accounted && p.totalPackets <= 64 && p.readable
    ensures var o, seen := Decide(g, rules, client, now, updated, p, mark), p.inspect(mark.hello);
            && (seen.feature.None? ==> o == Outcome(Accept, mark.(hello := seen.hello), true))
            && (seen.feature.Some? ==>
                  var f := seen.feature.value;
                  var drop := g.enable != 0 && f.appId in rules.apps && Managed(g, rules, client.mac);
                  o == Outcome(if drop then Drop else Accept,
                               Mark(f.appId, mark.drop || drop, seen.hello, mark.ignore || f.ignore, mark.spare), true))
  {
  }

  /** With QUIC blocking on, the QUIC packets of managed devices are dropped and marked, and so
      is everything behind that mark. */
  lemma QuicDecision(g: Globals, rules: Rules, client: Client, now: nat, updated: nat, p: Packet, mark: Mark)
    requires g.splitTime == 0 && g.appFilterMode == 0 && g.enable != 0 && g.disableQuic != 0
    ensures mark.app == 10 && mark.drop ==> Decide(g, rules, client, now, updated, p, mark) == Outcome(Drop, mark, false)
    ensures !(1000 < mark.app < 32000) && !(mark.app == 10 && mark.drop) && p.accounted && p.totalPackets <= 64 && p.quic
            && Managed(g, rules, client.mac) ==>
              Decide(g, rules, client, now, updated, p, mark) == Outcome(Drop, mark.(app := 10, drop := true), false)
    ensures p.quic && !Managed(g, rules, client.mac) && p.accounted && p.totalPackets <= 64 && p.readable
            && !(1000 < mark.app < 32000) && !(mark.app == 10 && mark.drop) ==>
              Decide(g, rules, client, now, updated, p, mark).inspected
  {
  }

  /** With all apps filtered, a drop bit is final while the filter is on, and every inspected
      packet of a managed device is dropped, whatever it matches. */
  lemma AllAppsDecision(g: Globals, rules: Rules, client: Client, now: nat, updated: nat, p: Packet, mark: Mark)
    requires g.splitTime == 0 && g.appFilterMode == 1 && g.enable != 0 && g.disableQuic == 0
    ensures mark.drop ==> Decide(g, rules, client, now, updated, p, mark) == Outcome(Drop, mark, false)
    ensures !mark.drop && !(1000 < mark.app < 32000) && p.accounted && p.totalPackets <= 64 && p.readable ==>
              var o := Decide(g, rules, client, now, updated, p, mark);
              o.inspected && (o.verdict == Drop <==> Managed(g, rules, client.mac)) && o.mark.drop == Managed(g, rules, client.mac)
    ensures !mark.drop && 1000 < mark.app < 32000 ==>
              var drop := (now - updated) % 4294967296 < 30 * g.hz && Managed(g, rules, client.mac);
              Decide(g, rules, client, now, updated, p, mark) == Outcome(if drop then Drop else Accept, mark.(drop := drop), false)
  {
  }

  /** Once known, the application of a connection never changes and no later packet is
      inspected, in any mode and whatever happens. */
  lemma {:induction false} KnownAppIsKeptOverRuns(st: State, client: Client, es: seq<Event>, now: nat, p: Packet)
    requires Known(st.mark.app)
    ensures var end := Run(st, client, es);
            && end.mark.app == st.mark.app
            && !Decide(end.g, end.rules, client, now, end.updated, p, end.mark).inspected
    decreases |es|
  {
    if es != [] {
      var last := es[|es| - 1];
      var mid := Run(st, client, es[..|es| - 1]);
      KnownAppIsKeptOverRuns(st, client, es[..|es| - 1], now, p);
      if last.PacketIn? {
        KnownAppIsKept(mid.g, mid.rules, client, last.now, mid.updated, last.packet, mid.mark);
      }
    }
    var end := Run(st, client, es);
    KnownAppIsKept(end.g, end.rules, client, now, end.updated, p, end.mark);
  }

  // ----- Leftover drop bits -----

  /** Every feature the payload can match carries a known id. */
  ghost predicate KnownFeatures(e: Event) {
    e.PacketIn? ==> forall h :: e.packet.inspect(h).feature.Some? ==> Known(e.packet.inspect(h).feature.value.appId)
  }

  /** A new connection whose features all have known ids never carries such a bit into a
      classification: over every run a drop bit comes with a known id. */
  lemma {:induction false} KnownIdsLeaveNoStaleBit(st: State, client: Client, es: seq<Event>)
    requires AppsMode(st.g) && st.mark == NO_MARK
    requires forall i :: 0 <= i < |es| ==> KnownFeatures(es[i])
    ensures AppsMode(Run(st, client, es).g)
    ensures Run(st, client, es).mark.drop ==> Known(Run(st, client, es).mark.app)
    decreases |es|
  {
    if es != [] {
      KnownIdsLeaveNoStaleBit(st, client, es[..|es| - 1]);
      assert KnownFeatures(es[|es| - 1]);
    }
  }

  /** Classifying with the filter on never clears an old drop bit, so the new cache entry
      is right exactly when the bit was clear or the rules ask for a drop anyway. */
  lemma ClassifiedCoherentIff(st: State, client: Client, now: nat, p: Packet)
    requires AppsMode(st.g) && st.g.enable != 0 && !Known(st.mark.app)
    requires p.accounted && p.totalPackets <= MAX_DPI_PKT_NUM && p.readable
    requires var f := p.inspect(st.mark.hello).feature; f.Some? && Known(f.value.appId)
    ensures var app := p.inspect(st.mark.hello).feature.value.appId;
            Coherent(After(st, client, PacketIn(now, p)), client) <==>
            !st.mark.drop || RuleMatches(st.g, st.rules, client.mac, app)
  {
  }

  /** The cached decision asks for a drop that the rules do not. */
  predicate WronglyDropping(st: State, client: Client) {
    Known(st.mark.app) && st.mark.drop && !RuleMatches(st.g, st.rules, client.mac, st.mark.app)
  }

  /** Packets outside the recheck window and switches of the filter: nothing that rechecks. */
  predicate Unchecked(st: State, e: Event) {
    match e
    case PacketIn(now, _) => !RecentlyChanged(st.g, now, st.updated)
    case RuleChange(_, _) => false
    case Switch(_) => true
  }

  /** Where that condition fails, classification leaves such a decision behind. */
  lemma StaleBitSurvives(st: State, client: Client, now: nat, p: Packet)
    requires AppsMode(st.g) && st.g.enable != 0 && !Known(st.mark.app)
    requires p.accounted && p.totalPackets <= MAX_DPI_PKT_NUM && p.readable
    requires var f := p.inspect(st.mark.hello).feature;
             f.Some? && Known(f.value.appId) && st.mark.drop && !RuleMatches(st.g, st.rules, client.mac, f.value.appId)
    ensures WronglyDropping(After(st, client, PacketIn(now, p)), client)
  {
  }

  /** And from then on, until a rule change or a packet inside the window, every packet that
      arrives with the filter on is dropped against the rules. */
  lemma {:induction false} StaleBitMisleads(st: State, client: Client, es: seq<Event>, now: nat, p: Packet)
    requires AppsMode(st.g) && WronglyDropping(st, client)
    requires forall i :: 0 <= i < |es| ==> Unchecked(st, es[i])
    requires Unchecked(st, PacketIn(now, p))
    ensures var end := Run(st, client, es);
            && end.rules == st.rules && end.updated == st.updated && end.g == st.g.(enable := end.g.enable)
            && WronglyDropping(end, client)
            && (end.g.enable != 0 ==>
                  var v := Decide(end.g, end.rules, client, now, end.updated, p, end.mark).verdict;
                  v == Drop && !CurrentVerdict(end, client, v, end.mark.app))
    decreases |es|
  {
    if es != [] {
      StaleBitMisleads(st, client, es[..|es| - 1], now, p);
      assert Unchecked(st, es[|es| - 1]);
    }
  }

  /** A feature with the unknown id 500 that is filtered leaves a drop bit behind; the next
      classification inherits it and later packets are dropped against the rules. */
  lemma StaleDropBit(client: Client, hz: nat)
    ensures var g := Globals(1, 0, 0, 0, 0, hz);
            var rules := Rules({500}, {}, {});
            var first := Packet(true, 1, false, true, h => Inspection(false, Some(Feature(500, false))));
            var second := Packet(true, 2, false, true, h => Inspection(false, Some(Feature(1500, false))));
            var end := Run(State(g, rules, 0, NO_MARK, false), client, [PacketIn(0, first), PacketIn(0, second)]);
            end.mark.app == 1500 && end.mark.drop && !RuleMatches(g, rules, client.mac, 1500)
  {
    var first := PacketIn(0, Packet(true, 1, false, true, h => Inspection(false, Some(Feature(500, false)))));
    var second := PacketIn(0, Packet(true, 2, false, true, h => Inspection(false, Some(Feature(1500, false)))));
    var st := State(Globals(1, 0, 0, 0, 0, hz), Rules({500}, {}, {}), 0, NO_MARK, false);
    assert [first, second][..1] == [first] && [first][..0] == [];
    assert Run(st, client, []) == st;
    assert Run(st, client, [first]) == After(st, client, first);
    assert After(st, client, first).mark == NO_MARK.(app := 500, drop := true);
    assert After(After(st, client, first), client, second).mark == NO_MARK.(app := 1500, drop := true);
  }
}
