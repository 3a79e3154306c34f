/** Futures of the sequence numbers: what one event leaves of the other comp ids, and how wrong numbers, in a session or in
    the store, come to light in one or two fair events (`source/fix/fix_server_reactor.cpp`,
    `source/fix/fix_session.cpp`, `source/fix/fix_sequence_store.h`). */
module SequenceFutures {
  import opened Integers
  import opened Wrappers
  import opened Text
  import opened FixConstants
  import opened FixMessages
  import opened FixServers
  import opened ServerRuns
  import opened SequenceNumbers

  // ----- Futures -----

  /** A fair continuation, short enough for all numbers to fit an int. */
  ghost predicate Continues(t: AlignedServer, events: seq<Event>, n: nat) {
    PossibleRun(t, events) && FairRun(t, events) && n + |events| + 1 < INT_MAX
  }

  /** Whatever fair events follow, the numbers are in order. */
  ghost predicate Secure(t: AlignedServer, n: nat) {
    forall events: seq<Event> | Continues(t, events, n) :: InOrder(Run(t, events))
  }

  /** One or two fair events, or none, that show a gap or a repetition. */
  ghost predicate Spoils(t: AlignedServer, events: seq<Event>) {
    PossibleRun(t, events) && FairRun(t, events) && |events| <= 2 && !InOrder(Run(t, events))
  }

  lemma RunOn(s: AlignedServer, e: Event, events: seq<Event>)
    requires Possible(s, e) && PossibleRun(Step(s, e), events)
    ensures PossibleRun(s, [e] + events) && Run(s, [e] + events) == Run(Step(s, e), events)
    ensures Fair(s, e) && FairRun(Step(s, e), events) ==> FairRun(s, [e] + events)
  {
    assert ([e] + events)[1..] == events;
  }

  lemma SpoiltAtOnce(t: AlignedServer)
    requires !InOrder(t)
    ensures Spoils(t, [])
  {
  }

  lemma SpoiltByOne(t: AlignedServer, e: Event)
    requires Possible(t, e) && Fair(t, e) && !InOrder(Step(t, e))
    ensures Spoils(t, [e])
  {
    SpoiltAtOnce(Step(t, e));
    RunOn(t, e, []);
    assert [e] + [] == [e];
  }

  lemma SpoiltByTwo(t: AlignedServer, e: Event, f: Event)
    requires Possible(t, e) && Fair(t, e) && Spoils(Step(t, e), [f])
    ensures Spoils(t, [e, f])
  {
    RunOn(t, e, [f]);
    assert [e] + [f] == [e, f];
  }

  lemma LogBroken(log: map<string, seq<int>>, compId: string, number: int)
    requires number != |Log(log, compId)| + 1
    ensures !Gapless(Logged(log, compId, number), compId)
  {
    NotUpTo(Log(log, compId), number);
  }

  lemma SlotIs(t: AlignedServer, j: nat, e: Event)
    requires Live(t, j) && !e.Connected? && e.sd == t.peers[j]
    ensures Possible(t, e) && SlotOf(t, e) == j
  {
    assert LivePeer(t, e.sd);
    DistinctDescriptors(t, j, SlotOf(t, e));
  }

  // ----- What a message leaves of the other comp ids -----

  /** Only session i and the comp id c are concerned. */
  ghost predicate Others(s: AlignedServer, t: AlignedServer, i: nat, c: string) {
    && |t.sessions| == |s.sessions|
    && (forall k: nat | k < |s.sessions| && k != i :: Live(t, k) == Live(s, k) && t.sessions[k] == s.sessions[k])
    && (Live(t, i) ==> t.sessions[i].targetCompId == c)
    && (forall d: string | d != c :: Log(t.sent, d) == Log(s.sent, d) && Load(t.store, d) == Load(s.store, d))
  }

  lemma SendOthers(s: AlignedServer, i: nat) returns (t: AlignedServer)
    requires Live(s, i)
    ensures t == Send(s, i) && Live(t, i) && Others(s, t, i, s.sessions[i].targetCompId) && t.accepted == s.accepted
  {
    SendPlaces(s, i);
    t := Send(s, i);
  }

  lemma DisconnectOthers(s: AlignedServer, i: nat) returns (t: AlignedServer)
    requires Live(s, i)
    ensures t == Disconnect(s, i) && !Live(t, i) && Others(s, t, i, s.sessions[i].targetCompId)
    ensures t.accepted == s.accepted && t.sent == s.sent
  {
    DisconnectPlaces(s, i);
    t := Disconnect(s, i);
  }

  lemma AnswerOthers(s: AlignedServer, i: nat, m: Msg) returns (t: AlignedServer)
    requires Live(s, i)
    ensures t == Answer(s, i, m) && Others(s, t, i, s.sessions[i].targetCompId) && t.accepted == s.accepted
  {
    if m.messageType == LOGOFF {
      t := SendOthers(s, i);
      t := DisconnectOthers(t, i);
    } else if m.messageType in {HEARTBEAT, TEST_REQUEST, USER_LOGON} {
      t := SendOthers(s, i);
    } else {
      t := s;
    }
  }

  /** A message that is not refused. */
  lemma TakenOthers(s: AlignedServer, i: nat, m: Msg) returns (t: AlignedServer)
    requires Live(s, i) && ToInt(m.sequenceNumber) == s.sessions[i].incoming + 1
    ensures t == Validate(s, i, m) && Others(s, t, i, s.sessions[i].targetCompId)
    ensures t.accepted == Logged(s.accepted, m.senderCompId, ToInt(m.sequenceNumber))
  {
    AcceptPlaces(s, i, m);
    var u: AlignedServer := Accept(s, i, m);
    t := AnswerOthers(u, i, m);
  }

  /** The effect of a logon on the session and on the sender's numbers. */
  lemma LogonOthers(s: AlignedServer, i: nat, m: Msg) returns (t: AlignedServer)
    requires Live(s, i) && IsLogon(m) && Load(s.store, m.senderCompId).Some?
    ensures t == HandleLogon(s, i, m) && Live(t, i) && Others(s, t, i, m.senderCompId) && t.accepted == s.accepted
    ensures var (o, k) := Load(s.store, m.senderCompId).value;
            && t.sessions[i] == Session(m.senderCompId, if Readable(m) then o + 1 else o, k) && t.store == s.store
            && t.sent == if Readable(m) then Logged(s.sent, m.senderCompId, o) else s.sent
  {
    LogonPlaces(s, i, m);
    t := HandleLogon(s, i, m);
  }

  lemma OthersTwice(s: AlignedServer, t: AlignedServer, u: AlignedServer, i: nat, c: string)
    requires Others(s, t, i, c) && Others(t, u, i, c)
    ensures Others(s, u, i, c)
  {
  }

  /** An answered logon whose number is refused. */
  predicate Turned(s: Server, m: Msg)
    requires Load(s.store, m.senderCompId).Some? && Required(LOGON) <= m.body.Keys
  {
    Readable(m) && ToInt(m.sequenceNumber) != Load(s.store, m.senderCompId).value.1 + 1
  }

  lemma TurnedOthers(s: AlignedServer, i: nat, m: Msg) returns (t: AlignedServer)
    requires s.validation && Live(s, i) && IsLogon(m) && Compare(m.targetCompId, s.compId)
    requires Load(s.store, m.senderCompId).Some? && Turned(s, m)
    ensures t == Process(s, i, m) && Others(s, t, i, m.senderCompId) && t.accepted == s.accepted && !Live(t, i)
    ensures var (o, k) := Load(s.store, m.senderCompId).value;
            && t.store == s.store[m.senderCompId := StoreText(o + 1, k)]
            && t.sent == Logged(s.sent, m.senderCompId, o)
  {
    var u := LogonOthers(s, i, m);
    t := DisconnectOthers(u, i);
    OthersTwice(s, u, t, i, m.senderCompId);
  }

  /** Where a logon that is not turned away leaves its session, and the numbers it took. */
  lemma StaysOthers(s: AlignedServer, i: nat, m: Msg) returns (t: AlignedServer)
    requires Live(s, i) && IsLogon(m) && Compare(m.targetCompId, s.compId)
    requires Load(s.store, m.senderCompId).Some? && !Turned(s, m)
    ensures t == Process(s, i, m) && Others(s, t, i, m.senderCompId) && Live(t, i)
    ensures var (o, k) := Load(s.store, m.senderCompId).value;
            if Readable(m) then
              && t.sessions[i] == Session(m.senderCompId, o + 1, k + 1)
              && t.sent == Logged(s.sent, m.senderCompId, o) && t.accepted == Logged(s.accepted, m.senderCompId, k + 1)
            else t.sessions[i] == Session(m.senderCompId, o, k) && t.sent == s.sent && t.accepted == s.accepted
  {
    var u := LogonOthers(s, i, m);
    t := u;
    if Readable(m) {
      t := TakenOthers(u, i, m);
      OthersTwice(s, u, t, i, m.senderCompId);
    }
  }

  /** A logon, turned away or not, as far as the other comp ids and what was sent to its own are concerned. */
  lemma ProcessOthers(s: AlignedServer, i: nat, m: Msg) returns (t: AlignedServer)
    requires s.validation && Live(s, i) && IsLogon(m) && Compare(m.targetCompId, s.compId)
    requires Load(s.store, m.senderCompId).Some?
    ensures t == Process(s, i, m) && Others(s, t, i, m.senderCompId)
    ensures forall d: string | d != m.senderCompId :: Log(t.accepted, d) == Log(s.accepted, d)
    ensures |Log(t.sent, m.senderCompId)| == |Log(s.sent, m.senderCompId)| + if Readable(m) then 1 else 0
    ensures Readable(m) || (Live(t, i) && t.sessions[i].targetCompId == m.senderCompId)
  {
    if Turned(s, m) { t := TurnedOthers(s, i, m); } else { t := StaysOthers(s, i, m); }
  }

  // ----- Numbers that are not where the logs end -----

  predicate Wrong(t: Server, compId: string, outgoing: int, incoming: int) {
    outgoing != |Log(t.sent, compId)| + 1 || incoming != |Log(t.accepted, compId)|
  }

  lemma SendSpoils(t: AlignedServer, j: nat)
    requires Live(t, j) && t.sessions[j].targetCompId != ""
    requires t.sessions[j].outgoing != |Log(t.sent, t.sessions[j].targetCompId)| + 1
    ensures Spoils(t, [Application(t.peers[j])])
  {
    var e := Application(t.peers[j]);
    SlotIs(t, j, e);
    LogBroken(t.sent, t.sessions[j].targetCompId, t.sessions[j].outgoing);
    SpoiltByOne(t, e);
  }

  /** A complete message that nobody answers. */
  function Plain(compId: string, number: nat): Msg {
    Msg(1, number, EXECUTION_REPORT, compId, "S", "", map[TAG_BODY_LENGTH := "", TAG_BODY_CHECKSUM := ""])
  }

  lemma AcceptSpoils(t: AlignedServer, j: nat)
    requires Live(t, j) && t.sessions[j].targetCompId != "" && 0 <= t.sessions[j].incoming < INT_MAX
    requires t.sessions[j].incoming != |Log(t.accepted, t.sessions[j].targetCompId)|
    ensures Spoils(t, [Received(t.peers[j], Plain(t.sessions[j].targetCompId, t.sessions[j].incoming + 1))])
  {
    var n := t.sessions[j];
    var m := Plain(n.targetCompId, n.incoming + 1);
    var e := Received(t.peers[j], m);
    SlotIs(t, j, e);
    assert ToInt(m.sequenceNumber) == n.incoming + 1;
    LogBroken(t.accepted, n.targetCompId, n.incoming + 1);
    SpoiltByOne(t, e);
  }

  /** A logged-on session with wrong numbers. */
  lemma SessionSpoils(t: AlignedServer, j: nat) returns (events: seq<Event>)
    requires Live(t, j) && t.sessions[j].targetCompId != "" && 0 <= t.sessions[j].incoming < INT_MAX
    requires Wrong(t, t.sessions[j].targetCompId, t.sessions[j].outgoing, t.sessions[j].incoming)
    ensures Spoils(t, events)
  {
    if t.sessions[j].outgoing != |Log(t.sent, t.sessions[j].targetCompId)| + 1 {
      SendSpoils(t, j);
      events := [Application(t.peers[j])];
    } else {
      AcceptSpoils(t, j);
      events := [Received(t.peers[j], Plain(t.sessions[j].targetCompId, t.sessions[j].incoming + 1))];
    }
  }

  /** Two sessions under one comp id. */
  lemma TwoSpoil(t: AlignedServer, i: nat, j: nat)
    requires Live(t, i) && Live(t, j) && i != j && t.sessions[i].targetCompId == t.sessions[j].targetCompId != ""
    requires t.sessions[j].outgoing == |Log(t.sent, t.sessions[j].targetCompId)| + 1
    ensures Spoils(t, [Application(t.peers[i]), Application(t.peers[j])])
  {
    var e := Application(t.peers[i]);
    SlotIs(t, i, e);
    SendSpoils(Step(t, e), j);
    SpoiltByTwo(t, e, Application(t.peers[j]));
  }

  lemma Unused(peers: seq<nat>) returns (sd: nat)
    ensures sd !in peers
  {
    sd := Bound(peers);
  }

  function Bound(peers: seq<nat>): (b: nat)
    ensures forall i | 0 <= i < |peers| :: peers[i] < b
  {
    if peers == [] then 0
    else
      var others, last := Bound(peers[..|peers| - 1]), peers[|peers| - 1];
      if last < others then others else last + 1
  }

  /** A text that compares equal to a comp id, and is not empty. */
  function Named(compId: string): (t: string)
    ensures t != ""
  {
    if compId == "" then "\0" else compId
  }

  function Logon(compId: string, number: nat, server: string): Msg {
    Msg(1, number, LOGON, compId, Named(server), "",
        map[TAG_BODY_LENGTH := "", TAG_BODY_CHECKSUM := "",
            TAG_HEARTBEAT_INTERVAL := ToDec(0), TAG_ENCRYPT_METHOD := ToDec(0)])
  }

  lemma LogonIs(compId: string, number: nat, server: string)
    requires compId != "" && number > 0
    ensures var m := Logon(compId, number, server); IsLogon(m) && Readable(m) && Compare(m.targetCompId, server)
  {
    StoIOfToDec(0);
    assert Lower("\0") == "\0";
  }

  /** A new peer. */
  lemma Newcomer(t: AlignedServer, c: string) returns (sd: nat, u: AlignedServer, i: nat)
    requires !Held(t, c)
    ensures Possible(t, Connected(sd)) && Fair(t, Connected(sd)) && u == Step(t, Connected(sd))
    ensures Live(u, i) && u.peers[i] == sd && u.sessions[i] == NEW_SESSION && !HeldElsewhere(u, i, c)
    ensures u.sent == t.sent && u.accepted == t.accepted && u.store == t.store && u.compId == t.compId
  {
    sd := Unused(t.peers);
    ConnectAligned(t, sd);
    u, i := Step(t, Connected(sd)), FirstFree(t.peerFlags);
    NewcomerAlone(t, u, i, c);
  }

  /** Wrong numbers in the store, under a comp id that nobody has. */
  lemma StoreSpoils(t: AlignedServer, c: string) returns (events: seq<Event>)
    requires c != "" && !Held(t, c) && Load(t.store, c).Some? && 0 <= Load(t.store, c).value.1 < INT_MAX
    requires Wrong(t, c, Load(t.store, c).value.0, Load(t.store, c).value.1)
    ensures Spoils(t, events)
  {
    var sd, u, i := Newcomer(t, c);
    var k := Load(t.store, c).value.1;
    var m := Logon(c, k + 1, t.compId);
    LogonIs(c, k + 1, t.compId);
    assert ToInt(k + 1) == k + 1;
    NewcomerSpoils(u, i, m);
    SpoiltByTwo(t, Connected(sd), Received(sd, m));
    events := [Connected(sd), Received(sd, m)];
  }

  lemma NewcomerSpoils(u: AlignedServer, i: nat, m: Msg)
    requires Live(u, i) && u.sessions[i] == NEW_SESSION && !HeldElsewhere(u, i, m.senderCompId)
    requires IsLogon(m) && Readable(m) && Compare(m.targetCompId, u.compId) && Load(u.store, m.senderCompId).Some?
    requires var (o, k) := Load(u.store, m.senderCompId).value;
             Wrong(u, m.senderCompId, o, k) && ToInt(m.sequenceNumber) == k + 1
    ensures Spoils(u, [Received(u.peers[i], m)])
  {
    var (o, k) := Load(u.store, m.senderCompId).value;
    var c, e := m.senderCompId, Received(u.peers[i], m);
    SlotIs(u, i, e);
    var v := StaysOthers(u, i, m);
    if o != |Log(u.sent, c)| + 1 { LogBroken(u.sent, c, o); } else { LogBroken(u.accepted, c, k + 1); }
    SpoiltByOne(u, e);
  }

  lemma NewcomerAlone(t: AlignedServer, u: AlignedServer, i: nat, c: string)
    requires !Held(t, c) && Live(u, i)
    requires forall k: nat | k != i :: Live(u, k) == Live(t, k) && (Live(t, k) ==> u.sessions[k] == t.sessions[k])
    ensures !HeldElsewhere(u, i, c)
  {
  }
}
