/** Short runs in which sequence numbers repeat, each by one unfair message
    (`source/fix/fix_server_reactor.cpp`, `source/fix/fix_session.cpp`). */
module SequenceWitnesses {
  import opened Integers
  import opened Wrappers
  import opened Text
  import opened FixConstants
  import opened FixMessages
  import opened FixServers
  import opened ServerRuns
  import opened SequenceNumbers
  import opened SequenceFutures

  const NEW_SERVER := Server("S", true, [], [], map[], [], [], map[], map[], map[])

  const ORDER := Msg(1, 2, NEW_ORDER, "X", "S", "T",
    map[TAG_BODY_LENGTH := "", TAG_BODY_CHECKSUM := "", 55 := "", 11 := "", 38 := "", 44 := "", 54 := "", 40 := "", 60 := ""])

  /** A logon whose heartbeat interval is no number. */
  const UNREADABLE := Logon("X", 1, "S").(body := Logon("X", 1, "S").body[TAG_HEARTBEAT_INTERVAL := ""])

  // ----- A server with up to two peers -----

  /** A server to which descriptors 1 to n connected. */
  function Peers(sessions: seq<Session>, accepted: map<string, seq<int>>, sent: map<string, seq<int>>): (s: AlignedServer)
    requires |sessions| <= 2
  {
    var n := |sessions|;
    var s := NEW_SERVER.(
      peers := [1, 2][..n], peerFlags := [true, true][..n],
      table := if n == 0 then map[] else if n == 1 then map[1 := 0] else map[1 := 0, 2 := 1],
      sessions := sessions, sessionFlags := [true, true][..n], accepted := accepted, sent := sent);
    assert forall i: nat | Live(s, i) :: Indexed(s, i);
    s
  }

  lemma PeerConnects(sessions: seq<Session>, accepted: map<string, seq<int>>, sent: map<string, seq<int>>)
    requires |sessions| < 2
    ensures var s, e := Peers(sessions, accepted, sent), Connected(|sessions| + 1);
            Possible(s, e) && Step(s, e) == Peers(sessions + [NEW_SESSION], accepted, sent)
  {
    assert FirstFree(Peers(sessions, accepted, sent).peerFlags) == |sessions|;
  }

  lemma PeerReceives(sessions: seq<Session>, accepted: map<string, seq<int>>, sent: map<string, seq<int>>, sd: nat, m: Msg)
    requires |sessions| <= 2 && 1 <= sd <= |sessions|
    ensures var s, e := Peers(sessions, accepted, sent), Received(sd, m);
            Possible(s, e) && SlotOf(s, e) == sd - 1 && Step(s, e) == Process(s, sd - 1, m)
  {
    var s := Peers(sessions, accepted, sent);
    assert Live(s, sd - 1) && s.peers[sd - 1] == sd;
    SlotIs(s, sd - 1, Received(sd, m));
  }

  lemma PeerRestores(sessions: seq<Session>, accepted: map<string, seq<int>>, sent: map<string, seq<int>>, sd: nat, m: Msg)
    requires |sessions| <= 2 && 1 <= sd <= |sessions| && IsLogon(m)
    ensures HandleLogon(Peers(sessions, accepted, sent), sd - 1, m) ==
            if Readable(m)
            then Peers(sessions[sd - 1 := Session(m.senderCompId, 2, 0)], accepted, Logged(sent, m.senderCompId, 1))
            else Peers(sessions[sd - 1 := Session(m.senderCompId, 1, 0)], accepted, sent)
  {
    var s := Peers(sessions, accepted, sent);
    assert Load(s.store, m.senderCompId) == Some((1, 0));
    var first := sessions[sd - 1 := Session(m.senderCompId, 1, 0)];
    assert first[sd - 1 := Session(m.senderCompId, 2, 0)] == sessions[sd - 1 := Session(m.senderCompId, 2, 0)];
  }

  lemma PeerAccepts(sessions: seq<Session>, accepted: map<string, seq<int>>, sent: map<string, seq<int>>, sd: nat, m: Msg)
    requires |sessions| <= 2 && 1 <= sd <= |sessions| && ToInt(m.sequenceNumber) == sessions[sd - 1].incoming + 1
    requires m.messageType in {LOGON, NEW_ORDER}
    ensures Validate(Peers(sessions, accepted, sent), sd - 1, m) ==
            Peers(sessions[sd - 1 := sessions[sd - 1].(incoming := ToInt(m.sequenceNumber))],
                  Logged(accepted, m.senderCompId, ToInt(m.sequenceNumber)), sent)
  {
  }

  lemma PeerLogon(sessions: seq<Session>, accepted: map<string, seq<int>>, sent: map<string, seq<int>>, sd: nat, c: string)
    requires |sessions| <= 2 && 1 <= sd <= |sessions| && c != ""
    ensures Process(Peers(sessions, accepted, sent), sd - 1, Logon(c, 1, "S")) ==
            Peers(sessions[sd - 1 := Session(c, 2, 1)], Logged(accepted, c, 1), Logged(sent, c, 1))
  {
    var m := Logon(c, 1, "S");
    LogonIs(c, 1, "S");
    PeerRestores(sessions, accepted, sent, sd, m);
    var first := sessions[sd - 1 := Session(c, 2, 0)];
    PeerAccepts(first, accepted, Logged(sent, c, 1), sd, m);
    assert first[sd - 1 := Session(c, 2, 1)] == sessions[sd - 1 := Session(c, 2, 1)];
  }

  /** The first logon under a comp id without a store, whoever has it. */
  lemma PeerLogsOn(sessions: seq<Session>, accepted: map<string, seq<int>>, sent: map<string, seq<int>>, sd: nat, c: string)
    requires |sessions| <= 2 && 1 <= sd <= |sessions| && c != ""
    ensures var s, e := Peers(sessions, accepted, sent), Received(sd, Logon(c, 1, "S"));
            && Possible(s, e) && SlotOf(s, e) == sd - 1
            && Step(s, e) == Peers(sessions[sd - 1 := Session(c, 2, 1)], Logged(accepted, c, 1), Logged(sent, c, 1))
  {
    PeerReceives(sessions, accepted, sent, sd, Logon(c, 1, "S"));
    PeerLogon(sessions, accepted, sent, sd, c);
  }

  lemma PeerFair(sessions: seq<Session>, accepted: map<string, seq<int>>, sent: map<string, seq<int>>, sd: nat, c: string)
    requires |sessions| == 1 && sessions[0] == NEW_SESSION && sd == 1 && c != ""
    ensures var s, e := Peers(sessions, accepted, sent), Received(sd, Logon(c, 1, "S")); Possible(s, e) && Fair(s, e)
  {
    LogonIs(c, 1, "S");
    PeerReceives(sessions, accepted, sent, sd, Logon(c, 1, "S"));
  }

  lemma FirstConnect()
    ensures Possible(NEW_SERVER, Connected(1))
    ensures Step(NEW_SERVER, Connected(1)) == Peers([NEW_SESSION], map[], map[])
  {
    PeerConnects([], map[], map[]);
    assert [] + [NEW_SESSION] == [NEW_SESSION];
  }

  lemma SecondConnect(n: Session, accepted: map<string, seq<int>>, sent: map<string, seq<int>>)
    ensures Possible(Peers([n], accepted, sent), Connected(2))
    ensures Step(Peers([n], accepted, sent), Connected(2)) == Peers([n, NEW_SESSION], accepted, sent)
  {
    PeerConnects([n], accepted, sent);
    assert [n] + [NEW_SESSION] == [n, NEW_SESSION];
  }

  // ----- Runs of three events -----

  lemma RunThree(s0: AlignedServer, e0: Event, s1: AlignedServer, e1: Event, s2: AlignedServer, e2: Event)
    requires Possible(s0, e0) && Step(s0, e0) == s1 && Possible(s1, e1) && Step(s1, e1) == s2 && Possible(s2, e2)
    ensures PossibleRun(s0, [e0, e1, e2]) && Run(s0, [e0, e1, e2]) == Step(s2, e2)
    ensures Fair(s0, e0) && Fair(s1, e1) && Fair(s2, e2) ==> FairRun(s0, [e0, e1, e2])
  {
    RunOn(s2, e2, []);
    RunOn(s1, e1, [e2]);
    RunOn(s0, e0, [e1, e2]);
    assert [e2] + [] == [e2] && [e1] + [e2] == [e1, e2] && [e0] + [e1, e2] == [e0, e1, e2];
  }

  lemma OrderStep()
    ensures var s, e := Peers([NEW_SESSION], map[], map[]), Received(1, ORDER);
            Possible(s, e) && Step(s, e) == Peers([Session("", 1, 2)], Logged(map[], "X", 2), map[])
  {
    PeerReceives([NEW_SESSION], map[], map[], 1, ORDER);
    PeerAccepts([NEW_SESSION], map[], map[], 1, ORDER);
    assert [NEW_SESSION][0 := Session("", 1, 2)] == [Session("", 1, 2)];
  }

  lemma EarlyLogon()
    ensures var s, e := Peers([Session("", 1, 2)], Logged(map[], "X", 2), map[]), Received(1, Logon("X", 1, "S"));
            Possible(s, e) && Log(Step(s, e).accepted, "X") == [2, 1]
  {
    PeerLogsOn([Session("", 1, 2)], Logged(map[], "X", 2), map[], 1, "X");
  }

  /** X sends an order numbered 2 without a logon, and then a logon numbered 1: both are accepted. */
  lemma EarlyMessage()
    ensures var events := [Connected(1), Received(1, ORDER), Received(1, Logon("X", 1, "S"))];
            PossibleRun(NEW_SERVER, events) && Log(Run(NEW_SERVER, events).accepted, "X") == [2, 1]
  {
    FirstConnect();
    OrderStep();
    EarlyLogon();
    RunThree(NEW_SERVER, Connected(1), Peers([NEW_SESSION], map[], map[]), Received(1, ORDER),
             Peers([Session("", 1, 2)], Logged(map[], "X", 2), map[]), Received(1, Logon("X", 1, "S")));
  }

  const LOGGED_ON: seq<Event> := [Connected(1), Received(1, Logon("X", 1, "S")), Connected(2)]

  /** X is logged on at the first peer, and a second peer is connected. */
  lemma LoggedOn() returns (s: AlignedServer)
    ensures s == Peers([Session("X", 2, 1), NEW_SESSION], Logged(map[], "X", 1), Logged(map[], "X", 1))
    ensures PossibleRun(NEW_SERVER, LOGGED_ON) && FairRun(NEW_SERVER, LOGGED_ON) && Run(NEW_SERVER, LOGGED_ON) == s
  {
    var n, log := Session("X", 2, 1), Logged(map[], "X", 1);
    FirstConnect();
    PeerFair([NEW_SESSION], map[], map[], 1, "X");
    PeerLogsOn([NEW_SESSION], map[], map[], 1, "X");
    assert [NEW_SESSION][0 := n] == [n];
    SecondConnect(n, log, log);
    RunThree(NEW_SERVER, Connected(1), Peers([NEW_SESSION], map[], map[]), Received(1, Logon("X", 1, "S")),
             Peers([n], log, log), Connected(2));
    s := Peers([n, NEW_SESSION], log, log);
  }

  lemma {:induction false} RunBoth(s: AlignedServer, first: seq<Event>, second: seq<Event>)
    requires PossibleRun(s, first) && PossibleRun(Run(s, first), second)
    ensures PossibleRun(s, first + second) && Run(s, first + second) == Run(Run(s, first), second)
    decreases |first|
  {
    if first == [] {
      assert first + second == second;
    } else {
      assert first + second == [first[0]] + (first[1..] + second);
      RunBoth(Step(s, first[0]), first[1..], second);
      RunOn(s, first[0], first[1..] + second);
    }
  }

  lemma RunOne(s: AlignedServer, e: Event)
    requires Possible(s, e)
    ensures PossibleRun(s, [e]) && Run(s, [e]) == Step(s, e)
  {
    RunOn(s, e, []);
    assert [e] + [] == [e];
  }

  /** A logon of X at the second peer, too, is answered with number 1 once more. */
  lemma DoubleLogon()
    ensures PossibleRun(NEW_SERVER, LOGGED_ON) && FairRun(NEW_SERVER, LOGGED_ON)
    ensures var events := LOGGED_ON + [Received(2, Logon("X", 1, "S"))];
            PossibleRun(NEW_SERVER, events) && Log(Run(NEW_SERVER, events).sent, "X") == [1, 1]
  {
    var s := LoggedOn();
    var log, e := Logged(map[], "X", 1), Received(2, Logon("X", 1, "S"));
    PeerLogsOn([Session("X", 2, 1), NEW_SESSION], log, log, 2, "X");
    RunOne(s, e);
    RunBoth(NEW_SERVER, LOGGED_ON, [e]);
  }

  lemma UnreadableStep(log: map<string, seq<int>>)
    ensures var s, e := Peers([Session("X", 2, 1), NEW_SESSION], log, log), Received(2, UNREADABLE);
            Possible(s, e) && Step(s, e) == Peers([Session("X", 2, 1), Session("X", 1, 0)], log, log)
  {
    var sessions := [Session("X", 2, 1), NEW_SESSION];
    LogonIs("X", 1, "S");
    assert StoI("") == None;
    PeerReceives(sessions, log, log, 2, UNREADABLE);
    PeerRestores(sessions, log, log, 2, UNREADABLE);
    assert sessions[1 := Session("X", 1, 0)] == [Session("X", 2, 1), Session("X", 1, 0)];
  }

  lemma RejectStep(log: map<string, seq<int>>)
    ensures var s, e := Peers([Session("X", 2, 1), Session("X", 1, 0)], log, log), Received(2, EMPTY);
            && Possible(s, e) && Fair(s, e)
            && Step(s, e) == Peers([Session("X", 2, 1), Session("X", 2, 0)], log, Logged(log, "X", 1))
  {
    PeerReceives([Session("X", 2, 1), Session("X", 1, 0)], log, log, 2, EMPTY);
  }

  lemma UnreadableSteps(log: map<string, seq<int>>) returns (s: AlignedServer, e: Event, f: Event)
    requires log == Logged(map[], "X", 1)
    ensures s == Peers([Session("X", 2, 1), NEW_SESSION], log, log)
    ensures e == Received(2, UNREADABLE) && f == Received(2, EMPTY)
    ensures PossibleRun(s, [e] + [f]) && Log(Run(s, [e] + [f]).sent, "X") == [1, 1]
  {
    s := Peers([Session("X", 2, 1), NEW_SESSION], log, log);
    e, f := Received(2, UNREADABLE), Received(2, EMPTY);
    UnreadableStep(log);
    RejectStep(log);
    RunOne(Step(s, e), f);
    RunOn(s, e, [f]);
  }

  /** So is, after a logon of X that throws, the next incomplete message. */
  lemma UnreadableLogon()
    ensures PossibleRun(NEW_SERVER, LOGGED_ON) && FairRun(NEW_SERVER, LOGGED_ON)
    ensures var events := LOGGED_ON + ([Received(2, UNREADABLE)] + [Received(2, EMPTY)]);
            PossibleRun(NEW_SERVER, events) && Log(Run(NEW_SERVER, events).sent, "X") == [1, 1]
  {
    var s := LoggedOn();
    var t, e, f := UnreadableSteps(Logged(map[], "X", 1));
    RunBoth(NEW_SERVER, LOGGED_ON, [e] + [f]);
  }

  lemma RenamedSteps(log: map<string, seq<int>>) returns (s: AlignedServer, e: Event, f: Event)
    requires log == Logged(map[], "X", 1)
    ensures s == Peers([Session("X", 2, 1), NEW_SESSION], log, log)
    ensures e == Received(1, Logon("Y", 1, "S")) && f == Received(2, Logon("X", 1, "S"))
    ensures PossibleRun(s, [e] + [f]) && !Held(Step(s, e), "X")
    ensures Log(Run(s, [e] + [f]).sent, "X") == [1, 1] == Log(Run(s, [e] + [f]).accepted, "X")
  {
    s := Peers([Session("X", 2, 1), NEW_SESSION], log, log);
    e, f := Received(1, Logon("Y", 1, "S")), Received(2, Logon("X", 1, "S"));
    var sessions, both := [Session("Y", 2, 1), NEW_SESSION], Logged(log, "Y", 1);
    PeerLogsOn([Session("X", 2, 1), NEW_SESSION], log, log, 1, "Y");
    assert [Session("X", 2, 1), NEW_SESSION][0 := Session("Y", 2, 1)] == sessions;
    PeerLogsOn(sessions, both, both, 2, "X");
    RunOne(Step(s, e), f);
    RunOn(s, e, [f]);
  }

  /** The first session logs on again, as Y. Then nobody is logged on as X, and a logon of X at the second peer repeats
      the numbers sent and accepted. */
  lemma Renamed()
    ensures PossibleRun(NEW_SERVER, LOGGED_ON) && FairRun(NEW_SERVER, LOGGED_ON)
    ensures var e, f := Received(1, Logon("Y", 1, "S")), Received(2, Logon("X", 1, "S"));
            && PossibleRun(NEW_SERVER, LOGGED_ON + ([e] + [f]))
            && Possible(Run(NEW_SERVER, LOGGED_ON), e) && !Held(Step(Run(NEW_SERVER, LOGGED_ON), e), "X")
            && var s := Run(NEW_SERVER, LOGGED_ON + ([e] + [f]));
               Log(s.sent, "X") == [1, 1] == Log(s.accepted, "X")
  {
    var s := LoggedOn();
    var t, e, f := RenamedSteps(Logged(map[], "X", 1));
    RunBoth(NEW_SERVER, LOGGED_ON, [e] + [f]);
    assert ([e] + [f])[0] == e;
  }
}
