/** What a received message causes, told from the message, the session and the logs alone
    (`source/fix/fix_server_reactor.cpp`, `source/fix/fix_session.cpp`). The numbers are those of the FIX standard. */
module MessageHandling {
  import opened Integers
  import opened Wrappers
  import opened Text
  import opened FixConstants
  import opened FixMessages
  import opened FixServers
  import opened ServerRuns

  // ----- Which messages are rejected -----

  /** A field or tag that every message needs is missing. */
  predicate LacksHeader(m: Msg) {
    || m.fixVersion == 0 || m.messageType == 0 || m.sequenceNumber == 0 || m.senderCompId == "" || m.targetCompId == ""
    || 9 !in m.body || 10 !in m.body
  }

  predicate LacksLogonTag(m: Msg) {
    108 !in m.body || 98 !in m.body
  }

  predicate LacksOrderTag(m: Msg) {
    || m.sendingTime == "" || 55 !in m.body || 11 !in m.body || 38 !in m.body || 44 !in m.body || 54 !in m.body
    || 40 !in m.body || 60 !in m.body
  }

  predicate LacksCancelTag(m: Msg) {
    m.sendingTime == "" || 11 !in m.body || 41 !in m.body
  }

  predicate Incomplete(m: Msg) {
    || LacksHeader(m)
    || (m.messageType == LOGON && LacksLogonTag(m))
    || (m.messageType == NEW_ORDER && LacksOrderTag(m))
    || (m.messageType == CANCEL && LacksCancelTag(m))
  }

  // ----- What can be seen afterwards -----

  /** One more number in the log of a comp id. */
  predicate Appended(before: map<string, seq<int>>, after: map<string, seq<int>>, compId: string, number: int) {
    after == before[compId := (if compId in before then before[compId] else []) + [number]]
  }

  /** Nothing but the i-th session, its two flags, the store and the two logs may differ. */
  ghost predicate OnlyAt(s: Server, t: Server, i: nat) {
    && t.compId == s.compId && t.validation == s.validation && t.peers == s.peers && t.table == s.table
    && |t.sessions| == |s.sessions| && |t.peerFlags| == |s.peerFlags| && |t.sessionFlags| == |s.sessionFlags|
    && (forall k: nat | k != i && k < |s.sessions| :: t.sessions[k] == s.sessions[k])
    && (forall k: nat | k != i && k < |s.peerFlags| :: t.peerFlags[k] == s.peerFlags[k])
    && (forall k: nat | k != i && k < |s.sessionFlags| :: t.sessionFlags[k] == s.sessionFlags[k])
  }

  /** The session goes on with these values, and nothing is stored. */
  ghost predicate GoesOn(s: Server, t: Server, i: nat, compId: string, outgoing: int, incoming: int) {
    && OnlyAt(s, t, i) && t.store == s.store
    && i < |t.sessions| && i < |t.peerFlags| && i < |t.sessionFlags|
    && t.peerFlags[i] && t.sessionFlags[i] && t.sessions[i] == Session(compId, outgoing, incoming)
  }

  /** The session is over: its slot is free in both layers, and the store holds its numbers. */
  ghost predicate Ended(s: Server, t: Server, i: nat, compId: string, outgoing: int, incoming: int) {
    && OnlyAt(s, t, i) && i < |t.peerFlags| && i < |t.sessionFlags| && !t.peerFlags[i] && !t.sessionFlags[i]
    && t.store == s.store[compId := ToDec(outgoing) + "," + ToDec(incoming)]
  }

  /** One number was sent, none accepted, and the session goes on. */
  ghost predicate SentOnly(s: Server, t: Server, i: nat)
    requires i < |s.sessions|
  {
    var n := s.sessions[i];
    && GoesOn(s, t, i, n.targetCompId, n.outgoing + 1, n.incoming)
    && Appended(s.sent, t.sent, n.targetCompId, n.outgoing) && t.accepted == s.accepted
  }

  // ----- What each message causes -----

  /** A session has refused the message and is over: nothing was accepted or sent. */
  ghost predicate HungUp(s: Server, t: Server, i: nat)
    requires i < |s.sessions|
  {
    var n := s.sessions[i];
    Ended(s, t, i, n.targetCompId, n.outgoing, n.incoming) && t.sent == s.sent && t.accepted == s.accepted
  }

  /** With validation on, the only right number is the one behind the last accepted. */
  predicate WrongNumber(s: Server, incoming: int, number: int) {
    s.validation && number != incoming + 1
  }

  /** A complete message other than a logon: refused with a wrong number, else accepted under its sender's comp id; a
      logoff is answered and ends the session, a heartbeat, a test request or a user logon is answered, nothing else is. */
  ghost predicate NumberedAnswered(s: Server, t: Server, i: nat, m: Msg)
    requires i < |s.sessions|
  {
    var n, number := s.sessions[i], ToInt(m.sequenceNumber);
    if WrongNumber(s, n.incoming, number) then HungUp(s, t, i)
    else
      && Appended(s.accepted, t.accepted, m.senderCompId, number)
      && if m.messageType == LOGOFF then
           Ended(s, t, i, n.targetCompId, n.outgoing + 1, number)
           && Appended(s.sent, t.sent, n.targetCompId, n.outgoing)
         else if m.messageType == HEARTBEAT || m.messageType == TEST_REQUEST || m.messageType == USER_LOGON then
           GoesOn(s, t, i, n.targetCompId, n.outgoing + 1, number)
           && Appended(s.sent, t.sent, n.targetCompId, n.outgoing)
         else GoesOn(s, t, i, n.targetCompId, n.outgoing, number) && t.sent == s.sent
  }

  /** A complete logon with readable tags, on a session that has these numbers for its comp id: it is answered with the
      first of them, then refused with a wrong number, else accepted. */
  ghost predicate LogonAnswered(s: Server, t: Server, i: nat, compId: string, outgoing: int, incoming: int, number: int) {
    && Appended(s.sent, t.sent, compId, outgoing)
    && if WrongNumber(s, incoming, number) then
         Ended(s, t, i, compId, outgoing + 1, incoming) && t.accepted == s.accepted
       else GoesOn(s, t, i, compId, outgoing + 1, number) && Appended(s.accepted, t.accepted, compId, number)
  }

  /** A logon with which stoi throws: the session has taken the comp id and the numbers read before. */
  ghost predicate Thrown(s: Server, t: Server, i: nat, compId: string, outgoing: int, incoming: int) {
    GoesOn(s, t, i, compId, outgoing, incoming) && t.sent == s.sent && t.accepted == s.accepted
  }

  /** A complete logon for this server. A comp id without a file has the numbers 1 and 0. */
  ghost predicate LogonHandled(s: Server, t: Server, i: nat, m: Msg)
    requires i < |s.sessions| && !LacksLogonTag(m)
  {
    var n, c, number := s.sessions[i], m.senderCompId, ToInt(m.sequenceNumber);
    var first := if c in s.store then ReadNumber(s.store[c], 0) else Some(1);
    var second := if c in s.store then ReadNumber(s.store[c], 1) else Some(0);
    match (first, second)
    case (None, _) => Thrown(s, t, i, c, n.outgoing, n.incoming)
    case (Some(o), None) => Thrown(s, t, i, c, o, n.incoming)
    case (Some(o), Some(k)) =>
      if StoI(m.body[108]) == None || StoI(m.body[98]) == None then Thrown(s, t, i, c, o, k)
      else LogonAnswered(s, t, i, c, o, k, number)
  }

  /** The whole of processMessage. */
  ghost predicate Handled(s: Server, t: Server, i: nat, m: Msg)
    requires i < |s.sessions|
  {
    if Incomplete(m) then SentOnly(s, t, i)
    else if m.messageType != LOGON then NumberedAnswered(s, t, i, m)
    else if !SameText(m.targetCompId, s.compId) then HungUp(s, t, i)
    else LogonHandled(s, t, i, m)
  }

  lemma CompleteExactly(m: Msg)
    ensures HasRequiredTags(m) <==> !Incomplete(m)
  {
  }

  // ----- The steps it is made of -----

  lemma SendIs(s: Server, i: nat)
    requires Shaped(s) && Live(s, i)
    ensures SentOnly(s, Send(s, i), i)
  {
  }

  lemma DisconnectIs(s: Server, i: nat)
    requires Shaped(s) && Live(s, i)
    ensures HungUp(s, Disconnect(s, i), i)
  {
  }

  /** A message with this number is accepted, and nothing is sent. */
  ghost predicate AcceptedOnly(s: Server, t: Server, i: nat, compId: string, number: int)
    requires i < |s.sessions|
  {
    var n := s.sessions[i];
    && GoesOn(s, t, i, n.targetCompId, n.outgoing, number)
    && Appended(s.accepted, t.accepted, compId, number) && t.sent == s.sent
  }

  lemma AcceptIs(s: Server, i: nat, m: Msg)
    requires Shaped(s) && Live(s, i)
    ensures AcceptedOnly(s, Accept(s, i, m), i, m.senderCompId, ToInt(m.sequenceNumber))
  {
  }

  /** Two steps of one session in a row. */
  lemma InARow(s: Server, t: Server, u: Server, i: nat)
    requires OnlyAt(s, t, i) && OnlyAt(t, u, i)
    ensures OnlyAt(s, u, i)
  {
  }

  lemma AnswerIs(s: Server, a: Server, i: nat, m: Msg)
    requires Shaped(a) && Live(a, i) && i < |s.sessions| && m.messageType != LOGON
    requires AcceptedOnly(s, a, i, m.senderCompId, ToInt(m.sequenceNumber))
    requires !WrongNumber(s, s.sessions[i].incoming, ToInt(m.sequenceNumber))
    ensures NumberedAnswered(s, Answer(a, i, m), i, m)
  {
    if m.messageType in {LOGOFF, HEARTBEAT, TEST_REQUEST, USER_LOGON} {
      var b := Send(a, i);
      SendIs(a, i);
      InARow(s, a, b, i);
      if m.messageType == LOGOFF {
        DisconnectIs(b, i);
        InARow(s, b, Disconnect(b, i), i);
      }
    }
  }

  lemma NumberedIs(s: Server, i: nat, m: Msg)
    requires Shaped(s) && Live(s, i) && m.messageType != LOGON
    ensures NumberedAnswered(s, Validate(s, i, m), i, m)
  {
    if WrongNumber(s, s.sessions[i].incoming, ToInt(m.sequenceNumber)) {
      DisconnectIs(s, i);
    } else {
      AcceptIs(s, i, m);
      AnswerIs(s, Accept(s, i, m), i, m);
    }
  }

  lemma RestoreIs(s: Server, i: nat, n: Session)
    requires Shaped(s) && Live(s, i)
    ensures Thrown(s, WithSession(s, i, n), i, n.targetCompId, n.outgoing, n.incoming)
  {
  }

  /** A logon whose numbers are restored is answered, then validated. */
  lemma AnsweredIs(s: Server, t: Server, i: nat, m: Msg, outgoing: int, incoming: int)
    requires Shaped(t) && Live(t, i) && Thrown(s, t, i, m.senderCompId, outgoing, incoming) && m.messageType == LOGON
    ensures LogonAnswered(s, Validate(Send(t, i), i, m), i, m.senderCompId, outgoing, incoming,
                          ToInt(m.sequenceNumber))
  {
    var b := Send(t, i);
    SendIs(t, i);
    InARow(s, t, b, i);
    if WrongNumber(s, incoming, ToInt(m.sequenceNumber)) {
      DisconnectIs(b, i);
      InARow(s, b, Disconnect(b, i), i);
    } else {
      AcceptIs(b, i, m);
      InARow(s, b, Accept(b, i, m), i);
    }
  }

  lemma LogonIs(s: Server, i: nat, m: Msg)
    requires Shaped(s) && Live(s, i) && !Incomplete(m) && m.messageType == LOGON && SameText(m.targetCompId, s.compId)
    ensures LogonHandled(s, Process(s, i, m), i, m)
  {
    CompareExactly(m.targetCompId, s.compId);
    CompleteExactly(m);
    var n := Restored(s.store, s.sessions[i], m.senderCompId);
    RestoreIs(s, i, n);
    if Load(s.store, m.senderCompId) != None && Readable(m) {
      AnsweredIs(s, WithSession(s, i, n), i, m, n.outgoing, n.incoming);
    }
  }

  /** Every message to a live session is handled in exactly this way. */
  lemma HandledExactly(s: Server, i: nat, m: Msg)
    requires Shaped(s) && Live(s, i)
    ensures Handled(s, Process(s, i, m), i, m)
  {
    CompleteExactly(m);
    if Incomplete(m) {
      SendIs(s, i);
    } else if m.messageType != LOGON {
      NumberedIs(s, i, m);
    } else {
      CompareExactly(m.targetCompId, s.compId);
      if SameText(m.targetCompId, s.compId) { LogonIs(s, i, m); } else { DisconnectIs(s, i); }
    }
  }

  lemma AppendedDiffers(before: map<string, seq<int>>, after: map<string, seq<int>>, compId: string, number: int)
    requires Appended(before, after, compId, number)
    ensures after != before
  {
    assert after[compId] == (if compId in before then before[compId] else []) + [number];
  }

  /** A rejection and nothing else follows if and only if one of the listed fields or tags is missing. */
  lemma RejectedExactly(s: Server, i: nat, m: Msg)
    requires Shaped(s) && Live(s, i)
    ensures SentOnly(s, Process(s, i, m), i) <==> Incomplete(m)
  {
    var t := Process(s, i, m);
    HandledExactly(s, i, m);
    var n := s.sessions[i];
    if SentOnly(s, t, i) && !Incomplete(m) {
      AppendedDiffers(s.sent, t.sent, n.targetCompId, n.outgoing);
      NotAccepted(s, t, m.senderCompId, ToInt(m.sequenceNumber));
    }
  }

  lemma NotAccepted(s: Server, t: Server, compId: string, number: int)
    requires t.accepted == s.accepted
    ensures !Appended(s.accepted, t.accepted, compId, number)
  {
    if Appended(s.accepted, t.accepted, compId, number) { AppendedDiffers(s.accepted, t.accepted, compId, number); }
  }

  /** The numbers of a store file are its parts between commas. */
  lemma FileNumbers(parts: seq<string>, last: string, k: nat)
    requires ',' !in last && forall i | 0 <= i < |parts| :: ',' !in parts[i]
    ensures ReadNumber(Terminated(parts, ',') + last, k) ==
            if k < |parts| then StoI(parts[k]) else if k == |parts| && last != "" then StoI(last) else None
  {
    SplitJoined(parts, last, ',');
  }

  // ----- Over every run -----

  /** A new connection: the first slot that is free in both layers holds the descriptor and a new session. */
  ghost predicate Admitted(s: Server, t: Server, i: nat, sd: nat) {
    && (forall k: nat | k < i :: k < |s.peerFlags| && s.peerFlags[k]) && (i < |s.peerFlags| ==> !s.peerFlags[i])
    && i < |t.peers| && t.peers[i] == sd && Live(t, i) && t.table == s.table[sd := i]
    && i < |t.sessions| && t.sessions[i] == Session("", 1, 1)
    && t.store == s.store && t.sent == s.sent && t.accepted == s.accepted
    && forall k: nat | k != i :: Live(t, k) == Live(s, k)
                                 && (Live(s, k) ==> k < |t.sessions| && k < |t.peers| && k < |s.peers| && k < |s.sessions|
                                                    && t.sessions[k] == s.sessions[k] && t.peers[k] == s.peers[k])
  }

  /** Everything that an event does, and the slot it does it to. */
  ghost predicate EventHandled(s: AlignedServer, t: Server, i: nat, e: Event) {
    match e
    case Connected(sd) => Admitted(s, t, i, sd)
    case Received(sd, m) => Live(s, i) && s.peers[i] == sd && Handled(s, t, i, m)
    case Lost(sd) => Live(s, i) && s.peers[i] == sd && HungUp(s, t, i)
    case Application(sd) => Live(s, i) && s.peers[i] == sd && SentOnly(s, t, i)
  }

  lemma AdmittedIs(s: AlignedServer, sd: nat)
    requires !LivePeer(s, sd)
    ensures Admitted(s, Connect(s, sd), FirstFree(s.peerFlags), sd)
  {
    ConnectAligned(s, sd);
  }

  lemma StepHandled(s: AlignedServer, e: Event) returns (i: nat)
    requires Possible(s, e)
    ensures EventHandled(s, Step(s, e), i, e)
  {
    match e
    case Connected(sd) =>
      i := FirstFree(s.peerFlags);
      AdmittedIs(s, sd);
    case Received(sd, m) =>
      i := SlotOf(s, e);
      HandledExactly(s, i, m);
    case Lost(sd) =>
      i := SlotOf(s, e);
      DisconnectIs(s, i);
    case Application(sd) =>
      i := SlotOf(s, e);
      SendIs(s, i);
  }

  lemma {:induction false} RunOneMore(s: AlignedServer, events: seq<Event>, e: Event)
    requires PossibleRun(s, events) && Possible(Run(s, events), e)
    ensures PossibleRun(s, events + [e]) && Run(s, events + [e]) == Step(Run(s, events), e)
    decreases |events|
  {
    if events == [] {
      assert [] + [e] == [e] && [e][1..] == [];
    } else {
      assert (events + [e])[1..] == events[1..] + [e];
      RunOneMore(Step(s, events[0]), events[1..], e);
    }
  }

  /** In every run, whatever happened before, the next event does to the one slot of its descriptor what is said here. */
  lemma RunHandled(s: AlignedServer, events: seq<Event>, e: Event)
    requires PossibleRun(s, events) && Possible(Run(s, events), e)
    ensures PossibleRun(s, events + [e])
    ensures exists i: nat ::
              && EventHandled(Run(s, events), Run(s, events + [e]), i, e)
              && forall j: nat | Live(Run(s, events), j) && Run(s, events).peers[j] == e.sd :: j == i
  {
    RunOneMore(s, events, e);
    var t := Run(s, events);
    var i := StepHandled(t, e);
    forall j: nat | Live(t, j) && t.peers[j] == e.sd ensures j == i {
      if !e.Connected? { DistinctDescriptors(t, i, j); }
    }
  }
}
