/** Fairness is exact: after a step from a state with numbers in order, all fair continuations keep the numbers of all
    comp ids in order if and only if the step was fair (`source/fix/fix_server_reactor.cpp`,
    `source/fix/fix_session.cpp`, `source/fix/fix_sequence_store.h`). */
module SequenceExactness {
  import opened Integers
  import opened Wrappers
  import opened Text
  import opened FixConstants
  import opened FixMessages
  import opened FixServers
  import opened ServerRuns
  import opened SequenceNumbers
  import opened SequenceFutures

  // ----- Unfair messages -----

  /** A message accepted on a session that is not its sender's: the sender's own numbers stay behind. */
  lemma StrangerSpoils(s: AlignedServer, i: nat, m: Msg, n: nat) returns (events: seq<Event>)
    requires Numbers(s, n, n) && Live(s, i) && n + 5 < INT_MAX && m.senderCompId != "" && s.validation
    requires ToInt(m.sequenceNumber) == s.sessions[i].incoming + 1 && m.senderCompId != s.sessions[i].targetCompId
    ensures Aligned(Validate(s, i, m)) && Spoils(Validate(s, i, m), events)
  {
    var c := m.senderCompId;
    var t := TakenOthers(s, i, m);
    if Held(s, c) {
      var j: nat :| Live(s, j) && j < |s.sessions| && s.sessions[j].targetCompId == c;
      assert SessionOk(s, j, n, n);
      events := SessionSpoils(t, j);
    } else {
      StillFree(s, t, i, c, s.sessions[i].targetCompId);
      assert Restorable(s, c, n, n);
      events := StoreSpoils(t, c);
    }
  }

  lemma StillFree(s: AlignedServer, t: AlignedServer, i: nat, c: string, d: string)
    requires Others(s, t, i, d) && !HeldElsewhere(s, i, c) && c != d
    ensures !Held(t, c)
  {
    forall j: nat | Live(t, j) && j < |t.sessions| ensures t.sessions[j].targetCompId != c {
    }
  }

  /** A logon under a comp id that another session has. */
  lemma HeldSpoils(s: AlignedServer, i: nat, m: Msg, n: nat) returns (events: seq<Event>)
    requires Numbers(s, n, n) && Live(s, i) && n + 5 < INT_MAX && IsLogon(m) && Compare(m.targetCompId, s.compId)
    requires HeldElsewhere(s, i, m.senderCompId)
    ensures Aligned(Process(s, i, m)) && Spoils(Process(s, i, m), events)
  {
    var j: nat :| Live(s, j) && j < |s.sessions| && j != i && s.sessions[j].targetCompId == m.senderCompId;
    assert SessionOk(s, j, n, n);
    var t := ProcessOthers(s, i, m);
    if Readable(m) {
      events := SessionSpoils(t, j);
    } else {
      TwoSpoil(t, i, j);
      events := [Application(t.peers[i]), Application(t.peers[j])];
    }
  }

  /** A logon under another comp id, on a session whose numbers are not in the store. */
  lemma ForgottenSpoils(s: AlignedServer, i: nat, m: Msg, n: nat) returns (events: seq<Event>)
    requires Numbers(s, n, n) && Live(s, i) && n + 5 < INT_MAX && IsLogon(m) && Compare(m.targetCompId, s.compId)
    requires !HeldElsewhere(s, i, m.senderCompId) && !Saved(s, i) && s.sessions[i].targetCompId != m.senderCompId
    ensures Aligned(Process(s, i, m)) && Spoils(Process(s, i, m), events)
  {
    var c := s.sessions[i].targetCompId;
    BehindWrong(s, i, n);
    FreeStored(s, m.senderCompId, i, n);
    var t := ProcessOthers(s, i, m);
    assert !HeldElsewhere(s, i, c) by {
      forall j: nat | Live(s, j) && j != i ensures s.sessions[j].targetCompId != c { assert SequenceNumbers.Apart(s, i, j); }
    }
    StillFree(s, t, i, c, m.senderCompId);
    events := StoreSpoils(t, c);
  }

  lemma FreeStored(s: AlignedServer, c: string, i: nat, n: nat)
    requires Numbers(s, n, n) && Live(s, i) && c != "" && !HeldElsewhere(s, i, c)
    requires s.sessions[i].targetCompId != c
    ensures Load(s.store, c).Some?
  {
    assert !Held(s, c);
    assert Restorable(s, c, n, n);
  }

  /** A second logon under the session's own comp id, whose numbers are not in the store. */
  lemma ResetSpoils(s: AlignedServer, i: nat, m: Msg, n: nat) returns (events: seq<Event>)
    requires Numbers(s, n, n) && Live(s, i) && n + 5 < INT_MAX && IsLogon(m) && Compare(m.targetCompId, s.compId)
    requires !HeldElsewhere(s, i, m.senderCompId) && !Saved(s, i) && s.sessions[i].targetCompId == m.senderCompId
    ensures Aligned(Process(s, i, m)) && Spoils(Process(s, i, m), events)
  {
    BehindWrong(s, i, n);
    if Turned(s, m) {
      events := TurnedSpoils(s, i, m);
    } else {
      var t := StaysOthers(s, i, m);
      events := SessionSpoils(t, i);
    }
  }

  lemma TurnedSpoils(s: AlignedServer, i: nat, m: Msg) returns (events: seq<Event>)
    requires s.validation && Live(s, i) && IsLogon(m) && Compare(m.targetCompId, s.compId)
    requires Load(s.store, m.senderCompId).Some? && Turned(s, m) && !HeldElsewhere(s, i, m.senderCompId)
    requires var (o, k) := Load(s.store, m.senderCompId).value;
             Wrong(s, m.senderCompId, o, k) && 1 <= o < INT_MAX && 0 <= k < INT_MAX
    ensures Aligned(Process(s, i, m)) && Spoils(Process(s, i, m), events)
  {
    var (o, k) := Load(s.store, m.senderCompId).value;
    var t := TurnedOthers(s, i, m);
    StoreRoundTrip(o + 1, k);
    LeftFree(s, t, i, m.senderCompId);
    events := StoreSpoils(t, m.senderCompId);
  }

  /** What is stored for a session that is not saved is behind. */
  lemma BehindWrong(s: AlignedServer, i: nat, n: nat)
    requires Numbers(s, n, n) && Live(s, i) && !Saved(s, i)
    ensures var c := s.sessions[i].targetCompId;
            && c != "" && Load(s.store, c).Some?
            && var (o, k) := Load(s.store, c).value;
               && Wrong(s, c, o, k) && 1 <= o <= n + 1 && 0 <= k <= n
  {
    assert SessionOk(s, i, n, n);
  }

  lemma LeftFree(s: AlignedServer, t: AlignedServer, i: nat, c: string)
    requires Others(s, t, i, c) && !HeldElsewhere(s, i, c) && !Live(t, i)
    ensures !Held(t, c)
  {
    forall j: nat | Live(t, j) && j < |t.sessions| ensures t.sessions[j].targetCompId != c {
    }
  }

  // ----- The exact conditions -----

  lemma RejectedSpoils(s: AlignedServer, i: nat)
    requires Live(s, i) && s.sessions[i].targetCompId == ""
    ensures Aligned(Send(s, i)) && Spoils(Send(s, i), [])
  {
    var t := SendOthers(s, i);
    assert Log(t.sent, "") != [];
    SpoiltAtOnce(t);
  }

  lemma UnfairLogonSpoils(s: AlignedServer, i: nat, m: Msg, n: nat) returns (events: seq<Event>)
    requires Numbers(s, n, n) && Live(s, i) && n + 5 < INT_MAX && IsLogon(m) && Compare(m.targetCompId, s.compId)
    requires !Saved(s, i) || HeldElsewhere(s, i, m.senderCompId)
    ensures Aligned(Process(s, i, m)) && Spoils(Process(s, i, m), events)
  {
    if HeldElsewhere(s, i, m.senderCompId) {
      events := HeldSpoils(s, i, m, n);
    } else if s.sessions[i].targetCompId == m.senderCompId {
      events := ResetSpoils(s, i, m, n);
    } else {
      events := ForgottenSpoils(s, i, m, n);
    }
  }

  lemma UnfairSpoils(s: AlignedServer, i: nat, m: Msg, n: nat) returns (events: seq<Event>)
    requires Numbers(s, n, n) && Live(s, i) && n + 5 < INT_MAX && !FairMessage(s, i, m)
    ensures Aligned(Process(s, i, m)) && Spoils(Process(s, i, m), events)
  {
    if !HasRequiredTags(m) {
      RejectedSpoils(s, i);
      events := [];
    } else if m.messageType == LOGON {
      events := UnfairLogonSpoils(s, i, m, n);
    } else {
      events := StrangerSpoils(s, i, m, n);
    }
  }

  lemma FairSecure(s: AlignedServer, e: Event, n: nat)
    requires Numbers(s, n, n) && Possible(s, e) && n + 2 < INT_MAX && Fair(s, e)
    ensures Secure(Step(s, e), n + 1)
  {
    var t := Step(s, e);
    StepKeeps(s, e, n);
    forall events: seq<Event> | Continues(t, events, n + 1) ensures InOrder(Run(t, events)) {
      RunKeeps(t, events, n + 1);
      NumbersInOrder(Run(t, events), n + 1 + |events|, n + 1 + |events|);
    }
  }

  lemma SpoiltInsecure(t: AlignedServer, events: seq<Event>, n: nat)
    requires Spoils(t, events) && n + 3 < INT_MAX
    ensures !Secure(t, n)
  {
    assert Continues(t, events, n);
  }

  /** The exact condition: an event leaves the numbers of all comp ids in order, now and in every fair continuation,
      if and only if it is fair. */
  lemma FairExactly(s: AlignedServer, e: Event, n: nat)
    requires Numbers(s, n, n) && Possible(s, e) && n + 5 < INT_MAX
    ensures Fair(s, e) <==> Secure(Step(s, e), n + 1)
  {
    if Fair(s, e) {
      FairSecure(s, e, n);
    } else if e.Application? {
      RejectedSpoils(s, SlotOf(s, e));
      SpoiltInsecure(Step(s, e), [], n + 1);
    } else {
      var events := UnfairSpoils(s, SlotOf(s, e), e.msg, n);
      SpoiltInsecure(Step(s, e), events, n + 1);
    }
  }

  /** The exact condition on logons for this server, readable or not: the session has nothing to lose, and no other
      session has the comp id. */
  lemma LogonExactly(s: AlignedServer, e: Event, n: nat)
    requires Numbers(s, n, n) && Possible(s, e) && n + 5 < INT_MAX
    requires e.Received? && IsLogon(e.msg) && Compare(e.msg.targetCompId, s.compId)
    ensures Secure(Step(s, e), n + 1) <==>
              Saved(s, SlotOf(s, e)) && !HeldElsewhere(s, SlotOf(s, e), e.msg.senderCompId)
  {
    FairExactly(s, e, n);
  }

  /** The exact condition on other complete messages: the session refuses the message, or has its sender's comp id. */
  lemma AcceptedExactly(s: AlignedServer, e: Event, n: nat)
    requires Numbers(s, n, n) && Possible(s, e) && n + 5 < INT_MAX
    requires e.Received? && HasRequiredTags(e.msg) && e.msg.messageType != LOGON
    ensures var session := s.sessions[SlotOf(s, e)];
            Secure(Step(s, e), n + 1) <==>
              ToInt(e.msg.sequenceNumber) != session.incoming + 1 || session.targetCompId == e.msg.senderCompId
  {
    FairExactly(s, e, n);
  }

  /** The exact condition on incomplete messages: the session is logged on. Otherwise the rejection is sent to nobody,
      although the numbers of all comp ids are in order. */
  lemma RejectedExactly(s: AlignedServer, e: Event, n: nat)
    requires Numbers(s, n, n) && Possible(s, e) && n + 5 < INT_MAX && e.Received? && !HasRequiredTags(e.msg)
    ensures Secure(Step(s, e), n + 1) <==> s.sessions[SlotOf(s, e)].targetCompId != ""
    ensures Log(Step(s, e).sent, "") == [] <==> s.sessions[SlotOf(s, e)].targetCompId != ""
    ensures forall c: string :: Gapless(Step(s, e).sent, c)
  {
    FairExactly(s, e, n);
    var i := SlotOf(s, e);
    assert SessionOk(s, i, n, n);
    forall c: string ensures Gapless(Step(s, e).sent, c) {
      NumbersGapless(s, n, n, c);
      LoggedExactly(s.sent, s.sessions[i].targetCompId, s.sessions[i].outgoing);
      LogOther(s.sent, s.sessions[i].targetCompId, c, s.sessions[i].outgoing);
    }
    LogOther(s.sent, s.sessions[i].targetCompId, "", s.sessions[i].outgoing);
  }

  /** In every reachable state. */
  lemma ReachableExactly(start: AlignedServer, before: seq<Event>, e: Event)
    requires Initial(start) && PossibleRun(start, before) && FairRun(start, before) && |before| + 5 < INT_MAX
    requires Possible(Run(start, before), e)
    ensures Fair(Run(start, before), e) <==> Secure(Step(Run(start, before), e), |before| + 1)
  {
    InitialNumbers(start);
    RunKeeps(start, before, 0);
    FairExactly(Run(start, before), e, |before|);
  }
}
