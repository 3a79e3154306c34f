/** Sequence numbers without gaps: in every fair run, over all connections of a comp id, the numbers accepted from it
    are 1, 2, 3, ... and so are the numbers sent to it
    (`source/fix/fix_server_reactor.cpp`, `source/fix/fix_session.cpp`, `source/fix/fix_sequence_store.h`). */
module SequenceNumbers {
  import opened Integers
  import opened Wrappers
  import opened Text
  import opened FixConstants
  import opened FixMessages
  import opened FixServers
  import opened ServerRuns

  function UpTo(k: nat): (s: seq<int>)
    ensures |s| == k && forall i | 0 <= i < k :: s[i] == i + 1
  {
    seq(k, i => i + 1)
  }

  lemma UpToNext(k: nat)
    ensures UpTo(k) + [k + 1] == UpTo(k + 1)
  {
  }

  /** The logs of a comp id are 1, 2, 3, ... */
  ghost predicate Gapless(log: map<string, seq<int>>, compId: string) {
    Log(log, compId) == UpTo(|Log(log, compId)|)
  }

  /** Every number belongs to a comp id, and those of each comp id are 1, 2, 3, ... */
  ghost predicate InOrder(s: Server) {
    && Log(s.sent, "") == [] == Log(s.accepted, "")
    && forall c: string :: Gapless(s.sent, c) && Gapless(s.accepted, c)
  }

  // ----- The invariant -----

  /** These numbers are where the logs of a comp id end; a and b bound them. */
  ghost predicate Tracked(s: Server, compId: string, outgoing: int, incoming: int, a: nat, b: nat) {
    && 1 <= outgoing <= a + 1 && 0 <= incoming <= b
    && Log(s.sent, compId) == UpTo(outgoing - 1) && Log(s.accepted, compId) == UpTo(incoming)
  }

  /** A logged-on session holds the numbers, and what is stored for its comp id is not ahead. */
  ghost predicate Current(s: Server, n: Session, a: nat, b: nat) {
    && Tracked(s, n.targetCompId, n.outgoing, n.incoming, a, b)
    && match Load(s.store, n.targetCompId)
       case Some((o, k)) => 1 <= o <= n.outgoing && 0 <= k <= n.incoming
       case None => false
  }

  /** A session without a logon is as it was created. */
  ghost predicate SessionOk(s: Server, i: nat, a: nat, b: nat)
    requires i < |s.sessions|
  {
    if s.sessions[i].targetCompId == "" then s.sessions[i] == NEW_SESSION else Current(s, s.sessions[i], a, b)
  }

  /** Some live session is logged on under this comp id. */
  ghost predicate Held(s: Server, compId: string) {
    exists i: nat | Live(s, i) && i < |s.sessions| :: s.sessions[i].targetCompId == compId
  }

  /** Some live session other than the i-th is. */
  ghost predicate HeldElsewhere(s: Server, i: nat, compId: string) {
    exists j: nat | Live(s, j) && j < |s.sessions| && j != i :: s.sessions[j].targetCompId == compId
  }

  /** Nothing is lost when this session forgets its numbers: it has no comp id, or they are in the store. */
  predicate Saved(s: Server, i: nat)
    requires i < |s.sessions|
  {
    var n := s.sessions[i];
    n.targetCompId != "" ==> Load(s.store, n.targetCompId) == Some((n.outgoing, n.incoming))
  }

  /** The numbers of a comp id that is not logged on are in the store. */
  ghost predicate Restorable(s: Server, compId: string, a: nat, b: nat) {
    match Load(s.store, compId)
    case Some((o, i)) => Tracked(s, compId, o, i, a, b)
    case None => false
  }

  ghost predicate Apart(s: Server, i: nat, j: nat)
    requires i < |s.sessions| && j < |s.sessions|
  {
    s.sessions[i].targetCompId != "" ==> s.sessions[i].targetCompId != s.sessions[j].targetCompId
  }

  ghost predicate Numbers(s: AlignedServer, a: nat, b: nat) {
    && s.validation && Log(s.sent, "") == [] == Log(s.accepted, "")
    && (forall i: nat | Live(s, i) :: SessionOk(s, i, a, b))
    && (forall i: nat, j: nat | Live(s, i) && Live(s, j) && i != j :: Apart(s, i, j))
    && (forall c: string | c != "" && !Held(s, c) :: Restorable(s, c, a, b))
  }

  /** The numbers of every comp id follow each other. */
  lemma NumbersGapless(s: AlignedServer, a: nat, b: nat, c: string)
    requires Numbers(s, a, b)
    ensures Gapless(s.accepted, c) && Gapless(s.sent, c)
  {
    if c == "" {
    } else if Held(s, c) {
      var i: nat :| Live(s, i) && i < |s.sessions| && s.sessions[i].targetCompId == c;
      assert SessionOk(s, i, a, b);
    } else {
      assert Restorable(s, c, a, b);
    }
  }

  lemma NumbersInOrder(s: AlignedServer, a: nat, b: nat)
    requires Numbers(s, a, b)
    ensures InOrder(s)
  {
    forall c: string ensures Gapless(s.sent, c) && Gapless(s.accepted, c) { NumbersGapless(s, a, b, c); }
  }

  // ----- What each operation keeps -----

  lemma LogOther(log: map<string, seq<int>>, c: string, d: string, number: int)
    ensures Log(Logged(log, c, number), d) == if c == d then Log(log, d) + [number] else Log(log, d)
  {
  }

  /** A live session with new numbers, under its comp id or, logging on with nothing to lose, under one that no other
      session has, with the logs of that comp id moved accordingly. */
  ghost predicate Renumbers(s: AlignedServer, t: AlignedServer, i: nat, a: nat, b: nat)
    requires Live(s, i)
  {
    && t.validation == s.validation && t.store == s.store && t.sessionFlags == s.sessionFlags && Live(t, i)
    && |t.sessions| == |s.sessions| && (forall k: nat | k < |s.sessions| && k != i :: t.sessions[k] == s.sessions[k])
    && t.sessions[i].targetCompId != "" && SessionOk(t, i, a, b)
    && (t.sessions[i].targetCompId != s.sessions[i].targetCompId ==>
          Saved(s, i) && !HeldElsewhere(s, i, t.sessions[i].targetCompId))
    && (forall c: string | c != t.sessions[i].targetCompId ::
          Log(t.sent, c) == Log(s.sent, c) && Log(t.accepted, c) == Log(s.accepted, c))
  }

  /** All live sessions but the i-th stay live under their comp ids. */
  ghost predicate KeepsOthers(s: AlignedServer, t: AlignedServer, i: nat) {
    forall k: nat | Live(s, k) && k != i :: Live(t, k) && t.sessions[k].targetCompId == s.sessions[k].targetCompId
  }

  lemma StillHeld(s: AlignedServer, t: AlignedServer, i: nat, c: string)
    requires KeepsOthers(s, t, i) && (Live(s, i) ==> s.sessions[i].targetCompId != c)
    ensures Held(s, c) ==> Held(t, c)
  {
    if Held(s, c) {
      var k: nat :| Live(s, k) && k < |s.sessions| && s.sessions[k].targetCompId == c;
      assert Live(t, k) && t.sessions[k].targetCompId == c;
    }
  }

  lemma RenumberKeeps(s: AlignedServer, t: AlignedServer, i: nat, a: nat, b: nat, a': nat, b': nat)
    requires Numbers(s, a, b) && Live(s, i) && a <= a' && b <= b' && Renumbers(s, t, i, a', b')
    ensures Numbers(t, a', b')
  {
    forall k: nat | Live(t, k) ensures SessionOk(t, k, a', b') {
      if k != i { assert SessionOk(s, k, a, b) && Apart(s, k, i) && Apart(s, i, k); }
    }
    forall k: nat, j: nat | Live(t, k) && Live(t, j) && k != j ensures Apart(t, k, j) {
      assert Apart(s, k, j) && Apart(s, j, k);
    }
    RenumberRestorable(s, t, i, a, b, a', b');
  }

  lemma RenumberRestorable(s: AlignedServer, t: AlignedServer, i: nat, a: nat, b: nat, a': nat, b': nat)
    requires Numbers(s, a, b) && Live(s, i) && a <= a' && b <= b' && Renumbers(s, t, i, a', b')
    ensures forall c: string | c != "" && !Held(t, c) :: Restorable(t, c, a', b')
  {
    forall c: string | c != "" && !Held(t, c) ensures Restorable(t, c, a', b') {
      assert Live(t, i) && t.sessions[i].targetCompId != c;
      if s.sessions[i].targetCompId == c {
        assert SessionOk(s, i, a, b);
      } else {
        StillHeld(s, t, i, c);
        assert Restorable(s, c, a, b);
      }
    }
  }

  lemma SendKeeps(s: AlignedServer, i: nat, a: nat, b: nat) returns (t: AlignedServer)
    requires Numbers(s, a, b) && Live(s, i) && s.sessions[i].targetCompId != ""
    ensures t == Send(s, i) && Live(t, i) && t.sessions[i].targetCompId != "" && Numbers(t, a + 1, b)
  {
    SendPlaces(s, i);
    t := Send(s, i);
    var n := s.sessions[i];
    assert SessionOk(s, i, a, b);
    forall c: string | c != n.targetCompId ensures Log(t.sent, c) == Log(s.sent, c) {
      LogOther(s.sent, n.targetCompId, c, n.outgoing);
    }
    UpToNext(n.outgoing - 1);
    RenumberKeeps(s, t, i, a, b, a + 1, b);
  }

  lemma AcceptKeeps(s: AlignedServer, i: nat, m: Msg, a: nat, b: nat) returns (t: AlignedServer)
    requires Numbers(s, a, b) && Live(s, i) && s.sessions[i].targetCompId == m.senderCompId != ""
    requires ToInt(m.sequenceNumber) == s.sessions[i].incoming + 1
    ensures t == Accept(s, i, m) && Live(t, i) && t.sessions[i].targetCompId != "" && Numbers(t, a, b + 1)
  {
    var n := s.sessions[i];
    AcceptPlaces(s, i, m);
    t := Accept(s, i, m);
    assert SessionOk(s, i, a, b);
    forall c: string | c != n.targetCompId ensures Log(t.accepted, c) == Log(s.accepted, c) {
      LogOther(s.accepted, n.targetCompId, c, n.incoming + 1);
    }
    UpToNext(n.incoming);
    RenumberKeeps(s, t, i, a, b, a, b + 1);
  }

  /** Leaving saves exactly the numbers of the session, because the store reads back what it wrote. */
  lemma DisconnectKeeps(s: AlignedServer, i: nat, a: nat, b: nat) returns (t: AlignedServer)
    requires Numbers(s, a, b) && Live(s, i) && a < INT_MAX && b <= INT_MAX
    ensures t == Disconnect(s, i) && Numbers(t, a, b)
  {
    DisconnectPlaces(s, i);
    t := Disconnect(s, i);
    forall k: nat | Live(t, k) ensures SessionOk(t, k, a, b) {
      assert k != i && Live(s, k) && SessionOk(s, k, a, b) && Apart(s, k, i);
    }
    forall k: nat, j: nat | Live(t, k) && Live(t, j) && k != j ensures Apart(t, k, j) {
      assert Live(s, k) && Live(s, j) && Apart(s, k, j);
    }
    DisconnectSaves(s, t, i, a, b);
  }

  lemma DisconnectSaves(s: AlignedServer, t: AlignedServer, i: nat, a: nat, b: nat)
    requires Numbers(s, a, b) && Live(s, i) && a < INT_MAX && b <= INT_MAX && t == Disconnect(s, i)
    ensures forall c: string | c != "" && !Held(t, c) :: Restorable(t, c, a, b)
  {
    var n := s.sessions[i];
    assert SessionOk(s, i, a, b);
    forall c: string | c != "" && !Held(t, c) ensures Restorable(t, c, a, b) {
      if c == n.targetCompId {
        StoreRoundTrip(n.outgoing, n.incoming);
      } else {
        StillHeld(s, t, i, c);
        assert Restorable(s, c, a, b);
      }
    }
  }

  lemma ConnectKeeps(s: AlignedServer, sd: nat, a: nat, b: nat) returns (t: AlignedServer)
    requires Numbers(s, a, b) && !LivePeer(s, sd)
    ensures t == Connect(s, sd) && Numbers(t, a, b)
  {
    ConnectAligned(s, sd);
    t := Connect(s, sd);
    var i := FirstFree(s.peerFlags);
    forall k: nat | Live(t, k) ensures SessionOk(t, k, a, b) {
      if k != i { assert SessionOk(s, k, a, b); }
    }
    forall k: nat, j: nat | Live(t, k) && Live(t, j) && k != j ensures Apart(t, k, j) {
      if k != i && j != i { assert Apart(s, k, j); }
    }
    forall c: string | c != "" && !Held(t, c) ensures Restorable(t, c, a, b) {
      StillHeld(s, t, i, c);
      assert Restorable(s, c, a, b);
    }
  }

  predicate IsLogon(m: Msg) {
    HasRequiredTags(m) && m.messageType == LOGON
  }

  /** What a session logging on restores are the numbers of the comp id. */
  lemma Restores(s: AlignedServer, i: nat, compId: string, a: nat, b: nat)
    requires Numbers(s, a, b) && Live(s, i) && compId != "" && Saved(s, i) && !HeldElsewhere(s, i, compId)
    ensures Restorable(s, compId, a, b)
  {
    if s.sessions[i].targetCompId == compId { assert SessionOk(s, i, a, b); }
  }

  /** A logon of a session with nothing to lose, under a comp id that no other session has, takes the numbers of the
      comp id up where they were left, and sends a response unless stoi throws. */
  lemma LogonKeeps(s: AlignedServer, i: nat, m: Msg, a: nat, b: nat) returns (t: AlignedServer)
    requires Numbers(s, a, b) && Live(s, i) && IsLogon(m) && Saved(s, i) && !HeldElsewhere(s, i, m.senderCompId)
    ensures Load(s.store, m.senderCompId).Some? && t == HandleLogon(s, i, m) && Live(t, i) && Numbers(t, a + 1, b)
    ensures t.sessions[i].targetCompId == m.senderCompId
  {
    var compId := m.senderCompId;
    LogonPlaces(s, i, m);
    t := HandleLogon(s, i, m);
    Restores(s, i, compId, a, b);
    var (o, _) := Load(s.store, compId).value;
    UpToNext(o - 1);
    forall c: string | c != compId ensures Log(t.sent, c) == Log(s.sent, c) { LogOther(s.sent, compId, c, o); }
    RenumberKeeps(s, t, i, a, b, a + 1, b);
  }

  lemma NotUpTo(log: seq<int>, number: int)
    requires number != |log| + 1
    ensures log + [number] != UpTo(|log + [number]|)
  {
    assert (log + [number])[|log|] == number;
  }

  lemma LoggedExactly(log: map<string, seq<int>>, compId: string, number: int)
    requires Gapless(log, compId)
    ensures Gapless(Logged(log, compId, number), compId) <==> number == |Log(log, compId)| + 1
  {
    var numbers := Log(log, compId);
    if number == |numbers| + 1 {
      UpToNext(|numbers|);
    } else {
      NotUpTo(numbers, number);
    }
  }

  // ----- Runs -----

  lemma Weaken(s: AlignedServer, a: nat, b: nat, a': nat, b': nat)
    requires Numbers(s, a, b) && a <= a' && b <= b'
    ensures Numbers(s, a', b')
  {
    forall i: nat | Live(s, i) ensures SessionOk(s, i, a', b') { assert SessionOk(s, i, a, b); }
    forall c: string | c != "" && !Held(s, c) ensures Restorable(s, c, a', b') { assert Restorable(s, c, a, b); }
  }

  lemma AnswerKeeps(s: AlignedServer, i: nat, m: Msg, a: nat, b: nat) returns (t: AlignedServer)
    requires Numbers(s, a, b) && Live(s, i) && a + 1 < INT_MAX && b <= INT_MAX && s.sessions[i].targetCompId != ""
    ensures t == Answer(s, i, m) && Numbers(t, if m.messageType == LOGON then a else a + 1, b)
  {
    if m.messageType == LOGOFF {
      t := SendKeeps(s, i, a, b);
      t := DisconnectKeeps(t, i, a + 1, b);
    } else if m.messageType in {HEARTBEAT, TEST_REQUEST, USER_LOGON} {
      t := SendKeeps(s, i, a, b);
    } else {
      t := s;
      Weaken(t, a, b, if m.messageType == LOGON then a else a + 1, b);
    }
  }

  lemma RefuseKeeps(s: AlignedServer, i: nat, m: Msg, a: nat, b: nat) returns (t: AlignedServer)
    requires Numbers(s, a, b) && Live(s, i) && a < INT_MAX && b <= INT_MAX
    ensures t == Disconnect(s, i) && Numbers(t, if m.messageType == LOGON then a else a + 1, b + 1)
  {
    t := DisconnectKeeps(s, i, a, b);
    Weaken(t, a, b, if m.messageType == LOGON then a else a + 1, b + 1);
  }

  lemma ValidateKeeps(s: AlignedServer, i: nat, m: Msg, a: nat, b: nat) returns (t: AlignedServer)
    requires Numbers(s, a, b) && Live(s, i) && a + 1 < INT_MAX && b < INT_MAX
    requires ToInt(m.sequenceNumber) == s.sessions[i].incoming + 1 ==>
               s.sessions[i].targetCompId == m.senderCompId != ""
    ensures t == Validate(s, i, m) && Numbers(t, if m.messageType == LOGON then a else a + 1, b + 1)
  {
    if s.sessions[i].incoming + 1 != ToInt(m.sequenceNumber) {
      t := RefuseKeeps(s, i, m, a, b);
    } else {
      t := AcceptKeeps(s, i, m, a, b);
      t := AnswerKeeps(t, i, m, a, b + 1);
    }
  }

  /** The condition on clients. A session whose messages lack tags is logged on. A logon is meant for another
      server, or comes on a session with nothing to lose, under a comp id that no other session has. Any other
      message is refused, or comes from the session's own comp id. */
  ghost predicate FairMessage(s: AlignedServer, i: nat, m: Msg)
    requires Live(s, i)
  {
    if !HasRequiredTags(m) then s.sessions[i].targetCompId != ""
    else if m.messageType == LOGON then
      Compare(m.targetCompId, s.compId) ==> Saved(s, i) && !HeldElsewhere(s, i, m.senderCompId)
    else
      ToInt(m.sequenceNumber) == s.sessions[i].incoming + 1 ==> m.senderCompId == s.sessions[i].targetCompId
  }

  lemma FairLogonKeeps(s: AlignedServer, i: nat, m: Msg, a: nat, b: nat) returns (t: AlignedServer)
    requires Numbers(s, a, b) && Live(s, i) && IsLogon(m) && Saved(s, i) && !HeldElsewhere(s, i, m.senderCompId)
    requires Compare(m.targetCompId, s.compId) && a + 2 < INT_MAX && b < INT_MAX
    ensures t == Process(s, i, m) && Numbers(t, a + 1, b + 1)
  {
    if Readable(m) {
      t := LogonKeeps(s, i, m, a, b);
      t := ValidateKeeps(t, i, m, a + 1, b);
    } else {
      t := UnreadableKeeps(s, i, m, a, b);
    }
  }

  lemma UnreadableKeeps(s: AlignedServer, i: nat, m: Msg, a: nat, b: nat) returns (t: AlignedServer)
    requires Numbers(s, a, b) && Live(s, i) && IsLogon(m) && Saved(s, i) && !HeldElsewhere(s, i, m.senderCompId)
    ensures t == HandleLogon(s, i, m) && Numbers(t, a + 1, b + 1)
  {
    t := LogonKeeps(s, i, m, a, b);
    Weaken(t, a + 1, b, a + 1, b + 1);
  }

  lemma ProcessKeeps(s: AlignedServer, i: nat, m: Msg, a: nat, b: nat) returns (t: AlignedServer)
    requires Numbers(s, a, b) && Live(s, i) && a + 2 < INT_MAX && b < INT_MAX && FairMessage(s, i, m)
    ensures t == Process(s, i, m) && Numbers(t, a + 1, b + 1)
  {
    if !HasRequiredTags(m) {
      t := SendKeeps(s, i, a, b);
      Weaken(t, a + 1, b, a + 1, b + 1);
    } else if m.messageType != LOGON {
      t := ValidateKeeps(s, i, m, a, b);
    } else if Compare(m.targetCompId, s.compId) {
      t := FairLogonKeeps(s, i, m, a, b);
    } else {
      t := DisconnectKeeps(s, i, a, b);
      Weaken(t, a, b, a + 1, b + 1);
    }
  }

  ghost predicate Fair(s: AlignedServer, e: Event)
    requires Possible(s, e)
  {
    match e
    case Received(_, m) => FairMessage(s, SlotOf(s, e), m)
    case Application(_) => s.sessions[SlotOf(s, e)].targetCompId != ""
    case _ => true
  }

  lemma StepKeeps(s: AlignedServer, e: Event, n: nat)
    requires Numbers(s, n, n) && Possible(s, e) && Fair(s, e) && n + 2 < INT_MAX
    ensures Numbers(Step(s, e), n + 1, n + 1)
  {
    match e
    case Connected(sd) =>
      var t := ConnectKeeps(s, sd, n, n);
      Weaken(t, n, n, n + 1, n + 1);
    case Received(_, m) =>
      var t := ProcessKeeps(s, SlotOf(s, e), m, n, n);
    case Lost(_) =>
      var t := DisconnectKeeps(s, SlotOf(s, e), n, n);
      Weaken(t, n, n, n + 1, n + 1);
    case Application(_) =>
      var t := SendKeeps(s, SlotOf(s, e), n, n);
      Weaken(t, n + 1, n, n + 1, n + 1);
  }

  ghost predicate FairRun(s: AlignedServer, events: seq<Event>)
    requires PossibleRun(s, events)
    decreases |events|
  {
    events == [] || (Fair(s, events[0]) && FairRun(Step(s, events[0]), events[1..]))
  }

  lemma {:induction false} RunKeeps(s: AlignedServer, events: seq<Event>, n: nat)
    requires Numbers(s, n, n) && PossibleRun(s, events) && FairRun(s, events) && n + |events| + 1 < INT_MAX
    ensures Numbers(Run(s, events), n + |events|, n + |events|)
    decreases |events|
  {
    if events != [] {
      var t := Step(s, events[0]);
      StepKeeps(s, events[0], n);
      RunKeeps(t, events[1..], n + 1);
      assert Run(s, events) == Run(t, events[1..]);
    }
  }

  /** A server without connections, history or stored numbers. */
  predicate Initial(s: Server) {
    && s.validation && s.peers == [] && s.peerFlags == [] && s.sessions == [] && s.sessionFlags == []
    && s.store == map[] && s.accepted == map[] && s.sent == map[]
  }

  /** The main result: in every fair run the numbers accepted from a comp id over all its connections are
      1, 2, 3, ..., and so are the numbers sent to it. */
  lemma RunGapless(start: AlignedServer, events: seq<Event>)
    requires Initial(start) && PossibleRun(start, events) && FairRun(start, events) && |events| + 1 < INT_MAX
    ensures InOrder(Run(start, events))
  {
    InitialNumbers(start);
    RunKeeps(start, events, 0);
    NumbersInOrder(Run(start, events), |events|, |events|);
  }

  lemma InitialNumbers(s: AlignedServer)
    requires Initial(s)
    ensures Numbers(s, 0, 0)
  {
    forall c: string | c != "" && !Held(s, c) ensures Restorable(s, c, 0, 0) {
      assert UpTo(0) == [];
    }
  }
}
