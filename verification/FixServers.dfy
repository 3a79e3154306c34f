/** The session server: peer slots of the TCP layer, session slots of the FIX layer, the descriptor table, and
    sequence numbers saved and restored as text (`source/core/network/tcp_server.cpp`,
    `source/core/network/tcp_server_reactor.cpp`, `source/fix/fix_server_reactor.cpp`, `source/fix/fix_session.cpp`,
    `source/fix/fix_sequence_store.h`). */
module FixServers {
  import opened Integers
  import opened Wrappers
  import opened Text
  import opened FixConstants
  import opened FixMessages

  // ----- The sequence store -----

  /** What a store file holds. */
  function StoreText(outgoing: int, incoming: int): string {
    ToDec(outgoing) + "," + ToDec(incoming)
  }

  /** The k-th number of a file; None when stoi throws on it, or there is none. */
  function ReadNumber(text: string, k: nat): Option<int> {
    var numbers := Split(text, ',');
    if k < |numbers| then StoI(numbers[k]) else None
  }

  /** The outgoing and the incoming number of a file. */
  function ReadStore(text: string): Option<(int, int)> {
    match (ReadNumber(text, 0), ReadNumber(text, 1))
    case (Some(outgoing), Some(incoming)) => Some((outgoing, incoming))
    case _ => None
  }

  /** A comp id without a file starts anew. */
  function Load(store: map<string, string>, compId: string): Option<(int, int)> {
    if compId in store then ReadStore(store[compId]) else Some((1, 0))
  }

  /** The outgoing number after loading: it is assigned before the incoming one is read. */
  function LoadOutgoing(store: map<string, string>, compId: string, outgoing: int): int {
    if compId !in store then 1
    else match ReadNumber(store[compId], 0) case Some(number) => number case None => outgoing
  }

  /** The store reads back what it wrote. */
  lemma StoreRoundTrip(outgoing: int, incoming: int)
    requires INT_MIN <= outgoing <= INT_MAX && INT_MIN <= incoming <= INT_MAX
    ensures ReadStore(StoreText(outgoing, incoming)) == Some((outgoing, incoming))
  {
    ToDecPlain(outgoing, ',');
    ToDecPlain(incoming, ',');
    StoIOfToDec(outgoing);
    StoIOfToDec(incoming);
    SplitTwo(ToDec(outgoing), ToDec(incoming), ',');
  }

  // ----- The state -----

  /** A session: the comp id of the other side, the next number to send, the last number accepted. */
  datatype Session = Session(targetCompId: string, outgoing: int, incoming: int)

  const NEW_SESSION := Session("", 1, 1)

  /** `accepted` holds the numbers of the messages accepted so far, by the comp id they name as their sender, and
      `sent` those of the messages sent, by the comp id of the session they went to. */
  datatype Server = Server(
    compId: string, validation: bool,
    peers: seq<nat>, peerFlags: seq<bool>, table: map<nat, nat>,
    sessions: seq<Session>, sessionFlags: seq<bool>,
    store: map<string, string>, accepted: map<string, seq<int>>, sent: map<string, seq<int>>)

  function Log(log: map<string, seq<int>>, compId: string): seq<int> {
    if compId in log then log[compId] else []
  }

  function Logged(log: map<string, seq<int>>, compId: string, number: int): map<string, seq<int>> {
    log[compId := Log(log, compId) + [number]]
  }

  /** A session that has taken a comp id and read the numbers of its store, as far as they can be read. */
  function Restored(store: map<string, string>, n: Session, compId: string): Session {
    match Load(store, compId)
    case Some((outgoing, incoming)) => Session(compId, outgoing, incoming)
    case None => n.(targetCompId := compId, outgoing := LoadOutgoing(store, compId, n.outgoing))
  }

  // ----- Slots -----

  function FirstFree(flags: seq<bool>): (i: nat)
    ensures i <= |flags| && (forall k | 0 <= k < i :: flags[k]) && (i < |flags| ==> !flags[i])
  {
    if flags == [] || !flags[0] then 0 else 1 + FirstFree(flags[1..])
  }

  /** A slot is reused, or a new one appended. */
  function Place<T>(s: seq<T>, i: nat, x: T): (t: seq<T>)
    requires i <= |s|
    ensures |t| == (if i == |s| then |s| + 1 else |s|) && t[i] == x && forall k | 0 <= k < |s| && k != i :: t[k] == s[k]
  {
    if i == |s| then s + [x] else s[i := x]
  }

  predicate Shaped(s: Server) {
    |s.peers| == |s.peerFlags| && |s.sessions| == |s.sessionFlags|
  }

  predicate Live(s: Server, i: nat) {
    i < |s.peerFlags| && s.peerFlags[i] && i < |s.sessionFlags| && s.sessionFlags[i]
  }

  /** Both layers choose a slot on their own. */
  function Connect(s: Server, sd: nat): (t: Server)
    requires Shaped(s)
    ensures Shaped(t)
  {
    var i, j := FirstFree(s.peerFlags), FirstFree(s.sessionFlags);
    s.(peers := Place(s.peers, i, sd), peerFlags := Place(s.peerFlags, i, true), table := s.table[sd := i],
       sessions := Place(s.sessions, j, NEW_SESSION), sessionFlags := Place(s.sessionFlags, j, true))
  }

  /** Saves the numbers and frees both slots. */
  function Disconnect(s: Server, i: nat): (t: Server)
    requires Shaped(s) && Live(s, i)
    ensures Shaped(t)
  {
    var n := s.sessions[i];
    s.(store := s.store[n.targetCompId := StoreText(n.outgoing, n.incoming)],
       sessionFlags := s.sessionFlags[i := false], peerFlags := s.peerFlags[i := false])
  }

  // ----- Messages -----

  function WithSession(s: Server, i: nat, n: Session): (t: Server)
    requires Shaped(s) && Live(s, i)
    ensures Shaped(t) && Live(t, i)
  {
    s.(sessions := s.sessions[i := n])
  }

  /** A message to the other side takes the next number. */
  function Send(s: Server, i: nat): (t: Server)
    requires Shaped(s) && Live(s, i)
    ensures Shaped(t) && Live(t, i)
  {
    var n := s.sessions[i];
    WithSession(s, i, n.(outgoing := n.outgoing + 1)).(sent := Logged(s.sent, n.targetCompId, n.outgoing))
  }

  function Required(messageType: nat): set<int> {
    if messageType == LOGON then {TAG_HEARTBEAT_INTERVAL, TAG_ENCRYPT_METHOD}
    else if messageType == NEW_ORDER then {55, 11, 38, 44, 54, 40, 60}
    else if messageType == CANCEL then {11, 41}
    else {}
  }

  predicate HasRequiredTags(m: Msg) {
    && m.fixVersion != 0 && m.messageType != 0 && m.sequenceNumber != 0
    && TAG_BODY_LENGTH in m.body && TAG_BODY_CHECKSUM in m.body
    && m.senderCompId != "" && m.targetCompId != ""
    && Required(m.messageType) <= m.body.Keys
    && (m.messageType == NEW_ORDER || m.messageType == CANCEL ==> m.sendingTime != "")
  }

  /** The numbers that a logon brings along: heartbeat interval and encryption method. */
  predicate Readable(m: Msg)
    requires Required(LOGON) <= m.body.Keys
  {
    StoI(m.body[TAG_HEARTBEAT_INTERVAL]) != None && StoI(m.body[TAG_ENCRYPT_METHOD]) != None
  }

  /** Logon: the numbers of the comp id are restored, and a response is sent unless stoi throws before. */
  function HandleLogon(s: Server, i: nat, m: Msg): (t: Server)
    requires Shaped(s) && Live(s, i) && Required(LOGON) <= m.body.Keys
    ensures Shaped(t) && Live(t, i)
  {
    var t := WithSession(s, i, Restored(s.store, s.sessions[i], m.senderCompId));
    if Load(s.store, m.senderCompId) != None && Readable(m) then Send(t, i) else t
  }

  function Accept(s: Server, i: nat, m: Msg): (t: Server)
    requires Shaped(s) && Live(s, i)
    ensures Shaped(t) && Live(t, i)
  {
    var number := ToInt(m.sequenceNumber);
    WithSession(s, i, s.sessions[i].(incoming := number)).(accepted := Logged(s.accepted, m.senderCompId, number))
  }

  /** What an accepted message causes. */
  function Answer(s: Server, i: nat, m: Msg): (t: Server)
    requires Shaped(s) && Live(s, i)
    ensures Shaped(t)
  {
    if m.messageType == LOGOFF then Disconnect(Send(s, i), i)
    else if m.messageType in {HEARTBEAT, TEST_REQUEST, USER_LOGON} then Send(s, i)
    else s
  }

  /** The part of processMessage that every complete message reaches. */
  function Validate(s: Server, i: nat, m: Msg): (t: Server)
    requires Shaped(s) && Live(s, i)
    ensures Shaped(t)
  {
    if s.validation && s.sessions[i].incoming + 1 != ToInt(m.sequenceNumber) then Disconnect(s, i)
    else Answer(Accept(s, i, m), i, m)
  }

  function Process(s: Server, i: nat, m: Msg): (t: Server)
    requires Shaped(s) && Live(s, i)
    ensures Shaped(t)
  {
    if !HasRequiredTags(m) then Send(s, i)
    else if m.messageType == LOGON then
      if !Compare(m.targetCompId, s.compId) then Disconnect(s, i)
      else if Load(s.store, m.senderCompId) == None || !Readable(m) then HandleLogon(s, i, m)
      else Validate(HandleLogon(s, i, m), i, m)
    else Validate(s, i, m)
  }

  // ----- The object -----

  class FixServerReactor {
    const compId: string
    const validation: bool
    var peerSockets: seq<nat>
    var peerSocketsConnectionFlags: seq<bool>
    var peerSocketIndexTable: map<nat, nat>
    var sessions: seq<Session>
    var sessionFlags: seq<bool>
    var store: map<string, string>
    ghost var accepted: map<string, seq<int>>
    ghost var sent: map<string, seq<int>>

    ghost function View(): Server
      reads this
    {
      Server(compId, validation, peerSockets, peerSocketsConnectionFlags, peerSocketIndexTable, sessions, sessionFlags,
             store, accepted, sent)
    }

    constructor (compId: string, validation: bool, store: map<string, string>)
      ensures View() == Server(compId, validation, [], [], map[], [], [], store, map[], map[])
    {
      this.compId, this.validation, this.store := compId, validation, store;
      peerSockets, peerSocketsConnectionFlags, peerSocketIndexTable := [], [], map[];
      sessions, sessionFlags := [], [];
      accepted, sent := map[], map[];
    }

    method AddPeer(sd: nat) returns (ret: nat)
      requires Shaped(View())
      modifies this
      ensures ret == FirstFree(old(peerSocketsConnectionFlags))
      ensures View() == old(View()).(peers := Place(old(peerSockets), ret, sd),
                                     peerFlags := Place(old(peerSocketsConnectionFlags), ret, true))
    {
      var i := FindFree(peerSocketsConnectionFlags);
      if i == |peerSocketsConnectionFlags| {
        peerSocketsConnectionFlags := peerSocketsConnectionFlags + [true];
        peerSockets := peerSockets + [sd];
        ret := |peerSockets| - 1;
      } else {
        peerSockets := peerSockets[i := sd];
        peerSocketsConnectionFlags := peerSocketsConnectionFlags[i := true];
        ret := i;
      }
    }

    method AddSession(newSession: Session)
      requires Shaped(View())
      modifies this
      ensures var i := FirstFree(old(sessionFlags));
              View() == old(View()).(sessions := Place(old(sessions), i, newSession),
                                     sessionFlags := Place(old(sessionFlags), i, true))
    {
      var i := FindFree(sessionFlags);
      if i == |sessionFlags| {
        sessionFlags := sessionFlags + [true];
        sessions := sessions + [newSession];
      } else {
        sessions := sessions[i := newSession];
        sessionFlags := sessionFlags[i := true];
      }
    }

    /** acceptNewConnection and both layers' onClientConnected. */
    method AcceptNewConnection(sd: nat) returns (peerIndex: nat)
      requires Shaped(View())
      modifies this
      ensures View() == Connect(old(View()), sd) && peerIndex == FirstFree(old(peerSocketsConnectionFlags))
    {
      peerIndex := AddPeer(sd);
      peerSocketIndexTable := peerSocketIndexTable[sd := peerIndex];
      AddSession(NEW_SESSION);
    }

    method OnClientDisconnected(peerIndex: nat)
      requires Shaped(View()) && Live(View(), peerIndex)
      modifies this
      ensures View() == Disconnect(old(View()), peerIndex)
    {
      var session := sessions[peerIndex];
      store := store[session.targetCompId := StoreText(session.outgoing, session.incoming)];
      sessionFlags := sessionFlags[peerIndex := false];
      peerSocketsConnectionFlags := peerSocketsConnectionFlags[peerIndex := false];
    }

    method SendMessage(peerIndex: nat)
      requires Shaped(View()) && Live(View(), peerIndex)
      modifies this
      ensures View() == Send(old(View()), peerIndex)
    {
      var session := sessions[peerIndex];
      sent := Logged(sent, session.targetCompId, session.outgoing);
      sessions := sessions[peerIndex := session.(outgoing := session.outgoing + 1)];
    }

    method ProcessMessage(m: Msg, peerIndex: nat)
      requires Shaped(View()) && Live(View(), peerIndex)
      modifies this
      ensures View() == Process(old(View()), peerIndex, m)
    {
      if !HasRequiredTags(m) {
        SendMessage(peerIndex);
        return;
      }
      if m.messageType == LOGON {
        if !Compare(m.targetCompId, compId) {
          OnClientDisconnected(peerIndex);
          return;
        }
        var answered := OnLogon(m, peerIndex);
        if !answered {
          return;
        }
      }
      OnNumbered(m, peerIndex);
    }

    /** setTargetCompId and restoreSequenceNumbersFromStore; false when stoi throws. */
    method Restore(compId: string, peerIndex: nat) returns (ok: bool)
      requires Shaped(View()) && Live(View(), peerIndex)
      modifies this`sessions
      ensures ok == (Load(store, compId) != None)
      ensures sessions == old(sessions)[peerIndex := Restored(store, old(sessions[peerIndex]), compId)]
    {
      var session := sessions[peerIndex].(targetCompId := compId);
      ok := true;
      if compId !in store {
        session := session.(outgoing := 1, incoming := 0);
      } else {
        var outgoing, incoming := ReadNumber(store[compId], 0), ReadNumber(store[compId], 1);
        if outgoing == None {
          ok := false;
        } else {
          session := session.(outgoing := outgoing.value);
          if incoming == None {
            ok := false;
          } else {
            session := session.(incoming := incoming.value);
          }
        }
      }
      sessions := sessions[peerIndex := session];
    }

    /** handleLogonMessage: false when stoi throws on the store or on a tag, before the response is sent. */
    method OnLogon(m: Msg, peerIndex: nat) returns (answered: bool)
      requires Shaped(View()) && Live(View(), peerIndex) && Required(LOGON) <= m.body.Keys
      modifies this
      ensures View() == HandleLogon(old(View()), peerIndex, m)
      ensures answered == (Load(old(store), m.senderCompId) != None && Readable(m))
    {
      var restored := Restore(m.senderCompId, peerIndex);
      if !restored {
        return false;
      }
      if StoI(m.body[TAG_HEARTBEAT_INTERVAL]) == None || StoI(m.body[TAG_ENCRYPT_METHOD]) == None {
        return false;
      }
      SendMessage(peerIndex);
      return true;
    }

    /** The validation of the sequence number and what follows it. */
    method OnNumbered(m: Msg, peerIndex: nat)
      requires Shaped(View()) && Live(View(), peerIndex)
      modifies this
      ensures View() == Validate(old(View()), peerIndex, m)
    {
      var actualIncomingSequenceNumber := ToInt(m.sequenceNumber);
      if validation && sessions[peerIndex].incoming + 1 != actualIncomingSequenceNumber {
        OnClientDisconnected(peerIndex);
        return;
      }
      accepted := Logged(accepted, m.senderCompId, actualIncomingSequenceNumber);
      sessions := sessions[peerIndex := sessions[peerIndex].(incoming := actualIncomingSequenceNumber)];
      if m.messageType == LOGOFF {
        SendMessage(peerIndex);
        OnClientDisconnected(peerIndex);
      } else if m.messageType == HEARTBEAT || m.messageType == TEST_REQUEST || m.messageType == USER_LOGON {
        SendMessage(peerIndex);
      }
    }
  }

  /** The search loop of both addPeer and addSession. */
  method FindFree(flags: seq<bool>) returns (i: nat)
    ensures i == FirstFree(flags)
  {
    i := 0;
    while i < |flags|
      invariant i <= |flags| && FirstFree(flags) == i + FirstFree(flags[i..])
    {
      if !flags[i] {
        return;
      }
      i := i + 1;
    }
  }
}
