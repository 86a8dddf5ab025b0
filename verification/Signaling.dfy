/** The WebRTC signaling registry (gateway/src/signaling.rs): three maps that tie connections to the
    peers announced over them. Instants are nanoseconds. */
module Signaling {
  import opened Common

  type ConnId = string
  type PeerId = string

  datatype Connection = Connection(peerId: Option<PeerId>, lastActivity: nat)

  /** `details` stands for the announced addresses, transports and metadata. */
  datatype TrackedPeer = TrackedPeer(details: string, lastHeartbeat: nat, connectionId: ConnId)

  datatype Config = Config(maxPeers: nat, sessionTimeout: nat)

  datatype State = State(
    connections: map<ConnId, Connection>,
    peers: map<PeerId, TrackedPeer>,
    peerConnections: map<PeerId, ConnId>)

  const INITIAL := State(map[], map[], map[])

  datatype Event =
    | Open(conn: ConnId, at: nat)
    | Activity(conn: ConnId, at: nat)
    | Announce(conn: ConnId, peer: PeerId, details: string, at: nat)
    | Heartbeat(peer: PeerId, at: nat)
    | Disconnect(conn: ConnId)
    | CleanupStale(at: nat)

  function OpenConnection(s: State, conn: ConnId, now: nat): State {
    s.(connections := s.connections[conn := Connection(None, now)])
  }

  function Touch(s: State, conn: ConnId, now: nat): State {
    if conn in s.connections
    then s.(connections := s.connections[conn := s.connections[conn].(lastActivity := now)])
    else s
  }

  /** At the cap even a known peer is turned away. */
  predicate Accepts(s: State, cfg: Config) { |s.peers| < cfg.maxPeers }

  function Register(s: State, conn: ConnId, peer: PeerId, details: string, now: nat): State {
    State(if conn in s.connections
          then s.connections[conn := s.connections[conn].(peerId := Some(peer))]
          else s.connections,
          s.peers[peer := TrackedPeer(details, now, conn)],
          s.peerConnections[peer := conn])
  }

  function Beat(s: State, peer: PeerId, now: nat): State {
    if peer in s.peers
    then s.(peers := s.peers[peer := s.peers[peer].(lastHeartbeat := now)])
    else s
  }

  predicate Announced(s: State, conn: ConnId, peer: PeerId) {
    conn in s.connections && s.connections[conn].peerId == Some(peer)
  }

  function ClaimOf(s: State, conn: ConnId): set<PeerId> {
    if conn in s.connections && s.connections[conn].peerId.Some? then {s.connections[conn].peerId.value} else {}
  }

  function Drop(s: State, conn: ConnId): State {
    State(s.connections - {conn}, s.peers - ClaimOf(s, conn), s.peerConnections - ClaimOf(s, conn))
  }

  predicate Stale(s: State, cfg: Config, conn: ConnId, now: nat) {
    conn in s.connections && now > s.connections[conn].lastActivity + cfg.sessionTimeout
  }

  function StaleSet(s: State, cfg: Config, now: nat): set<ConnId> {
    set conn | conn in s.connections && Stale(s, cfg, conn, now)
  }

  function ClaimedBy(s: State, conns: set<ConnId>): set<PeerId> {
    set conn, peer | conn in conns && conn in s.connections && peer in ClaimOf(s, conn) :: peer
  }

  function DropAll(s: State, conns: set<ConnId>): State {
    var gone := ClaimedBy(s, conns);
    State(s.connections - conns, s.peers - gone, s.peerConnections - gone)
  }

  function Cleanup(s: State, cfg: Config, now: nat): State {
    DropAll(s, StaleSet(s, cfg, now))
  }

  function Step(s: State, cfg: Config, e: Event): State {
    match e
    case Open(conn, at) => OpenConnection(s, conn, at)
    case Activity(conn, at) => Touch(s, conn, at)
    case Announce(conn, peer, details, at) =>
      if Accepts(s, cfg) then Register(s, conn, peer, details, at) else s
    case Heartbeat(peer, at) => Beat(s, peer, at)
    case Disconnect(conn) => Drop(s, conn)
    case CleanupStale(at) => Cleanup(s, cfg, at)
  }

  /** The connection a message for the peer is sent to. */
  function Target(s: State, peer: PeerId): Option<ConnId> {
    if peer in s.peerConnections then Some(s.peerConnections[peer]) else None
  }

  lemma RemoveTwice<K, V>(m: map<K, V>, a: set<K>, b: set<K>)
    ensures (m - a) - b == m - (a + b)
  {
  }

  lemma DropAllStep(s: State, done: set<ConnId>, conn: ConnId)
    requires conn !in done
    ensures Drop(DropAll(s, done), conn) == DropAll(s, done + {conn})
  {
    var t := DropAll(s, done);
    var before, gone := ClaimedBy(s, done), ClaimOf(s, conn);
    assert ClaimOf(t, conn) == gone;
    assert ClaimedBy(s, done + {conn}) == before + gone;
    RemoveTwice(s.peers, before, gone);
    RemoveTwice(s.peerConnections, before, gone);
    RemoveTwice(s.connections, done, {conn});
  }

  lemma DropNone(s: State)
    ensures DropAll(s, {}) == s
  {
    assert ClaimedBy(s, {}) == {};
    assert s.peers - {} == s.peers && s.peerConnections - {} == s.peerConnections
           && s.connections - {} == s.connections;
  }

  class Server {
    const cfg: Config
    var connections: map<ConnId, Connection>
    var peers: map<PeerId, TrackedPeer>
    var peerConnections: map<PeerId, ConnId>

    function Abs(): State reads this { State(connections, peers, peerConnections) }

    constructor (cfg: Config)
      ensures this.cfg == cfg && Abs() == INITIAL
    {
      this.cfg := cfg;
      connections, peers, peerConnections := map[], map[], map[];
    }

    method AcceptConnection(conn: ConnId, now: nat)
      modifies this
      ensures Abs() == OpenConnection(old(Abs()), conn, now)
    {
      connections := connections[conn := Connection(None, now)];
    }

    method NoteActivity(conn: ConnId, now: nat)
      modifies this
      ensures Abs() == Touch(old(Abs()), conn, now)
    {
      if conn in connections {
        connections := connections[conn := connections[conn].(lastActivity := now)];
      }
    }

    method HandleAnnounce(conn: ConnId, peer: PeerId, details: string, now: nat) returns (ok: bool)
      modifies this
      ensures ok == Accepts(old(Abs()), cfg)
      ensures Abs() == if ok then Register(old(Abs()), conn, peer, details, now) else old(Abs())
    {
      if |peers| >= cfg.maxPeers {
        return false;
      }
      peers := peers[peer := TrackedPeer(details, now, conn)];
      peerConnections := peerConnections[peer := conn];
      if conn in connections {
        connections := connections[conn := connections[conn].(peerId := Some(peer))];
      }
      return true;
    }

    method HandleHeartbeat(peer: PeerId, now: nat)
      modifies this
      ensures Abs() == Beat(old(Abs()), peer, now)
    {
      if peer in peers {
        peers := peers[peer := peers[peer].(lastHeartbeat := now)];
      }
    }

    /** The receiving connection, when the message is handed to one; an error when the peer is unknown. */
    method RelayToPeer(peer: PeerId) returns (ok: bool, delivered: Option<ConnId>)
      ensures ok == Target(Abs(), peer).Some?
      ensures delivered == if ok && Target(Abs(), peer).value in connections then Target(Abs(), peer) else None
    {
      if peer !in peerConnections {
        return false, None;
      }
      var conn := peerConnections[peer];
      return true, if conn in connections then Some(conn) else None;
    }

    method HandleDisconnect(conn: ConnId)
      modifies this
      ensures Abs() == Drop(old(Abs()), conn)
    {
      var peerId := if conn in connections then connections[conn].peerId else None;
      connections := connections - {conn};
      if peerId.Some? {
        peers := peers - {peerId.value};
        peerConnections := peerConnections - {peerId.value};
      }
    }

    /** Disconnects the stale connections one by one, in any order. */
    method CleanUpStale(now: nat)
      modifies this
      ensures Abs() == Cleanup(old(Abs()), cfg, now)
    {
      var stale := set conn | conn in connections && now > connections[conn].lastActivity + cfg.sessionTimeout;
      assert stale == StaleSet(Abs(), cfg, now);
      DisconnectAll(stale);
    }

    method DisconnectAll(conns: set<ConnId>)
      modifies this
      ensures Abs() == DropAll(old(Abs()), conns)
    {
      var todo := conns;
      ghost var before := Abs();
      DropNone(before);
      while todo != {}
        invariant todo <= conns && Abs() == DropAll(before, conns - todo)
        decreases |todo|
      {
        var conn :| conn in todo;
        DropAllStep(before, conns - todo, conn);
        assert (conns - todo) + {conn} == conns - (todo - {conn});
        HandleDisconnect(conn);
        todo := todo - {conn};
      }
      assert conns - {} == conns;
    }
  }

  // ── What every run keeps ─────────────────────────────────────────

  /** Both peer maps describe the same peers, and no more than allowed. */
  ghost predicate Inv(s: State, cfg: Config) {
    && s.peers.Keys == s.peerConnections.Keys
    && |s.peers| <= cfg.maxPeers
    && forall peer | peer in s.peers :: s.peers[peer].connectionId == s.peerConnections[peer]
  }

  function Run(s: State, cfg: Config, es: seq<Event>): State
    decreases |es|
  {
    if es == [] then s else Run(Step(s, cfg, es[0]), cfg, es[1..])
  }

  lemma StepKeepsInv(s: State, cfg: Config, e: Event)
    requires Inv(s, cfg)
    ensures Inv(Step(s, cfg, e), cfg)
  {
    match e
    case Announce(conn, peer, details, at) =>
      if Accepts(s, cfg) { AnnounceKeepsInv(s, cfg, conn, peer, details, at); }
    case Heartbeat(peer, at) => HeartbeatKeepsInv(s, cfg, peer, at);
    case Disconnect(conn) => RemovalKeepsInv(s, cfg, Drop(s, conn), ClaimOf(s, conn));
    case CleanupStale(at) =>
      RemovalKeepsInv(s, cfg, Cleanup(s, cfg, at), ClaimedBy(s, StaleSet(s, cfg, at)));
    case _ =>
  }

  lemma AnnounceKeepsInv(s: State, cfg: Config, conn: ConnId, peer: PeerId, details: string, now: nat)
    requires Inv(s, cfg) && Accepts(s, cfg)
    ensures Inv(Register(s, conn, peer, details, now), cfg)
  {
    BindingSize(s.peers, peer, TrackedPeer(details, now, conn));
  }

  lemma HeartbeatKeepsInv(s: State, cfg: Config, peer: PeerId, now: nat)
    requires Inv(s, cfg)
    ensures Inv(Beat(s, peer, now), cfg)
  {
    if peer in s.peers {
      BindingSize(s.peers, peer, s.peers[peer].(lastHeartbeat := now));
    }
  }

  lemma RemovalKeepsInv(s: State, cfg: Config, t: State, gone: set<PeerId>)
    requires Inv(s, cfg) && t.peers == s.peers - gone && t.peerConnections == s.peerConnections - gone
    ensures Inv(t, cfg)
  {
    RemovalShrinks(s.peers, gone);
  }

  lemma {:induction false} RunKeepsInv(s: State, cfg: Config, es: seq<Event>)
    requires Inv(s, cfg)
    ensures Inv(Run(s, cfg, es), cfg)
    decreases |es|
  {
    if es != [] {
      StepKeepsInv(s, cfg, es[0]);
      RunKeepsInv(Step(s, cfg, es[0]), cfg, es[1..]);
    }
  }

  // ── When connections and peers name each other ───────────────────

  /** A connection has announced a peer exactly when the peer is mapped to that connection. */
  ghost predicate Inverse(s: State) {
    forall conn, peer :: Announced(s, conn, peer) <==> Target(s, peer) == Some(conn)
  }

  /** The events that keep it: a connection is opened under an unused id, and announces while open,
      always the same peer, which no other connection holds. */
  predicate Orderly(s: State, cfg: Config, e: Event) {
    match e
    case Open(conn, _) => conn in s.connections ==> s.connections[conn].peerId.None?
    case Announce(conn, peer, _, _) =>
      Accepts(s, cfg) ==>
        && conn in s.connections
        && s.connections[conn].peerId in {None, Some(peer)}
        && (peer in s.peerConnections ==> s.peerConnections[peer] == conn)
    case _ => true
  }

  lemma OpenKeepsInverseExactlyWhen(s: State, cfg: Config, conn: ConnId, now: nat)
    requires Inverse(s)
    ensures Inverse(OpenConnection(s, conn, now)) <==> Orderly(s, cfg, Open(conn, now))
  {
    var t := OpenConnection(s, conn, now);
    forall c, p
      ensures c != conn ==> (Announced(t, c, p) <==> Announced(s, c, p))
      ensures Target(t, p) == Target(s, p)
      ensures !Announced(t, conn, p)
    {
    }
    if conn in s.connections && s.connections[conn].peerId.Some? {
      var p := s.connections[conn].peerId.value;
      assert Announced(s, conn, p);
      assert Target(t, p) == Some(conn) && !Announced(t, conn, p);
    }
  }

  lemma AnnounceKeepsInverseExactlyWhen(s: State, cfg: Config, conn: ConnId, peer: PeerId, details: string, now: nat)
    requires Inverse(s) && Accepts(s, cfg)
    ensures Inverse(Register(s, conn, peer, details, now)) <==> Orderly(s, cfg, Announce(conn, peer, details, now))
  {
    var t := Register(s, conn, peer, details, now);
    assert Target(t, peer) == Some(conn);
    if conn !in s.connections {
      assert !Announced(t, conn, peer);
    } else if s.connections[conn].peerId !in {None, Some(peer)} {
      var q := s.connections[conn].peerId.value;
      assert Announced(s, conn, q);
      assert Target(t, q) == Some(conn) && !Announced(t, conn, q);
    } else if peer in s.peerConnections && s.peerConnections[peer] != conn {
      var other := s.peerConnections[peer];
      assert Target(s, peer) == Some(other);
      assert Announced(s, other, peer) && Announced(t, other, peer);
    } else {
      forall c, p
        ensures Announced(t, c, p) <==> Target(t, p) == Some(c)
      {
        assert Announced(s, c, p) <==> Target(s, p) == Some(c);
        assert Announced(s, c, peer) <==> Target(s, peer) == Some(c);
      }
    }
  }

  lemma DropAllKeepsInverse(s: State, conns: set<ConnId>)
    requires Inverse(s)
    ensures Inverse(DropAll(s, conns))
  {
    var t := DropAll(s, conns);
    forall c, p
      ensures Announced(t, c, p) <==> Target(t, p) == Some(c)
    {
      assert Announced(s, c, p) <==> Target(s, p) == Some(c);
      if p in ClaimedBy(s, conns) {
        var d :| d in conns && Announced(s, d, p);
        assert Target(s, p) == Some(d);
      }
      if Announced(s, c, p) && c in conns {
        assert p in ClaimOf(s, c);
      }
    }
  }

  lemma DropIsDropAll(s: State, conn: ConnId)
    ensures Drop(s, conn) == DropAll(s, {conn})
  {
    DropAllStep(s, {}, conn);
    DropNone(s);
  }

  lemma StepKeepsInverseExactlyWhen(s: State, cfg: Config, e: Event)
    requires Inverse(s)
    ensures Inverse(Step(s, cfg, e)) <==> Orderly(s, cfg, e)
  {
    match e
    case Open(conn, at) => OpenKeepsInverseExactlyWhen(s, cfg, conn, at);
    case Announce(conn, peer, details, at) =>
      if Accepts(s, cfg) { AnnounceKeepsInverseExactlyWhen(s, cfg, conn, peer, details, at); }
    case Disconnect(conn) =>
      DropIsDropAll(s, conn);
      DropAllKeepsInverse(s, {conn});
    case CleanupStale(at) => DropAllKeepsInverse(s, StaleSet(s, cfg, at));
    case Activity(conn, at) =>
      SameLinks(s, Touch(s, conn, at));
    case Heartbeat(peer, at) =>
      SameLinks(s, Beat(s, peer, at));
  }

  lemma SameLinks(s: State, t: State)
    requires Inverse(s) && s.peerConnections == t.peerConnections && s.connections.Keys == t.connections.Keys
    requires forall conn | conn in s.connections :: t.connections[conn].peerId == s.connections[conn].peerId
    ensures Inverse(t)
  {
    forall c, p
      ensures Announced(t, c, p) <==> Target(t, p) == Some(c)
    {
      assert Announced(s, c, p) <==> Target(s, p) == Some(c);
    }
  }

  ghost predicate OrderlyRun(s: State, cfg: Config, es: seq<Event>)
    decreases |es|
  {
    es == [] || (Orderly(s, cfg, es[0]) && OrderlyRun(Step(s, cfg, es[0]), cfg, es[1..]))
  }

  ghost predicate InverseThroughout(s: State, cfg: Config, es: seq<Event>)
    decreases |es|
  {
    Inverse(s) && (es == [] || InverseThroughout(Step(s, cfg, es[0]), cfg, es[1..]))
  }

  lemma {:induction false} InverseThroughoutExactlyWhen(s: State, cfg: Config, es: seq<Event>)
    requires Inverse(s)
    ensures InverseThroughout(s, cfg, es) <==> OrderlyRun(s, cfg, es)
    ensures OrderlyRun(s, cfg, es) ==> Inverse(Run(s, cfg, es))
    decreases |es|
  {
    if es != [] {
      var t := Step(s, cfg, es[0]);
      StepKeepsInverseExactlyWhen(s, cfg, es[0]);
      if Inverse(t) {
        InverseThroughoutExactlyWhen(t, cfg, es[1..]);
      }
    }
  }

  /** After an orderly run a relay reaches exactly the connection that announced the peer, which is open,
      and fails exactly when no connection has. */
  lemma RelayReachesTheAnnouncer(cfg: Config, es: seq<Event>, peer: PeerId)
    requires OrderlyRun(INITIAL, cfg, es)
    ensures var s := Run(INITIAL, cfg, es);
            && (forall conn :: Target(s, peer) == Some(conn) <==> Announced(s, conn, peer))
            && (Target(s, peer).None? <==> forall conn :: !Announced(s, conn, peer))
            && (peer in s.peers <==> Target(s, peer).Some?)
  {
    assert Inverse(INITIAL);
    InverseThroughoutExactlyWhen(INITIAL, cfg, es);
    RunKeepsInv(INITIAL, cfg, es);
    var s := Run(INITIAL, cfg, es);
    if Target(s, peer).Some? {
      assert Announced(s, Target(s, peer).value, peer);
    }
  }

  // ── Disconnecting leaves no trace ────────────────────────────────

  predicate Concerns(e: Event, conn: ConnId) {
    match e
    case Open(c, _) => c == conn
    case Activity(c, _) => c == conn
    case Announce(c, _, _, _) => c == conn
    case Disconnect(c) => c == conn
    case _ => false
  }

  /** The events of everybody else. */
  function Without(es: seq<Event>, conn: ConnId): seq<Event> {
    if es == [] then []
    else (if Concerns(es[0], conn) then [] else [es[0]]) + Without(es[1..], conn)
  }

  /** Whether another connection's announcement is turned away does not depend on `conn`. */
  ghost predicate VerdictsAgree(s: State, cfg: Config, e: Event, conn: ConnId) {
    e.Announce? && !Concerns(e, conn) ==> (Accepts(s, cfg) <==> Accepts(Drop(s, conn), cfg))
  }

  ghost predicate VerdictsAgreeThroughout(s: State, cfg: Config, es: seq<Event>, conn: ConnId)
    decreases |es|
  {
    es == [] || (VerdictsAgree(s, cfg, es[0], conn) && VerdictsAgreeThroughout(Step(s, cfg, es[0]), cfg, es[1..], conn))
  }

  lemma OwnEventsVanish(s: State, cfg: Config, e: Event, conn: ConnId)
    requires Inverse(s) && Inv(s, cfg) && Orderly(s, cfg, e) && Concerns(e, conn)
    ensures Drop(Step(s, cfg, e), conn) == Drop(s, conn)
  {
    match e
    case Announce(_, peer, details, at) =>
      if Accepts(s, cfg) { OwnAnnounceVanishes(s, conn, peer, details, at); }
    case Disconnect(_) => DroppingTwice(s, conn);
    case Open(_, at) => OwnTouchVanishes(s, conn, Connection(None, at));
    case Activity(_, at) =>
      if conn in s.connections { OwnTouchVanishes(s, conn, s.connections[conn].(lastActivity := at)); }
  }

  lemma DroppingTwice(s: State, conn: ConnId)
    ensures Drop(Drop(s, conn), conn) == Drop(s, conn)
  {
    DropIsDropAll(s, conn);
    DropIsDropAll(Drop(s, conn), conn);
    DropAllTwice(s, {conn}, {conn});
    assert {conn} + {conn} == {conn};
  }

  lemma OwnTouchVanishes(s: State, conn: ConnId, c: Connection)
    requires c.peerId == if conn in s.connections then s.connections[conn].peerId else None
    ensures Drop(s.(connections := s.connections[conn := c]), conn) == Drop(s, conn)
  {
    var t := s.(connections := s.connections[conn := c]);
    assert ClaimOf(t, conn) == ClaimOf(s, conn);
    assert t.connections - {conn} == s.connections - {conn};
  }

  lemma OwnAnnounceVanishes(s: State, conn: ConnId, peer: PeerId, details: string, now: nat)
    requires Inverse(s) && s.peers.Keys == s.peerConnections.Keys
    requires conn in s.connections && s.connections[conn].peerId in {None, Some(peer)}
    requires peer in s.peerConnections ==> s.peerConnections[peer] == conn
    ensures Drop(Register(s, conn, peer, details, now), conn) == Drop(s, conn)
  {
    var t := Register(s, conn, peer, details, now);
    assert Announced(s, conn, peer) <==> Target(s, peer) == Some(conn);
    assert ClaimOf(t, conn) == {peer};
    assert ClaimOf(s, conn) == if peer in s.peers then {peer} else {};
    assert t.connections - {conn} == s.connections - {conn};
    assert t.peers - {peer} == s.peers - ClaimOf(s, conn);
    assert t.peerConnections - {peer} == s.peerConnections - ClaimOf(s, conn);
  }

  lemma InsertPastRemoval<K, V>(m: map<K, V>, gone: set<K>, k: K, v: V)
    requires k !in gone
    ensures m[k := v] - gone == (m - gone)[k := v]
  {
  }

  lemma OtherAnnouncesCommute(s: State, conn: ConnId, other: ConnId, peer: PeerId, details: string, now: nat)
    requires Inverse(s) && other in s.connections && other != conn
    requires peer in s.peerConnections ==> s.peerConnections[peer] == other
    ensures Drop(Register(s, other, peer, details, now), conn) == Register(Drop(s, conn), other, peer, details, now)
  {
    var t := Register(s, other, peer, details, now);
    var gone := ClaimOf(s, conn);
    assert ClaimOf(t, conn) == gone;
    assert peer !in gone by {
      assert Announced(s, conn, peer) <==> Target(s, peer) == Some(conn);
    }
    InsertPastRemoval(s.peers, gone, peer, TrackedPeer(details, now, other));
    InsertPastRemoval(s.peerConnections, gone, peer, other);
    InsertPastRemoval(s.connections, {conn}, other, s.connections[other].(peerId := Some(peer)));
  }

  lemma OtherDropsCommute(s: State, conns: set<ConnId>, conn: ConnId)
    ensures DropAll(DropAll(s, conns), {conn}) == DropAll(DropAll(s, {conn}), conns - {conn})
  {
    DropAllTwice(s, conns, {conn});
    DropAllTwice(s, {conn}, conns - {conn});
    assert conns + {conn} == {conn} + (conns - {conn});
  }

  lemma DropAllTwice(s: State, first: set<ConnId>, second: set<ConnId>)
    ensures DropAll(DropAll(s, first), second) == DropAll(s, first + second)
  {
    var t := DropAll(s, first);
    var a, b := ClaimedBy(s, first), ClaimedBy(t, second);
    forall c | c in t.connections
      ensures ClaimOf(t, c) == ClaimOf(s, c)
    {
    }
    forall p | p in ClaimedBy(s, first + second)
      ensures p in a + b
    {
      var c :| c in first + second && c in s.connections && p in ClaimOf(s, c);
      assert c in first || c in t.connections;
    }
    assert ClaimedBy(s, first + second) == a + b;
    RemoveTwice(s.connections, first, second);
    RemoveTwice(s.peers, a, b);
    RemoveTwice(s.peerConnections, a, b);
  }

  lemma CleanupCommutes(s: State, cfg: Config, now: nat, conn: ConnId)
    ensures Drop(Cleanup(s, cfg, now), conn) == Cleanup(Drop(s, conn), cfg, now)
  {
    var stale := StaleSet(s, cfg, now);
    DropIsDropAll(s, conn);
    DropIsDropAll(Cleanup(s, cfg, now), conn);
    OtherDropsCommute(s, stale, conn);
    assert StaleSet(Drop(s, conn), cfg, now) == stale - {conn};
  }

  lemma OtherDisconnectCommutes(s: State, other: ConnId, conn: ConnId)
    requires other != conn
    ensures Drop(Drop(s, other), conn) == Drop(Drop(s, conn), other)
  {
    DropIsDropAll(s, other);
    DropIsDropAll(s, conn);
    DropIsDropAll(Drop(s, other), conn);
    DropIsDropAll(Drop(s, conn), other);
    OtherDropsCommute(s, {other}, conn);
    assert {other} - {conn} == {other};
  }

  lemma OtherTouchesCommute(s: State, other: ConnId, conn: ConnId, c: Connection)
    requires other != conn
    ensures var t := s.(connections := s.connections[other := c]);
            Drop(t, conn) == Drop(s, conn).(connections := Drop(s, conn).connections[other := c])
  {
    var t := s.(connections := s.connections[other := c]);
    assert ClaimOf(t, conn) == ClaimOf(s, conn);
    InsertPastRemoval(s.connections, {conn}, other, c);
  }

  lemma HeartbeatCommutes(s: State, peer: PeerId, now: nat, conn: ConnId)
    ensures Drop(Beat(s, peer, now), conn) == Beat(Drop(s, conn), peer, now)
  {
    var gone := ClaimOf(s, conn);
    if peer in s.peers {
      var p := s.peers[peer].(lastHeartbeat := now);
      assert ClaimOf(Beat(s, peer, now), conn) == gone;
      if peer in gone {
        assert s.peers[peer := p] - gone == s.peers - gone;
      } else {
        InsertPastRemoval(s.peers, gone, peer, p);
      }
    }
  }

  lemma OtherEventsCommute(s: State, cfg: Config, e: Event, conn: ConnId)
    requires Inverse(s) && Orderly(s, cfg, e) && !Concerns(e, conn) && VerdictsAgree(s, cfg, e, conn)
    ensures Drop(Step(s, cfg, e), conn) == Step(Drop(s, conn), cfg, e)
  {
    match e
    case Announce(other, peer, details, at) =>
      if Accepts(s, cfg) {
        OtherAnnouncesCommute(s, conn, other, peer, details, at);
      }
    case CleanupStale(at) => CleanupCommutes(s, cfg, at, conn);
    case Disconnect(other) => OtherDisconnectCommutes(s, other, conn);
    case Heartbeat(peer, at) => HeartbeatCommutes(s, peer, at, conn);
    case Open(other, at) => OtherTouchesCommute(s, other, conn, Connection(None, at));
    case Activity(other, at) =>
      if other in s.connections {
        OtherTouchesCommute(s, other, conn, s.connections[other].(lastActivity := at));
      }
  }

  /** What is left of an orderly run once a connection is gone is what the other connections' events
      alone would have left, as long as it takes no place for which another announcement is turned away:
      nobody can tell that it was ever there. */
  lemma {:induction false} DisconnectLeavesNoTrace(s: State, cfg: Config, es: seq<Event>, conn: ConnId)
    requires Inverse(s) && Inv(s, cfg) && OrderlyRun(s, cfg, es) && VerdictsAgreeThroughout(s, cfg, es, conn)
    ensures Drop(Run(s, cfg, es), conn) == Run(Drop(s, conn), cfg, Without(es, conn))
    decreases |es|
  {
    if es != [] {
      var e, t := es[0], Step(s, cfg, es[0]);
      StepKeepsInverseExactlyWhen(s, cfg, e);
      StepKeepsInv(s, cfg, e);
      DisconnectLeavesNoTrace(t, cfg, es[1..], conn);
      if Concerns(e, conn) {
        OwnEventsVanish(s, cfg, e, conn);
        assert Without(es, conn) == Without(es[1..], conn);
      } else {
        OtherEventsCommute(s, cfg, e, conn);
        assert Without(es, conn)[0] == e && Without(es, conn)[1..] == Without(es[1..], conn);
      }
    }
  }

  /** The announcement is already on record, to the instant. */
  predicate OnRecord(s: State, e: Event)
    requires e.Announce?
  {
    && e.peer in s.peers && s.peers[e.peer] == TrackedPeer(e.details, e.at, e.conn)
    && e.peer in s.peerConnections && s.peerConnections[e.peer] == e.conn
    && (e.conn in s.connections ==> s.connections[e.conn].peerId == Some(e.peer))
  }

  lemma RegisterChangesNothingExactlyWhen(s: State, e: Event)
    requires e.Announce?
    ensures Register(s, e.conn, e.peer, e.details, e.at) == s <==> OnRecord(s, e)
  {
    var t := Register(s, e.conn, e.peer, e.details, e.at);
    assert e.peer in t.peers && t.peers[e.peer] == TrackedPeer(e.details, e.at, e.conn)
           && t.peerConnections[e.peer] == e.conn;
    assert e.conn in s.connections ==> t.connections[e.conn].peerId == Some(e.peer);
    if OnRecord(s, e) {
      assert t.peers == s.peers && t.peerConnections == s.peerConnections && t.connections == s.connections;
    }
  }

  /** An announcement commutes with dropping a connection exactly when its verdict does not depend on that
      connection, or it would change nothing. */
  lemma AnnouncementLeavesNoTraceExactlyWhen(s: State, cfg: Config, e: Event, conn: ConnId)
    requires Inverse(s) && Orderly(s, cfg, e) && e.Announce? && !Concerns(e, conn)
    ensures Drop(Step(s, cfg, e), conn) == Step(Drop(s, conn), cfg, e) <==>
              VerdictsAgree(s, cfg, e, conn) || OnRecord(Drop(s, conn), e)
  {
    if VerdictsAgree(s, cfg, e, conn) {
      OtherEventsCommute(s, cfg, e, conn);
    } else {
      RemovalShrinks(s.peers, ClaimOf(s, conn));
      RegisterChangesNothingExactlyWhen(Drop(s, conn), e);
    }
  }

  /** The connection that holds the last place leaves a trace: the peer turned away because of it. */
  lemma LastPlaceLeavesTrace(s: State, cfg: Config, conn: ConnId, held: PeerId, e: Event)
    requires Inverse(s) && Inv(s, cfg) && Announced(s, conn, held) && held in s.peers && |s.peers| == cfg.maxPeers
    requires e.Announce? && e.conn in s.connections && e.conn != conn && e.peer !in s.peers
    ensures e.peer !in Drop(Step(s, cfg, e), conn).peers
    ensures e.peer in Step(Drop(s, conn), cfg, e).peers
  {
    assert ClaimOf(s, conn) == {held};
    RemovalSize(s.peers, held);
  }

  // ── What disorder leaves behind ──────────────────────────────────

  /** A registered peer that no connection answers for. */
  ghost predicate Orphan(s: State, peer: PeerId) {
    peer in s.peers && forall conn :: !Announced(s, conn, peer)
  }

  /** A second announcement over one connection leaves the first peer behind when the connection closes:
      relays to it are still accepted, and reach nobody. */
  lemma SecondAnnounceLeavesOrphan(s: State, cfg: Config, conn: ConnId, first: PeerId, second: PeerId,
                                   details: string, now: nat)
    requires Inverse(s) && Announced(s, conn, first) && first in s.peers && first != second && Accepts(s, cfg)
    ensures var t := Drop(Step(s, cfg, Announce(conn, second, details, now)), conn);
            Orphan(t, first) && Target(t, first) == Some(conn) && conn !in t.connections
  {
    var u := Step(s, cfg, Announce(conn, second, details, now));
    var t := Drop(u, conn);
    assert Target(s, first) == Some(conn);
    forall c
      ensures !Announced(t, c, first)
    {
      assert Announced(s, c, first) ==> Target(s, first) == Some(c);
      assert c != conn ==> (Announced(t, c, first) ==> Announced(s, c, first));
    }
  }

  lemma OrphanOutlivesStep(s: State, cfg: Config, e: Event, peer: PeerId)
    requires Orphan(s, peer) && !(e.Announce? && e.peer == peer && Accepts(s, cfg))
    ensures Orphan(Step(s, cfg, e), peer)
  {
    var t := Step(s, cfg, e);
    forall conn
      ensures !Announced(t, conn, peer)
    {
      assert !Announced(s, conn, peer);
    }
    match e
    case CleanupStale(at) =>
      if peer in ClaimedBy(s, StaleSet(s, cfg, at)) {
        var c :| c in s.connections && Announced(s, c, peer);
      }
    case Disconnect(c) =>
      assert !Announced(s, c, peer);
    case _ =>
  }

  ghost predicate NeverAnnounced(es: seq<Event>, peer: PeerId) {
    forall i :: 0 <= i < |es| && es[i].Announce? ==> es[i].peer != peer
  }

  /** Neither disconnects nor cleanups ever remove an orphan: only its id announced again can. */
  lemma {:induction false} OrphanStays(s: State, cfg: Config, es: seq<Event>, peer: PeerId)
    requires Orphan(s, peer) && NeverAnnounced(es, peer)
    ensures Orphan(Run(s, cfg, es), peer)
    decreases |es|
  {
    if es != [] {
      OrphanOutlivesStep(s, cfg, es[0], peer);
      OrphanStays(Step(s, cfg, es[0]), cfg, es[1..], peer);
    }
  }

  /** Once orphans fill the registry, no announcement is accepted ever again. */
  lemma {:induction false} FullOfOrphansIsFinal(s: State, cfg: Config, es: seq<Event>)
    requires !Accepts(s, cfg) && forall peer | peer in s.peers :: Orphan(s, peer)
    ensures Run(s, cfg, es).peers.Keys == s.peers.Keys && !Accepts(Run(s, cfg, es), cfg)
    decreases |es|
  {
    if es != [] {
      var t := Step(s, cfg, es[0]);
      forall peer | peer in s.peers
        ensures Orphan(t, peer)
      {
        OrphanOutlivesStep(s, cfg, es[0], peer);
      }
      assert t.peers.Keys == s.peers.Keys;
      assert |t.peers| == |t.peers.Keys| && |s.peers| == |s.peers.Keys|;
      FullOfOrphansIsFinal(t, cfg, es[1..]);
    }
  }

  // ── When a connection is open ────────────────────────────────────

  /** When the connection was last heard of, as long as it is open: it goes when it closes, or when a cleanup comes
      more than the session timeout later. */
  function LastHeard(es: seq<Event>, cfg: Config, conn: ConnId): Option<nat> {
    if es == [] then None else Heard(LastHeard(es[..|es| - 1], cfg, conn), cfg, conn, es[|es| - 1])
  }

  function Heard(before: Option<nat>, cfg: Config, conn: ConnId, e: Event): Option<nat> {
    match e
    case Open(c, at) => if c == conn then Some(at) else before
    case Activity(c, at) => if c == conn && before.Some? then Some(at) else before
    case Disconnect(c) => if c == conn then None else before
    case CleanupStale(at) => if before.Some? && at > before.value + cfg.sessionTimeout then None else before
    case _ => before
  }

  lemma {:induction false} RunAppends(s: State, cfg: Config, es: seq<Event>, e: Event)
    ensures Run(s, cfg, es + [e]) == Step(Run(s, cfg, es), cfg, e)
    decreases |es|
  {
    if es == [] {
      assert es + [e] == [e] && [e][1..] == [];
    } else {
      assert (es + [e])[1..] == es[1..] + [e];
      RunAppends(Step(s, cfg, es[0]), cfg, es[1..], e);
    }
  }

  /** After any run a connection is open exactly when it was opened and has neither closed since nor been silent
      for longer than the timeout when a cleanup came. */
  lemma {:induction false} OpenExactlyWhenHeard(cfg: Config, es: seq<Event>, conn: ConnId)
    ensures var open := Run(INITIAL, cfg, es).connections;
            && (conn in open <==> LastHeard(es, cfg, conn).Some?)
            && (conn in open ==> open[conn].lastActivity == LastHeard(es, cfg, conn).value)
    decreases |es|
  {
    if es != [] {
      var front, e := es[..|es| - 1], es[|es| - 1];
      assert es == front + [e];
      OpenExactlyWhenHeard(cfg, front, conn);
      RunAppends(INITIAL, cfg, front, e);
      StepHears(Run(INITIAL, cfg, front), cfg, e, conn, LastHeard(front, cfg, conn));
    }
  }

  lemma StepHears(s: State, cfg: Config, e: Event, conn: ConnId, before: Option<nat>)
    requires conn in s.connections <==> before.Some?
    requires conn in s.connections ==> s.connections[conn].lastActivity == before.value
    ensures var open, after := Step(s, cfg, e).connections, Heard(before, cfg, conn, e);
            (conn in open <==> after.Some?) && (conn in open ==> open[conn].lastActivity == after.value)
  {
  }

  /** An announcement puts the peer on record as announced exactly when there is room for it, or it was on record so
      before. */
  lemma AnnouncedExactlyWhenRoom(s: State, cfg: Config, conn: ConnId, peer: PeerId, details: string, now: nat)
    ensures var t := Step(s, cfg, Announce(conn, peer, details, now));
            && (peer in t.peers && t.peers[peer] == TrackedPeer(details, now, conn) <==>
                  |s.peers| < cfg.maxPeers || (peer in s.peers && s.peers[peer] == TrackedPeer(details, now, conn)))
            && (|s.peers| < cfg.maxPeers ==>
                  Target(t, peer) == Some(conn) && (conn in s.connections ==> Announced(t, conn, peer)))
  {
  }

  /** The event says something new about the peer. */
  predicate Updates(e: Event, peer: PeerId) { (e.Announce? || e.Heartbeat?) && e.peer == peer }

  lemma RecordStays(s: State, cfg: Config, e: Event, peer: PeerId)
    requires !Updates(e, peer)
    ensures var t := Step(s, cfg, e); peer in t.peers ==> peer in s.peers && t.peers[peer] == s.peers[peer]
  {
  }

  /** A heartbeat is on record, with what was announced, until the peer goes, announces again or sends another. */
  lemma {:induction false} HeartbeatLasts(s: State, cfg: Config, es: seq<Event>, peer: PeerId)
    requires es != [] && es[0].Heartbeat? && es[0].peer == peer && peer in s.peers
    requires forall i :: 0 < i < |es| ==> !Updates(es[i], peer)
    ensures var now := Run(s, cfg, es).peers;
            peer in now ==> now[peer] == TrackedPeer(s.peers[peer].details, es[0].at, s.peers[peer].connectionId)
    decreases |es|
  {
    OthersLeaveRecord(Step(s, cfg, es[0]), cfg, es[1..], peer);
  }

  lemma {:induction false} OthersLeaveRecord(s: State, cfg: Config, es: seq<Event>, peer: PeerId)
    requires forall i :: 0 <= i < |es| ==> !Updates(es[i], peer)
    ensures var t := Run(s, cfg, es); peer in t.peers ==> peer in s.peers && t.peers[peer] == s.peers[peer]
    decreases |es|
  {
    if es != [] {
      RecordStays(s, cfg, es[0], peer);
      OthersLeaveRecord(Step(s, cfg, es[0]), cfg, es[1..], peer);
    }
  }
}
