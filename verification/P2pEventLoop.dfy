/** The gateway's peer-to-peer event loop (gateway/src/p2p.rs): five maps of callers waiting for a
    reply, and what commands, responses, failures, DHT results and cleanup ticks do to them. */
module P2pEventLoop {

  import opened Common
  import opened Crypto

  type PeerId = nat
  type CircuitId = nat
  type RequestId = nat
  /** The sending half of a one-shot reply channel. */
  type Handle = nat

  datatype FetchError = NotFound | ConnectionFailed | PeerError | ChannelClosed | Timeout | RelayError

  datatype ManifestResult =
    ManifestResult(contentHash: Digest, fragmentHashes: seq<Digest>, totalSize: nat, mimeType: string)

  datatype Reply =
    | Data(bytes: Bytes)
    | ManifestReply(manifest: ManifestResult)
    | Providers(peers: seq<PeerId>)
    | NameRecord(record: Option<Bytes>)
    | CircuitReady(circuit: CircuitId)
    | Failed(error: FetchError)

  datatype PendingReply =
    | Fragment(targetPeer: PeerId, fragmentHash: Digest, reply: Handle)
    | Manifest(targetPeer: PeerId, reply: Handle)
    | RelayResponse(targetPeer: PeerId, circuit: CircuitId)
    | RelayForward(targetPeer: PeerId, returnTo: PeerId, circuit: CircuitId)

  datatype CircuitBuild = CircuitBuild(nextHop: nat, totalHops: nat, reply: Handle)

  // ── Inputs ───────────────────────────────────────────────────────

  /** What the relay client makes of a CREATED handshake. */
  datatype Handshake = Malformed | Refused | Extend | Complete

  /** What unwrapping a relay cell yields. */
  datatype Unwrapped = CannotUnwrap | NotAResponse | Unsuccessful | Content(bytes: Bytes)

  datatype Cell = Undecodable | Created(handshake: Handshake) | Relay(payload: Unwrapped) | Padding | OtherCell

  datatype Response =
    | FragmentResponse(data: Bytes)
    | ManifestResponse(manifest: ManifestResult)
    | RelayCell(isEmpty: bool, cell: Cell)
    | NotFoundResponse
    | ErrorResponse
    | OtherResponse

  datatype BuildOutcome = CannotBuild | NoCreateCell | Started(circuit: CircuitId)

  datatype WrapOutcome = CannotSerialize | CannotWrap | NoEntryNode | Wrapped(entry: PeerId)

  datatype Event =
    | FetchFragment(peer: PeerId, fragmentHash: Digest, reply: Handle, pathBlocked: bool)
    | FetchManifest(peer: PeerId, contentHash: Digest, reply: Handle, pathBlocked: bool)
    | FindProviders(cid: string, reply: Handle)
    | ResolveName(name: string, reply: Handle)
    | BuildCircuit(peers: seq<PeerId>, reply: Handle, built: BuildOutcome)
    | SendRelayCell(circuit: CircuitId, target: PeerId)
    | FetchViaCircuit(circuit: CircuitId, reply: Handle, wrapped: WrapOutcome)
    | ForwardForPeer(toPeer: PeerId, fromPeer: PeerId, circuit: CircuitId)
    | ResponseArrived(id: RequestId, response: Response)
    | OutboundFailure(id: RequestId)
    | NameLookupDone(suffix: Digest, record: Option<Bytes>, matching: Option<string>)
    | ProviderLookupDone(cid: string, found: Option<seq<PeerId>>)
    | CleanupTick
    | ReceiverDropped(handle: Handle)

  // ── State ────────────────────────────────────────────────────────

  datatype Slot =
    | InRequests(id: RequestId)
    | InDht(cid: string)
    | InNames(name: string)
    | InBuilds(circuit: CircuitId)
    | InFetches(circuit: CircuitId)

  /** Where a handle is: waiting in one slot, used for its one reply, or dropped unused. */
  datatype Place = At(slot: Slot) | Answered(answer: Reply) | Dropped

  datatype State = State(
    requests: map<RequestId, PendingReply>,
    dht: map<string, Handle>,
    names: map<string, Handle>,
    builds: map<CircuitId, CircuitBuild>,
    fetches: map<CircuitId, Handle>,
    nextRequest: RequestId,
    // history
    gone: set<Handle>,
    wanted: map<Handle, Digest>,
    place: map<Handle, Place>,
    log: seq<(Handle, Reply)>)

  const INITIAL: State := State(map[], map[], map[], map[], map[], 0, {}, map[], map[], [])

  function HandleAt(s: State, slot: Slot): Option<Handle> {
    match slot
    case InRequests(id) =>
      if id in s.requests && (s.requests[id].Fragment? || s.requests[id].Manifest?) then Some(s.requests[id].reply)
      else None
    case InDht(cid) => if cid in s.dht then Some(s.dht[cid]) else None
    case InNames(name) => if name in s.names then Some(s.names[name]) else None
    case InBuilds(c) => if c in s.builds then Some(s.builds[c].reply) else None
    case InFetches(c) => if c in s.fetches then Some(s.fetches[c]) else None
  }

  function Take(s: State, slot: Slot): State {
    match slot
    case InRequests(id) => s.(requests := s.requests - {id})
    case InDht(cid) => s.(dht := s.dht - {cid})
    case InNames(name) => s.(names := s.names - {name})
    case InBuilds(c) => s.(builds := s.builds - {c})
    case InFetches(c) => s.(fetches := s.fetches - {c})
  }

  function Answer(s: State, h: Handle, r: Reply): State {
    s.(log := s.log + [(h, r)], place := s.place[h := Answered(r)])
  }

  function Drop(s: State, hs: set<Handle>): State {
    s.(place := map h | h in s.place :: if h in hs then Dropped else s.place[h])
  }

  /** Removes a waiting handle and replies on it. */
  function Resolve(s: State, slot: Slot, r: Reply): State {
    match HandleAt(s, slot)
    case Some(h) => Answer(Take(s, slot), h, r)
    case None => s
  }

  /** What `insert` does to the handle it overwrites. */
  function Vacate(s: State, slot: Slot): State {
    match HandleAt(s, slot)
    case Some(h) => Drop(s, {h})
    case None => s
  }

  /** Sends a request and records who waits for its response. */
  function Track(s: State, p: PendingReply): State {
    var s' := s.(requests := s.requests[s.nextRequest := p], nextRequest := s.nextRequest + 1);
    if p.Fragment? || p.Manifest? then s'.(place := s.place[p.reply := At(InRequests(s.nextRequest))]) else s'
  }

  function WaitDht(s: State, cid: string, h: Handle): State {
    var v := Vacate(s, InDht(cid));
    v.(dht := s.dht[cid := h], place := v.place[h := At(InDht(cid))])
  }

  function WaitName(s: State, name: string, h: Handle): State {
    var v := Vacate(s, InNames(name));
    v.(names := s.names[name := h], place := v.place[h := At(InNames(name))])
  }

  function WaitBuild(s: State, c: CircuitId, b: CircuitBuild): State {
    var v := Vacate(s, InBuilds(c));
    v.(builds := s.builds[c := b], place := v.place[b.reply := At(InBuilds(c))])
  }

  function WaitFetch(s: State, c: CircuitId, h: Handle): State {
    var v := Vacate(s, InFetches(c));
    v.(fetches := s.fetches[c := h], place := v.place[h := At(InFetches(c))])
  }

  // ── Steps ────────────────────────────────────────────────────────

  /** The reply a tracked fragment or manifest request gets for a response. */
  function ReplyFor(p: PendingReply, r: Response): Reply {
    match (p, r)
    case (Fragment(_, hash, _), FragmentResponse(data)) =>
      if Blake3(data) == hash then Data(data) else Failed(PeerError)
    case (Manifest(_, _), ManifestResponse(m)) => ManifestReply(m)
    case (_, NotFoundResponse) => Failed(NotFound)
    case (_, _) => Failed(PeerError)
  }

  /** What a cell that answers one of ours calls for. */
  datatype CellEffect = SettleBuild(reply: Reply) | ExtendBuild | SettleFetch(reply: Reply) | NoEffect

  function EffectOf(c: CircuitId, cell: Cell): CellEffect {
    match cell
    case Undecodable => SettleBuild(Failed(RelayError))
    case Created(h) =>
      if h == Complete then SettleBuild(CircuitReady(c))
      else if h == Extend then ExtendBuild
      else SettleBuild(Failed(RelayError))
    case Relay(u) =>
      if u.Content? then SettleFetch(Data(u.bytes))
      else if u == Unsuccessful then SettleFetch(Failed(PeerError))
      else SettleFetch(Failed(RelayError))
    case _ => NoEffect
  }

  /** Counts the finished hop. The EXTEND request goes out untracked and only uses up a request number. */
  function Extended(s: State, c: CircuitId): State {
    if c in s.builds then
      s.(builds := s.builds[c := s.builds[c].(nextHop := s.builds[c].nextHop + 1)], nextRequest := s.nextRequest + 1)
    else s
  }

  function OnRelayCell(s: State, c: CircuitId, cell: Cell): State {
    match EffectOf(c, cell)
    case SettleBuild(r) => Resolve(s, InBuilds(c), r)
    case ExtendBuild => Extended(s, c)
    case SettleFetch(r) => Resolve(s, InFetches(c), r)
    case NoEffect => s
  }

  function OnResponse(s: State, id: RequestId, r: Response): State {
    if id !in s.requests then s
    else match s.requests[id]
      case Fragment(_, _, _) => Resolve(s, InRequests(id), ReplyFor(s.requests[id], r))
      case Manifest(_, _) => Resolve(s, InRequests(id), ReplyFor(s.requests[id], r))
      case RelayResponse(_, c) =>
        var t := Take(s, InRequests(id));
        if r.RelayCell? then OnRelayCell(t, c, r.cell) else t
      case RelayForward(_, returnTo, c) =>
        var t := Take(s, InRequests(id));
        if r.RelayCell? && !r.isEmpty then Track(t, RelayForward(returnTo, returnTo, c)) else t
  }

  /** The waiting handles a cleanup tick discards: those whose receiver is gone, in the first three maps. */
  function Closed(s: State): set<Handle> {
    (set id | id in s.requests && HandleAt(s, InRequests(id)).Some? && s.requests[id].reply in s.gone
       :: s.requests[id].reply)
    + (set cid | cid in s.dht && s.dht[cid] in s.gone :: s.dht[cid])
    + (set name | name in s.names && s.names[name] in s.gone :: s.names[name])
  }

  function RetainRequests(requests: map<RequestId, PendingReply>, closed: set<Handle>): map<RequestId, PendingReply> {
    map id | id in requests && !((requests[id].Fragment? || requests[id].Manifest?) && requests[id].reply in closed)
      :: requests[id]
  }

  function RetainOpen(waiting: map<string, Handle>, closed: set<Handle>): map<string, Handle> {
    map key | key in waiting && waiting[key] !in closed :: waiting[key]
  }

  function OnCleanupTick(s: State): State {
    Drop(s, Closed(s)).(
      requests := RetainRequests(s.requests, s.gone),
      dht := RetainOpen(s.dht, s.gone),
      names := RetainOpen(s.names, s.gone))
  }

  function Step(s: State, zkEnabled: bool, e: Event): State {
    match e
    case FetchFragment(peer, hash, h, blocked) =>
      var t := s.(wanted := s.wanted[h := hash]);
      if blocked then Answer(t, h, Failed(ConnectionFailed)) else Track(t, Fragment(peer, hash, h))
    case FetchManifest(peer, _, h, blocked) =>
      if blocked then Answer(s, h, Failed(ConnectionFailed)) else Track(s, Manifest(peer, h))
    case FindProviders(cid, h) => WaitDht(s, cid, h)
    case ResolveName(name, h) => WaitName(s, name, h)
    case BuildCircuit(peers, h, built) =>
      if !zkEnabled || |peers| < 2 || !built.Started? then Answer(s, h, Failed(RelayError))
      else Track(WaitBuild(s, built.circuit, CircuitBuild(0, |peers|, h)), RelayResponse(peers[0], built.circuit))
    case SendRelayCell(c, target) => if zkEnabled then Track(s, RelayResponse(target, c)) else s
    case FetchViaCircuit(c, h, wrapped) =>
      if !zkEnabled || !wrapped.Wrapped? then Answer(s, h, Failed(RelayError))
      else Track(WaitFetch(s, c, h), RelayResponse(wrapped.entry, c))
    case ForwardForPeer(to, from, c) => if zkEnabled then Track(s, RelayForward(to, from, c)) else s
    case ResponseArrived(id, r) => OnResponse(s, id, r)
    case OutboundFailure(id) =>
      if HandleAt(s, InRequests(id)).Some? then Resolve(s, InRequests(id), Failed(ConnectionFailed))
      else Take(s, InRequests(id))
    case NameLookupDone(_, record, matching) =>
      if matching.Some? then Resolve(s, InNames(matching.value), NameRecord(record)) else s
    case ProviderLookupDone(cid, found) =>
      Resolve(s, InDht(cid), if found.Some? then Providers(found.value) else Failed(NotFound))
    case CleanupTick => OnCleanupTick(s)
    case ReceiverDropped(h) => s.(gone := s.gone + {h})
  }

  /** The handle a command brings along. */
  function NewHandle(e: Event): Option<Handle> {
    match e
    case FetchFragment(_, _, h, _) => Some(h)
    case FetchManifest(_, _, h, _) => Some(h)
    case FindProviders(_, h) => Some(h)
    case ResolveName(_, h) => Some(h)
    case BuildCircuit(_, h, _) => Some(h)
    case FetchViaCircuit(_, h, _) => Some(h)
    case _ => None
  }

  /** Some waiting name with the digest, if there is one; which one is not determined. */
  predicate Matches(names: map<string, Handle>, suffix: Digest, matching: Option<string>) {
    match matching
    case Some(name) => name in names && NameHash(name) == suffix
    case None => forall name | name in names :: NameHash(name) != suffix
  }

  /** Commands carry fresh reply channels. */
  predicate Possible(s: State, e: Event) {
    && (NewHandle(e).Some? ==> NewHandle(e).value !in s.place && NewHandle(e).value !in s.wanted)
    && (e.NameLookupDone? ==> Matches(s.names, e.suffix, e.matching))
  }

  // ── The loop itself ──────────────────────────────────────────────

  /** A response to a tracked fragment or manifest request answers it. */
  lemma TrackedResponse(s: State, id: RequestId, r: Response)
    requires id in s.requests && (s.requests[id].Fragment? || s.requests[id].Manifest?)
    ensures OnResponse(s, id, r)
         == Answer(s.(requests := s.requests - {id}), s.requests[id].reply, ReplyFor(s.requests[id], r))
  {
  }

  /** A response to one of our own or forwarded cells. */
  lemma RelayedResponse(s: State, id: RequestId, r: Response)
    requires id in s.requests && (s.requests[id].RelayResponse? || s.requests[id].RelayForward?)
    ensures var p, t := s.requests[id], s.(requests := s.requests - {id});
            OnResponse(s, id, r) ==
              if !r.RelayCell? then t
              else if p.RelayResponse? then OnRelayCell(t, p.circuit, r.cell)
              else if r.isEmpty then t
              else Track(t, RelayForward(p.returnTo, p.returnTo, p.circuit))
  {
  }

  class EventLoop {
    const zkEnabled: bool
    var requests: map<RequestId, PendingReply>
    var dht: map<string, Handle>
    var names: map<string, Handle>
    var builds: map<CircuitId, CircuitBuild>
    var fetches: map<CircuitId, Handle>
    var nextRequest: RequestId

    ghost var gone: set<Handle>
    ghost var wanted: map<Handle, Digest>
    ghost var place: map<Handle, Place>
    ghost var log: seq<(Handle, Reply)>

    ghost function Abs(): State
      reads this
    {
      State(requests, dht, names, builds, fetches, nextRequest, gone, wanted, place, log)
    }

    constructor (zkEnabled: bool)
      ensures this.zkEnabled == zkEnabled && Abs() == INITIAL
    {
      this.zkEnabled := zkEnabled;
      requests, dht, names, builds, fetches, nextRequest := map[], map[], map[], map[], map[], 0;
      gone, wanted, place, log := {}, map[], map[], [];
    }

    /** Uses up a reply channel. */
    method Send(h: Handle, r: Reply)
      modifies this`log, this`place
      ensures Abs() == Answer(old(Abs()), h, r)
    {
      log := log + [(h, r)];
      place := place[h := Answered(r)];
    }

    /** Sends a request to a peer and files what its response is for. */
    method SendRequest(p: PendingReply)
      modifies this`requests, this`nextRequest, this`place
      ensures Abs() == Track(old(Abs()), p)
    {
      requests := requests[nextRequest := p];
      if p.Fragment? || p.Manifest? {
        place := place[p.reply := At(InRequests(nextRequest))];
      }
      nextRequest := nextRequest + 1;
    }

    method HandleCommand(e: Event)
      requires NewHandle(e).Some? || e.SendRelayCell?
      modifies this
      ensures Abs() == Step(old(Abs()), zkEnabled, e)
    {
      match e
      case FetchFragment(peer, hash, reply, pathBlocked) =>
        wanted := wanted[reply := hash];
        if pathBlocked {
          Send(reply, Failed(ConnectionFailed));
          return;
        }
        SendRequest(Fragment(peer, hash, reply));
      case FetchManifest(peer, _, reply, pathBlocked) =>
        if pathBlocked {
          Send(reply, Failed(ConnectionFailed));
          return;
        }
        SendRequest(Manifest(peer, reply));
      case FindProviders(cid, reply) =>
        place := WaitDht(Abs(), cid, reply).place;
        dht := dht[cid := reply];
      case ResolveName(name, reply) =>
        place := WaitName(Abs(), name, reply).place;
        names := names[name := reply];
      case BuildCircuit(peers, reply, built) => HandleBuildCircuit(peers, reply, built);
      case SendRelayCell(circuit, target) =>
        if zkEnabled {
          SendRequest(RelayResponse(target, circuit));
        }
      case FetchViaCircuit(circuit, reply, wrapped) => HandleFetchViaCircuit(circuit, reply, wrapped);
      case _ =>
    }

    method HandleBuildCircuit(peers: seq<PeerId>, reply: Handle, built: BuildOutcome)
      modifies this
      ensures Abs() == Step(old(Abs()), zkEnabled, BuildCircuit(peers, reply, built))
    {
      if !zkEnabled {
        Send(reply, Failed(RelayError));
        return;
      }
      if |peers| < 2 {
        Send(reply, Failed(RelayError));
        return;
      }
      match built {
        case CannotBuild => Send(reply, Failed(RelayError));
        case NoCreateCell => Send(reply, Failed(RelayError));
        case Started(circuit) =>
          place := WaitBuild(Abs(), circuit, CircuitBuild(0, |peers|, reply)).place;
          builds := builds[circuit := CircuitBuild(0, |peers|, reply)];
          SendRequest(RelayResponse(peers[0], circuit));
      }
    }

    method HandleFetchViaCircuit(circuit: CircuitId, reply: Handle, wrapped: WrapOutcome)
      modifies this
      ensures Abs() == Step(old(Abs()), zkEnabled, FetchViaCircuit(circuit, reply, wrapped))
    {
      if !zkEnabled {
        Send(reply, Failed(RelayError));
        return;
      }
      match wrapped {
        case Wrapped(entry) =>
          place := WaitFetch(Abs(), circuit, reply).place;
          fetches := fetches[circuit := reply];
          SendRequest(RelayResponse(entry, circuit));
        case _ => Send(reply, Failed(RelayError));
      }
    }

    /** A relay cell another peer asked us to pass on. */
    method ForwardCell(toPeer: PeerId, fromPeer: PeerId, circuit: CircuitId)
      modifies this`requests, this`nextRequest, this`place
      ensures Abs() == Step(old(Abs()), zkEnabled, ForwardForPeer(toPeer, fromPeer, circuit))
    {
      if zkEnabled {
        SendRequest(RelayForward(toPeer, fromPeer, circuit));
      }
    }

    method HandleContentResponse(id: RequestId, response: Response)
      modifies this
      ensures Abs() == Step(old(Abs()), zkEnabled, ResponseArrived(id, response))
    {
      if id !in requests {
        return;
      }
      var pending := requests[id];
      if pending.Fragment? || pending.Manifest? {
        TrackedResponse(Abs(), id, response);
      } else {
        RelayedResponse(Abs(), id, response);
      }
      requests := requests - {id};
      match (pending, response)
      case (RelayForward(_, returnTo, circuit), RelayCell(isEmpty, _)) =>
        if !isEmpty {
          SendRequest(RelayForward(returnTo, returnTo, circuit));
        }
      case (RelayResponse(_, circuit), RelayCell(_, cell)) => HandleRelayCellResponse(circuit, cell);
      case (_, _) => ReplyToPending(pending, response);
    }

    /** The response of a peer to a fragment or manifest request; nobody waits for anything else. */
    method ReplyToPending(pending: PendingReply, response: Response)
      modifies this`log, this`place
      ensures Abs() == if pending.Fragment? || pending.Manifest?
                       then Answer(old(Abs()), pending.reply, ReplyFor(pending, response)) else old(Abs())
    {
      match (pending, response)
      case (Fragment(_, hash, reply), FragmentResponse(data)) =>
        if Blake3(data) == hash {
          Send(reply, Data(data));
        } else {
          Send(reply, Failed(PeerError));
        }
      case (Manifest(_, reply), ManifestResponse(m)) => Send(reply, ManifestReply(m));
      case (_, NotFoundResponse) => ResolvePending(pending, NotFound);
      case (_, _) => ResolvePending(pending, PeerError);
    }

    method ResolvePending(pending: PendingReply, error: FetchError)
      modifies this`log, this`place
      ensures Abs() == if pending.Fragment? || pending.Manifest?
                       then Answer(old(Abs()), pending.reply, Failed(error)) else old(Abs())
    {
      match pending
      case Fragment(_, _, reply) => Send(reply, Failed(error));
      case Manifest(_, reply) => Send(reply, Failed(error));
      case RelayResponse(_, _) =>
      case RelayForward(_, _, _) =>
    }

    method SettleBuildOf(circuit: CircuitId, r: Reply)
      modifies this`builds, this`log, this`place
      ensures Abs() == Resolve(old(Abs()), InBuilds(circuit), r)
    {
      if circuit in builds {
        var build := builds[circuit];
        builds := builds - {circuit};
        Send(build.reply, r);
      }
    }

    method HandleRelayCellResponse(circuit: CircuitId, cell: Cell)
      modifies this
      ensures Abs() == OnRelayCell(old(Abs()), circuit, cell)
    {
      match cell
      case Undecodable => SettleBuildOf(circuit, Failed(RelayError));
      case Created(handshake) =>
        if circuit in builds {
          match handshake {
            case Malformed => SettleBuildOf(circuit, Failed(RelayError));
            case Refused => SettleBuildOf(circuit, Failed(RelayError));
            case Complete => SettleBuildOf(circuit, CircuitReady(circuit));
            case Extend =>
              builds := builds[circuit := builds[circuit].(nextHop := builds[circuit].nextHop + 1)];
              nextRequest := nextRequest + 1;
          }
        }
      case Relay(payload) =>
        if circuit in fetches {
          var reply := fetches[circuit];
          fetches := fetches - {circuit};
          match payload {
            case Content(bytes) => Send(reply, Data(bytes));
            case Unsuccessful => Send(reply, Failed(PeerError));
            case _ => Send(reply, Failed(RelayError));
          }
        }
      case Padding =>
      case OtherCell =>
    }

    method HandleOutboundFailure(id: RequestId)
      modifies this
      ensures Abs() == Step(old(Abs()), zkEnabled, OutboundFailure(id))
    {
      if id in requests {
        var pending := requests[id];
        requests := requests - {id};
        ResolvePending(pending, ConnectionFailed);
      }
    }

    /** The outcome of a name lookup goes to some waiting name with that digest. */
    method HandleNameRecord(suffix: Digest, record: Option<Bytes>) returns (matching: Option<string>)
      modifies this
      ensures Matches(old(names), suffix, matching)
      ensures Abs() == Step(old(Abs()), zkEnabled, NameLookupDone(suffix, record, matching))
    {
      if exists name :: name in names && NameHash(name) == suffix {
        var name :| name in names && NameHash(name) == suffix;
        var reply := names[name];
        names := names - {name};
        Send(reply, NameRecord(record));
        matching := Some(name);
      } else {
        matching := None;
      }
    }

    method HandleContentRecord(cid: string, found: Option<seq<PeerId>>)
      modifies this
      ensures Abs() == Step(old(Abs()), zkEnabled, ProviderLookupDone(cid, found))
    {
      if cid in dht {
        var reply := dht[cid];
        dht := dht - {cid};
        Send(reply, if found.Some? then Providers(found.value) else Failed(NotFound));
      }
    }

    /** The minute tick; `closed` are the channels whose receiver is gone. */
    method CleanUp(closed: set<Handle>)
      requires closed == gone
      modifies this`requests, this`dht, this`names, this`place
      ensures Abs() == Step(old(Abs()), zkEnabled, CleanupTick)
    {
      place := OnCleanupTick(Abs()).place;
      requests := RetainRequests(requests, closed);
      dht := RetainOpen(dht, closed);
      names := RetainOpen(names, closed);
    }
  }

  // ── Conservation of reply handles ────────────────────────────────

  /** A handle waits exactly where its place says. */
  ghost predicate Placed(s: State) {
    && (forall slot :: HandleAt(s, slot).Some? ==>
          HandleAt(s, slot).value in s.place && s.place[HandleAt(s, slot).value] == At(slot))
    && (forall h | h in s.place && s.place[h].At? :: HandleAt(s, s.place[h].slot) == Some(h))
  }

  /** The log holds the answer of each answered handle, once. */
  ghost predicate Logged(s: State) {
    && (forall i | 0 <= i < |s.log| :: s.log[i].0 in s.place && s.place[s.log[i].0] == Answered(s.log[i].1))
    && (forall i, j | 0 <= i < j < |s.log| :: s.log[i].0 != s.log[j].0)
    && (forall h | h in s.place && s.place[h].Answered? :: (h, s.place[h].answer) in s.log)
  }

  /** The swarm never reuses a request number. */
  ghost predicate Numbered(s: State) {
    forall id | id in s.requests :: id < s.nextRequest
  }

  /** Fragment callers get only data that hashes to what they asked for. */
  ghost predicate Verified(s: State) {
    forall h | h in s.wanted :: h in s.place && VerifiedAt(s, s.wanted[h], s.place[h])
  }

  ghost predicate VerifiedAt(s: State, hash: Digest, p: Place) {
    match p
    case At(slot) =>
      && slot.InRequests? && slot.id in s.requests
      && s.requests[slot.id].Fragment? && s.requests[slot.id].fragmentHash == hash
    case Answered(r) => r.Data? ==> Blake3(r.bytes) == hash
    case Dropped => true
  }

  ghost predicate Inv(s: State) { Placed(s) && Logged(s) && Numbered(s) && Verified(s) }

  lemma TakeEffect(s: State, slot: Slot, x: Slot)
    ensures HandleAt(Take(s, slot), x) == if x == slot then None else HandleAt(s, x)
  {
  }

  lemma AnswerLogged(s: State, h: Handle, r: Reply)
    requires Logged(s) && (h !in s.place || !s.place[h].Answered?)
    ensures Logged(Answer(s, h, r))
  {
    var s' := Answer(s, h, r);
    assert s'.log[|s.log|] == (h, r);
    assert forall i | 0 <= i < |s.log| :: s'.log[i] == s.log[i] && s.log[i].0 != h;
    forall k | k in s'.place && s'.place[k].Answered?
      ensures (k, s'.place[k].answer) in s'.log
    {
      if k != h {
        assert (k, s.place[k].answer) in s.log;
      }
    }
  }

  lemma AnswerNew(s: State, h: Handle, r: Reply)
    requires Inv(s) && h !in s.place && h !in s.wanted
    ensures Inv(Answer(s, h, r))
  {
    var t := Answer(s, h, r);
    AnswerLogged(s, h, r);
    forall x
      ensures HandleAt(t, x) == HandleAt(s, x)
    {
      AnswerKeepsHandles(s, h, r, x);
    }
    assert t.place == s.place[h := Answered(r)] && t.requests == s.requests && t.wanted == s.wanted;
    forall k | k in t.wanted
      ensures k in t.place && VerifiedAt(t, t.wanted[k], t.place[k])
    {
      assert VerifiedAt(s, s.wanted[k], s.place[k]);
    }
  }

  lemma AnswerKeepsHandles(s: State, h: Handle, r: Reply, x: Slot)
    ensures HandleAt(Answer(s, h, r), x) == HandleAt(s, x)
  {
  }

  lemma ResolvePlaced(s: State, slot: Slot, r: Reply)
    requires Placed(s)
    ensures Placed(Resolve(s, slot, r))
  {
    if HandleAt(s, slot).Some? {
      var h := HandleAt(s, slot).value;
      var t, s' := Take(s, slot), Resolve(s, slot, r);
      forall x
        ensures HandleAt(s', x) == if x == slot then None else HandleAt(s, x)
      {
        TakeEffect(s, slot, x);
        assert HandleAt(s', x) == HandleAt(t, x);
      }
      assert s'.place == s.place[h := Answered(r)];
    }
  }

  /** Replying to a waiting handle keeps every handle accounted for; fragment callers get verified data. */
  lemma ResolveKeepsInv(s: State, slot: Slot, r: Reply)
    requires Inv(s)
    requires r.Data? && slot.InRequests? && HandleAt(s, slot).Some? && s.requests[slot.id].Fragment? ==>
      Blake3(r.bytes) == s.requests[slot.id].fragmentHash
    ensures Inv(Resolve(s, slot, r))
  {
    ResolvePlaced(s, slot, r);
    if HandleAt(s, slot).Some? {
      var h := HandleAt(s, slot).value;
      var t, s' := Take(s, slot), Resolve(s, slot, r);
      AnswerLogged(t, h, r);
      forall k | k in s'.wanted
        ensures k in s'.place && VerifiedAt(s', s'.wanted[k], s'.place[k])
      {
        assert VerifiedAt(s, s.wanted[k], s.place[k]);
        if k != h && s.place[k].At? {
          TakeEffect(s, slot, s.place[k].slot);
          assert HandleAt(s, s.place[k].slot) == Some(k);
        }
      }
    }
  }

  lemma TakeVacantKeepsInv(s: State, id: RequestId)
    requires Inv(s) && HandleAt(s, InRequests(id)).None?
    ensures Inv(Take(s, InRequests(id)))
  {
    var s' := Take(s, InRequests(id));
    forall x
      ensures HandleAt(s', x) == HandleAt(s, x)
    {
      TakeEffect(s, InRequests(id), x);
    }
    forall k | k in s'.wanted
      ensures k in s'.place && VerifiedAt(s', s'.wanted[k], s'.place[k])
    {
      assert VerifiedAt(s, s.wanted[k], s.place[k]);
      if s.place[k].At? {
        assert HandleAt(s, s.place[k].slot) == Some(k);
      }
    }
  }

  /** A tracked request with no caller behind it. */
  lemma TrackRelayKeepsInv(s: State, p: PendingReply)
    requires Inv(s) && (p.RelayResponse? || p.RelayForward?)
    ensures Inv(Track(s, p))
  {
    var s' := Track(s, p);
    assert HandleAt(s, InRequests(s.nextRequest)).None?;
    assert forall x :: HandleAt(s', x) == HandleAt(s, x);
    forall k | k in s'.wanted
      ensures k in s'.place && VerifiedAt(s', s'.wanted[k], s'.place[k])
    {
      assert VerifiedAt(s, s.wanted[k], s.place[k]);
    }
  }

  lemma TrackEffect(s: State, p: PendingReply, x: Slot)
    requires p.Fragment? || p.Manifest?
    ensures HandleAt(Track(s, p), x) == if x == InRequests(s.nextRequest) then Some(p.reply) else HandleAt(s, x)
  {
  }

  /** A tracked fetch of a new caller. */
  lemma TrackFetchKeepsInv(s: State, t: State, p: PendingReply)
    requires Inv(s) && (p.Fragment? || p.Manifest?) && p.reply !in s.place && p.reply !in s.wanted
    requires t == if p.Fragment? then s.(wanted := s.wanted[p.reply := p.fragmentHash]) else s
    ensures Inv(Track(t, p))
  {
    var s', slot := Track(t, p), InRequests(s.nextRequest);
    assert HandleAt(s, slot).None?;
    forall x
      ensures HandleAt(s', x) == if x == slot then Some(p.reply) else HandleAt(s, x)
    {
      TrackEffect(t, p, x);
    }
    assert s'.log == s.log && s'.place == s.place[p.reply := At(slot)];
    forall k | k in s'.wanted
      ensures k in s'.place && VerifiedAt(s', s'.wanted[k], s'.place[k])
    {
      if k != p.reply {
        assert VerifiedAt(s, s.wanted[k], s.place[k]);
      }
    }
  }

  /** Any insertion into one of the other four maps: the new handle waits there, the overwritten one is dropped. */
  lemma WaitKeepsInv(s: State, s': State, slot: Slot, h: Handle)
    requires Inv(s) && !slot.InRequests? && h !in s.place && h !in s.wanted
    requires s'.requests == s.requests && s'.nextRequest == s.nextRequest && s'.wanted == s.wanted && s'.log == s.log
    requires s'.place == Vacate(s, slot).place[h := At(slot)]
    requires forall x :: HandleAt(s', x) == if x == slot then Some(h) else HandleAt(s, x)
    ensures Inv(s')
  {
    var v := Vacate(s, slot);
    assert s'.place.Keys == s.place.Keys + {h};
    forall k | k in s.place
      ensures s'.place[k] == if HandleAt(s, slot) == Some(k) then Dropped else s.place[k]
      ensures HandleAt(s, slot) == Some(k) ==> s.place[k] == At(slot)
    {
      VacatePlaces(s, slot, k);
    }
    WaitPlaced(s, s', slot, h);
    assert Logged(s') by {
      forall k | k in s'.place && s'.place[k].Answered?
        ensures (k, s'.place[k].answer) in s'.log
      {
        assert (k, s.place[k].answer) in s.log;
      }
    }
    forall k | k in s'.wanted
      ensures k in s'.place && VerifiedAt(s', s'.wanted[k], s'.place[k])
    {
      assert VerifiedAt(s, s.wanted[k], s.place[k]);
    }
  }

  lemma WaitPlaced(s: State, s': State, slot: Slot, h: Handle)
    requires Placed(s) && h !in s.place
    requires s'.place.Keys == s.place.Keys + {h} && s'.place[h] == At(slot)
    requires forall k | k in s.place :: s'.place[k] == if HandleAt(s, slot) == Some(k) then Dropped else s.place[k]
    requires forall x :: HandleAt(s', x) == if x == slot then Some(h) else HandleAt(s, x)
    ensures Placed(s')
  {
  }

  lemma CleanupKeepsInv(s: State)
    requires Inv(s)
    ensures Inv(OnCleanupTick(s))
  {
    var s' := OnCleanupTick(s);
    forall slot
      ensures HandleAt(s', slot) ==
        if (slot.InRequests? || slot.InDht? || slot.InNames?) && HandleAt(s, slot).Some?
          && HandleAt(s, slot).value in s.gone
        then None else HandleAt(s, slot)
    {
    }
    forall h | h in s.place
      ensures h in Closed(s) <==>
        h in s.gone && s.place[h].At?
        && (s.place[h].slot.InRequests? || s.place[h].slot.InDht? || s.place[h].slot.InNames?)
    {
      ClosedAre(s, h);
    }
    forall k | k in s'.place && s'.place[k].Answered?
      ensures (k, s'.place[k].answer) in s'.log
    {
      assert (k, s.place[k].answer) in s.log;
    }
    forall k | k in s'.wanted
      ensures k in s'.place && VerifiedAt(s', s'.wanted[k], s'.place[k])
    {
      assert VerifiedAt(s, s.wanted[k], s.place[k]);
    }
  }

  lemma ClosedAre(s: State, h: Handle)
    requires Placed(s) && h in s.place
    ensures h in Closed(s) <==>
      h in s.gone && s.place[h].At?
      && (s.place[h].slot.InRequests? || s.place[h].slot.InDht? || s.place[h].slot.InNames?)
  {
    if h in Closed(s) {
      if id :| id in s.requests && HandleAt(s, InRequests(id)).Some?
               && s.requests[id].reply in s.gone && s.requests[id].reply == h {
        assert HandleAt(s, InRequests(id)) == Some(h);
      } else if cid :| cid in s.dht && s.dht[cid] == h && h in s.gone {
        assert HandleAt(s, InDht(cid)) == Some(h);
      } else {
        var name :| name in s.names && s.names[name] == h && h in s.gone;
        assert HandleAt(s, InNames(name)) == Some(h);
      }
    }
    if s.place[h].At? {
      assert HandleAt(s, s.place[h].slot) == Some(h);
    }
  }

  lemma FetchKeepsInv(s: State, zkEnabled: bool, e: Event)
    requires Inv(s) && Possible(s, e) && (e.FetchFragment? || e.FetchManifest?)
    ensures Inv(Step(s, zkEnabled, e))
  {
    match e
    case FetchFragment(peer, hash, h, blocked) =>
      if blocked {
        FragmentRefused(s, hash, h);
      } else {
        TrackFetchKeepsInv(s, s.(wanted := s.wanted[h := hash]), Fragment(peer, hash, h));
      }
    case FetchManifest(peer, _, h, blocked) =>
      if blocked {
        AnswerNew(s, h, Failed(ConnectionFailed));
      } else {
        TrackFetchKeepsInv(s, s, Manifest(peer, h));
      }
  }

  lemma WaitDhtEffect(s: State, cid: string, h: Handle, x: Slot)
    ensures HandleAt(WaitDht(s, cid, h), x) == if x == InDht(cid) then Some(h) else HandleAt(s, x)
  {
  }

  lemma WaitNameEffect(s: State, name: string, h: Handle, x: Slot)
    ensures HandleAt(WaitName(s, name, h), x) == if x == InNames(name) then Some(h) else HandleAt(s, x)
  {
  }

  lemma WaitFetchEffect(s: State, c: CircuitId, h: Handle, x: Slot)
    ensures HandleAt(WaitFetch(s, c, h), x) == if x == InFetches(c) then Some(h) else HandleAt(s, x)
  {
  }

  lemma BuildEffect(s: State, c: CircuitId, b: CircuitBuild, x: Slot)
    ensures HandleAt(WaitBuild(s, c, b), x) == if x == InBuilds(c) then Some(b.reply) else HandleAt(s, x)
  {
  }

  lemma FindProvidersKeepsInv(s: State, cid: string, h: Handle)
    requires Inv(s) && h !in s.place && h !in s.wanted
    ensures Inv(WaitDht(s, cid, h))
  {
    forall x ensures HandleAt(WaitDht(s, cid, h), x) == if x == InDht(cid) then Some(h) else HandleAt(s, x) {
      WaitDhtEffect(s, cid, h, x);
    }
    WaitKeepsInv(s, WaitDht(s, cid, h), InDht(cid), h);
  }

  lemma ResolveNameKeepsInv(s: State, name: string, h: Handle)
    requires Inv(s) && h !in s.place && h !in s.wanted
    ensures Inv(WaitName(s, name, h))
  {
    forall x ensures HandleAt(WaitName(s, name, h), x) == if x == InNames(name) then Some(h) else HandleAt(s, x) {
      WaitNameEffect(s, name, h, x);
    }
    WaitKeepsInv(s, WaitName(s, name, h), InNames(name), h);
  }

  lemma WaitBuildKeepsInv(s: State, c: CircuitId, b: CircuitBuild)
    requires Inv(s) && b.reply !in s.place && b.reply !in s.wanted
    ensures Inv(WaitBuild(s, c, b))
  {
    forall x ensures HandleAt(WaitBuild(s, c, b), x) == if x == InBuilds(c) then Some(b.reply) else HandleAt(s, x) {
      BuildEffect(s, c, b, x);
    }
    WaitKeepsInv(s, WaitBuild(s, c, b), InBuilds(c), b.reply);
  }

  lemma WaitFetchKeepsInv(s: State, c: CircuitId, h: Handle)
    requires Inv(s) && h !in s.place && h !in s.wanted
    ensures Inv(WaitFetch(s, c, h))
  {
    forall x ensures HandleAt(WaitFetch(s, c, h), x) == if x == InFetches(c) then Some(h) else HandleAt(s, x) {
      WaitFetchEffect(s, c, h, x);
    }
    WaitKeepsInv(s, WaitFetch(s, c, h), InFetches(c), h);
  }

  lemma ReceiverDroppedKeepsInv(s: State, h: Handle)
    requires Inv(s)
    ensures Inv(s.(gone := s.gone + {h}))
  {
    assert forall x :: HandleAt(s.(gone := s.gone + {h}), x) == HandleAt(s, x);
    assert forall k | k in s.wanted :: VerifiedAt(s, s.wanted[k], s.place[k]);
  }

  /** Every possible event keeps every reply handle in exactly one place and every answer verified. */
  lemma {:induction false} StepKeepsInv(s: State, zkEnabled: bool, e: Event)
    requires Inv(s) && Possible(s, e)
    ensures Inv(Step(s, zkEnabled, e))
  {
    match e
    case FetchFragment(_, _, _, _) => FetchKeepsInv(s, zkEnabled, e);
    case FetchManifest(_, _, _, _) => FetchKeepsInv(s, zkEnabled, e);
    case FindProviders(cid, h) => FindProvidersKeepsInv(s, cid, h);
    case ResolveName(name, h) => ResolveNameKeepsInv(s, name, h);
    case BuildCircuit(peers, h, built) => BuildKeepsInv(s, zkEnabled, peers, h, built);
    case SendRelayCell(c, target) => TrackRelayKeepsInv(s, RelayResponse(target, c));
    case FetchViaCircuit(c, h, wrapped) => CircuitFetchKeepsInv(s, zkEnabled, c, h, wrapped);
    case ForwardForPeer(to, from, c) => TrackRelayKeepsInv(s, RelayForward(to, from, c));
    case ResponseArrived(id, r) => ResponseKeepsInv(s, id, r);
    case OutboundFailure(id) => FailureKeepsInv(s, zkEnabled, id);
    case NameLookupDone(_, record, matching) =>
      if matching.Some? {
        ResolveKeepsInv(s, InNames(matching.value), NameRecord(record));
      }
    case ProviderLookupDone(cid, found) =>
      ResolveKeepsInv(s, InDht(cid), if found.Some? then Providers(found.value) else Failed(NotFound));
    case CleanupTick => CleanupKeepsInv(s);
    case ReceiverDropped(h) => ReceiverDroppedKeepsInv(s, h);
  }

  lemma BuildKeepsInv(s: State, zkEnabled: bool, peers: seq<PeerId>, h: Handle, built: BuildOutcome)
    requires Inv(s) && h !in s.place && h !in s.wanted
    ensures Inv(Step(s, zkEnabled, BuildCircuit(peers, h, built)))
  {
    AnswerNew(s, h, Failed(RelayError));
    if |peers| >= 2 && built.Started? {
      var b := CircuitBuild(0, |peers|, h);
      WaitBuildKeepsInv(s, built.circuit, b);
      TrackRelayKeepsInv(WaitBuild(s, built.circuit, b), RelayResponse(peers[0], built.circuit));
    }
  }

  lemma CircuitFetchKeepsInv(s: State, zkEnabled: bool, c: CircuitId, h: Handle, wrapped: WrapOutcome)
    requires Inv(s) && h !in s.place && h !in s.wanted
    ensures Inv(Step(s, zkEnabled, FetchViaCircuit(c, h, wrapped)))
  {
    AnswerNew(s, h, Failed(RelayError));
    if wrapped.Wrapped? {
      WaitFetchKeepsInv(s, c, h);
      TrackRelayKeepsInv(WaitFetch(s, c, h), RelayResponse(wrapped.entry, c));
    }
  }

  lemma FailureKeepsInv(s: State, zkEnabled: bool, id: RequestId)
    requires Inv(s)
    ensures Inv(Step(s, zkEnabled, OutboundFailure(id)))
  {
    if HandleAt(s, InRequests(id)).None? {
      TakeVacantKeepsInv(s, id);
    } else {
      ResolveKeepsInv(s, InRequests(id), Failed(ConnectionFailed));
    }
  }

  lemma FragmentRefused(s: State, hash: Digest, h: Handle)
    requires Inv(s) && h !in s.place && h !in s.wanted
    ensures Inv(Answer(s.(wanted := s.wanted[h := hash]), h, Failed(ConnectionFailed)))
  {
    AnswerNew(s, h, Failed(ConnectionFailed));
    WantedKeepsInv(Answer(s, h, Failed(ConnectionFailed)), hash, h);
    assert Answer(s, h, Failed(ConnectionFailed)).(wanted := s.wanted[h := hash])
        == Answer(s.(wanted := s.wanted[h := hash]), h, Failed(ConnectionFailed));
  }

  lemma WantedKeepsInv(s: State, hash: Digest, h: Handle)
    requires Inv(s) && h in s.place && s.place[h].Answered? && !s.place[h].answer.Data?
    ensures Inv(s.(wanted := s.wanted[h := hash]))
  {
    var t := s.(wanted := s.wanted[h := hash]);
    forall x
      ensures HandleAt(t, x) == HandleAt(s, x)
    {
    }
    forall k | k in t.wanted
      ensures k in t.place && VerifiedAt(t, t.wanted[k], t.place[k])
    {
      assert k != h ==> VerifiedAt(s, s.wanted[k], s.place[k]);
    }
  }

  lemma ResponseKeepsInv(s: State, id: RequestId, r: Response)
    requires Inv(s)
    ensures Inv(OnResponse(s, id, r))
  {
    if id in s.requests {
      match s.requests[id]
      case Fragment(_, _, _) => ResolveKeepsInv(s, InRequests(id), ReplyFor(s.requests[id], r));
      case Manifest(_, _) => ResolveKeepsInv(s, InRequests(id), ReplyFor(s.requests[id], r));
      case RelayResponse(_, c) =>
        TakeVacantKeepsInv(s, id);
        if r.RelayCell? {
          CellKeepsInv(Take(s, InRequests(id)), c, r.cell);
        }
      case RelayForward(_, returnTo, c) =>
        TakeVacantKeepsInv(s, id);
        TrackRelayKeepsInv(Take(s, InRequests(id)), RelayForward(returnTo, returnTo, c));
    }
  }

  lemma ExtendKeepsInv(s: State, c: CircuitId)
    requires Inv(s)
    ensures Inv(Extended(s, c))
  {
    assert forall x :: HandleAt(Extended(s, c), x) == HandleAt(s, x);
    assert forall k | k in s.wanted :: VerifiedAt(s, s.wanted[k], s.place[k]);
  }

  lemma CellKeepsInv(s: State, c: CircuitId, cell: Cell)
    requires Inv(s)
    ensures Inv(OnRelayCell(s, c, cell))
  {
    match EffectOf(c, cell)
    case SettleBuild(r) => ResolveKeepsInv(s, InBuilds(c), r);
    case ExtendBuild => ExtendKeepsInv(s, c);
    case SettleFetch(r) => ResolveKeepsInv(s, InFetches(c), r);
    case NoEffect =>
  }

  // ── Whole runs ───────────────────────────────────────────────────

  function Run(s: State, zkEnabled: bool, es: seq<Event>): State
    decreases |es|
  {
    if es == [] then s else Run(Step(s, zkEnabled, es[0]), zkEnabled, es[1..])
  }

  ghost predicate PossibleRun(s: State, zkEnabled: bool, es: seq<Event>)
    decreases |es|
  {
    es == [] || (Possible(s, es[0]) && PossibleRun(Step(s, zkEnabled, es[0]), zkEnabled, es[1..]))
  }

  lemma {:induction false} RunKeepsInv(s: State, zkEnabled: bool, es: seq<Event>)
    requires Inv(s) && PossibleRun(s, zkEnabled, es)
    ensures Inv(Run(s, zkEnabled, es))
    decreases |es|
  {
    if es != [] {
      StepKeepsInv(s, zkEnabled, es[0]);
      RunKeepsInv(Step(s, zkEnabled, es[0]), zkEnabled, es[1..]);
    }
  }

  /** What a step may do to a handle already issued. */
  ghost predicate Advances(s: State, s': State, h: Handle) {
    h in s.place && h in s'.place && (s'.place[h] == s.place[h] || (s.place[h].At? && !s'.place[h].At?))
  }

  lemma ResolveAdvances(s: State, slot: Slot, r: Reply, h: Handle)
    requires Placed(s) && h in s.place
    ensures Advances(s, Resolve(s, slot, r), h) && (s.place[h].At? ==> Resolve(s, slot, r).place[h] != Dropped)
  {
  }

  /** An insertion drops the handle it overwrites and no other. */
  lemma WaitAdvances(s: State, slot: Slot, h: Handle)
    requires Placed(s) && h in s.place
    ensures Advances(s, Vacate(s, slot), h)
    ensures s.place[h].At? ==> (Vacate(s, slot).place[h] == Dropped <==> s.place[h].slot == slot)
  {
    VacatePlaces(s, slot, h);
    if s.place[h].At? {
      assert HandleAt(s, s.place[h].slot) == Some(h);
    }
    if HandleAt(s, slot) == Some(h) {
      assert s.place[h] == At(slot);
    }
  }

  lemma VacatePlaces(s: State, slot: Slot, h: Handle)
    requires h in s.place
    ensures h in Vacate(s, slot).place
    ensures Vacate(s, slot).place[h] == if HandleAt(s, slot) == Some(h) then Dropped else s.place[h]
  {
  }

  lemma CellAdvances(s: State, c: CircuitId, cell: Cell, h: Handle)
    requires h in s.place
    requires HandleAt(s, InBuilds(c)) == Some(h) || HandleAt(s, InFetches(c)) == Some(h) ==> s.place[h].At?
    ensures Advances(s, OnRelayCell(s, c, cell), h) && (s.place[h].At? ==> OnRelayCell(s, c, cell).place[h] != Dropped)
  {
    match EffectOf(c, cell)
    case SettleBuild(r) => ResolvePlaces(s, InBuilds(c), r);
    case SettleFetch(r) => ResolvePlaces(s, InFetches(c), r);
    case _ =>
  }

  lemma ResolvePlaces(s: State, slot: Slot, r: Reply)
    ensures Resolve(s, slot, r).place ==
              if HandleAt(s, slot).Some? then s.place[HandleAt(s, slot).value := Answered(r)] else s.place
  {
  }

  lemma ResponseAdvances(s: State, id: RequestId, r: Response, h: Handle)
    requires Placed(s) && h in s.place
    ensures Advances(s, OnResponse(s, id, r), h) && (s.place[h].At? ==> OnResponse(s, id, r).place[h] != Dropped)
  {
    if id in s.requests {
      var p := s.requests[id];
      if p.Fragment? || p.Manifest? {
        ResolveAdvances(s, InRequests(id), ReplyFor(p, r), h);
      } else if p.RelayResponse? && r.RelayCell? {
        TakeEffect(s, InRequests(id), InBuilds(p.circuit));
        TakeEffect(s, InRequests(id), InFetches(p.circuit));
        CellAdvances(Take(s, InRequests(id)), p.circuit, r.cell, h);
      }
    }
  }

  lemma CleanupAdvances(s: State, h: Handle)
    requires Placed(s) && h in s.place
    ensures Advances(s, OnCleanupTick(s), h)
    ensures s.place[h].At? ==>
      (OnCleanupTick(s).place[h] == Dropped <==>
         h in s.gone && (s.place[h].slot.InRequests? || s.place[h].slot.InDht? || s.place[h].slot.InNames?))
  {
    ClosedAre(s, h);
  }

  /** Outcomes are final, and a waiting handle is dropped exactly by the events that discard it. */
  ghost predicate Fate(s: State, zkEnabled: bool, e: Event, h: Handle, s': State) {
    && Advances(s, s', h)
    && (s.place[h].At? ==> (s'.place[h] == Dropped <==> Discards(s, zkEnabled, e, s.place[h].slot, h)))
  }

  lemma FetchFate(s: State, zkEnabled: bool, e: Event, h: Handle)
    requires Possible(s, e) && h in s.place && (e.FetchFragment? || e.FetchManifest?)
    ensures Fate(s, zkEnabled, e, h, Step(s, zkEnabled, e))
  {
  }

  lemma LookupFate(s: State, zkEnabled: bool, e: Event, h: Handle)
    requires Placed(s) && Possible(s, e) && h in s.place && (e.FindProviders? || e.ResolveName?)
    ensures Fate(s, zkEnabled, e, h, Step(s, zkEnabled, e))
  {
    if e.FindProviders? {
      WaitAdvances(s, InDht(e.cid), h);
    } else {
      WaitAdvances(s, InNames(e.name), h);
    }
  }

  lemma BuildFate(s: State, zkEnabled: bool, e: Event, h: Handle)
    requires Placed(s) && Possible(s, e) && h in s.place && e.BuildCircuit?
    ensures Fate(s, zkEnabled, e, h, Step(s, zkEnabled, e))
  {
    if e.built.Started? {
      WaitAdvances(s, InBuilds(e.built.circuit), h);
    }
  }

  lemma CircuitFetchFate(s: State, zkEnabled: bool, e: Event, h: Handle)
    requires Placed(s) && Possible(s, e) && h in s.place && e.FetchViaCircuit?
    ensures Fate(s, zkEnabled, e, h, Step(s, zkEnabled, e))
  {
    WaitAdvances(s, InFetches(e.circuit), h);
  }

  lemma StepFate(s: State, zkEnabled: bool, e: Event, h: Handle)
    requires Inv(s) && Possible(s, e) && h in s.place
    ensures Fate(s, zkEnabled, e, h, Step(s, zkEnabled, e))
  {
    match e
    case FetchFragment(_, _, _, _) => FetchFate(s, zkEnabled, e, h);
    case FetchManifest(_, _, _, _) => FetchFate(s, zkEnabled, e, h);
    case FindProviders(_, _) => LookupFate(s, zkEnabled, e, h);
    case ResolveName(_, _) => LookupFate(s, zkEnabled, e, h);
    case BuildCircuit(_, _, _) => BuildFate(s, zkEnabled, e, h);
    case FetchViaCircuit(_, _, _) => CircuitFetchFate(s, zkEnabled, e, h);
    case ResponseArrived(id, r) => ResponseAdvances(s, id, r, h);
    case OutboundFailure(_) => SettlementFate(s, zkEnabled, e, h);
    case NameLookupDone(_, _, _) => SettlementFate(s, zkEnabled, e, h);
    case ProviderLookupDone(_, _) => SettlementFate(s, zkEnabled, e, h);
    case CleanupTick => CleanupAdvances(s, h);
    case _ =>
  }

  lemma SettlementFate(s: State, zkEnabled: bool, e: Event, h: Handle)
    requires Placed(s) && h in s.place && (e.OutboundFailure? || e.NameLookupDone? || e.ProviderLookupDone?)
    ensures Fate(s, zkEnabled, e, h, Step(s, zkEnabled, e))
  {
    match e
    case OutboundFailure(id) => ResolveAdvances(s, InRequests(id), Failed(ConnectionFailed), h);
    case NameLookupDone(_, record, matching) =>
      if matching.Some? {
        ResolveAdvances(s, InNames(matching.value), NameRecord(record), h);
      }
    case ProviderLookupDone(cid, found) =>
      ResolveAdvances(s, InDht(cid), if found.Some? then Providers(found.value) else Failed(NotFound), h);
  }

  /** An answered or dropped handle stays so for good: no run revises an outcome or replies again. */
  lemma {:induction false} OutcomesAreFinal(s: State, zkEnabled: bool, es: seq<Event>, h: Handle)
    requires Inv(s) && PossibleRun(s, zkEnabled, es) && h in s.place && !s.place[h].At?
    ensures h in Run(s, zkEnabled, es).place && Run(s, zkEnabled, es).place[h] == s.place[h]
    decreases |es|
  {
    if es != [] {
      StepKeepsInv(s, zkEnabled, es[0]);
      StepFate(s, zkEnabled, es[0], h);
      OutcomesAreFinal(Step(s, zkEnabled, es[0]), zkEnabled, es[1..], h);
    }
  }

  // ── Fetches are always answered ──────────────────────────────────

  /** The one reply a tracked fragment or manifest request draws from a response or a failure. */
  function Outcome(p: PendingReply, e: Event): Reply {
    if e.ResponseArrived? then ReplyFor(p, e.response) else Failed(ConnectionFailed)
  }

  /** Any response or failure for a tracked fragment or manifest request frees its slot and answers its
      caller, once. */
  lemma FetchIsAnswered(s: State, zkEnabled: bool, e: Event, id: RequestId)
    requires HandleAt(s, InRequests(id)).Some?
    requires e == OutboundFailure(id) || (e.ResponseArrived? && e.id == id)
    ensures var s' := Step(s, zkEnabled, e);
            var p := s.requests[id];
            && s'.requests == s.requests - {id}
            && s'.place == s.place[p.reply := Answered(Outcome(p, e))]
            && s'.log == s.log + [(p.reply, Outcome(p, e))]
  {
    assert Step(s, zkEnabled, e) == Answer(Take(s, InRequests(id)), s.requests[id].reply, Outcome(s.requests[id], e));
  }

  /** The events that discard a waiting handle: a command overwriting its slot, or a cleanup tick that
      finds its receiver gone in one of the first three maps. */
  predicate Discards(s: State, zkEnabled: bool, e: Event, slot: Slot, h: Handle) {
    match e
    case FindProviders(cid, _) => slot == InDht(cid)
    case ResolveName(name, _) => slot == InNames(name)
    case BuildCircuit(peers, _, built) => zkEnabled && |peers| >= 2 && built.Started? && slot == InBuilds(built.circuit)
    case FetchViaCircuit(c, _, wrapped) => zkEnabled && wrapped.Wrapped? && slot == InFetches(c)
    case CleanupTick => h in s.gone && (slot.InRequests? || slot.InDht? || slot.InNames?)
    case _ => false
  }

  /** No waiting handle is discarded without a reply otherwise. */
  lemma {:induction false} DroppedExactlyWhen(s: State, zkEnabled: bool, e: Event, h: Handle)
    requires Inv(s) && Possible(s, e) && h in s.place && s.place[h].At?
    ensures h in Step(s, zkEnabled, e).place
    ensures Step(s, zkEnabled, e).place[h] == Dropped <==> Discards(s, zkEnabled, e, s.place[h].slot, h)
  {
    StepFate(s, zkEnabled, e, h);
  }

  // ── Every handle a command brings ────────────────────────────────

  ghost predicate Waiting(s: State, h: Handle) {
    exists slot :: HandleAt(s, slot) == Some(h)
  }

  ghost predicate Replied(s: State, h: Handle) {
    exists i :: 0 <= i < |s.log| && s.log[i].0 == h
  }

  ghost predicate IssuedIn(es: seq<Event>, h: Handle) {
    exists i :: 0 <= i < |es| && NewHandle(es[i]) == Some(h)
  }

  /** Some event of the run discards the handle where it waits. */
  ghost predicate DiscardedIn(s: State, zkEnabled: bool, es: seq<Event>, h: Handle)
    decreases |es|
  {
    es != [] &&
    ((exists slot :: HandleAt(s, slot) == Some(h) && Discards(s, zkEnabled, es[0], slot, h))
     || DiscardedIn(Step(s, zkEnabled, es[0]), zkEnabled, es[1..], h))
  }

  lemma ResolveKeepsIssued(s: State, slot: Slot, r: Reply)
    requires Placed(s)
    ensures Resolve(s, slot, r).place.Keys == s.place.Keys && Resolve(s, slot, r).wanted == s.wanted
  {
  }

  lemma VacateKeepsIssued(s: State, slot: Slot)
    ensures Vacate(s, slot).place.Keys == s.place.Keys && Vacate(s, slot).wanted == s.wanted
  {
  }

  lemma ResponseKeepsIssued(s: State, id: RequestId, r: Response)
    requires Placed(s)
    ensures OnResponse(s, id, r).place.Keys == s.place.Keys && OnResponse(s, id, r).wanted == s.wanted
  {
    if id in s.requests {
      var p, t := s.requests[id], Take(s, InRequests(id));
      if p.Fragment? || p.Manifest? {
        ResolveKeepsIssued(s, InRequests(id), ReplyFor(p, r));
      } else if p.RelayResponse? && r.RelayCell? {
        CellKeepsIssued(s, t, p.circuit, r.cell);
      }
    }
  }

  lemma CellKeepsIssued(s: State, t: State, c: CircuitId, cell: Cell)
    requires Placed(s) && t.builds == s.builds && t.fetches == s.fetches && t.place == s.place && t.wanted == s.wanted
    ensures OnRelayCell(t, c, cell).place.Keys == s.place.Keys && OnRelayCell(t, c, cell).wanted == s.wanted
  {
    assert HandleAt(t, InBuilds(c)) == HandleAt(s, InBuilds(c))
           && HandleAt(t, InFetches(c)) == HandleAt(s, InFetches(c));
    match EffectOf(c, cell)
    case SettleBuild(r) => ResolvePlaces(t, InBuilds(c), r);
    case SettleFetch(r) => ResolvePlaces(t, InFetches(c), r);
    case _ =>
  }

  lemma WaitIssues(s: State, zkEnabled: bool, e: Event)
    requires e.FindProviders? || e.ResolveName?
    ensures var t := Step(s, zkEnabled, e); t.place.Keys == s.place.Keys + {e.reply} && t.wanted == s.wanted
  {
    if e.FindProviders? {
      VacateKeepsIssued(s, InDht(e.cid));
    } else {
      VacateKeepsIssued(s, InNames(e.name));
    }
  }

  lemma BuildIssues(s: State, zkEnabled: bool, peers: seq<PeerId>, h: Handle, built: BuildOutcome)
    ensures var t := Step(s, zkEnabled, BuildCircuit(peers, h, built));
            t.place.Keys == s.place.Keys + {h} && t.wanted == s.wanted
  {
    if built.Started? {
      VacateKeepsIssued(s, InBuilds(built.circuit));
    }
  }

  lemma CircuitFetchIssues(s: State, zkEnabled: bool, c: CircuitId, h: Handle, wrapped: WrapOutcome)
    ensures var t := Step(s, zkEnabled, FetchViaCircuit(c, h, wrapped));
            t.place.Keys == s.place.Keys + {h} && t.wanted == s.wanted
  {
    VacateKeepsIssued(s, InFetches(c));
  }

  lemma SettlementIssues(s: State, zkEnabled: bool, e: Event)
    requires Placed(s) && (e.OutboundFailure? || e.NameLookupDone? || e.ProviderLookupDone?)
    ensures Step(s, zkEnabled, e).place.Keys == s.place.Keys && Step(s, zkEnabled, e).wanted == s.wanted
  {
    match e
    case OutboundFailure(id) => ResolveKeepsIssued(s, InRequests(id), Failed(ConnectionFailed));
    case NameLookupDone(_, record, matching) =>
      if matching.Some? { ResolveKeepsIssued(s, InNames(matching.value), NameRecord(record)); }
    case ProviderLookupDone(cid, found) =>
      ResolveKeepsIssued(s, InDht(cid), if found.Some? then Providers(found.value) else Failed(NotFound));
  }

  /** The step from `s` to `t` issues the handle that `e` brings, and no other, and remembers what it asks for. */
  ghost predicate Issues(s: State, e: Event, t: State) {
    && t.place.Keys == (if NewHandle(e).Some? then s.place.Keys + {NewHandle(e).value} else s.place.Keys)
    && t.wanted == if e.FetchFragment? then s.wanted[e.reply := e.fragmentHash] else s.wanted
  }

  lemma FetchIssues(s: State, zkEnabled: bool, e: Event)
    requires e.FetchFragment? || e.FetchManifest?
    ensures Issues(s, e, Step(s, zkEnabled, e))
  {
    match e
    case FetchFragment(peer, hash, h, blocked) =>
      var t := s.(wanted := s.wanted[h := hash]);
      RefusedOrTracked(t, Fragment(peer, hash, h), h);
    case FetchManifest(peer, _, h, blocked) => RefusedOrTracked(s, Manifest(peer, h), h);
  }

  lemma RefusedOrTracked(s: State, p: PendingReply, h: Handle)
    requires (p.Fragment? || p.Manifest?) && p.reply == h
    ensures Answer(s, h, Failed(ConnectionFailed)).place.Keys == s.place.Keys + {h}
    ensures Track(s, p).place.Keys == s.place.Keys + {h}
    ensures Answer(s, h, Failed(ConnectionFailed)).wanted == s.wanted == Track(s, p).wanted
  {
  }

  lemma OtherIssues(s: State, zkEnabled: bool, e: Event)
    requires e.SendRelayCell? || e.ForwardForPeer? || e.CleanupTick? || e.ReceiverDropped?
    ensures Issues(s, e, Step(s, zkEnabled, e))
  {
  }

  lemma StepIssues(s: State, zkEnabled: bool, e: Event)
    requires Placed(s)
    ensures Issues(s, e, Step(s, zkEnabled, e))
  {
    match e
    case FetchFragment(_, _, _, _) => FetchIssues(s, zkEnabled, e);
    case FetchManifest(_, _, _, _) => FetchIssues(s, zkEnabled, e);
    case FindProviders(_, _) => WaitIssues(s, zkEnabled, e);
    case ResolveName(_, _) => WaitIssues(s, zkEnabled, e);
    case BuildCircuit(peers, h, built) => BuildIssues(s, zkEnabled, peers, h, built);
    case FetchViaCircuit(c, h, wrapped) => CircuitFetchIssues(s, zkEnabled, c, h, wrapped);
    case ResponseArrived(id, r) => ResponseKeepsIssued(s, id, r);
    case OutboundFailure(_) => SettlementIssues(s, zkEnabled, e);
    case NameLookupDone(_, _, _) => SettlementIssues(s, zkEnabled, e);
    case ProviderLookupDone(_, _) => SettlementIssues(s, zkEnabled, e);
    case _ => OtherIssues(s, zkEnabled, e);
  }

  /** The handles on record after a run are those of the commands in it. */
  lemma {:induction false} RunIssues(s: State, zkEnabled: bool, es: seq<Event>, h: Handle)
    requires Inv(s) && PossibleRun(s, zkEnabled, es)
    ensures h in Run(s, zkEnabled, es).place <==> h in s.place || IssuedIn(es, h)
    decreases |es|
  {
    if es != [] {
      StepIssues(s, zkEnabled, es[0]);
      StepKeepsInv(s, zkEnabled, es[0]);
      RunIssues(Step(s, zkEnabled, es[0]), zkEnabled, es[1..], h);
      if IssuedIn(es[1..], h) {
        var i :| 0 <= i < |es[1..]| && NewHandle(es[1..][i]) == Some(h);
        assert NewHandle(es[i + 1]) == Some(h);
      }
      if IssuedIn(es, h) && NewHandle(es[0]) != Some(h) {
        var i :| 0 <= i < |es| && NewHandle(es[i]) == Some(h);
        assert NewHandle(es[1..][i - 1]) == Some(h);
      }
    }
  }

  /** What a fragment command asks for stays on record. */
  lemma {:induction false} RunRemembersWanted(s: State, zkEnabled: bool, es: seq<Event>, k: nat)
    requires Inv(s) && PossibleRun(s, zkEnabled, es) && k < |es| && es[k].FetchFragment?
    ensures var w := Run(s, zkEnabled, es).wanted; es[k].reply in w && w[es[k].reply] == es[k].fragmentHash
    decreases |es|
  {
    var t := Step(s, zkEnabled, es[0]);
    StepIssues(s, zkEnabled, es[0]);
    StepKeepsInv(s, zkEnabled, es[0]);
    if k == 0 {
      WantedStays(t, zkEnabled, es[1..], es[0].reply);
    } else {
      RunRemembersWanted(t, zkEnabled, es[1..], k - 1);
    }
  }

  lemma {:induction false} WantedStays(s: State, zkEnabled: bool, es: seq<Event>, h: Handle)
    requires Inv(s) && PossibleRun(s, zkEnabled, es) && h in s.wanted
    ensures var w := Run(s, zkEnabled, es).wanted; h in w && w[h] == s.wanted[h]
    decreases |es|
  {
    if es != [] {
      StepIssues(s, zkEnabled, es[0]);
      StepKeepsInv(s, zkEnabled, es[0]);
      WantedStays(Step(s, zkEnabled, es[0]), zkEnabled, es[1..], h);
    }
  }

  /** A handle ends up dropped exactly when an event of the run discards it. */
  lemma {:induction false} DroppedExactlyWhenDiscarded(s: State, zkEnabled: bool, es: seq<Event>, h: Handle)
    requires Inv(s) && PossibleRun(s, zkEnabled, es) && (h in s.place ==> s.place[h] != Dropped)
    ensures var t := Run(s, zkEnabled, es);
            h in t.place && t.place[h] == Dropped <==> DiscardedIn(s, zkEnabled, es, h)
    decreases |es|
  {
    if es != [] {
      var e, t := es[0], Step(s, zkEnabled, es[0]);
      StepKeepsInv(s, zkEnabled, e);
      assert forall slot :: HandleAt(s, slot) == Some(h) ==> h in s.place && s.place[h] == At(slot);
      if h in s.place {
        StepFate(s, zkEnabled, e, h);
        if s.place[h].At? {
          assert HandleAt(s, s.place[h].slot) == Some(h);
        }
      } else {
        NewIsNotDropped(s, zkEnabled, e, h);
      }
      if h in t.place && t.place[h] == Dropped {
        OutcomesAreFinal(t, zkEnabled, es[1..], h);
      } else {
        DroppedExactlyWhenDiscarded(t, zkEnabled, es[1..], h);
      }
    }
  }

  lemma NewIsNotDropped(s: State, zkEnabled: bool, e: Event, h: Handle)
    requires Placed(s) && Possible(s, e) && h !in s.place
    ensures var t := Step(s, zkEnabled, e); h in t.place ==> t.place[h] != Dropped
  {
    StepIssues(s, zkEnabled, e);
  }

  /** Over every interleaving of commands, responses, failures, DHT results, departures and cleanup ticks:
      a handle that some command brought waits in one slot, or was replied on once, or was discarded by
      an event, and never two of these; no other handle ever waits or is replied on. */
  lemma EveryHandleIsAccountedFor(zkEnabled: bool, es: seq<Event>, h: Handle)
    requires PossibleRun(INITIAL, zkEnabled, es)
    ensures var s := Run(INITIAL, zkEnabled, es);
            var waiting, replied, discarded := Waiting(s, h), Replied(s, h), DiscardedIn(INITIAL, zkEnabled, es, h);
            && (IssuedIn(es, h) <==> waiting || replied || discarded)
            && !(waiting && replied) && !(waiting && discarded) && !(replied && discarded)
            && (forall x, y :: HandleAt(s, x) == Some(h) && HandleAt(s, y) == Some(h) ==> x == y)
            && (forall i, j | 0 <= i < |s.log| && 0 <= j < |s.log| && s.log[i].0 == h && s.log[j].0 == h :: i == j)
  {
    var s := Run(INITIAL, zkEnabled, es);
    RunKeepsInv(INITIAL, zkEnabled, es);
    RunIssues(INITIAL, zkEnabled, es, h);
    DroppedExactlyWhenDiscarded(INITIAL, zkEnabled, es, h);
    PlaceIsVisible(s, h);
  }

  /** Where a handle is shows in the maps and the log. */
  lemma PlaceIsVisible(s: State, h: Handle)
    requires Inv(s)
    ensures Waiting(s, h) <==> h in s.place && s.place[h].At?
    ensures Replied(s, h) <==> h in s.place && s.place[h].Answered?
  {
    if h in s.place && s.place[h].At? {
      assert HandleAt(s, s.place[h].slot) == Some(h);
    }
    if h in s.place && s.place[h].Answered? {
      var i :| 0 <= i < |s.log| && s.log[i] == (h, s.place[h].answer);
      assert s.log[i].0 == h;
    }
  }

  /** Whatever the caller of a fragment command is told, `Ok` data hashes to the fragment the command names. */
  lemma FragmentDataIsVerified(zkEnabled: bool, es: seq<Event>, k: nat, i: nat)
    requires PossibleRun(INITIAL, zkEnabled, es) && k < |es| && es[k].FetchFragment?
    requires var log := Run(INITIAL, zkEnabled, es).log; i < |log| && log[i].0 == es[k].reply && log[i].1.Data?
    ensures Blake3(Run(INITIAL, zkEnabled, es).log[i].1.bytes) == es[k].fragmentHash
  {
    var s := Run(INITIAL, zkEnabled, es);
    RunKeepsInv(INITIAL, zkEnabled, es);
    RunRemembersWanted(INITIAL, zkEnabled, es, k);
    assert VerifiedAt(s, s.wanted[s.log[i].0], s.place[s.log[i].0]);
  }

  // ── Circuit builds are not ───────────────────────────────────────

  /** A build whose caller waits while no request that could bring its reply is tracked. */
  ghost predicate Stranded(s: State, c: CircuitId) {
    c in s.builds && forall id | id in s.requests :: !(s.requests[id].RelayResponse? && s.requests[id].circuit == c)
  }

  /** Commands that send a new tracked cell over circuit `c`, or replace its build. */
  predicate Revives(zkEnabled: bool, e: Event, c: CircuitId) {
    match e
    case BuildCircuit(peers, _, built) => zkEnabled && |peers| >= 2 && built == Started(c)
    case SendRelayCell(circuit, _) => zkEnabled && circuit == c
    case FetchViaCircuit(circuit, _, wrapped) => zkEnabled && wrapped.Wrapped? && circuit == c
    case _ => false
  }

  lemma ResponseKeepsStranded(s: State, id: RequestId, r: Response, c: CircuitId)
    requires Stranded(s, c)
    ensures Stranded(OnResponse(s, id, r), c) && OnResponse(s, id, r).builds[c] == s.builds[c]
  {
    if id in s.requests {
      var p, t := s.requests[id], Take(s, InRequests(id));
      assert t.builds == s.builds && t.requests == s.requests - {id};
      if p.Fragment? || p.Manifest? {
        ResolveElsewhere(s, InRequests(id), ReplyFor(p, r));
      } else if p.RelayResponse? && r.RelayCell? {
        CellLeavesRequests(t, p.circuit, r.cell);
        CellLeavesOtherBuilds(t, p.circuit, r.cell, c);
      } else if p.RelayForward? {
        TrackKeepsStranded(t, RelayForward(p.returnTo, p.returnTo, p.circuit), c);
      }
    }
  }

  lemma CommandKeepsStranded(s: State, zkEnabled: bool, e: Event, c: CircuitId)
    requires Stranded(s, c) && !Revives(zkEnabled, e, c)
    requires e.BuildCircuit? || e.FetchViaCircuit? || e.SendRelayCell? || e.ForwardForPeer?
    ensures Stranded(Step(s, zkEnabled, e), c) && Step(s, zkEnabled, e).builds[c] == s.builds[c]
  {
    match e
    case BuildCircuit(peers, h, built) => BuildKeepsStranded(s, zkEnabled, peers, h, built, c);
    case FetchViaCircuit(other, h, wrapped) => CircuitFetchKeepsStranded(s, zkEnabled, other, h, wrapped, c);
    case SendRelayCell(other, target) =>
      if zkEnabled {
        TrackKeepsStranded(s, RelayResponse(target, other), c);
      }
    case ForwardForPeer(to, from, other) => TrackKeepsStranded(s, RelayForward(to, from, other), c);
  }

  lemma BuildKeepsStranded(s: State, zkEnabled: bool, peers: seq<PeerId>, h: Handle, built: BuildOutcome, c: CircuitId)
    requires Stranded(s, c) && !Revives(zkEnabled, BuildCircuit(peers, h, built), c)
    ensures var t := Step(s, zkEnabled, BuildCircuit(peers, h, built)); Stranded(t, c) && t.builds[c] == s.builds[c]
  {
    if zkEnabled && |peers| >= 2 && built.Started? {
      var t := WaitBuild(s, built.circuit, CircuitBuild(0, |peers|, h));
      WaitKeepsOthers(s, InBuilds(built.circuit));
      assert t.requests == s.requests && t.builds == s.builds[built.circuit := CircuitBuild(0, |peers|, h)];
      TrackKeepsStranded(t, RelayResponse(peers[0], built.circuit), c);
    }
  }

  lemma CircuitFetchKeepsStranded(s: State, zkEnabled: bool, other: CircuitId, h: Handle, wrapped: WrapOutcome,
                                  c: CircuitId)
    requires Stranded(s, c) && !Revives(zkEnabled, FetchViaCircuit(other, h, wrapped), c)
    ensures var t := Step(s, zkEnabled, FetchViaCircuit(other, h, wrapped));
            Stranded(t, c) && t.builds[c] == s.builds[c]
  {
    if zkEnabled && wrapped.Wrapped? {
      var t := WaitFetch(s, other, h);
      WaitKeepsOthers(s, InFetches(other));
      assert t.requests == s.requests && t.builds == s.builds;
      TrackKeepsStranded(t, RelayResponse(wrapped.entry, other), c);
    }
  }

  lemma WaitKeepsOthers(s: State, slot: Slot)
    ensures Vacate(s, slot).requests == s.requests && Vacate(s, slot).builds == s.builds
  {
  }

  lemma TrackKeepsStranded(s: State, p: PendingReply, c: CircuitId)
    requires Stranded(s, c) && (p.RelayResponse? ==> p.circuit != c)
    ensures Stranded(Track(s, p), c) && Track(s, p).builds == s.builds
  {
  }

  lemma StrandedStays(s: State, zkEnabled: bool, e: Event, c: CircuitId)
    requires Stranded(s, c) && !Revives(zkEnabled, e, c)
    ensures Stranded(Step(s, zkEnabled, e), c) && Step(s, zkEnabled, e).builds[c] == s.builds[c]
  {
    if e.BuildCircuit? || e.FetchViaCircuit? || e.SendRelayCell? || e.ForwardForPeer? {
      CommandKeepsStranded(s, zkEnabled, e, c);
    } else if e.ResponseArrived? {
      ResponseKeepsStranded(s, e.id, e.response, c);
    } else if e.OutboundFailure? || e.NameLookupDone? || e.ProviderLookupDone? {
      LookupKeepsStranded(s, zkEnabled, e, c);
    } else {
      OtherKeepsStranded(s, zkEnabled, e, c);
    }
  }

  lemma OtherKeepsStranded(s: State, zkEnabled: bool, e: Event, c: CircuitId)
    requires Stranded(s, c)
    requires || e.FetchFragment? || e.FetchManifest? || e.FindProviders? || e.ResolveName? || e.CleanupTick?
             || e.ReceiverDropped?
    ensures Stranded(Step(s, zkEnabled, e), c) && Step(s, zkEnabled, e).builds[c] == s.builds[c]
  {
    match e
    case FetchFragment(peer, hash, h, _) =>
      TrackKeepsStranded(s.(wanted := s.wanted[h := hash]), Fragment(peer, hash, h), c);
    case FetchManifest(peer, _, h, _) => TrackKeepsStranded(s, Manifest(peer, h), c);
    case FindProviders(cid, _) => WaitKeepsOthers(s, InDht(cid));
    case ResolveName(name, _) => WaitKeepsOthers(s, InNames(name));
    case CleanupTick => assert OnCleanupTick(s).builds == s.builds;
    case _ =>
  }

  lemma LookupKeepsStranded(s: State, zkEnabled: bool, e: Event, c: CircuitId)
    requires Stranded(s, c) && (e.OutboundFailure? || e.NameLookupDone? || e.ProviderLookupDone?)
    ensures Stranded(Step(s, zkEnabled, e), c) && Step(s, zkEnabled, e).builds[c] == s.builds[c]
  {
    match e
    case OutboundFailure(id) => ResolveElsewhere(s, InRequests(id), Failed(ConnectionFailed));
    case NameLookupDone(_, record, matching) =>
      if matching.Some? { ResolveElsewhere(s, InNames(matching.value), NameRecord(record)); }
    case ProviderLookupDone(cid, found) =>
      ResolveElsewhere(s, InDht(cid), if found.Some? then Providers(found.value) else Failed(NotFound));
  }

  lemma ResolveElsewhere(s: State, slot: Slot, r: Reply)
    requires !slot.InBuilds?
    ensures Resolve(s, slot, r).builds == s.builds
    ensures forall id | id in Resolve(s, slot, r).requests ::
              id in s.requests && Resolve(s, slot, r).requests[id] == s.requests[id]
  {
    var t := Take(s, slot);
    assert t.builds == s.builds;
    assert slot.InRequests? || t.requests == s.requests;
    assert Resolve(s, slot, r) == if HandleAt(s, slot).Some? then Answer(t, HandleAt(s, slot).value, r) else s;
  }

  lemma ResolveBuildEffect(s: State, c: CircuitId, r: Reply)
    ensures Resolve(s, InBuilds(c), r).builds == s.builds - {c}
    ensures Resolve(s, InBuilds(c), r).requests == s.requests
  {
  }

  lemma ResolveFetchEffect(s: State, c: CircuitId, r: Reply)
    ensures Resolve(s, InFetches(c), r).builds == s.builds
    ensures Resolve(s, InFetches(c), r).requests == s.requests
  {
  }

  lemma CellLeavesRequests(s: State, c: CircuitId, cell: Cell)
    ensures OnRelayCell(s, c, cell).requests == s.requests
  {
    match EffectOf(c, cell)
    case SettleBuild(r) => ResolveBuildEffect(s, c, r);
    case SettleFetch(r) => ResolveFetchEffect(s, c, r);
    case _ =>
  }

  lemma CellLeavesOtherBuilds(s: State, c: CircuitId, cell: Cell, other: CircuitId)
    requires other in s.builds && c != other
    ensures other in OnRelayCell(s, c, cell).builds && OnRelayCell(s, c, cell).builds[other] == s.builds[other]
  {
    match EffectOf(c, cell)
    case SettleBuild(r) => ResolveBuildEffect(s, c, r);
    case SettleFetch(r) => ResolveFetchEffect(s, c, r);
    case _ =>
  }

  /** Without a further command for its circuit, a stranded caller waits through every run. */
  lemma {:induction false} StrandedForever(s: State, zkEnabled: bool, es: seq<Event>, c: CircuitId)
    requires Inv(s) && PossibleRun(s, zkEnabled, es) && Stranded(s, c)
    requires forall e | e in es :: !Revives(zkEnabled, e, c)
    ensures HandleAt(Run(s, zkEnabled, es), InBuilds(c)) == HandleAt(s, InBuilds(c))
    decreases |es|
  {
    if es != [] {
      StepKeepsInv(s, zkEnabled, es[0]);
      StrandedStays(s, zkEnabled, es[0], c);
      StrandedForever(Step(s, zkEnabled, es[0]), zkEnabled, es[1..], c);
    }
  }

  /** Everything but a cell that cannot be decoded and a CREATED cell that ends the build one way or the other. */
  predicate LeavesBuildWaiting(e: Event) {
    e.OutboundFailure? ||
    (e.ResponseArrived? &&
       (!e.response.RelayCell? || e.response.cell == Created(Extend) || e.response.cell.Relay?
        || e.response.cell.Padding? || e.response.cell.OtherCell?))
  }

  /** When the outcome of a circuit's only tracked request comes in, its build is settled or stranded. An
      error, a failed connection and a CREATED cell that asks to extend all strand it. */
  lemma OnlyResponseSettlesOrStrands(s: State, zkEnabled: bool, e: Event, id: RequestId, c: CircuitId)
    requires c in s.builds && id in s.requests && s.requests[id].RelayResponse? && s.requests[id].circuit == c
    requires forall k | k in s.requests && k != id :: !(s.requests[k].RelayResponse? && s.requests[k].circuit == c)
    requires e == OutboundFailure(id) || (e.ResponseArrived? && e.id == id)
    ensures var s' := Step(s, zkEnabled, e);
            if LeavesBuildWaiting(e) then Stranded(s', c) && HandleAt(s', InBuilds(c)) == HandleAt(s, InBuilds(c))
            else c !in s'.builds && s'.place[s.builds[c].reply].Answered?
  {
    assert HandleAt(s, InBuilds(c)) == Some(s.builds[c].reply);
  }

  // ── Nor are relayed fetches ──────────────────────────────────────

  predicate Carries(s: State, id: RequestId, c: CircuitId) {
    id in s.requests && s.requests[id].RelayResponse? && s.requests[id].circuit == c
  }

  /** A relayed fetch whose caller waits while no request that could bring its reply is tracked. */
  ghost predicate FetchStranded(s: State, c: CircuitId) {
    c in s.fetches && forall id :: !Carries(s, id, c)
  }

  /** From `s` to `t` the fetch over `c` stays, and no cell that could answer it is added. */
  ghost predicate FetchFixed(s: State, t: State, c: CircuitId) {
    && (c in s.fetches ==> c in t.fetches && t.fetches[c] == s.fetches[c])
    && forall id :: Carries(t, id, c) ==> Carries(s, id, c)
  }

  lemma TrackFixesFetch(s: State, p: PendingReply, c: CircuitId)
    requires !(p.RelayResponse? && p.circuit == c)
    ensures FetchFixed(s, Track(s, p), c)
  {
  }

  lemma TakeFixesFetch(s: State, slot: Slot, c: CircuitId)
    requires slot != InFetches(c)
    ensures FetchFixed(s, Take(s, slot), c)
  {
  }

  lemma AnswerFixesFetch(s: State, h: Handle, r: Reply, c: CircuitId)
    ensures FetchFixed(s, Answer(s, h, r), c)
  {
  }

  lemma ResolveFixesFetch(s: State, slot: Slot, r: Reply, c: CircuitId)
    requires slot != InFetches(c)
    ensures FetchFixed(s, Resolve(s, slot, r), c)
  {
    TakeFixesFetch(s, slot, c);
    match HandleAt(s, slot)
    case Some(h) => AnswerFixesFetch(Take(s, slot), h, r, c);
    case None =>
  }

  lemma VacateFixesFetch(s: State, slot: Slot)
    ensures Vacate(s, slot).fetches == s.fetches && Vacate(s, slot).requests == s.requests
  {
  }

  lemma CellFixesOtherFetches(s: State, other: CircuitId, cell: Cell, c: CircuitId)
    requires other != c
    ensures FetchFixed(s, OnRelayCell(s, other, cell), c)
  {
    match EffectOf(other, cell)
    case SettleBuild(r) => ResolveFixesFetch(s, InBuilds(other), r, c);
    case SettleFetch(r) => ResolveFixesFetch(s, InFetches(other), r, c);
    case _ =>
  }

  lemma ResponseFixesFetch(s: State, id: RequestId, r: Response, c: CircuitId)
    requires !Carries(s, id, c)
    ensures FetchFixed(s, OnResponse(s, id, r), c)
  {
    if id in s.requests {
      var p, t := s.requests[id], Take(s, InRequests(id));
      TakeFixesFetch(s, InRequests(id), c);
      if p.Fragment? || p.Manifest? {
        ResolveFixesFetch(s, InRequests(id), ReplyFor(p, r), c);
      } else if p.RelayResponse? {
        CellFixesOtherFetches(t, p.circuit, if r.RelayCell? then r.cell else Padding, c);
      } else {
        TrackFixesFetch(t, RelayForward(p.returnTo, p.returnTo, p.circuit), c);
      }
    }
  }

  lemma BuildFixesFetch(s: State, zkEnabled: bool, peers: seq<PeerId>, h: Handle, built: BuildOutcome, c: CircuitId)
    requires !Revives(zkEnabled, BuildCircuit(peers, h, built), c)
    ensures FetchFixed(s, Step(s, zkEnabled, BuildCircuit(peers, h, built)), c)
  {
    AnswerFixesFetch(s, h, Failed(RelayError), c);
    if zkEnabled && |peers| >= 2 && built.Started? {
      var v := WaitBuild(s, built.circuit, CircuitBuild(0, |peers|, h));
      VacateFixesFetch(s, InBuilds(built.circuit));
      assert v.fetches == s.fetches && v.requests == s.requests;
      TrackFixesFetch(v, RelayResponse(peers[0], built.circuit), c);
    }
  }

  lemma OtherFetchFixesFetch(s: State, zkEnabled: bool, other: CircuitId, h: Handle, wrapped: WrapOutcome, c: CircuitId)
    requires !Revives(zkEnabled, FetchViaCircuit(other, h, wrapped), c)
    ensures FetchFixed(s, Step(s, zkEnabled, FetchViaCircuit(other, h, wrapped)), c)
  {
    AnswerFixesFetch(s, h, Failed(RelayError), c);
    if zkEnabled && wrapped.Wrapped? {
      var v := WaitFetch(s, other, h);
      VacateFixesFetch(s, InFetches(other));
      assert v.fetches == s.fetches[other := h] && v.requests == s.requests;
      TrackFixesFetch(v, RelayResponse(wrapped.entry, other), c);
    }
  }

  lemma CommandFixesFetch(s: State, zkEnabled: bool, e: Event, c: CircuitId)
    requires !Revives(zkEnabled, e, c)
    requires NewHandle(e).Some? || e.SendRelayCell? || e.ForwardForPeer?
    ensures FetchFixed(s, Step(s, zkEnabled, e), c)
  {
    match e
    case FetchFragment(peer, hash, h, _) =>
      var t := s.(wanted := s.wanted[h := hash]);
      AnswerFixesFetch(t, h, Failed(ConnectionFailed), c);
      TrackFixesFetch(t, Fragment(peer, hash, h), c);
    case FetchManifest(peer, _, h, _) =>
      AnswerFixesFetch(s, h, Failed(ConnectionFailed), c);
      TrackFixesFetch(s, Manifest(peer, h), c);
    case FindProviders(cid, _) => VacateFixesFetch(s, InDht(cid));
    case ResolveName(name, _) => VacateFixesFetch(s, InNames(name));
    case BuildCircuit(peers, h, built) => BuildFixesFetch(s, zkEnabled, peers, h, built, c);
    case FetchViaCircuit(other, h, wrapped) => OtherFetchFixesFetch(s, zkEnabled, other, h, wrapped, c);
    case SendRelayCell(other, target) => if zkEnabled { TrackFixesFetch(s, RelayResponse(target, other), c); }
    case ForwardForPeer(to, from, other) => TrackFixesFetch(s, RelayForward(to, from, other), c);
  }

  lemma SettlementFixesFetch(s: State, zkEnabled: bool, e: Event, c: CircuitId)
    requires e.OutboundFailure? || e.NameLookupDone? || e.ProviderLookupDone?
    ensures FetchFixed(s, Step(s, zkEnabled, e), c)
  {
    match e
    case OutboundFailure(id) =>
      ResolveFixesFetch(s, InRequests(id), Failed(ConnectionFailed), c);
      TakeFixesFetch(s, InRequests(id), c);
    case NameLookupDone(_, record, matching) =>
      if matching.Some? { ResolveFixesFetch(s, InNames(matching.value), NameRecord(record), c); }
    case ProviderLookupDone(cid, found) =>
      ResolveFixesFetch(s, InDht(cid), if found.Some? then Providers(found.value) else Failed(NotFound), c);
  }

  lemma StrandedFetchStays(s: State, zkEnabled: bool, e: Event, c: CircuitId)
    requires FetchStranded(s, c) && !Revives(zkEnabled, e, c)
    ensures FetchStranded(Step(s, zkEnabled, e), c) && Step(s, zkEnabled, e).fetches[c] == s.fetches[c]
  {
    if NewHandle(e).Some? || e.SendRelayCell? || e.ForwardForPeer? {
      CommandFixesFetch(s, zkEnabled, e, c);
    } else if e.OutboundFailure? || e.NameLookupDone? || e.ProviderLookupDone? {
      SettlementFixesFetch(s, zkEnabled, e, c);
    } else if e.ResponseArrived? {
      ResponseFixesFetch(s, e.id, e.response, c);
    } else {
      TickFixesFetch(s, zkEnabled, e, c);
    }
  }

  lemma TickFixesFetch(s: State, zkEnabled: bool, e: Event, c: CircuitId)
    requires e.CleanupTick? || e.ReceiverDropped?
    ensures FetchFixed(s, Step(s, zkEnabled, e), c)
  {
  }

  /** Without a further command for its circuit, the caller of a stranded fetch waits through every run. */
  lemma {:induction false} StrandedFetchForever(s: State, zkEnabled: bool, es: seq<Event>, c: CircuitId)
    requires FetchStranded(s, c) && forall e | e in es :: !Revives(zkEnabled, e, c)
    ensures HandleAt(Run(s, zkEnabled, es), InFetches(c)) == HandleAt(s, InFetches(c))
    decreases |es|
  {
    if es != [] {
      StrandedFetchStays(s, zkEnabled, es[0], c);
      StrandedFetchForever(Step(s, zkEnabled, es[0]), zkEnabled, es[1..], c);
    }
  }

  /** Everything but a relayed answer. */
  predicate LeavesFetchWaiting(e: Event) {
    e.OutboundFailure? || (e.ResponseArrived? && !(e.response.RelayCell? && e.response.cell.Relay?))
  }

  /** When the outcome of a circuit's only tracked request comes in, its fetch is settled or stranded. An error
      response, a failed connection and every cell that relays nothing strand it. */
  lemma OnlyResponseSettlesOrStrandsFetch(s: State, zkEnabled: bool, e: Event, id: RequestId, c: CircuitId)
    requires c in s.fetches && Carries(s, id, c) && forall k :: Carries(s, k, c) ==> k == id
    requires e == OutboundFailure(id) || (e.ResponseArrived? && e.id == id)
    ensures var s' := Step(s, zkEnabled, e);
            if LeavesFetchWaiting(e) then FetchStranded(s', c)
              && HandleAt(s', InFetches(c)) == HandleAt(s, InFetches(c))
            else c !in s'.fetches && s.fetches[c] in s'.place && s'.place[s.fetches[c]].Answered?
  {
    var t := Take(s, InRequests(id));
    assert t.fetches == s.fetches && t.requests == s.requests - {id};
    assert FetchStranded(t, c) by {
      forall k ensures !Carries(t, k, c) { assert Carries(s, k, c) ==> k == id; }
    }
    assert HandleAt(s, InRequests(id)).None?;
    if e.ResponseArrived? && e.response.RelayCell? {
      assert Step(s, zkEnabled, e) == OnRelayCell(t, c, e.response.cell);
      CellSettlesFetch(t, c, e.response.cell);
    }
  }

  lemma CellSettlesFetch(s: State, c: CircuitId, cell: Cell)
    requires FetchStranded(s, c)
    ensures var t := OnRelayCell(s, c, cell);
            if cell.Relay? then c !in t.fetches && s.fetches[c] in t.place && t.place[s.fetches[c]].Answered?
            else FetchStranded(t, c) && HandleAt(t, InFetches(c)) == HandleAt(s, InFetches(c))
  {
    match EffectOf(c, cell)
    case SettleFetch(r) => ResolveSettlesFetch(s, c, r);
    case _ =>
      NonRelayCellFixesFetch(s, c, cell);
      StrandedStaysFixed(s, OnRelayCell(s, c, cell), c);
  }

  lemma ResolveSettlesFetch(s: State, c: CircuitId, r: Reply)
    requires c in s.fetches
    ensures var t := Resolve(s, InFetches(c), r);
            c !in t.fetches && s.fetches[c] in t.place && t.place[s.fetches[c]] == Answered(r)
  {
    ResolvePlaces(s, InFetches(c), r);
  }

  lemma StrandedStaysFixed(s: State, t: State, c: CircuitId)
    requires FetchStranded(s, c) && FetchFixed(s, t, c)
    ensures FetchStranded(t, c) && HandleAt(t, InFetches(c)) == HandleAt(s, InFetches(c))
  {
  }

  lemma NonRelayCellFixesFetch(s: State, c: CircuitId, cell: Cell)
    requires !cell.Relay?
    ensures FetchFixed(s, OnRelayCell(s, c, cell), c)
  {
    match EffectOf(c, cell)
    case SettleBuild(r) => ResolveFixesFetch(s, InBuilds(c), r, c);
    case _ =>
  }

  // ── No build completes ───────────────────────────────────────────

  /** A build of two hops or more that waits for its first cell, or for none. */
  ghost predicate Unfinished(s: State, c: CircuitId) {
    && c in s.builds && s.builds[c].totalHops >= 2
    && ((s.builds[c].nextHop == 0 && forall i, j :: Carries(s, i, c) && Carries(s, j, c) ==> i == j)
        || forall i :: !Carries(s, i, c))
  }

  ghost predicate NoneReady(s: State) {
    forall i :: 0 <= i < |s.log| ==> !s.log[i].1.CircuitReady?
  }

  ghost predicate AllUnfinished(s: State) {
    NoneReady(s) && forall c | c in s.builds :: Unfinished(s, c)
  }

  /** Circuit numbers are new, cells over a circuit go out only once it is built, and the client calls a
      circuit complete only at its last hop. */
  ghost predicate Regular(s: State, e: Event) {
    match e
    case BuildCircuit(_, _, Started(c)) => c !in s.builds && forall id :: !Carries(s, id, c)
    case SendRelayCell(c, _) => c !in s.builds
    case FetchViaCircuit(c, _, _) => c !in s.builds
    case ResponseArrived(id, RelayCell(_, Created(Complete))) =>
      forall c | c in s.builds && Carries(s, id, c) :: s.builds[c].nextHop + 1 >= s.builds[c].totalHops
    case _ => true
  }

  /** From `s` to `t` no build is added or changed, and no cell that one waits for. */
  ghost predicate BuildsShrink(s: State, t: State) {
    && (forall c | c in t.builds :: c in s.builds && t.builds[c] == s.builds[c])
    && (forall id, c :: c in t.builds && Carries(t, id, c) ==> Carries(s, id, c))
  }

  lemma ShrinkingKeepsUnfinished(s: State, t: State)
    requires AllUnfinished(s) && BuildsShrink(s, t) && NoneReady(t)
    ensures AllUnfinished(t)
  {
    forall c | c in t.builds
      ensures Unfinished(t, c)
    {
      assert Unfinished(s, c);
    }
  }

  lemma AnswerNotReady(s: State, h: Handle, r: Reply)
    requires NoneReady(s) && !r.CircuitReady?
    ensures NoneReady(Answer(s, h, r))
  {
  }

  lemma TakeShrinks(s: State, slot: Slot)
    ensures Take(s, slot).log == s.log && BuildsShrink(s, Take(s, slot))
  {
  }

  lemma ResolveNotReady(s: State, slot: Slot, r: Reply)
    requires NoneReady(s) && !r.CircuitReady?
    ensures NoneReady(Resolve(s, slot, r))
    ensures BuildsShrink(s, Resolve(s, slot, r))
  {
    TakeShrinks(s, slot);
    match HandleAt(s, slot)
    case Some(h) =>
      var t := Take(s, slot);
      AnswerNotReady(t, h, r);
      AnswerShrinks(s, t, Resolve(s, slot, r), h, r);
    case None =>
  }

  lemma AnswerShrinks(s: State, t: State, u: State, h: Handle, r: Reply)
    requires BuildsShrink(s, t) && u == Answer(t, h, r)
    ensures BuildsShrink(s, u)
  {
    assert u.builds == t.builds && u.requests == t.requests;
  }

  lemma TrackShrinks(s: State, p: PendingReply)
    requires p.RelayResponse? ==> p.circuit !in s.builds
    ensures BuildsShrink(s, Track(s, p)) && Track(s, p).log == s.log
  {
  }

  lemma VacateShrinks(s: State, slot: Slot)
    ensures Vacate(s, slot).builds == s.builds && Vacate(s, slot).requests == s.requests && Vacate(s, slot).log == s.log
  {
  }

  lemma StartedIsUnfinished(s: State, peers: seq<PeerId>, h: Handle, c: CircuitId)
    requires AllUnfinished(s) && |peers| >= 2 && c !in s.builds && forall id :: !Carries(s, id, c)
    ensures AllUnfinished(Track(WaitBuild(s, c, CircuitBuild(0, |peers|, h)), RelayResponse(peers[0], c)))
  {
    var v := WaitBuild(s, c, CircuitBuild(0, |peers|, h));
    VacateShrinks(s, InBuilds(c));
    assert v.builds == s.builds[c := CircuitBuild(0, |peers|, h)] && v.requests == s.requests && v.log == s.log;
    var t := Track(v, RelayResponse(peers[0], c));
    assert t.builds == v.builds && t.log == v.log;
    assert t.requests == s.requests[v.nextRequest := RelayResponse(peers[0], c)];
    forall d | d in t.builds
      ensures Unfinished(t, d)
    {
      if d != c {
        assert Unfinished(s, d);
        assert forall id :: Carries(t, id, d) ==> Carries(s, id, d);
      } else {
        forall id | Carries(t, id, c)
          ensures id == v.nextRequest
        {
          assert !Carries(s, id, c);
        }
      }
    }
  }

  lemma FetchKeepsUnfinished(s: State, zkEnabled: bool, e: Event)
    requires AllUnfinished(s) && (e.FetchFragment? || e.FetchManifest?)
    ensures AllUnfinished(Step(s, zkEnabled, e))
  {
    match e
    case FetchFragment(peer, hash, h, _) =>
      var t := s.(wanted := s.wanted[h := hash]);
      AnswerNotReady(t, h, Failed(ConnectionFailed));
      TrackShrinks(t, Fragment(peer, hash, h));
      ShrinkingKeepsUnfinished(s, Step(s, zkEnabled, e));
    case FetchManifest(peer, _, h, _) =>
      AnswerNotReady(s, h, Failed(ConnectionFailed));
      TrackShrinks(s, Manifest(peer, h));
      ShrinkingKeepsUnfinished(s, Step(s, zkEnabled, e));
  }

  lemma LookupKeepsUnfinished(s: State, zkEnabled: bool, e: Event)
    requires AllUnfinished(s) && (e.FindProviders? || e.ResolveName?)
    ensures AllUnfinished(Step(s, zkEnabled, e))
  {
    VacateShrinks(s, if e.FindProviders? then InDht(e.cid) else InNames(e.name));
    ShrinkingKeepsUnfinished(s, Step(s, zkEnabled, e));
  }

  lemma CommandKeepsUnfinished(s: State, zkEnabled: bool, e: Event)
    requires AllUnfinished(s) && Regular(s, e)
    requires NewHandle(e).Some? || e.SendRelayCell? || e.ForwardForPeer?
    ensures AllUnfinished(Step(s, zkEnabled, e))
  {
    match e
    case FetchFragment(_, _, _, _) => FetchKeepsUnfinished(s, zkEnabled, e);
    case FetchManifest(_, _, _, _) => FetchKeepsUnfinished(s, zkEnabled, e);
    case FindProviders(_, _) => LookupKeepsUnfinished(s, zkEnabled, e);
    case ResolveName(_, _) => LookupKeepsUnfinished(s, zkEnabled, e);
    case BuildCircuit(peers, h, built) =>
      if zkEnabled && |peers| >= 2 && built.Started? {
        StartedIsUnfinished(s, peers, h, built.circuit);
      } else {
        AnswerNotReady(s, h, Failed(RelayError));
        ShrinkingKeepsUnfinished(s, Step(s, zkEnabled, e));
      }
    case SendRelayCell(c, target) =>
      TrackShrinks(s, RelayResponse(target, c));
      ShrinkingKeepsUnfinished(s, Step(s, zkEnabled, e));
    case FetchViaCircuit(c, h, wrapped) => CircuitFetchKeepsUnfinished(s, zkEnabled, c, h, wrapped);
    case ForwardForPeer(to, from, c) =>
      TrackShrinks(s, RelayForward(to, from, c));
      ShrinkingKeepsUnfinished(s, Step(s, zkEnabled, e));
  }

  lemma CircuitFetchKeepsUnfinished(s: State, zkEnabled: bool, c: CircuitId, h: Handle, wrapped: WrapOutcome)
    requires AllUnfinished(s) && c !in s.builds
    ensures AllUnfinished(Step(s, zkEnabled, FetchViaCircuit(c, h, wrapped)))
  {
    AnswerNotReady(s, h, Failed(RelayError));
    if wrapped.Wrapped? {
      var v := WaitFetch(s, c, h);
      VacateShrinks(s, InFetches(c));
      assert v.builds == s.builds && v.requests == s.requests && v.log == s.log;
      TrackShrinks(v, RelayResponse(wrapped.entry, c));
      assert BuildsShrink(s, Track(v, RelayResponse(wrapped.entry, c)));
    }
    ShrinkingKeepsUnfinished(s, Step(s, zkEnabled, FetchViaCircuit(c, h, wrapped)));
  }

  /** A hop to extend leaves the build waiting for no cell at all. */
  lemma ExtendLeavesUnfinished(s: State, id: RequestId, c: CircuitId)
    requires AllUnfinished(s) && Carries(s, id, c)
    ensures AllUnfinished(Extended(Take(s, InRequests(id)), c))
  {
    var t := Take(s, InRequests(id));
    assert t.builds == s.builds && t.requests == s.requests - {id} && t.log == s.log;
    var u := Extended(t, c);
    forall d | d in u.builds
      ensures Unfinished(u, d)
    {
      assert Unfinished(s, d);
      assert forall k :: Carries(u, k, d) ==> k != id && Carries(s, k, d);
    }
  }

  lemma ResponseKeepsUnfinished(s: State, id: RequestId, r: Response)
    requires AllUnfinished(s) && Regular(s, ResponseArrived(id, r))
    ensures AllUnfinished(OnResponse(s, id, r))
  {
    if id in s.requests {
      var p, t := s.requests[id], Take(s, InRequests(id));
      assert BuildsShrink(s, t) && t.log == s.log && t.builds == s.builds;
      ShrinkingKeepsUnfinished(s, t);
      if p.Fragment? || p.Manifest? {
        ResolveNotReady(s, InRequests(id), ReplyFor(p, r));
        ShrinkingKeepsUnfinished(s, OnResponse(s, id, r));
      } else if p.RelayForward? {
        TrackShrinks(t, RelayForward(p.returnTo, p.returnTo, p.circuit));
        ShrinkingKeepsUnfinished(t, Track(t, RelayForward(p.returnTo, p.returnTo, p.circuit)));
      } else if r.RelayCell? {
        CellKeepsUnfinished(s, t, id, p.circuit, r.cell);
      }
    }
  }

  lemma CellKeepsUnfinished(s: State, t: State, id: RequestId, c: CircuitId, cell: Cell)
    requires AllUnfinished(s) && AllUnfinished(t) && Carries(s, id, c) && t == Take(s, InRequests(id))
    requires cell == Created(Complete) && c in s.builds ==> s.builds[c].nextHop + 1 >= s.builds[c].totalHops
    ensures AllUnfinished(OnRelayCell(t, c, cell))
  {
    assert t.builds == s.builds;
    match EffectOf(c, cell)
    case SettleBuild(r) =>
      if c in s.builds {
        assert Unfinished(s, c);
        ResolveNotReady(t, InBuilds(c), r);
        ShrinkingKeepsUnfinished(t, Resolve(t, InBuilds(c), r));
      }
    case ExtendBuild => ExtendLeavesUnfinished(s, id, c);
    case SettleFetch(r) =>
      ResolveNotReady(t, InFetches(c), r);
      ShrinkingKeepsUnfinished(t, Resolve(t, InFetches(c), r));
    case NoEffect =>
  }

  lemma SettlementKeepsUnfinished(s: State, zkEnabled: bool, e: Event)
    requires AllUnfinished(s) && (e.OutboundFailure? || e.NameLookupDone? || e.ProviderLookupDone?)
    ensures AllUnfinished(Step(s, zkEnabled, e))
  {
    match e
    case OutboundFailure(id) =>
      ResolveNotReady(s, InRequests(id), Failed(ConnectionFailed));
      var t := Take(s, InRequests(id));
      assert BuildsShrink(s, t) && t.log == s.log;
      ShrinkingKeepsUnfinished(s, Step(s, zkEnabled, e));
    case NameLookupDone(_, record, matching) =>
      if matching.Some? {
        ResolveNotReady(s, InNames(matching.value), NameRecord(record));
        ShrinkingKeepsUnfinished(s, Resolve(s, InNames(matching.value), NameRecord(record)));
      }
    case ProviderLookupDone(cid, found) =>
      var r := if found.Some? then Providers(found.value) else Failed(NotFound);
      ResolveNotReady(s, InDht(cid), r);
      ShrinkingKeepsUnfinished(s, Resolve(s, InDht(cid), r));
  }

  lemma StepKeepsUnfinished(s: State, zkEnabled: bool, e: Event)
    requires AllUnfinished(s) && Regular(s, e)
    ensures AllUnfinished(Step(s, zkEnabled, e))
  {
    if NewHandle(e).Some? || e.SendRelayCell? || e.ForwardForPeer? {
      CommandKeepsUnfinished(s, zkEnabled, e);
    } else if e.OutboundFailure? || e.NameLookupDone? || e.ProviderLookupDone? {
      SettlementKeepsUnfinished(s, zkEnabled, e);
    } else if e.ResponseArrived? {
      ResponseKeepsUnfinished(s, e.id, e.response);
    } else {
      ShrinkingKeepsUnfinished(s, Step(s, zkEnabled, e));
    }
  }

  ghost predicate RegularRun(s: State, zkEnabled: bool, es: seq<Event>)
    decreases |es|
  {
    es == [] || (Regular(s, es[0]) && RegularRun(Step(s, zkEnabled, es[0]), zkEnabled, es[1..]))
  }

  lemma {:induction false} RunKeepsUnfinished(s: State, zkEnabled: bool, es: seq<Event>)
    requires AllUnfinished(s) && RegularRun(s, zkEnabled, es)
    ensures AllUnfinished(Run(s, zkEnabled, es))
    decreases |es|
  {
    if es != [] {
      StepKeepsUnfinished(s, zkEnabled, es[0]);
      RunKeepsUnfinished(Step(s, zkEnabled, es[0]), zkEnabled, es[1..]);
    }
  }

  /** In no regular run is any caller ever told that its circuit is ready: every circuit has a second hop,
      and the cell that would report it is not tracked. */
  lemma NoBuildEverCompletes(zkEnabled: bool, es: seq<Event>, i: nat)
    requires RegularRun(INITIAL, zkEnabled, es) && i < |Run(INITIAL, zkEnabled, es).log|
    ensures !Run(INITIAL, zkEnabled, es).log[i].1.CircuitReady?
  {
    RunKeepsUnfinished(INITIAL, zkEnabled, es);
  }
}
