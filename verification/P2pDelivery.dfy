/** What callers of the event loop are told, in terms of the commands and the network events of a run alone
    (gateway/src/p2p.rs, gateway/src/p2p_resolver.rs). */
module P2pDelivery {
  import opened Common
  import opened Crypto
  import opened P2pEventLoop
  import F = Fragments
  import R = P2pResolver

  type Log = seq<(Handle, Reply)>

  /** The one message sent on channel `h` is `r`. */
  ghost predicate Told(log: Log, h: Handle, r: Reply) {
    && (exists i :: 0 <= i < |log| && log[i] == (h, r))
    && (forall i, j :: 0 <= i < |log| && 0 <= j < |log| && log[i].0 == h && log[j].0 == h ==> i == j)
  }

  lemma AnsweredIsTold(s: State, h: Handle, r: Reply)
    requires Inv(s) && h in s.place && s.place[h] == Answered(r)
    ensures Told(s.log, h, r)
  {
    var i :| 0 <= i < |s.log| && s.log[i] == (h, r);
  }

  /** Once answered, a caller has been told so at the end of the run. */
  lemma AnsweredStaysTold(s: State, zkEnabled: bool, es: seq<Event>, h: Handle, r: Reply)
    requires Inv(s) && PossibleRun(s, zkEnabled, es) && h in s.place && s.place[h] == Answered(r)
    ensures Told(Run(s, zkEnabled, es).log, h, r)
  {
    OutcomesAreFinal(s, zkEnabled, es, h);
    RunKeepsInv(s, zkEnabled, es);
    AnsweredIsTold(Run(s, zkEnabled, es), h, r);
  }

  // ── Fragments and manifests ──────────────────────────────────────

  /** The network reports on the request with this number. */
  predicate Reports(e: Event, id: RequestId) {
    e == OutboundFailure(id) || (e.ResponseArrived? && e.id == id)
  }

  ghost predicate NoneReports(es: seq<Event>, id: RequestId) { forall e | e in es :: !Reports(e, id) }

  /** From `s` on, event `j` is the first report on request `id`, and its caller stays. */
  ghost predicate ReportedAt(s: State, es: seq<Event>, j: nat, id: RequestId, h: Handle) {
    && j < |es| && Reports(es[j], id) && NoneReports(es[..j], id)
    && h !in s.gone && ReceiverDropped(h) !in es[..j]
  }

  /** From `s` to `t`, request `id` is kept, and no receiver leaves. */
  ghost predicate Kept(s: State, t: State, id: RequestId) {
    (id in s.requests ==> id in t.requests && t.requests[id] == s.requests[id]) && t.gone == s.gone
  }

  lemma ResolveKeeps(s: State, slot: Slot, r: Reply, id: RequestId)
    requires slot != InRequests(id)
    ensures Kept(s, Resolve(s, slot, r), id)
  {
  }

  lemma VacateKeeps(s: State, slot: Slot, id: RequestId)
    ensures Kept(s, Vacate(s, slot), id) && Vacate(s, slot).nextRequest == s.nextRequest
    ensures Vacate(s, slot).requests == s.requests
  {
  }

  lemma TrackKeeps(s: State, p: PendingReply, id: RequestId)
    requires id != s.nextRequest
    ensures Kept(s, Track(s, p), id)
  {
  }

  lemma CellKeeps(s: State, c: CircuitId, cell: Cell, id: RequestId)
    ensures Kept(s, OnRelayCell(s, c, cell), id)
  {
    match EffectOf(c, cell)
    case SettleBuild(r) => ResolveKeeps(s, InBuilds(c), r, id);
    case SettleFetch(r) => ResolveKeeps(s, InFetches(c), r, id);
    case _ =>
  }

  lemma ResponseKeeps(s: State, other: RequestId, r: Response, id: RequestId)
    requires other != id && id != s.nextRequest
    ensures Kept(s, OnResponse(s, other, r), id)
  {
    if other in s.requests {
      var p, t := s.requests[other], Take(s, InRequests(other));
      assert Kept(s, t, id);
      if p.Fragment? || p.Manifest? {
        ResolveKeeps(s, InRequests(other), ReplyFor(p, r), id);
      } else if p.RelayResponse? && r.RelayCell? {
        CellKeeps(t, p.circuit, r.cell, id);
      } else if p.RelayForward? {
        TrackKeeps(t, RelayForward(p.returnTo, p.returnTo, p.circuit), id);
      }
    }
  }

  lemma WaitKeeps(s: State, zkEnabled: bool, e: Event, id: RequestId)
    requires id != s.nextRequest && (e.FindProviders? || e.ResolveName? || e.BuildCircuit? || e.FetchViaCircuit?)
    ensures Kept(s, Step(s, zkEnabled, e), id)
  {
    match e
    case FindProviders(cid, h) => VacateKeeps(s, InDht(cid), id);
    case ResolveName(name, h) => VacateKeeps(s, InNames(name), id);
    case BuildCircuit(peers, h, built) =>
      if zkEnabled && |peers| >= 2 && built.Started? {
        VacateKeeps(s, InBuilds(built.circuit), id);
        var v := WaitBuild(s, built.circuit, CircuitBuild(0, |peers|, h));
        TrackKeeps(v, RelayResponse(peers[0], built.circuit), id);
      }
    case FetchViaCircuit(c, h, wrapped) =>
      if zkEnabled && wrapped.Wrapped? {
        VacateKeeps(s, InFetches(c), id);
        TrackKeeps(WaitFetch(s, c, h), RelayResponse(wrapped.entry, c), id);
      }
  }

  lemma FetchKeeps(s: State, zkEnabled: bool, e: Event, id: RequestId)
    requires id != s.nextRequest && (e.FetchFragment? || e.FetchManifest? || e.SendRelayCell? || e.ForwardForPeer?)
    ensures Kept(s, Step(s, zkEnabled, e), id)
  {
    match e
    case FetchFragment(peer, hash, h, _) => TrackKeeps(s.(wanted := s.wanted[h := hash]), Fragment(peer, hash, h), id);
    case FetchManifest(peer, _, h, _) => TrackKeeps(s, Manifest(peer, h), id);
    case SendRelayCell(c, target) => TrackKeeps(s, RelayResponse(target, c), id);
    case ForwardForPeer(to, from, c) => TrackKeeps(s, RelayForward(to, from, c), id);
  }

  lemma SettlementKeeps(s: State, zkEnabled: bool, e: Event, id: RequestId)
    requires e.OutboundFailure? || e.NameLookupDone? || e.ProviderLookupDone?
    requires !Reports(e, id)
    ensures Kept(s, Step(s, zkEnabled, e), id)
  {
    match e
    case OutboundFailure(other) => ResolveKeeps(s, InRequests(other), Failed(ConnectionFailed), id);
    case NameLookupDone(_, record, matching) =>
      if matching.Some? { ResolveKeeps(s, InNames(matching.value), NameRecord(record), id); }
    case ProviderLookupDone(cid, found) =>
      ResolveKeeps(s, InDht(cid), if found.Some? then Providers(found.value) else Failed(NotFound), id);
  }

  /** A tracked request stays as it is until something reports on it, unless its caller goes. */
  lemma RequestStays(s: State, zkEnabled: bool, e: Event, id: RequestId)
    requires Inv(s) && HandleAt(s, InRequests(id)).Some? && !Reports(e, id) && s.requests[id].reply !in s.gone
    ensures var t := Step(s, zkEnabled, e); id in t.requests && t.requests[id] == s.requests[id]
  {
    match e
    case CleanupTick =>
    case ReceiverDropped(_) =>
    case _ => OtherStepKeeps(s, zkEnabled, e, id);
  }

  lemma OtherStepKeeps(s: State, zkEnabled: bool, e: Event, id: RequestId)
    requires id != s.nextRequest && !Reports(e, id) && !e.CleanupTick? && !e.ReceiverDropped?
    ensures Kept(s, Step(s, zkEnabled, e), id)
  {
    match e
    case ResponseArrived(other, r) => ResponseKeeps(s, other, r, id);
    case OutboundFailure(_) => SettlementKeeps(s, zkEnabled, e, id);
    case NameLookupDone(_, _, _) => SettlementKeeps(s, zkEnabled, e, id);
    case ProviderLookupDone(_, _) => SettlementKeeps(s, zkEnabled, e, id);
    case FindProviders(_, _) => WaitKeeps(s, zkEnabled, e, id);
    case ResolveName(_, _) => WaitKeeps(s, zkEnabled, e, id);
    case BuildCircuit(_, _, _) => WaitKeeps(s, zkEnabled, e, id);
    case FetchViaCircuit(_, _, _) => WaitKeeps(s, zkEnabled, e, id);
    case _ => FetchKeeps(s, zkEnabled, e, id);
  }

  lemma GoneStays(s: State, zkEnabled: bool, e: Event, h: Handle)
    requires h !in s.gone && e != ReceiverDropped(h)
    ensures h !in Step(s, zkEnabled, e).gone
  {
    if !e.CleanupTick? && !e.ReceiverDropped? {
      var id: RequestId := s.nextRequest + 1 + if e.ResponseArrived? || e.OutboundFailure? then e.id else 0;
      OtherStepKeeps(s, zkEnabled, e, id);
    }
  }

  /** A tracked request keeps until its report, which answers it. */
  lemma {:induction false} ReportAnswers(s: State, zkEnabled: bool, es: seq<Event>, j: nat, id: RequestId, h: Handle)
    requires Inv(s) && PossibleRun(s, zkEnabled, es) && HandleAt(s, InRequests(id)) == Some(h)
    requires ReportedAt(s, es, j, id, h)
    ensures Told(Run(s, zkEnabled, es).log, h, Outcome(s.requests[id], es[j]))
    decreases j
  {
    var e, t := es[0], Step(s, zkEnabled, es[0]);
    StepKeepsInv(s, zkEnabled, e);
    if j == 0 {
      FetchIsAnswered(s, zkEnabled, e, id);
      AnsweredStaysTold(t, zkEnabled, es[1..], h, Outcome(s.requests[id], e));
    } else {
      assert es[..j][0] == e && es[..j][1..] == es[1..][..j - 1];
      RequestStays(s, zkEnabled, e, id);
      GoneStays(s, zkEnabled, e, h);
      ReportAnswers(t, zkEnabled, es[1..], j - 1, id, h);
    }
  }

  /** Command `k` of the run goes out as request `id`, and event `j` is the first report on that after it; the
      caller stays that long. */
  ghost predicate Exchange(s: State, zkEnabled: bool, es: seq<Event>, k: nat, j: nat) {
    && k < j < |es| && (es[k].FetchFragment? || es[k].FetchManifest?) && !es[k].pathBlocked
    && Reports(es[j], Run(s, zkEnabled, es[..k]).nextRequest)
    && NoneReports(es[k + 1..j], Run(s, zkEnabled, es[..k]).nextRequest)
    && es[k].reply !in s.gone && ReceiverDropped(es[k].reply) !in es[..j]
  }

  /** How the command is tracked. */
  function Tracked(e: Event): PendingReply
    requires e.FetchFragment? || e.FetchManifest?
  {
    if e.FetchFragment? then Fragment(e.peer, e.fragmentHash, e.reply) else Manifest(e.peer, e.reply)
  }

  lemma CommandIsTracked(s: State, zkEnabled: bool, e: Event)
    requires (e.FetchFragment? || e.FetchManifest?) && !e.pathBlocked
    ensures var t := Step(s, zkEnabled, e);
            s.nextRequest in t.requests && t.requests[s.nextRequest] == Tracked(e)
  {
  }

  /** The exchange seen from one event later, or from its command. */
  lemma ExchangeUnfolds(s: State, zkEnabled: bool, es: seq<Event>, k: nat, j: nat, t: State)
    requires Exchange(s, zkEnabled, es, k, j) && t == Step(s, zkEnabled, es[0])
    ensures k == 0 ==> ReportedAt(t, es[1..], j - 1, s.nextRequest, es[0].reply)
    ensures k > 0 ==> Exchange(t, zkEnabled, es[1..], k - 1, j - 1)
  {
    assert es[..j][0] == es[0] && es[..j][1..] == es[1..][..j - 1];
    GoneStays(s, zkEnabled, es[0], es[k].reply);
    if k == 0 {
      assert es[..0] == [] && es[1..j] == es[1..][..j - 1];
    } else {
      assert es[..k][0] == es[0] && es[..k][1..] == es[1..][..k - 1];
      assert es[k + 1..j] == es[1..][k..j - 1];
    }
  }

  lemma {:induction false} ExchangeAnswers(s: State, zkEnabled: bool, es: seq<Event>, k: nat, j: nat)
    requires Inv(s) && PossibleRun(s, zkEnabled, es) && Exchange(s, zkEnabled, es, k, j)
    ensures Told(Run(s, zkEnabled, es).log, es[k].reply, Outcome(Tracked(es[k]), es[j]))
    decreases k
  {
    var t := Step(s, zkEnabled, es[0]);
    StepKeepsInv(s, zkEnabled, es[0]);
    ExchangeUnfolds(s, zkEnabled, es, k, j, t);
    if k == 0 {
      CommandIsTracked(s, zkEnabled, es[0]);
      ReportAnswers(t, zkEnabled, es[1..], j - 1, s.nextRequest, es[0].reply);
    } else {
      ExchangeAnswers(t, zkEnabled, es[1..], k - 1, j - 1);
    }
  }

  /** A fragment that arrives intact reaches its caller, and nothing else does: the caller is told the data
      exactly when they hash to the fragment the command names. */
  lemma FragmentIsDelivered(zkEnabled: bool, es: seq<Event>, k: nat, j: nat)
    requires PossibleRun(INITIAL, zkEnabled, es) && Exchange(INITIAL, zkEnabled, es, k, j) && es[k].FetchFragment?
    ensures var log, h := Run(INITIAL, zkEnabled, es).log, es[k].reply;
            match es[j]
            case ResponseArrived(_, FragmentResponse(data)) =>
              && (Told(log, h, Data(data)) <==> Blake3(data) == es[k].fragmentHash)
              && (Told(log, h, Failed(PeerError)) <==> Blake3(data) != es[k].fragmentHash)
            case ResponseArrived(_, NotFoundResponse) => Told(log, h, Failed(NotFound))
            case ResponseArrived(_, _) => Told(log, h, Failed(PeerError))
            case _ => Told(log, h, Failed(ConnectionFailed))
  {
    ExchangeAnswers(INITIAL, zkEnabled, es, k, j);
  }

  /** So does a manifest. */
  lemma ManifestIsDelivered(zkEnabled: bool, es: seq<Event>, k: nat, j: nat)
    requires PossibleRun(INITIAL, zkEnabled, es) && Exchange(INITIAL, zkEnabled, es, k, j) && es[k].FetchManifest?
    ensures var log, h := Run(INITIAL, zkEnabled, es).log, es[k].reply;
            match es[j]
            case ResponseArrived(_, ManifestResponse(m)) => Told(log, h, ManifestReply(m))
            case ResponseArrived(_, NotFoundResponse) => Told(log, h, Failed(NotFound))
            case ResponseArrived(_, _) => Told(log, h, Failed(PeerError))
            case _ => Told(log, h, Failed(ConnectionFailed))
  {
    ExchangeAnswers(INITIAL, zkEnabled, es, k, j);
  }

  // ── Every other caller ───────────────────────────────────────────

  /** A cell comes back on circuit `c`. */
  predicate CellOn(s: State, e: Event, c: CircuitId) {
    e.ResponseArrived? && Carries(s, e.id, c) && e.response.RelayCell?
  }

  /** The event answers whoever waits in the slot. */
  predicate Settles(s: State, e: Event, slot: Slot) {
    match slot
    case InRequests(id) => Reports(e, id)
    case InDht(cid) => e.ProviderLookupDone? && e.cid == cid
    case InNames(name) => e.NameLookupDone? && e.matching == Some(name)
    case InBuilds(c) =>
      CellOn(s, e, c)
      && (e.response.cell.Undecodable? || (e.response.cell.Created? && e.response.cell.handshake != Extend))
    case InFetches(c) => CellOn(s, e, c) && e.response.cell.Relay?
  }

  lemma ResolveSettles(s: State, t: State, slot: Slot, r: Reply, h: Handle)
    requires Placed(s) && h in s.place && s.place[h].At?
    requires t == s || exists id :: t == Take(s, InRequests(id)) && slot != InRequests(id)
    ensures var u := Resolve(t, slot, r);
            h in u.place && u.place[h] == if s.place[h] == At(slot) then Answered(r) else s.place[h]
  {
    assert HandleAt(t, slot) == HandleAt(s, slot);
    ResolvePlaces(t, slot, r);
    assert HandleAt(s, s.place[h].slot) == Some(h);
  }

  /** What a cell tells the caller it settles. */
  function CellReply(c: CircuitId, cell: Cell): Reply {
    match cell
    case Created(Complete) => CircuitReady(c)
    case Relay(Content(bytes)) => Data(bytes)
    case Relay(Unsuccessful) => Failed(PeerError)
    case _ => Failed(RelayError)
  }

  lemma CellSettles(s: State, id: RequestId, c: CircuitId, cell: Cell, h: Handle)
    requires Placed(s) && h in s.place && s.place[h].At? && Carries(s, id, c)
    ensures var u := OnRelayCell(Take(s, InRequests(id)), c, cell);
            var e := ResponseArrived(id, RelayCell(false, cell));
            && h in u.place
            && u.place[h] == if Settles(s, e, s.place[h].slot) then Answered(CellReply(c, cell)) else s.place[h]
  {
    var t := Take(s, InRequests(id));
    assert HandleAt(s, InRequests(id)).None?;
    assert s.place[h] != At(InRequests(id));
    match EffectOf(c, cell)
    case SettleBuild(r) => ResolveSettles(s, t, InBuilds(c), r, h);
    case SettleFetch(r) => ResolveSettles(s, t, InFetches(c), r, h);
    case _ =>
  }

  lemma ResponseSettles(s: State, id: RequestId, r: Response, h: Handle)
    requires Placed(s) && h in s.place && s.place[h].At?
    ensures var u, e := OnResponse(s, id, r), ResponseArrived(id, r);
            h in u.place && (u.place[h].Answered? <==> Settles(s, e, s.place[h].slot))
  {
    assert HandleAt(s, s.place[h].slot) == Some(h);
    if id in s.requests {
      var p := s.requests[id];
      if p.Fragment? || p.Manifest? {
        ResolveSettles(s, s, InRequests(id), ReplyFor(p, r), h);
      } else if p.RelayResponse? && r.RelayCell? {
        CellSettles(s, id, p.circuit, r.cell, h);
      }
    }
  }

  lemma SettlementSettles(s: State, zkEnabled: bool, e: Event, h: Handle)
    requires Placed(s) && h in s.place && s.place[h].At?
    requires e.OutboundFailure? || e.NameLookupDone? || e.ProviderLookupDone?
    ensures var u := Step(s, zkEnabled, e);
            h in u.place && (u.place[h].Answered? <==> Settles(s, e, s.place[h].slot))
  {
    assert HandleAt(s, s.place[h].slot) == Some(h);
    match e
    case OutboundFailure(id) => ResolveSettles(s, s, InRequests(id), Failed(ConnectionFailed), h);
    case NameLookupDone(_, record, matching) =>
      if matching.Some? { ResolveSettles(s, s, InNames(matching.value), NameRecord(record), h); }
    case ProviderLookupDone(cid, found) =>
      ResolveSettles(s, s, InDht(cid), if found.Some? then Providers(found.value) else Failed(NotFound), h);
  }

  lemma WaitAnswersNobody(s: State, slot: Slot, h: Handle)
    requires h in s.place && s.place[h].At?
    ensures h in Vacate(s, slot).place && !Vacate(s, slot).place[h].Answered?
  {
    VacatePlaces(s, slot, h);
  }

  lemma CommandAnswersNobodyElse(s: State, zkEnabled: bool, e: Event, h: Handle)
    requires Possible(s, e) && h in s.place && s.place[h].At?
    requires NewHandle(e).Some? || e.SendRelayCell? || e.ForwardForPeer? || e.CleanupTick? || e.ReceiverDropped?
    ensures h in Step(s, zkEnabled, e).place && !Step(s, zkEnabled, e).place[h].Answered?
  {
    match e
    case FindProviders(cid, _) => WaitAnswersNobody(s, InDht(cid), h);
    case ResolveName(name, _) => WaitAnswersNobody(s, InNames(name), h);
    case BuildCircuit(_, _, _) => BuildAnswersNobodyElse(s, zkEnabled, e, h);
    case FetchViaCircuit(c, _, _) => WaitAnswersNobody(s, InFetches(c), h);
    case CleanupTick => CleanupAnswersNobody(s, h);
    case _ => OthersAnswerNobody(s, zkEnabled, e, h);
  }

  lemma CleanupAnswersNobody(s: State, h: Handle)
    requires h in s.place && s.place[h].At?
    ensures h in OnCleanupTick(s).place && !OnCleanupTick(s).place[h].Answered?
  {
  }

  lemma BuildAnswersNobodyElse(s: State, zkEnabled: bool, e: Event, h: Handle)
    requires Possible(s, e) && h in s.place && s.place[h].At? && e.BuildCircuit?
    ensures h in Step(s, zkEnabled, e).place && !Step(s, zkEnabled, e).place[h].Answered?
  {
    if e.built.Started? {
      WaitAnswersNobody(s, InBuilds(e.built.circuit), h);
    }
  }

  lemma OthersAnswerNobody(s: State, zkEnabled: bool, e: Event, h: Handle)
    requires Possible(s, e) && h in s.place && s.place[h].At?
    requires e.FetchFragment? || e.FetchManifest? || e.SendRelayCell? || e.ForwardForPeer? || e.ReceiverDropped?
    ensures h in Step(s, zkEnabled, e).place && !Step(s, zkEnabled, e).place[h].Answered?
  {
    match e
    case FetchFragment(peer, hash, reply, _) =>
      TrackAnswersNobody(s.(wanted := s.wanted[reply := hash]), Fragment(peer, hash, reply), h);
    case FetchManifest(peer, _, reply, _) => TrackAnswersNobody(s, Manifest(peer, reply), h);
    case SendRelayCell(c, target) => TrackAnswersNobody(s, RelayResponse(target, c), h);
    case ForwardForPeer(to, from, c) => TrackAnswersNobody(s, RelayForward(to, from, c), h);
    case _ =>
  }

  lemma TrackAnswersNobody(s: State, p: PendingReply, h: Handle)
    requires h in s.place && s.place[h].At?
    ensures h in Track(s, p).place && !Track(s, p).place[h].Answered?
  {
  }

  /** One event answers a waiting caller exactly when it settles the slot where it waits. */
  lemma AnsweredExactlyWhenSettled(s: State, zkEnabled: bool, e: Event, h: Handle)
    requires Inv(s) && Possible(s, e) && h in s.place && s.place[h].At?
    ensures var u := Step(s, zkEnabled, e);
            h in u.place && (u.place[h].Answered? <==> Settles(s, e, s.place[h].slot))
  {
    match e
    case ResponseArrived(id, r) => ResponseSettles(s, id, r, h);
    case OutboundFailure(_) => SettlementSettles(s, zkEnabled, e, h);
    case NameLookupDone(_, _, _) => SettlementSettles(s, zkEnabled, e, h);
    case ProviderLookupDone(_, _) => SettlementSettles(s, zkEnabled, e, h);
    case _ => CommandAnswersNobodyElse(s, zkEnabled, e, h);
  }

  /** The command brings channel `h` and is refused at once. */
  predicate Refuses(zkEnabled: bool, e: Event, h: Handle) {
    NewHandle(e) == Some(h) &&
    match e
    case FetchFragment(_, _, _, blocked) => blocked
    case FetchManifest(_, _, _, blocked) => blocked
    case BuildCircuit(peers, _, built) => !zkEnabled || |peers| < 2 || !built.Started?
    case FetchViaCircuit(_, _, wrapped) => !zkEnabled || !wrapped.Wrapped?
    case _ => false
  }

  /** Some event of the run refuses the command of `h` or settles the slot where `h` waits. */
  ghost predicate SettledIn(s: State, zkEnabled: bool, es: seq<Event>, h: Handle)
    decreases |es|
  {
    es != [] &&
    (Refuses(zkEnabled, es[0], h)
     || (exists slot :: HandleAt(s, slot) == Some(h) && Settles(s, es[0], slot))
     || SettledIn(Step(s, zkEnabled, es[0]), zkEnabled, es[1..], h))
  }

  lemma NewIsAnsweredExactlyWhenRefused(s: State, zkEnabled: bool, e: Event, h: Handle)
    requires Inv(s) && Possible(s, e) && h !in s.place
    ensures var u := Step(s, zkEnabled, e); h in u.place && u.place[h].Answered? <==> Refuses(zkEnabled, e, h)
  {
    StepIssues(s, zkEnabled, e);
  }

  ghost predicate IsAnswered(s: State, h: Handle) { h in s.place && s.place[h].Answered? }

  lemma StepAnswersExactlyWhen(s: State, zkEnabled: bool, e: Event, h: Handle)
    requires Inv(s) && Possible(s, e) && !IsAnswered(s, h)
    ensures IsAnswered(Step(s, zkEnabled, e), h) <==>
              Refuses(zkEnabled, e, h) || exists slot :: HandleAt(s, slot) == Some(h) && Settles(s, e, slot)
  {
    assert forall slot :: HandleAt(s, slot) == Some(h) ==> h in s.place && s.place[h] == At(slot);
    if h !in s.place {
      NewIsAnsweredExactlyWhenRefused(s, zkEnabled, e, h);
    } else if s.place[h].At? {
      AnsweredExactlyWhenSettled(s, zkEnabled, e, h);
      assert HandleAt(s, s.place[h].slot) == Some(h);
    } else {
      StepFate(s, zkEnabled, e, h);
    }
  }

  /** Over every interleaving, a caller is replied to exactly when its command is refused at once or some event
      settles the slot where it waits. */
  lemma RepliedExactlyWhenSettled(zkEnabled: bool, es: seq<Event>, h: Handle)
    requires PossibleRun(INITIAL, zkEnabled, es)
    ensures Replied(Run(INITIAL, zkEnabled, es), h) <==> SettledIn(INITIAL, zkEnabled, es, h)
  {
    RunKeepsInv(INITIAL, zkEnabled, es);
    PlaceIsVisible(Run(INITIAL, zkEnabled, es), h);
    RunAnswersExactlyWhen(INITIAL, zkEnabled, es, h);
  }

  lemma {:induction false} RunAnswersExactlyWhen(s: State, zkEnabled: bool, es: seq<Event>, h: Handle)
    requires Inv(s) && PossibleRun(s, zkEnabled, es) && !IsAnswered(s, h)
    ensures IsAnswered(Run(s, zkEnabled, es), h) <==> SettledIn(s, zkEnabled, es, h)
    decreases |es|
  {
    if es != [] {
      var t := Step(s, zkEnabled, es[0]);
      StepKeepsInv(s, zkEnabled, es[0]);
      StepAnswersExactlyWhen(s, zkEnabled, es[0], h);
      if IsAnswered(t, h) {
        OutcomesAreFinal(t, zkEnabled, es[1..], h);
      } else {
        RunAnswersExactlyWhen(t, zkEnabled, es[1..], h);
      }
    }
  }

  /** And this is what callers of lookups, circuit builds and relayed fetches are told then. */
  lemma WaitingCallerIsTold(zkEnabled: bool, es: seq<Event>, j: nat, slot: Slot, h: Handle)
    requires PossibleRun(INITIAL, zkEnabled, es) && j < |es| && !slot.InRequests?
    requires var s := Run(INITIAL, zkEnabled, es[..j]); HandleAt(s, slot) == Some(h) && Settles(s, es[j], slot)
    ensures var log := Run(INITIAL, zkEnabled, es).log;
            match slot
            case InDht(_) =>
              Told(log, h, if es[j].found.Some? then Providers(es[j].found.value) else Failed(NotFound))
            case InNames(_) => Told(log, h, NameRecord(es[j].record))
            case InBuilds(c) =>
              Told(log, h, if es[j].response.cell == Created(Complete) then CircuitReady(c) else Failed(RelayError))
            case InFetches(_) =>
              (match es[j].response.cell.payload
               case Content(bytes) => Told(log, h, Data(bytes))
               case Unsuccessful => Told(log, h, Failed(PeerError))
               case _ => Told(log, h, Failed(RelayError)))
            case InRequests(_) => true
  {
    SettledIsTold(zkEnabled, es, j, slot, h, Run(INITIAL, zkEnabled, es[..j]));
  }

  lemma SettledIsTold(zkEnabled: bool, es: seq<Event>, j: nat, slot: Slot, h: Handle, s: State)
    requires PossibleRun(INITIAL, zkEnabled, es) && j < |es| && !slot.InRequests?
    requires s == Run(INITIAL, zkEnabled, es[..j]) && HandleAt(s, slot) == Some(h) && Settles(s, es[j], slot)
    ensures Told(Run(INITIAL, zkEnabled, es).log, h, SettlingReply(es[j], slot))
  {
    RunSplits(INITIAL, zkEnabled, es, j);
    RunKeepsInv(INITIAL, zkEnabled, es[..j]);
    StepKeepsInv(s, zkEnabled, es[j]);
    SettlingTells(s, zkEnabled, es[j], slot, h);
    AnsweredStaysTold(Step(s, zkEnabled, es[j]), zkEnabled, es[j + 1..], h, SettlingReply(es[j], slot));
  }

  function CellOf(e: Event): Cell {
    if e.ResponseArrived? && e.response.RelayCell? then e.response.cell else OtherCell
  }

  function SettlingReply(e: Event, slot: Slot): Reply {
    match slot
    case InDht(_) => if e.ProviderLookupDone? && e.found.Some? then Providers(e.found.value) else Failed(NotFound)
    case InNames(_) => NameRecord(if e.NameLookupDone? then e.record else None)
    case InBuilds(c) => CellReply(c, CellOf(e))
    case InFetches(c) => CellReply(c, CellOf(e))
    case InRequests(_) => Failed(PeerError)
  }

  lemma SettlingTells(s: State, zkEnabled: bool, e: Event, slot: Slot, h: Handle)
    requires Inv(s) && HandleAt(s, slot) == Some(h) && Settles(s, e, slot) && !slot.InRequests?
    ensures var u := Step(s, zkEnabled, e); h in u.place && u.place[h] == Answered(SettlingReply(e, slot))
  {
    match e
    case ResponseArrived(id, r) => CellSettles(s, id, s.requests[id].circuit, r.cell, h);
    case NameLookupDone(_, record, matching) => ResolveSettles(s, s, slot, NameRecord(record), h);
    case ProviderLookupDone(cid, found) =>
      ResolveSettles(s, s, slot, if found.Some? then Providers(found.value) else Failed(NotFound), h);
  }

  lemma {:induction false} RunSplits(s: State, zkEnabled: bool, es: seq<Event>, j: nat)
    requires PossibleRun(s, zkEnabled, es) && j < |es|
    ensures PossibleRun(s, zkEnabled, es[..j])
    ensures var t := Run(s, zkEnabled, es[..j]);
            && Possible(t, es[j]) && PossibleRun(Step(t, zkEnabled, es[j]), zkEnabled, es[j + 1..])
            && Run(s, zkEnabled, es) == Run(Step(t, zkEnabled, es[j]), zkEnabled, es[j + 1..])
    decreases j
  {
    if j > 0 {
      assert es[..j][0] == es[0] && es[..j][1..] == es[1..][..j - 1] && es[1..][j..] == es[j + 1..];
      RunSplits(Step(s, zkEnabled, es[0]), zkEnabled, es[1..], j - 1);
    }
  }

  /** A cell that asks to extend the circuit counts one more hop and answers nobody. */
  lemma ExtendingCountsHop(s: State, zkEnabled: bool, e: Event, c: CircuitId)
    requires CellOn(s, e, c) && e.response.cell == Created(Extend) && c in s.builds
    ensures var t := Step(s, zkEnabled, e);
            && t.builds == s.builds[c := s.builds[c].(nextHop := s.builds[c].nextHop + 1)]
            && t.requests == s.requests - {e.id} && t.log == s.log && t.place == s.place
  {
  }

  // ── Cells passed on for others ───────────────────────────────────

  /** A request on behalf of a circuit stays until something reports on it. */
  lemma RelayRequestStays(s: State, zkEnabled: bool, e: Event, id: RequestId)
    requires Numbered(s) && id in s.requests && (s.requests[id].RelayForward? || s.requests[id].RelayResponse?)
    requires !Reports(e, id)
    ensures var t := Step(s, zkEnabled, e); id in t.requests && t.requests[id] == s.requests[id]
  {
    match e
    case CleanupTick =>
    case ReceiverDropped(_) =>
    case _ => OtherStepKeeps(s, zkEnabled, e, id);
  }

  /** Where the answer to a cell passed on goes: back to the peer it came from, if there is anything in it. */
  ghost predicate GoesBack(s: State, zkEnabled: bool, e: Event, id: RequestId, from: PeerId, c: CircuitId) {
    var t := Step(s, zkEnabled, e);
    if e.ResponseArrived? && e.response.RelayCell? && !e.response.isEmpty
    then t.requests == (s.requests - {id})[s.nextRequest := RelayForward(from, from, c)]
    else t.requests == s.requests - {id}
  }

  lemma {:induction false} ForwardGoesBack(s: State, zkEnabled: bool, es: seq<Event>, j: nat, id: RequestId,
                                           p: PendingReply)
    requires Inv(s) && PossibleRun(s, zkEnabled, es) && id in s.requests && s.requests[id] == p && p.RelayForward?
    requires j < |es| && Reports(es[j], id) && NoneReports(es[..j], id)
    ensures GoesBack(Run(s, zkEnabled, es[..j]), zkEnabled, es[j], id, p.returnTo, p.circuit)
    decreases j
  {
    if j > 0 {
      assert es[..j][0] == es[0] && es[..j][1..] == es[1..][..j - 1];
      StepKeepsInv(s, zkEnabled, es[0]);
      RelayRequestStays(s, zkEnabled, es[0], id);
      ForwardGoesBack(Step(s, zkEnabled, es[0]), zkEnabled, es[1..], j - 1, id, p);
    } else {
      assert es[..0] == [];
      ReportGoesBack(s, zkEnabled, es[0], id, p);
    }
  }

  lemma ReportGoesBack(s: State, zkEnabled: bool, e: Event, id: RequestId, p: PendingReply)
    requires id in s.requests && s.requests[id] == p && p.RelayForward? && Reports(e, id)
    ensures GoesBack(s, zkEnabled, e, id, p.returnTo, p.circuit)
  {
    assert HandleAt(s, InRequests(id)).None?;
  }

  /** Over any run, the first report on a cell passed on for a peer leads back to that peer, or nowhere. */
  lemma {:induction false} ForwardedAnswerGoesBack(s: State, es: seq<Event>, k: nat, j: nat, to: PeerId, from: PeerId,
                                                   c: CircuitId)
    requires Inv(s) && PossibleRun(s, true, es) && k < j < |es| && es[k] == ForwardForPeer(to, from, c)
    requires var id := Run(s, true, es[..k]).nextRequest; Reports(es[j], id) && NoneReports(es[k + 1..j], id)
    ensures GoesBack(Run(s, true, es[..j]), true, es[j], Run(s, true, es[..k]).nextRequest, from, c)
    decreases k
  {
    var t := Step(s, true, es[0]);
    StepKeepsInv(s, true, es[0]);
    assert es[..j][0] == es[0] && es[..j][1..] == es[1..][..j - 1];
    if k == 0 {
      assert es[..0] == [] && es[1..j] == es[1..][..j - 1];
      CellIsTracked(s, to, from, c);
      ForwardGoesBack(t, true, es[1..], j - 1, s.nextRequest, RelayForward(to, from, c));
    } else {
      assert es[..k][0] == es[0] && es[..k][1..] == es[1..][..k - 1];
      assert es[k + 1..j] == es[1..][k..j - 1];
      ForwardedAnswerGoesBack(t, es[1..], k - 1, j - 1, to, from, c);
    }
  }

  lemma CellIsTracked(s: State, to: PeerId, from: PeerId, c: CircuitId)
    ensures var t := Step(s, true, ForwardForPeer(to, from, c));
            s.nextRequest in t.requests && t.requests[s.nextRequest] == RelayForward(to, from, c)
  {
  }

  // ── End to end ───────────────────────────────────────────────────

  /** The run asks for a manifest over channel `h`, and the first report on that request brings `m`. */
  ghost predicate BroughtManifest(zkEnabled: bool, es: seq<Event>, h: Handle, m: ManifestResult) {
    exists k, j | 0 <= k < |es| && 0 <= j < |es| ::
      && Exchange(INITIAL, zkEnabled, es, k, j) && es[k].FetchManifest? && es[k].reply == h
      && es[j].ResponseArrived? && es[j].response == ManifestResponse(m)
  }

  function ManifestAnswerOf(s: State, h: Handle): R.ChannelReply<ManifestResult> {
    match R.ReplyOn(s.log, h)
    case Some(ManifestReply(m)) => R.Got(m)
    case Some(Failed(e)) => R.Refused(e)
    case _ => R.Closed
  }

  /** The run fetches the fragment over channel `h`, and the first report on that request brings `data`. */
  ghost predicate Brought(zkEnabled: bool, es: seq<Event>, hash: Digest, h: Handle, data: Bytes) {
    exists k, j | 0 <= k < |es| && 0 <= j < |es| ::
      && Exchange(INITIAL, zkEnabled, es, k, j)
      && es[k].FetchFragment? && es[k].fragmentHash == hash && es[k].reply == h
      && es[j].ResponseArrived? && es[j].response == FragmentResponse(data)
  }

  lemma {:induction false} ToldIsReply(log: Log, h: Handle, r: Reply)
    requires Told(log, h, r)
    ensures R.ReplyOn(log, h) == Some(r)
    decreases |log|
  {
    var i :| 0 <= i < |log| && log[i] == (h, r);
    var n := |log| - 1;
    if log[n].0 != h {
      assert log[..n][i] == (h, r);
      ToldIsReply(log[..n], h, r);
    }
  }

  /** A content whose fragments all arrive intact is what its caller gets. Ask for the manifest and, with one
      reply channel each, for the fragments it names; let a peer answer with the manifest of `data` and with its
      chunks. Whatever else goes on in the loop, the fetch returns `data`. */
  lemma IntactContentArrives(zkEnabled: bool, es: seq<Event>, data: Bytes, name: string, m: ManifestResult,
                             asked: Handle, handles: seq<Handle>)
    requires PossibleRun(INITIAL, zkEnabled, es) && BroughtManifest(zkEnabled, es, asked, m)
    requires m.fragmentHashes == F.ManifestOf(data, name).fragments && |handles| == |m.fragmentHashes|
    requires forall i :: 0 <= i < |handles| ==>
               Brought(zkEnabled, es, m.fragmentHashes[i], handles[i], F.Chunks(data)[i])
    ensures var s := Run(INITIAL, zkEnabled, es);
            var parts := seq(|handles|, i requires 0 <= i < |handles| => R.AnswerOf(s, handles[i]));
            R.Fetched(R.PeerAnswers(ManifestAnswerOf(s, asked), parts)) == R.Ok(R.ResolvedContent(data, m.mimeType))
  {
    var s, chunks := Run(INITIAL, zkEnabled, es), F.Chunks(data);
    var parts := seq(|handles|, i requires 0 <= i < |handles| => R.AnswerOf(s, handles[i]));
    var a := R.PeerAnswers(R.Got(m), parts);
    ManifestIsGot(zkEnabled, es, asked, m);
    forall i | 0 <= i < |handles|
      ensures a.Fragment(i) == R.Got(chunks[i])
    {
      assert Blake3(chunks[i]) == m.fragmentHashes[i];
      BroughtIsGot(zkEnabled, es, m.fragmentHashes[i], handles[i], chunks[i]);
    }
    R.AssembledExactlyWhen(a, |handles|);
    assert R.Received(a, |handles|) == chunks;
    F.ChunksPartition(data);
  }

  lemma ManifestIsGot(zkEnabled: bool, es: seq<Event>, h: Handle, m: ManifestResult)
    requires PossibleRun(INITIAL, zkEnabled, es) && BroughtManifest(zkEnabled, es, h, m)
    ensures ManifestAnswerOf(Run(INITIAL, zkEnabled, es), h) == R.Got(m)
  {
    var k, j :| 0 <= k < |es| && 0 <= j < |es| && Exchange(INITIAL, zkEnabled, es, k, j) && es[k].FetchManifest?
                && es[k].reply == h && es[j].ResponseArrived? && es[j].response == ManifestResponse(m);
    ManifestIsDelivered(zkEnabled, es, k, j);
    ToldIsReply(Run(INITIAL, zkEnabled, es).log, h, ManifestReply(m));
  }

  lemma BroughtIsGot(zkEnabled: bool, es: seq<Event>, hash: Digest, h: Handle, data: Bytes)
    requires PossibleRun(INITIAL, zkEnabled, es) && Brought(zkEnabled, es, hash, h, data) && Blake3(data) == hash
    ensures R.AnswerOf(Run(INITIAL, zkEnabled, es), h) == R.Got(data)
  {
    var k, j :| 0 <= k < |es| && 0 <= j < |es| && Exchange(INITIAL, zkEnabled, es, k, j) && es[k].FetchFragment?
                && es[k].fragmentHash == hash && es[k].reply == h
                && es[j].ResponseArrived? && es[j].response == FragmentResponse(data);
    FragmentIsDelivered(zkEnabled, es, k, j);
    ToldIsReply(Run(INITIAL, zkEnabled, es).log, h, Data(data));
  }
}
