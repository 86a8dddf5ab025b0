/** Resolving content through the event loop (gateway/src/p2p_resolver.rs). */
module P2pResolver {
  import opened Common
  import opened Crypto
  import F = Fragments
  import Loop = P2pEventLoop

  type FetchError = Loop.FetchError

  /** What comes back on a reply channel. */
  datatype ChannelReply<+T> = Got(value: T) | Refused(error: FetchError) | Closed

  datatype Result<+T> = Ok(value: T) | Err(error: FetchError)

  datatype ResolvedContent = ResolvedContent(data: Bytes, mimeType: string)

  /** How the requests sent to one peer are answered: its manifest, and then each fragment in turn. */
  datatype PeerAnswers = PeerAnswers(manifest: ChannelReply<Loop.ManifestResult>, fragments: seq<ChannelReply<Bytes>>)
  {
    function Fragment(i: nat): ChannelReply<Bytes> {
      if i < |fragments| then fragments[i] else Closed
    }
  }

  function AsResult<T>(r: ChannelReply<T>): Result<T> {
    match r
    case Got(v) => Ok(v)
    case Refused(e) => Err(e)
    case Closed => Err(Loop.FetchError.ChannelClosed)
  }

  /** The first `n` fragments in manifest order, or the first failure among them. */
  function Assembled(a: PeerAnswers, n: nat): Result<Bytes> {
    if n == 0 then Ok([])
    else match Assembled(a, n - 1)
      case Err(e) => Err(e)
      case Ok(data) =>
        match AsResult(a.Fragment(n - 1))
        case Err(e) => Err(e)
        case Ok(part) => Ok(data + part)
  }

  function Fetched(a: PeerAnswers): Result<ResolvedContent> {
    match AsResult(a.manifest)
    case Err(e) => Err(e)
    case Ok(m) =>
      match Assembled(a, |m.fragmentHashes|)
      case Err(e) => Err(e)
      case Ok(data) => Ok(ResolvedContent(data, m.mimeType))
  }

  method FetchFromPeer(a: PeerAnswers) returns (r: Result<ResolvedContent>)
    ensures r == Fetched(a)
    ensures r.Ok? <==> a.manifest.Got? && forall i :: 0 <= i < |a.manifest.value.fragmentHashes| ==> a.Fragment(i).Got?
  {
    FetchedExactlyWhen(a);
    match AsResult(a.manifest)
    case Err(e) => return Err(e);
    case Ok(manifest) =>
      var assembled: Bytes := [];
      for i := 0 to |manifest.fragmentHashes|
        invariant Assembled(a, i) == Ok(assembled)
      {
        match AsResult(a.Fragment(i)) {
          case Err(e) =>
            FailureSticks(a, i + 1, |manifest.fragmentHashes|);
            return Err(e);
          case Ok(data) => assembled := assembled + data;
        }
      }
      return Ok(ResolvedContent(assembled, manifest.mimeType));
  }

  lemma {:induction false} FailureSticks(a: PeerAnswers, m: nat, n: nat)
    requires m <= n && Assembled(a, m).Err?
    ensures Assembled(a, n) == Assembled(a, m)
  {
    if m < n {
      FailureSticks(a, m, n - 1);
    }
  }

  /** The first `n` fragments, with nothing for one that did not arrive. */
  function Received(a: PeerAnswers, n: nat): seq<Bytes> {
    seq(n, i requires 0 <= i < n => if a.Fragment(i).Got? then a.Fragment(i).value else [])
  }

  lemma {:induction false} AssembledExactlyWhen(a: PeerAnswers, n: nat)
    ensures Assembled(a, n).Ok? <==> forall i :: 0 <= i < n ==> a.Fragment(i).Got?
    ensures Assembled(a, n).Ok? ==>
      Assembled(a, n).value == F.Concat(Received(a, n))
  {
    if n > 0 {
      AssembledExactlyWhen(a, n - 1);
      if Assembled(a, n).Ok? {
        var parts := seq(n, i requires 0 <= i < n => if a.Fragment(i).Got? then a.Fragment(i).value else []);
        var before := seq(n - 1, i requires 0 <= i < n - 1 => if a.Fragment(i).Got? then a.Fragment(i).value else []);
        assert parts == before + [parts[n - 1]];
        F.ConcatAppend(before, [parts[n - 1]]);
        assert F.Concat([parts[n - 1]]) == parts[n - 1] + F.Concat([]) == parts[n - 1];
      }
    }
  }

  lemma FetchedExactlyWhen(a: PeerAnswers)
    ensures Fetched(a).Ok? <==>
      a.manifest.Got? && forall i :: 0 <= i < |a.manifest.value.fragmentHashes| ==> a.Fragment(i).Got?
  {
    if a.manifest.Got? {
      AssembledExactlyWhen(a, |a.manifest.value.fragmentHashes|);
    }
  }

  // ── Integrity ────────────────────────────────────────────────────

  /** Every fragment that arrives hashes to the name it was asked for under. */
  ghost predicate AnswersVerified(a: PeerAnswers) {
    a.manifest.Got? ==>
      forall i :: 0 <= i < |a.manifest.value.fragmentHashes| && a.Fragment(i).Got? ==>
        Blake3(a.Fragment(i).value) == a.manifest.value.fragmentHashes[i]
  }

  /** Some part shares its digest with other bytes the peer sent in its place. */
  ghost predicate Collides(parts: seq<Bytes>, a: PeerAnswers) {
    exists i :: 0 <= i < |parts| && a.Fragment(i).Got? && Collide(parts[i], a.Fragment(i).value)
  }

  ghost predicate CollidesWith(data: Bytes, a: PeerAnswers) { Collides(F.Chunks(data), a) }

  /** The hashes name the parts of some way to cut up `data`. */
  ghost predicate Names(hashes: seq<Digest>, parts: seq<Bytes>, data: Bytes) {
    F.Concat(parts) == data && F.Hashes(parts) == hashes
  }

  /** Whatever the peer sends, a fetch that succeeds returns `data` exactly when the manifest names the parts
      of some way to cut up `data`, or else exhibits a hash collision. */
  lemma FetchReturnsExactlyWhen(a: PeerAnswers, data: Bytes)
    requires a.manifest.Got? && AnswersVerified(a) && Fetched(a).Ok?
    ensures Fetched(a).value.data == data ==> exists parts :: Names(a.manifest.value.fragmentHashes, parts, data)
    ensures forall parts | Names(a.manifest.value.fragmentHashes, parts, data) ::
              Fetched(a).value.data == data || Collides(parts, a)
  {
    var hashes := a.manifest.value.fragmentHashes;
    var received := Received(a, |hashes|);
    AssembledExactlyWhen(a, |hashes|);
    assert F.Hashes(received) == hashes;
    assert Fetched(a).value.data == data ==> Names(hashes, received, data);
    forall parts | Names(hashes, parts, data)
      ensures Fetched(a).value.data == data || Collides(parts, a)
    {
      assert |parts| == |F.Hashes(parts)|;
      if !Collides(parts, a) {
        forall i | 0 <= i < |hashes|
          ensures parts[i] == received[i]
        {
          assert Blake3(parts[i]) == F.Hashes(parts)[i] == hashes[i];
          assert !Collide(parts[i], a.Fragment(i).value);
        }
        assert parts == received;
      }
    }
  }

  /** So given the manifest made for `data`, it returns exactly `data`, or else exhibits a hash collision. */
  lemma FetchReturnsTheContent(a: PeerAnswers, data: Bytes, name: string)
    requires a.manifest.Got? && a.manifest.value.fragmentHashes == F.ManifestOf(data, name).fragments
    requires AnswersVerified(a) && Fetched(a).Ok?
    ensures Fetched(a).value.data == data || CollidesWith(data, a)
  {
    F.ChunksPartition(data);
    assert Names(a.manifest.value.fragmentHashes, F.Chunks(data), data);
    FetchReturnsExactlyWhen(a, data);
  }

  /** A peer that serves `other`, faithfully. */
  function Serving(other: Bytes, name: string, mimeType: string): PeerAnswers {
    var m, chunks := F.ManifestOf(other, name), F.Chunks(other);
    PeerAnswers(Got(Loop.ManifestResult(m.contentHash, m.fragments, |other|, mimeType)),
                seq(|chunks|, i requires 0 <= i < |chunks| => Got(chunks[i])))
  }

  /** Nothing ties the manifest to the content asked for: a peer that serves something else instead, whatever
      was asked for, has it accepted. */
  lemma AnyManifestIsAccepted(other: Bytes, name: string, mimeType: string)
    ensures AnswersVerified(Serving(other, name, mimeType))
    ensures Fetched(Serving(other, name, mimeType)) == Ok(ResolvedContent(other, mimeType))
  {
    var a, chunks := Serving(other, name, mimeType), F.Chunks(other);
    F.ChunksPartition(other);
    assert forall i :: 0 <= i < |chunks| ==> a.Fragment(i) == Got(chunks[i]);
    AssembledExactlyWhen(a, |chunks|);
    assert Received(a, |chunks|) == chunks;
  }

  /** The one message on the reply channel `h`, if any was sent. */
  function ReplyOn(log: seq<(Loop.Handle, Loop.Reply)>, h: Loop.Handle): Option<Loop.Reply> {
    if log == [] then None
    else if log[|log| - 1].0 == h then Some(log[|log| - 1].1)
    else ReplyOn(log[..|log| - 1], h)
  }

  /** What the caller holding the other end receives. */
  function AnswerOf(s: Loop.State, h: Loop.Handle): ChannelReply<Bytes> {
    match ReplyOn(s.log, h)
    case Some(Data(b)) => Got(b)
    case Some(Failed(e)) => Refused(e)
    case _ => Closed
  }

  lemma {:induction false} ReplyIsLogged(log: seq<(Loop.Handle, Loop.Reply)>, h: Loop.Handle)
    requires ReplyOn(log, h).Some?
    ensures exists i :: 0 <= i < |log| && log[i] == (h, ReplyOn(log, h).value)
    decreases |log|
  {
    if log[|log| - 1].0 == h {
      assert log[|log| - 1] == (h, ReplyOn(log, h).value);
    } else {
      ReplyIsLogged(log[..|log| - 1], h);
      var i :| 0 <= i < |log| - 1 && log[..|log| - 1][i] == (h, ReplyOn(log, h).value);
      assert log[i] == (h, ReplyOn(log, h).value);
    }
  }

  /** The commands of a run include a fetch of the fragment with this reply channel. */
  ghost predicate Fetches(es: seq<Loop.Event>, hash: Digest, h: Loop.Handle) {
    exists k :: 0 <= k < |es| && es[k].FetchFragment? && es[k].fragmentHash == hash && es[k].reply == h
  }

  /** End to end over the event loop. Fetch with the manifest of `data`, one reply channel per fragment,
      and whatever else goes on in the loop: the outcome is an error, `data`, or a hash collision. */
  lemma ContentSurvivesTheNetwork(zkEnabled: bool, es: seq<Loop.Event>, data: Bytes, name: string,
                                  m: Loop.ManifestResult, handles: seq<Loop.Handle>)
    requires Loop.PossibleRun(Loop.INITIAL, zkEnabled, es)
    requires m.fragmentHashes == F.ManifestOf(data, name).fragments && |handles| == |m.fragmentHashes|
    requires forall i :: 0 <= i < |handles| ==> Fetches(es, m.fragmentHashes[i], handles[i])
    ensures var s := Loop.Run(Loop.INITIAL, zkEnabled, es);
            var a := PeerAnswers(Got(m), seq(|handles|, i requires 0 <= i < |handles| => AnswerOf(s, handles[i])));
            Fetched(a).Err? || Fetched(a).value.data == data || CollidesWith(data, a)
  {
    var s := Loop.Run(Loop.INITIAL, zkEnabled, es);
    var a := PeerAnswers(Got(m), seq(|handles|, i requires 0 <= i < |handles| => AnswerOf(s, handles[i])));
    forall i | 0 <= i < |m.fragmentHashes| && a.Fragment(i).Got?
      ensures Blake3(a.Fragment(i).value) == m.fragmentHashes[i]
    {
      assert Fetches(es, m.fragmentHashes[i], handles[i]);
      ReplyIsVerified(zkEnabled, es, m.fragmentHashes[i], handles[i]);
    }
    assert AnswersVerified(a);
    if Fetched(a).Ok? {
      FetchReturnsTheContent(a, data, name);
    }
  }

  lemma ReplyIsVerified(zkEnabled: bool, es: seq<Loop.Event>, hash: Digest, h: Loop.Handle)
    requires Loop.PossibleRun(Loop.INITIAL, zkEnabled, es) && Fetches(es, hash, h)
    ensures var r := AnswerOf(Loop.Run(Loop.INITIAL, zkEnabled, es), h); r.Got? ==> Blake3(r.value) == hash
  {
    var s := Loop.Run(Loop.INITIAL, zkEnabled, es);
    if AnswerOf(s, h).Got? {
      ReplyIsLogged(s.log, h);
      var i :| 0 <= i < |s.log| && s.log[i] == (h, ReplyOn(s.log, h).value);
      var k :| 0 <= k < |es| && es[k].FetchFragment? && es[k].fragmentHash == hash && es[k].reply == h;
      Loop.FragmentDataIsVerified(zkEnabled, es, k, i);
    }
  }

  // ── Trying providers ─────────────────────────────────────────────

  /** One provider, as it answers when tried after a circuit was built and when tried directly. */
  datatype Provider = Provider(viaCircuit: PeerAnswers, direct: PeerAnswers)

  /** The relay part of an attempt: whether relaying is on, the hops it needs, how many peers are connected
      when it is considered and when the circuit is chosen, and the answer to the build request, which may
      not come before the time is up. */
  datatype RelayAttempt =
    RelayAttempt(enabled: bool, hops: nat, peers: nat, peersLater: nat, built: Option<ChannelReply<Loop.CircuitId>>)
  {
    predicate Asks() { enabled && peers >= hops && peersLater >= hops }
    predicate Built() { Asks() && built.Some? && built.value.Got? }
    predicate Stalls() { Asks() && built.None? }
  }

  function Direct(providers: seq<Provider>): seq<PeerAnswers> {
    seq(|providers|, i requires 0 <= i < |providers| => providers[i].direct)
  }

  /** All fetches the resolver may make, in order. */
  function Attempts(providers: seq<Provider>, relay: RelayAttempt): seq<PeerAnswers> {
    (if relay.Built() then seq(|providers|, i requires 0 <= i < |providers| => providers[i].viaCircuit) else [])
    + Direct(providers)
  }

  /** The first success, or the last failure. */
  function FirstOf(attempts: seq<PeerAnswers>): Result<ResolvedContent>
    requires attempts != []
  {
    if |attempts| == 1 || Fetched(attempts[0]).Ok? then Fetched(attempts[0]) else FirstOf(attempts[1..])
  }

  /** What the caller of the resolver gets. When the circuit is never answered, the time runs out. */
  function Resolved(lookup: ChannelReply<seq<Provider>>, relay: RelayAttempt): Result<ResolvedContent> {
    match lookup
    case Refused(e) => Err(e)
    case Closed => Err(Loop.FetchError.ChannelClosed)
    case Got(providers) =>
      if providers == [] then Err(Loop.FetchError.NotFound)
      else if relay.Stalls() then Err(Loop.FetchError.Timeout)
      else FirstOf(Attempts(providers, relay))
  }

  ghost predicate FirstSuccess(attempts: seq<PeerAnswers>, k: nat) {
    k < |attempts| && Fetched(attempts[k]).Ok? && forall j :: 0 <= j < k ==> Fetched(attempts[j]).Err?
  }

  lemma {:induction false} FirstOfIsFirst(attempts: seq<PeerAnswers>, k: nat)
    requires FirstSuccess(attempts, k)
    ensures FirstOf(attempts) == Fetched(attempts[k])
    decreases k
  {
    if k > 0 {
      assert forall j :: 0 <= j < k - 1 ==> attempts[1..][j] == attempts[j + 1];
      FirstOfIsFirst(attempts[1..], k - 1);
    }
  }

  lemma {:induction false} FirstOfIsLast(attempts: seq<PeerAnswers>)
    requires attempts != [] && forall j :: 0 <= j < |attempts| ==> Fetched(attempts[j]).Err?
    ensures FirstOf(attempts) == Fetched(attempts[|attempts| - 1])
    decreases |attempts|
  {
    if |attempts| > 1 {
      FirstOfIsLast(attempts[1..]);
    }
  }

  /** Tries each provider through the circuit when there is one, then each directly. */
  method ResolveContent(lookup: ChannelReply<seq<Provider>>, relay: RelayAttempt) returns (r: Result<ResolvedContent>)
    ensures r == Resolved(lookup, relay)
  {
    match lookup
    case Refused(e) => return Err(e);
    case Closed => return Err(Loop.FetchError.ChannelClosed);
    case Got(providers) =>
      if providers == [] {
        return Err(Loop.FetchError.NotFound);
      }
      ghost var attempts := Attempts(providers, relay);
      ghost var offset := 0;
      if relay.enabled && relay.peers >= relay.hops {
        var viaCircuit := ResolveViaCircuit(providers, relay);
        if viaCircuit.None? {
          return Err(Loop.FetchError.Timeout);
        }
        r := viaCircuit.value;
        if r.Ok? {
          return;
        }
        offset := if relay.Built() then |providers| else 0;
      }
      var lastError := Loop.FetchError.NotFound;
      for i := 0 to |providers|
        invariant forall j :: 0 <= j < offset + i ==> Fetched(attempts[j]).Err?
        invariant i > 0 ==> Fetched(attempts[offset + i - 1]) == Err(lastError)
      {
        assert attempts[offset + i] == providers[i].direct;
        r := FetchFromPeer(providers[i].direct);
        if r.Ok? {
          FirstOfIsFirst(attempts, offset + i);
          return;
        }
        lastError := r.error;
      }
      FirstOfIsLast(attempts);
      return Err(lastError);
  }

  /** `None` when the answer to the build request is still awaited as the time runs out. */
  method ResolveViaCircuit(providers: seq<Provider>, relay: RelayAttempt) returns (r: Option<Result<ResolvedContent>>)
    requires relay.enabled && relay.peers >= relay.hops && providers != []
    ensures r.None? <==> relay.Stalls()
    ensures r.Some? && r.value.Ok? ==> r.value == FirstOf(Attempts(providers, relay))
    ensures r.Some? && r.value.Err? && relay.Built() ==>
              forall j :: 0 <= j < |providers| ==> Fetched(Attempts(providers, relay)[j]).Err?
  {
    if relay.peersLater < relay.hops {
      return Some(Err(Loop.FetchError.ConnectionFailed));
    }
    if relay.built.None? {
      return None;
    }
    match relay.built.value
    case Refused(e) => return Some(Err(e));
    case Closed => return Some(Err(Loop.FetchError.ChannelClosed));
    case Got(_) =>
      ghost var attempts := Attempts(providers, relay);
      for i := 0 to |providers|
        invariant forall j :: 0 <= j < i ==> Fetched(attempts[j]).Err?
      {
        assert attempts[i] == providers[i].viaCircuit;
        var fetched := FetchFromPeer(providers[i].viaCircuit);
        if fetched.Ok? {
          FirstOfIsFirst(attempts, i);
          return Some(fetched);
        }
      }
      return Some(Err(Loop.FetchError.NotFound));
  }

  /** Unless it stalls, resolving succeeds exactly when some attempt does, with the first success; otherwise it
      reports the last failure. */
  lemma ResolvedExactlyWhen(providers: seq<Provider>, relay: RelayAttempt)
    requires providers != [] && !relay.Stalls()
    ensures var attempts, r := Attempts(providers, relay), Resolved(Got(providers), relay);
            && (r.Ok? <==> exists k: nat :: FirstSuccess(attempts, k))
            && (r.Ok? ==> exists k: nat :: FirstSuccess(attempts, k) && r == Fetched(attempts[k]))
            && (r.Err? ==> r == Fetched(attempts[|attempts| - 1]))
  {
    var attempts := Attempts(providers, relay);
    if k: nat :| k < |attempts| && Fetched(attempts[k]).Ok? {
      var first := LeastSuccess(attempts, k);
      FirstOfIsFirst(attempts, first);
    } else {
      FirstOfIsLast(attempts);
    }
  }

  lemma {:induction false} LeastSuccess(attempts: seq<PeerAnswers>, k: nat) returns (first: nat)
    requires k < |attempts| && Fetched(attempts[k]).Ok?
    ensures FirstSuccess(attempts, first)
    decreases k
  {
    if j: nat :| j < k && Fetched(attempts[j]).Ok? {
      first := LeastSuccess(attempts, j);
    } else {
      first := k;
    }
  }

  // ── What relaying comes to ───────────────────────────────────────

  /** What the caller of a build has received: nothing while it waits. */
  ghost function BuildAnswer(s: Loop.State, h: Loop.Handle): Option<ChannelReply<Loop.CircuitId>> {
    if Loop.Waiting(s, h) then None
    else match ReplyOn(s.log, h)
      case Some(CircuitReady(c)) => Some(Got(c))
      case Some(Failed(e)) => Some(Refused(e))
      case _ => Some(Closed)
  }

  /** In every regular run of the event loop, relaying contributes nothing: resolving either runs out of time
      or comes down to the direct fetches. */
  lemma RelayingNeverHelps(zkEnabled: bool, es: seq<Loop.Event>, h: Loop.Handle, providers: seq<Provider>,
                           relay: RelayAttempt)
    requires Loop.RegularRun(Loop.INITIAL, zkEnabled, es) && providers != []
    requires relay.built == BuildAnswer(Loop.Run(Loop.INITIAL, zkEnabled, es), h)
    ensures Resolved(Got(providers), relay) ==
              if relay.Stalls() then Err(Loop.FetchError.Timeout) else FirstOf(Direct(providers))
  {
    var s := Loop.Run(Loop.INITIAL, zkEnabled, es);
    if relay.Built() {
      ReplyIsLogged(s.log, h);
      var i :| 0 <= i < |s.log| && s.log[i] == (h, ReplyOn(s.log, h).value);
      Loop.NoBuildEverCompletes(zkEnabled, es, i);
      assert false;
    }
    assert [] + Direct(providers) == Direct(providers);
  }

  /** Once the outcome of a circuit's first cell leaves its build waiting, as an answer that extends the circuit
      does, resolving ends only because the time runs out: the direct fetches are never made, whether or not
      they would succeed. */
  lemma ExtendedCircuitRunsOutOfTime(zkEnabled: bool, before: seq<Loop.Event>, e: Loop.Event, later: seq<Loop.Event>,
                                     id: Loop.RequestId, c: Loop.CircuitId, providers: seq<Provider>,
                                     relay: RelayAttempt)
    requires Loop.PossibleRun(Loop.INITIAL, zkEnabled, before)
    requires var s := Loop.Run(Loop.INITIAL, zkEnabled, before);
             && Loop.PossibleRun(s, zkEnabled, [e] + later)
             && c in s.builds && Loop.Carries(s, id, c) && (forall k :: Loop.Carries(s, k, c) ==> k == id)
             && relay.built == BuildAnswer(Loop.Run(Loop.Step(s, zkEnabled, e), zkEnabled, later), s.builds[c].reply)
    requires (e == Loop.OutboundFailure(id) || (e.ResponseArrived? && e.id == id)) && Loop.LeavesBuildWaiting(e)
    requires forall f | f in later :: !Loop.Revives(zkEnabled, f, c)
    requires relay.Asks() && providers != []
    ensures Resolved(Got(providers), relay) == Err(Loop.FetchError.Timeout)
  {
    Loop.RunKeepsInv(Loop.INITIAL, zkEnabled, before);
    LeftBuildIsUnanswered(Loop.Run(Loop.INITIAL, zkEnabled, before), zkEnabled, e, later, id, c);
  }

  lemma LeftBuildIsUnanswered(s: Loop.State, zkEnabled: bool, e: Loop.Event, later: seq<Loop.Event>,
                              id: Loop.RequestId, c: Loop.CircuitId)
    requires Loop.Inv(s) && Loop.PossibleRun(s, zkEnabled, [e] + later)
    requires c in s.builds && Loop.Carries(s, id, c) && forall k :: Loop.Carries(s, k, c) ==> k == id
    requires (e == Loop.OutboundFailure(id) || (e.ResponseArrived? && e.id == id)) && Loop.LeavesBuildWaiting(e)
    requires forall f | f in later :: !Loop.Revives(zkEnabled, f, c)
    ensures BuildAnswer(Loop.Run(Loop.Step(s, zkEnabled, e), zkEnabled, later), s.builds[c].reply) == None
  {
    var t := Loop.Step(s, zkEnabled, e);
    assert ([e] + later)[1..] == later;
    Loop.StepKeepsInv(s, zkEnabled, e);
    assert forall k | k in s.requests && k != id :: !Loop.Carries(s, k, c);
    Loop.OnlyResponseSettlesOrStrands(s, zkEnabled, e, id, c);
    StrandedIsUnanswered(t, zkEnabled, later, c, s.builds[c].reply);
  }

  lemma StrandedIsUnanswered(s: Loop.State, zkEnabled: bool, later: seq<Loop.Event>, c: Loop.CircuitId, h: Loop.Handle)
    requires Loop.Inv(s) && Loop.PossibleRun(s, zkEnabled, later) && Loop.Stranded(s, c)
    requires Loop.HandleAt(s, Loop.InBuilds(c)) == Some(h) && forall f | f in later :: !Loop.Revives(zkEnabled, f, c)
    ensures BuildAnswer(Loop.Run(s, zkEnabled, later), h) == None
  {
    Loop.StrandedForever(s, zkEnabled, later, c);
    assert Loop.Waiting(Loop.Run(s, zkEnabled, later), h);
  }

  /** So resolving is safe when every attempt is: with honest manifests, an `Ok` result is the content. */
  lemma FirstSuccessIsTheContent(attempts: seq<PeerAnswers>, k: nat, data: Bytes, name: string)
    requires FirstSuccess(attempts, k)
    requires forall a | a in attempts :: AnswersVerified(a)
    requires forall a | a in attempts && a.manifest.Got? ::
               a.manifest.value.fragmentHashes == F.ManifestOf(data, name).fragments
    ensures Fetched(attempts[k]).value.data == data || exists a | a in attempts :: CollidesWith(data, a)
  {
    FetchReturnsTheContent(attempts[k], data, name);
  }
}
