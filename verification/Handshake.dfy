/** The mutual challenge handshake, run by any number of honest sessions over a network that the environment
    controls: it may deliver, drop, replay, reorder and invent messages, and sign with keys that are not honest.
    Signatures are symbolic; nonces are fresh when drawn; honest keys sign handshake payloads only. */
module Handshake {
  import opened Base
  import opened Protocol

  datatype Signature = Signed(key: Key, message: Bytes) | Garbage(bytes: Bytes)

  datatype Stage =
    | AwaitHello
    | AwaitChallenge(remote: Hello, challenge: Nonce, issuedAt: nat)
    | AwaitSignature(remote: Hello, challenge: Nonce, issuedAt: nat, remoteChallenge: Nonce)
    | Done(remote: Hello, challenge: Nonce, issuedAt: nat, remoteChallenge: Nonce, negotiated: Negotiated)
    | Failed

  /** One run of `handshake_inner`. `issuedAt` is how many signatures had been made when the challenge was drawn. */
  datatype Session = Session(hello: Hello, pinned: Option<Key>, stage: Stage)

  /** A signature made by a session over a hello and a challenge it received. */
  datatype Signing = Signing(session: nat, key: Key, hello: Hello, nonce: Nonce)

  datatype World = World(sessions: seq<Session>, signings: seq<Signing>, drawn: set<Nonce>)

  const START := World([], [], {})

  datatype Event =
    | Start(key: Key, features: seq<Bytes>, session: SessionId, pinned: Option<Key>)
    | GetHello(i: nat, hello: Hello, challenge: Nonce)
    | GetChallenge(i: nat, nonce: Nonce)
    | GetSignature(i: nat, signature: Signature)
    | Break(i: nat)

  /** `verify_challenge`: a valid signature under `signer` over our own hello and challenge. */
  predicate Verifies(hello: Hello, challenge: Nonce, signer: Key, s: Signature) {
    s == Signed(signer, Payload(hello, challenge))
  }

  /** Unforgeability: a signature under an honest key was made by an honest session before. */
  ghost predicate Deliverable(honest: set<Key>, w: World, s: Signature) {
    s.Signed? && s.key in honest ==>
      exists k :: 0 <= k < |w.signings| && w.signings[k].key == s.key &&
        Payload(w.signings[k].hello, w.signings[k].nonce) == s.message
  }

  /** What the environment is able to make happen. */
  ghost predicate Enabled(honest: set<Key>, w: World, e: Event) {
    match e
    case Start(key, _, _, _) => key in honest
    case GetHello(i, _, n) => i < |w.sessions| && w.sessions[i].stage.AwaitHello? && n !in w.drawn
    case GetChallenge(i, _) => i < |w.sessions| && w.sessions[i].stage.AwaitChallenge?
    case GetSignature(i, s) => i < |w.sessions| && w.sessions[i].stage.AwaitSignature? && Deliverable(honest, w, s)
    case Break(i) => i < |w.sessions| && !w.sessions[i].stage.Done?
  }

  /** The end of `handshake_inner`: verify, check the pin, negotiate. */
  function Finish(s: Session, signature: Signature): Stage
    requires s.stage.AwaitSignature?
  {
    var remote := s.stage.remote;
    if !Verifies(s.hello, s.stage.challenge, remote.key, signature) then Failed
    else if s.pinned.Some? && s.pinned.value != remote.key then Failed
    else
      var n := Negotiate(s.hello.version, s.hello.features, remote.version, remote.features);
      if n.Err? then Failed
      else Done(remote, s.stage.challenge, s.stage.issuedAt, s.stage.remoteChallenge, n.value)
  }

  function Update(w: World, i: nat, stage: Stage): World
    requires i < |w.sessions|
  {
    w.(sessions := w.sessions[i := w.sessions[i].(stage := stage)])
  }

  function Step(w: World, e: Event): World {
    match e
    case Start(key, features, session, pinned) =>
      w.(sessions := w.sessions + [Session(Hello(PROTOCOL_VERSION, features, key, session), pinned, AwaitHello)])
    case GetHello(i, hello, n) =>
      if i < |w.sessions| then Update(w, i, AwaitChallenge(hello, n, |w.signings|)).(drawn := w.drawn + {n}) else w
    case GetChallenge(i, nonce) =>
      if i < |w.sessions| && w.sessions[i].stage.AwaitChallenge? then
        var s := w.sessions[i];
        Update(w, i, AwaitSignature(s.stage.remote, s.stage.challenge, s.stage.issuedAt, nonce))
          .(signings := w.signings + [Signing(i, s.hello.key, s.stage.remote, nonce)], drawn := w.drawn + {nonce})
      else w
    case GetSignature(i, signature) =>
      if i < |w.sessions| && w.sessions[i].stage.AwaitSignature? then
        Update(w, i, Finish(w.sessions[i], signature))
      else w
    case Break(i) =>
      if i < |w.sessions| then Update(w, i, Failed) else w
  }

  /** The world after a schedule; what is not enabled does not happen. */
  ghost function Run(honest: set<Key>, events: seq<Event>): World {
    if events == [] then START
    else
      var n := |events| - 1;
      var w := Run(honest, events[..n]);
      if Enabled(honest, w, events[n]) then Step(w, events[n]) else w
  }

  predicate Challenging(s: Session) {
    !s.stage.AwaitHello? && !s.stage.Failed?
  }

  predicate HasSigned(s: Session) {
    s.stage.AwaitSignature? || s.stage.Done?
  }

  /** Signing k is signer's answer to session a's own hello and challenge, made after that challenge was drawn. */
  ghost predicate Answers(w: World, k: int, a: int) {
    && 0 <= k < |w.signings| && 0 <= a < |w.sessions| && Challenging(w.sessions[a])
    && w.sessions[a].stage.issuedAt <= k
    && w.signings[k].key == w.sessions[a].stage.remote.key
    && w.signings[k].hello == w.sessions[a].hello
    && w.signings[k].nonce == w.sessions[a].stage.challenge
  }

  /** The signing is over what its session received. */
  predicate Covers(g: Signing, stage: Stage)
    requires stage.AwaitSignature? || stage.Done?
  {
    g.hello == stage.remote && g.nonce == stage.remoteChallenge
  }

  /** Owners are honest, challenges are fresh and distinct, and signings are made once, by honest sessions, over
      what they received; none made before a challenge was drawn covers it. */
  ghost predicate Orderly(honest: set<Key>, w: World) {
    && (forall i :: 0 <= i < |w.sessions| ==> w.sessions[i].hello.key in honest)
    && (forall i :: 0 <= i < |w.sessions| && Challenging(w.sessions[i]) ==>
          w.sessions[i].stage.challenge in w.drawn && w.sessions[i].stage.issuedAt <= |w.signings|)
    && (forall i, j :: 0 <= i < j < |w.sessions| && Challenging(w.sessions[i]) && Challenging(w.sessions[j]) ==>
          w.sessions[i].stage.challenge != w.sessions[j].stage.challenge)
    && (forall k :: 0 <= k < |w.signings| ==> w.signings[k].nonce in w.drawn)
    && (forall k :: 0 <= k < |w.signings| ==> var g := w.signings[k];
          && g.session < |w.sessions|
          && g.key == w.sessions[g.session].hello.key
          && !w.sessions[g.session].stage.AwaitHello? && !w.sessions[g.session].stage.AwaitChallenge?
          && (HasSigned(w.sessions[g.session]) ==> Covers(g, w.sessions[g.session].stage)))
    && (forall i, k :: 0 <= i < |w.sessions| && Challenging(w.sessions[i]) && 0 <= k < w.sessions[i].stage.issuedAt ==>
          w.signings[k].nonce != w.sessions[i].stage.challenge)
    && (forall j, k :: 0 <= j < k < |w.signings| ==> w.signings[j].session != w.signings[k].session)
  }

  /** Completed sessions respect their pin and, if the remote is honest, were answered. */
  ghost predicate Completions(honest: set<Key>, w: World) {
    forall i :: 0 <= i < |w.sessions| && w.sessions[i].stage.Done? ==> Completed(honest, w, i)
  }

  ghost predicate Completed(honest: set<Key>, w: World, i: int)
    requires 0 <= i < |w.sessions| && w.sessions[i].stage.Done?
  {
    && (w.sessions[i].pinned.Some? ==> w.sessions[i].pinned.value == w.sessions[i].stage.remote.key)
    && (w.sessions[i].stage.remote.key in honest ==> exists k :: Answers(w, k, i))
  }

  ghost predicate Invariant(honest: set<Key>, w: World) {
    Orderly(honest, w) && Completions(honest, w)
  }

  lemma {:induction false} StartPreserves(honest: set<Key>, w: World, e: Event)
    requires Invariant(honest, w) && e.Start? && Enabled(honest, w, e)
    ensures Invariant(honest, Step(w, e))
  {
    KeepsAnswers(honest, w, Step(w, e));
  }

  lemma {:induction false} GetHelloPreserves(honest: set<Key>, w: World, e: Event)
    requires Invariant(honest, w) && e.GetHello? && Enabled(honest, w, e)
    ensures Invariant(honest, Step(w, e))
  {
    KeepsAnswers(honest, w, Step(w, e));
  }

  lemma {:induction false} GetChallengePreserves(honest: set<Key>, w: World, e: Event)
    requires Invariant(honest, w) && e.GetChallenge? && Enabled(honest, w, e)
    ensures Invariant(honest, Step(w, e))
  {
    var w' := Step(w, e);
    KeepsAnswers(honest, w, w');
  }

  lemma {:induction false} GetSignatureOrderly(honest: set<Key>, w: World, e: Event)
    requires Orderly(honest, w) && e.GetSignature? && Enabled(honest, w, e)
    ensures Orderly(honest, Step(w, e))
  {
  }

  lemma {:induction false} GetSignaturePreserves(honest: set<Key>, w: World, e: Event)
    requires Invariant(honest, w) && e.GetSignature? && Enabled(honest, w, e)
    ensures Invariant(honest, Step(w, e))
  {
    var w' := Step(w, e);
    GetSignatureOrderly(honest, w, e);
    KeepsAnswers(honest, w, w');
    if w'.sessions[e.i].stage.Done? {
      AnswerFound(honest, w, w', e.i, e.signature);
    }
  }

  /** A signature that verifies under an honest key is an answer to this session: unforgeability and unique
      splitting. */
  lemma {:induction false} AnswerFound(honest: set<Key>, w: World, w': World, i: nat, signature: Signature)
    requires Orderly(honest, w) && i < |w.sessions|
    requires w.sessions[i].stage.AwaitSignature? && Deliverable(honest, w, signature)
    requires w' == Update(w, i, Finish(w.sessions[i], signature)) && w'.sessions[i].stage.Done?
    ensures Completed(honest, w', i)
  {
    var s := w.sessions[i];
    if s.stage.remote.key in honest {
      var k :| 0 <= k < |w.signings| && w.signings[k].key == s.stage.remote.key
        && Payload(w.signings[k].hello, w.signings[k].nonce) == Payload(s.hello, s.stage.challenge);
      PayloadSplits(w.signings[k].hello, w.signings[k].nonce, s.hello, s.stage.challenge);
      assert Answers(w', k, i);
    }
  }

  lemma {:induction false} BreakPreserves(honest: set<Key>, w: World, e: Event)
    requires Invariant(honest, w) && e.Break? && Enabled(honest, w, e)
    ensures Invariant(honest, Step(w, e))
  {
    KeepsAnswers(honest, w, Step(w, e));
  }

  /** Completed sessions and recorded signings stay as they are, so answers stay answers. */
  lemma {:induction false} KeepsAnswers(honest: set<Key>, w: World, w': World)
    requires Completions(honest, w)
    requires w.signings <= w'.signings && |w.sessions| <= |w'.sessions|
    requires forall i :: 0 <= i < |w.sessions| && w.sessions[i].stage.Done? ==> w'.sessions[i] == w.sessions[i]
    ensures forall i :: 0 <= i < |w.sessions| && w.sessions[i].stage.Done? ==> Completed(honest, w', i)
  {
    forall i | 0 <= i < |w.sessions| && w.sessions[i].stage.Done? ensures Completed(honest, w', i) {
      assert Completed(honest, w, i);
      if w.sessions[i].stage.remote.key in honest {
        var k :| Answers(w, k, i);
        assert Answers(w', k, i);
      }
    }
  }

  lemma {:induction false} RunInvariant(honest: set<Key>, events: seq<Event>)
    ensures Invariant(honest, Run(honest, events))
  {
    if events != [] {
      var n := |events| - 1;
      RunInvariant(honest, events[..n]);
      var w, e := Run(honest, events[..n]), events[n];
      if Enabled(honest, w, e) {
        match e
        case Start(_, _, _, _) => StartPreserves(honest, w, e);
        case GetHello(_, _, _) => GetHelloPreserves(honest, w, e);
        case GetChallenge(_, _) => GetChallengePreserves(honest, w, e);
        case GetSignature(_, _) => GetSignaturePreserves(honest, w, e);
        case Break(_) => BreakPreserves(honest, w, e);
      }
    }
  }

  /** The session was brought its own hello and its own challenge. */
  predicate Reflected(s: Session) {
    s.stage.Done? && s.stage.remote == s.hello && s.stage.remoteChallenge == s.stage.challenge
  }

  /** Injective agreement, in every run: a session that completes with an honest remote identity was answered by a
      session of that identity, which signed exactly its hello and its challenge after the challenge was drawn;
      one signing answers one session only, and every session signs at most once. Unless the remote key is its own, that
      is another session; a session can answer itself only when it was brought its own hello and challenge. */
  lemma {:induction false} InjectiveAgreement(honest: set<Key>, events: seq<Event>, a: nat)
    requires var w := Run(honest, events);
      a < |w.sessions| && w.sessions[a].stage.Done? && w.sessions[a].stage.remote.key in honest
    ensures var w := Run(honest, events);
      exists k :: Answers(w, k, a) && w.signings[k].session < |w.sessions|
        && w.sessions[w.signings[k].session].hello.key == w.sessions[a].stage.remote.key
        && (w.sessions[a].stage.remote.key != w.sessions[a].hello.key ==> w.signings[k].session != a)
        && (w.signings[k].session == a ==> Reflected(w.sessions[a]))
        && (forall b :: Answers(w, k, b) ==> b == a)
        && (forall j :: 0 <= j < |w.signings| && w.signings[j].session == w.signings[k].session ==> j == k)
  {
    RunInvariant(honest, events);
    var w := Run(honest, events);
    assert Completed(honest, w, a);
    var k :| Answers(w, k, a);
    assert w.signings[k].session < |w.sessions|;
    forall b | Answers(w, k, b) ensures b == a {
      assert w.sessions[b].stage.challenge == w.sessions[a].stage.challenge;
    }
  }

  /** Event j brought session a the hello it holds, with the challenge it drew then. */
  ghost predicate Brought(honest: set<Key>, events: seq<Event>, a: nat, j: int)
    requires a < |Run(honest, events).sessions| && Challenging(Run(honest, events).sessions[a])
  {
    var stage := Run(honest, events).sessions[a].stage;
    && 0 <= j < |events| && events[j] == GetHello(a, stage.remote, stage.challenge)
    && Enabled(honest, Run(honest, events[..j]), events[j])
  }

  /** The remote hello a session holds is the one the network brought it, whoever wrote it. */
  lemma {:induction false} RemoteHelloWasBrought(honest: set<Key>, events: seq<Event>, a: nat) returns (j: nat)
    requires var w := Run(honest, events); a < |w.sessions| && Challenging(w.sessions[a])
    ensures Brought(honest, events, a, j)
  {
    var n := |events| - 1;
    var w, e := Run(honest, events[..n]), events[n];
    if Enabled(honest, w, e) && e.GetHello? && e.i == a {
      j := n;
    } else {
      assert a < |w.sessions| && Challenging(w.sessions[a]);
      j := RemoteHelloWasBrought(honest, events[..n], a);
      assert events[..n][..j] == events[..j];
    }
  }

  /** Session b made the signature that answers session a. */
  ghost predicate AnsweredBy(w: World, a: nat, b: nat) {
    exists k :: Answers(w, k, a) && w.signings[k].session == b
  }

  /** What a completed session knows of the session that answered it, and what it does not. That session holds this
      one's exact hello, and its key is the remote key; the rest of the remote hello is not covered by the signature.
      When each answered the other, both hold the other's exact hello, and they negotiated the same protocol exactly
      when the features they share are listed equally often. */
  lemma {:induction false} MutualAgreement(honest: set<Key>, events: seq<Event>, a: nat, b: nat)
    requires var w := Run(honest, events); a < |w.sessions| && w.sessions[a].stage.Done? && AnsweredBy(w, a, b)
    ensures var w := Run(honest, events);
      && b < |w.sessions| && w.sessions[b].hello.key == w.sessions[a].stage.remote.key
      && (HasSigned(w.sessions[b]) ==> w.sessions[b].stage.remote == w.sessions[a].hello)
      && (w.sessions[b].stage.Done? && AnsweredBy(w, b, a) ==>
            var s, t := w.sessions[a], w.sessions[b];
            && s.stage.remote == t.hello && t.stage.remote == s.hello
            && s.stage.remoteChallenge == t.stage.challenge && t.stage.remoteChallenge == s.stage.challenge
            && (s.stage.negotiated == t.stage.negotiated <==>
                  var f, g := s.hello.features, t.hello.features;
                  forall x :: x in f && x in g ==> multiset(f)[x] == multiset(g)[x]))
  {
    RunInvariant(honest, events);
    var w := Run(honest, events);
    var k :| Answers(w, k, a) && w.signings[k].session == b;
    if w.sessions[b].stage.Done? && AnsweredBy(w, b, a) {
      var l :| Answers(w, l, b) && w.signings[l].session == a;
      var s, t := w.sessions[a], w.sessions[b];
      NegotiatedWithRemote(honest, events, a);
      NegotiatedWithRemote(honest, events, b);
      NegotiationAgrees(s.hello.version, s.hello.features, t.hello.version, t.hello.features);
    }
  }

  /** A completed session holds the outcome of negotiating its own hello with the remote hello it was brought. */
  lemma {:induction false} NegotiatedWithRemote(honest: set<Key>, events: seq<Event>, a: nat)
    requires var w := Run(honest, events); a < |w.sessions| && w.sessions[a].stage.Done?
    ensures var s := Run(honest, events).sessions[a]; var r := s.stage.remote;
      Negotiate(s.hello.version, s.hello.features, r.version, r.features) == Ok(s.stage.negotiated)
  {
    var n := |events| - 1;
    var w, e := Run(honest, events[..n]), events[n];
    if Enabled(honest, w, e) && e.GetSignature? && e.i == a {
    } else {
      assert a < |w.sessions| && w.sessions[a].stage.Done?;
      NegotiatedWithRemote(honest, events[..n], a);
    }
  }

  /** In every run, a completed session's negotiated version shares its own major and is no newer than its own hello and
      the one it was brought; brought version 1.0, as every session here sends, it is 1.0. */
  lemma {:induction false} CompletedVersion(honest: set<Key>, events: seq<Event>, a: nat)
    requires var w := Run(honest, events); a < |w.sessions| && w.sessions[a].stage.Done?
    ensures var s := Run(honest, events).sessions[a]; var v := s.stage.negotiated.version;
      && v.major == s.hello.version.major == s.stage.remote.version.major
      && v.minor <= s.hello.version.minor && v.minor <= s.stage.remote.version.minor
      && s.hello.version == Version(1, 0)
      && (s.stage.remote.version == Version(1, 0) ==> v == Version(1, 0))
  {
    NegotiatedWithRemote(honest, events, a);
    SessionsSpeakOne(honest, events, a);
    var s := Run(honest, events).sessions[a];
    var r := s.stage.remote;
    NegotiatedVersion(s.hello.version, s.hello.features, r.version, r.features, s.stage.negotiated);
  }

  lemma {:induction false} SessionsSpeakOne(honest: set<Key>, events: seq<Event>, a: nat)
    requires a < |Run(honest, events).sessions|
    ensures Run(honest, events).sessions[a].hello.version == Version(1, 0)
  {
    var n := |events| - 1;
    var w := Run(honest, events[..n]);
    if a < |w.sessions| {
      SessionsSpeakOne(honest, events[..n], a);
    }
  }

  /** Exactly when the last message completes a session: the signature is the remote key's over this session's own hello
      and challenge, a pin names that key, and both ends speak the same major version. */
  lemma {:induction false} CompletesIff(honest: set<Key>, w: World, i: nat, signature: Signature)
    requires i < |w.sessions| && w.sessions[i].stage.AwaitSignature?
    ensures var s := w.sessions[i]; var t := Step(w, GetSignature(i, signature)).sessions[i];
      && (t.stage.Done? <==>
            && signature == Signed(s.stage.remote.key, EncodeHello(s.hello) + s.stage.challenge)
            && (s.pinned.Some? ==> s.pinned.value == s.stage.remote.key)
            && s.hello.version.major == s.stage.remote.version.major)
      && (!t.stage.Done? ==> t.stage.Failed?)
      && (t.stage.Done? ==> t.stage.remote == s.stage.remote && t.stage.challenge == s.stage.challenge)
  {
  }

  /** A pinned session never completes with another identity. */
  lemma {:induction false} PinIsRespected(honest: set<Key>, events: seq<Event>, a: nat)
    requires var w := Run(honest, events); a < |w.sessions| && w.sessions[a].stage.Done? && w.sessions[a].pinned.Some?
    ensures var w := Run(honest, events); w.sessions[a].stage.remote.key == w.sessions[a].pinned.value
  {
    RunInvariant(honest, events);
    assert Completed(honest, Run(honest, events), a);
  }

  lemma {:induction false} RunSnoc(honest: set<Key>, events: seq<Event>, e: Event)
    ensures var w := Run(honest, events);
      Run(honest, events + [e]) == if Enabled(honest, w, e) then Step(w, e) else w
  {
    assert (events + [e])[..|events|] == events;
  }

  /** The handshake succeeds over a network that just carries the messages: both ends complete, each with the
      other's hello, whenever their pins name each other or nobody. */
  lemma {:induction false} FaithfulRunCompletes(honest: set<Key>, ka: Key, kb: Key, fa: seq<Bytes>, fb: seq<Bytes>,
      sa: SessionId, sb: SessionId, pa: Option<Key>, pb: Option<Key>, na: Nonce, nb: Nonce)
    returns (events: seq<Event>)
    requires ka in honest && kb in honest && na != nb
    requires (pa.None? || pa.value == kb) && (pb.None? || pb.value == ka)
    ensures var w := Run(honest, events);
      && |w.sessions| == 2 && w.sessions[0].stage.Done? && w.sessions[1].stage.Done?
      && w.sessions[0].hello == Hello(PROTOCOL_VERSION, fa, ka, sa) == w.sessions[1].stage.remote
      && w.sessions[1].hello == Hello(PROTOCOL_VERSION, fb, kb, sb) == w.sessions[0].stage.remote
  {
    var a, b := Hello(PROTOCOL_VERSION, fa, ka, sa), Hello(PROTOCOL_VERSION, fb, kb, sb);
    events := ExchangedChallenges(honest, a, b, b, pa, pb, na, nb);
    var w := Run(honest, events);
    assert w.signings[1] == Signing(1, kb, a, na) && w.signings[0] == Signing(0, ka, b, nb);
    events, w := Extend(honest, events, GetSignature(0, Signed(kb, Payload(a, na))));
    assert w.signings[0] == Signing(0, ka, b, nb);
    events, w := Extend(honest, events, GetSignature(1, Signed(ka, Payload(b, nb))));
  }

  /** Any hello under the remote's own key, with whatever features, session id and minor version, can be put in place
      of the remote's: a completes with it and negotiates by it, answered by the real remote's signature. The remote
      itself is left waiting. */
  lemma {:induction false} ForgedHelloRun(honest: set<Key>, a: Hello, b: Hello, forged: Hello, na: Nonce, nb: Nonce)
    returns (events: seq<Event>)
    requires a.key in honest && b.key in honest && na != nb
    requires a.version == PROTOCOL_VERSION == b.version
    requires forged.key == b.key && forged.version.major == PROTOCOL_VERSION.major
    ensures var w := Run(honest, events);
      && |w.sessions| == 2 && w.sessions[0].hello == a && w.sessions[1].hello == b
      && w.sessions[0].stage.Done? && w.sessions[0].stage.remote == forged && AnsweredBy(w, 0, 1)
      && Ok(w.sessions[0].stage.negotiated) == Negotiate(a.version, a.features, forged.version, forged.features)
      && w.sessions[1].stage.AwaitSignature?
  {
    events := ExchangedChallenges(honest, a, b, forged, None, None, na, nb);
    var w := Run(honest, events);
    assert w.signings[1] == Signing(1, b.key, a, na);
    events, w := Extend(honest, events, GetSignature(0, Signed(b.key, Payload(a, na))));
    assert Answers(w, 1, 0);
  }

  /** Failing run: a session that is brought back everything it sends completes, with its own identity as remote. A
      pin on another identity prevents this. */
  lemma {:induction false} ReflectionRun(honest: set<Key>, key: Key, features: seq<Bytes>, session: SessionId, n: Nonce)
    returns (events: seq<Event>)
    requires key in honest
    ensures var w := Run(honest, events);
      |w.sessions| == 1 && Reflected(w.sessions[0]) && w.sessions[0].hello.key == key && AnsweredBy(w, 0, 0)
  {
    var own := Hello(PROTOCOL_VERSION, features, key, session);
    var w := START;
    events := [];
    assert Run(honest, events) == w;
    events, w := Extend(honest, events, Start(key, features, session, None));
    events, w := Extend(honest, events, GetHello(0, own, n));
    events, w := Extend(honest, events, GetChallenge(0, n));
    assert w.signings[0] == Signing(0, key, own, n);
    events, w := Extend(honest, events, GetSignature(0, Signed(key, Payload(own, n))));
    assert Answers(w, 0, 0);
  }

  /** Session 0 is brought `seen` as the hello of session 1; session 1 is brought the hello of session 0. */
  lemma {:induction false} ExchangedChallenges(honest: set<Key>, a: Hello, b: Hello, seen: Hello, pa: Option<Key>,
      pb: Option<Key>, na: Nonce, nb: Nonce) returns (events: seq<Event>)
    requires a.key in honest && b.key in honest && na != nb
    requires a.version == PROTOCOL_VERSION == b.version
    ensures Run(honest, events) ==
      World([Session(a, pa, AwaitSignature(seen, na, 0, nb)), Session(b, pb, AwaitSignature(a, nb, 0, na))],
            [Signing(0, a.key, seen, nb), Signing(1, b.key, a, na)], {na, nb})
  {
    events := ExchangedHellos(honest, a, b, seen, pa, pb, na, nb);
    var w;
    events, w := Extend(honest, events, GetChallenge(0, nb));
    events, w := Extend(honest, events, GetChallenge(1, na));
  }

  lemma {:induction false} ExchangedHellos(honest: set<Key>, a: Hello, b: Hello, seen: Hello, pa: Option<Key>,
      pb: Option<Key>, na: Nonce, nb: Nonce) returns (events: seq<Event>)
    requires a.key in honest && b.key in honest && na != nb
    requires a.version == PROTOCOL_VERSION == b.version
    ensures Run(honest, events) ==
      World([Session(a, pa, AwaitChallenge(seen, na, 0)), Session(b, pb, AwaitChallenge(a, nb, 0))], [], {na, nb})
  {
    var w := START;
    events := [];
    assert Run(honest, events) == w;
    events, w := Extend(honest, events, Start(a.key, a.features, a.session, pa));
    events, w := Extend(honest, events, Start(b.key, b.features, b.session, pb));
    assert w.sessions == [Session(a, pa, AwaitHello), Session(b, pb, AwaitHello)];
    events, w := Extend(honest, events, GetHello(0, seen, na));
    events, w := Extend(honest, events, GetHello(1, a, nb));
  }

  lemma {:induction false} Extend(honest: set<Key>, events: seq<Event>, e: Event) returns (next: seq<Event>, w: World)
    requires Enabled(honest, Run(honest, events), e)
    ensures next == events + [e] && w == Run(honest, next) == Step(Run(honest, events), e)
  {
    next := events + [e];
    RunSnoc(honest, events, e);
    w := Run(honest, next);
  }
}
