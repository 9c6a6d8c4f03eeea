/** The continuation blobs: minting, verifying once, and forgetting spent ids. */
module McpContinuation {
  import opened Names

  const TTL_SECONDS: int := 300

  /** mcpContinuationPayload. */
  datatype Payload = Payload(v: int, jti: string, prin: string, exp: int, req: string)

  /** The MAC of a payload under a process key, or some other byte string. */
  datatype Mac = MacOf(key: nat, payload: Payload) | OtherBytes

  /** A presented blob: not two canonical base64url parts around one dot, or two parts
      whose first may or may not hold a payload. */
  datatype Blob = Garbled | Signed(payload: Payload, mac: Mac) | SignedNoise(mac: Mac)

  datatype Refusal = BadState | Expired | WrongClient | WrongRequest | Reused

  /** One successful verification. */
  datatype Acceptance = Acceptance(jti: string, prin: string, req: string, now: int)

  /** What a process has done: spent ids with their expiry, and the history the security
      claims are about. */
  datatype Ledger = Ledger(key: nat, consumed: map<string, int>, minted: set<Payload>,
                           accepted: seq<Acceptance>, clock: int)

  datatype Event =
    | Mint(jti: string, prin: string, req: string, now: int)
    | Verify(blob: Blob, prin: string, req: string, now: int)

  function Fresh(key: nat, clock: int): Ledger {
    Ledger(key, map[], {}, [], clock)
  }

  /** The run's assumptions: time does not go back, ids are fresh and not empty, and no one
      else can MAC a payload under the process key. */
  ghost predicate Admissible(l: Ledger, e: Event) {
    l.clock <= e.now &&
    match e
    case Mint(jti, _, _, _) => jti != "" && forall p :: p in l.minted ==> p.jti != jti
    case Verify(blob, _, _, _) =>
      (blob.Signed? && blob.mac == MacOf(l.key, blob.payload) ==> blob.payload in l.minted)
      && (blob.SignedNoise? ==> forall p :: blob.mac != MacOf(l.key, p))
  }

  function Minted(e: Event): Payload
    requires e.Mint?
  {
    Payload(1, e.jti, e.prin, e.now + TTL_SECONDS, e.req)
  }

  function Pruned(consumed: map<string, int>, now: int): map<string, int> {
    map id | id in consumed && consumed[id] > now :: consumed[id]
  }

  /** The checks of verify, in order. */
  function Verdict(l: Ledger, e: Event): Option<Refusal>
    requires e.Verify?
  {
    if !(e.blob.Signed? && e.blob.mac == MacOf(l.key, e.blob.payload)) then Some(BadState)
    else
      var p := e.blob.payload;
      if p.v != 1 || p.jti == "" then Some(BadState)
      else if p.exp <= e.now then Some(Expired)
      else if p.prin != e.prin then Some(WrongClient)
      else if p.req != e.req then Some(WrongRequest)
      else if p.jti in Pruned(l.consumed, e.now) then Some(Reused)
      else None
  }

  /** Whether verify gets as far as pruning. */
  predicate Prunes(l: Ledger, e: Event)
    requires e.Verify?
  {
    e.blob.Signed? && e.blob.mac == MacOf(l.key, e.blob.payload) && e.blob.payload.v == 1 && e.blob.payload.jti != ""
  }

  function Next(l: Ledger, e: Event): Ledger {
    match e
    case Mint(_, _, _, now) => l.(minted := l.minted + {Minted(e)}, clock := now)
    case Verify(blob, prin, req, now) =>
      if !Prunes(l, e) then l.(clock := now)
      else
        var kept := Pruned(l.consumed, now);
        if Verdict(l, e).Some? then l.(consumed := kept, clock := now)
        else l.(consumed := kept[blob.payload.jti := blob.payload.exp],
                accepted := l.accepted + [Acceptance(blob.payload.jti, prin, req, now)], clock := now)
  }

  // --- The process's object ---------------------------------------------------------

  class Continuation {
    const key: nat
    var consumed: map<string, int>
    ghost var minted: set<Payload>
    ghost var accepted: seq<Acceptance>
    ghost var clock: int

    ghost function State(): Ledger
      reads this
    {
      Ledger(key, consumed, minted, accepted, clock)
    }

    constructor (key: nat, ghost start: int)
      ensures State() == Fresh(key, start)
    {
      this.key, consumed, minted, accepted, clock := key, map[], {}, [], start;
    }

    /** mint, under a random id. */
    method MintBlob(jti: string, principal: string, digest: string, now: int) returns (blob: Blob)
      modifies this
      ensures State() == Next(old(State()), Mint(jti, principal, digest, now))
      ensures blob == Signed(Minted(Mint(jti, principal, digest, now)),
        MacOf(key, Minted(Mint(jti, principal, digest, now))))
    {
      var payload := Payload(1, jti, principal, now + TTL_SECONDS, digest);
      minted, clock := minted + {payload}, now;
      return Signed(payload, MacOf(key, payload));
    }

    /** prune: the range visits the ids in any order. */
    method Prune(now: int)
      modifies this`consumed
      ensures consumed == Pruned(old(consumed), now)
    {
      var todo := consumed.Keys;
      while todo != {}
        invariant todo <= old(consumed).Keys
        invariant forall id :: id in consumed <==> id in old(consumed) && (id in todo || old(consumed)[id] > now)
        invariant forall id :: id in consumed ==> consumed[id] == old(consumed)[id]
      {
        var id :| id in todo;
        todo := todo - {id};
        if consumed[id] <= now {
          consumed := consumed - {id};
        }
      }
    }

    /** verify: consumes the blob when every check passes. */
    method VerifyBlob(blob: Blob, principal: string, digest: string, now: int) returns (refusal: Option<Refusal>)
      modifies this
      ensures State() == Next(old(State()), Verify(blob, principal, digest, now))
      ensures refusal == Verdict(old(State()), Verify(blob, principal, digest, now))
    {
      clock := now;
      if blob.Garbled? { return Some(BadState); }
      if blob.SignedNoise? { return Some(BadState); }
      if blob.mac != MacOf(key, blob.payload) { return Some(BadState); }
      var payload := blob.payload;
      if payload.v != 1 || payload.jti == "" { return Some(BadState); }
      Prune(now);
      if payload.exp <= now { return Some(Expired); }
      if payload.prin != principal { return Some(WrongClient); }
      if payload.req != digest { return Some(WrongRequest); }
      if payload.jti in consumed { return Some(Reused); }
      consumed := consumed[payload.jti := payload.exp];
      accepted := accepted + [Acceptance(payload.jti, principal, digest, now)];
      return None;
    }
  }

  // --- Every run ------------------------------------------------------------------------

  function Run(l: Ledger, events: seq<Event>): Ledger {
    if events == [] then l else Next(Run(l, events[..|events| - 1]), events[|events| - 1])
  }

  ghost predicate AdmissibleRun(l: Ledger, events: seq<Event>) {
    forall i :: 0 <= i < |events| ==> Admissible(Run(l, events[..i]), events[i])
  }

  /** p is the minted payload that carries this id. */
  ghost predicate IssuedAs(l: Ledger, jti: string, p: Payload) {
    p in l.minted && p.jti == jti
  }

  /** An id that can never be accepted again: spent and remembered, or expired. */
  ghost predicate Dead(l: Ledger, jti: string) {
    jti in l.consumed || forall p :: IssuedAs(l, jti, p) ==> p.exp <= l.clock
  }

  /** Ids are unique and well formed. */
  ghost predicate MintedSound(l: Ledger) {
    && (forall p, q :: p in l.minted && q in l.minted && p.jti == q.jti ==> p == q)
    && (forall p :: p in l.minted ==> p.v == 1 && p.jti != "")
  }

  ghost predicate ConsumedSound(l: Ledger) {
    forall id :: id in l.consumed ==> exists p :: IssuedAs(l, id, p) && p.exp == l.consumed[id]
  }

  ghost predicate AcceptedSound(l: Ledger) {
    && (forall i :: 0 <= i < |l.accepted| ==> GoodAcceptance(l, l.accepted[i]))
    && (forall i, j :: 0 <= i < j < |l.accepted| ==> l.accepted[i].jti != l.accepted[j].jti)
  }

  /** What every reachable ledger keeps. */
  ghost predicate Sound(l: Ledger) {
    MintedSound(l) && ConsumedSound(l) && AcceptedSound(l)
  }

  /** Accepted for its own principal and request, before it expired, and dead since. */
  ghost predicate GoodAcceptance(l: Ledger, a: Acceptance) {
    && (exists p :: IssuedAs(l, a.jti, p) && p.prin == a.prin && p.req == a.req && a.now < p.exp)
    && Dead(l, a.jti)
  }

  lemma FreshSound(key: nat, clock: int)
    ensures Sound(Fresh(key, clock))
  {
  }

  /** A dead id stays dead, whatever comes, pruning included. */
  lemma DeadStays(l: Ledger, e: Event, jti: string)
    requires Sound(l) && Admissible(l, e) && Dead(l, jti) && exists p :: IssuedAs(l, jti, p)
    ensures Dead(Next(l, e), jti)
  {
    var p :| IssuedAs(l, jti, p);
    var n := Next(l, e);
    assert forall q :: IssuedAs(n, jti, q) ==> q == p;
    if jti !in n.consumed {
      assert p.exp <= e.now;
    }
  }

  lemma IssuedStays(l: Ledger, e: Event)
    ensures forall jti, p :: IssuedAs(l, jti, p) ==> IssuedAs(Next(l, e), jti, p)
  {
  }

  lemma NextMinted(l: Ledger, e: Event)
    requires Sound(l) && Admissible(l, e)
    ensures MintedSound(Next(l, e))
  {
  }

  lemma NextConsumed(l: Ledger, e: Event)
    requires Sound(l) && Admissible(l, e)
    ensures ConsumedSound(Next(l, e))
  {
    var n := Next(l, e);
    IssuedStays(l, e);
    forall id | id in n.consumed ensures exists p :: IssuedAs(n, id, p) && p.exp == n.consumed[id] {
      if id in l.consumed && n.consumed[id] == l.consumed[id] {
        var p :| IssuedAs(l, id, p) && p.exp == l.consumed[id];
        assert IssuedAs(n, id, p);
      } else {
        assert IssuedAs(n, id, e.blob.payload);
      }
    }
  }

  lemma NextAccepted(l: Ledger, e: Event)
    requires Sound(l) && Admissible(l, e)
    ensures AcceptedSound(Next(l, e))
  {
    var n := Next(l, e);
    IssuedStays(l, e);
    forall i | 0 <= i < |l.accepted| ensures GoodAcceptance(n, l.accepted[i]) {
      assert GoodAcceptance(l, l.accepted[i]);
      DeadStays(l, e, l.accepted[i].jti);
    }
    if |n.accepted| > |l.accepted| {
      AcceptanceIsNew(l, e);
    }
  }

  lemma NextSound(l: Ledger, e: Event)
    requires Sound(l) && Admissible(l, e)
    ensures Sound(Next(l, e))
  {
    NextMinted(l, e);
    NextConsumed(l, e);
    NextAccepted(l, e);
    hide Next, Admissible, GoodAcceptance, IssuedAs;
  }

  /** A verification that passes is the first for its id and is within its bounds. */
  lemma AcceptanceIsNew(l: Ledger, e: Event)
    requires Sound(l) && Admissible(l, e) && e.Verify? && Verdict(l, e).None?
    ensures GoodAcceptance(Next(l, e), Acceptance(e.blob.payload.jti, e.prin, e.req, e.now))
    ensures forall i :: 0 <= i < |l.accepted| ==> l.accepted[i].jti != e.blob.payload.jti
  {
    var p := e.blob.payload;
    assert IssuedAs(Next(l, e), p.jti, p);
    forall i | 0 <= i < |l.accepted| ensures l.accepted[i].jti != p.jti {
      if l.accepted[i].jti == p.jti {
        assert GoodAcceptance(l, l.accepted[i]);
        DeadRefused(l, e, p.jti);
      }
    }
  }

  /** A dead id is refused. */
  lemma DeadRefused(l: Ledger, e: Event, jti: string)
    requires Sound(l) && Admissible(l, e) && e.Verify? && Dead(l, jti)
    requires e.blob.Signed? && e.blob.payload.jti == jti
    ensures Verdict(l, e).Some?
  {
    var p := e.blob.payload;
    if e.blob.mac == MacOf(l.key, p) {
      assert IssuedAs(l, jti, p);
      if jti in l.consumed {
        var q :| IssuedAs(l, jti, q) && q.exp == l.consumed[jti];
        assert p == q;
      }
    }
  }

  lemma {:induction false} RunSound(key: nat, start: int, events: seq<Event>)
    requires AdmissibleRun(Fresh(key, start), events)
    ensures Sound(Run(Fresh(key, start), events))
  {
    hide Sound, Admissible, Next;
    if events == [] {
      FreshSound(key, start);
    } else {
      var n := |events| - 1;
      var front := events[..n];
      forall i | 0 <= i < |front| ensures Admissible(Run(Fresh(key, start), front[..i]), front[i]) {
        assert front[..i] == events[..i];
      }
      RunSound(key, start, front);
      NextSound(Run(Fresh(key, start), front), events[n]);
    }
  }

  /** Over every admissible run, no id is accepted twice, and each acceptance is for the
      principal and request it was minted for, before its expiry. */
  lemma AcceptedOnce(key: nat, start: int, events: seq<Event>, i: nat, j: nat)
    requires AdmissibleRun(Fresh(key, start), events)
    requires var l := Run(Fresh(key, start), events); i < |l.accepted| && j < |l.accepted|
    ensures var l := Run(Fresh(key, start), events);
      && (l.accepted[i].jti == l.accepted[j].jti ==> i == j)
      && exists p :: IssuedAs(l, l.accepted[i].jti, p) && p.prin == l.accepted[i].prin &&
                     p.req == l.accepted[i].req && l.accepted[i].now < p.exp
  {
    RunSound(key, start, events);
    var l := Run(Fresh(key, start), events);
    assert GoodAcceptance(l, l.accepted[i]);
  }

  /** A legitimate presentation is accepted: pruning and history never refuse a live,
      unspent blob to its own client for its own request. */
  lemma LiveAccepted(l: Ledger, p: Payload, now: int)
    requires Sound(l) && p in l.minted && !Dead(l, p.jti) && now < p.exp
    ensures Verdict(l, Verify(Signed(p, MacOf(l.key, p)), p.prin, p.req, now)).None?
  {
  }

  // --- The verdict, read off the history ----------------------------------------------------

  /** What a mint at m.now puts into its blob: 300 seconds to live. */
  function BlobOf(key: nat, m: Event): Blob
    requires m.Mint?
  {
    var p := Payload(1, m.jti, m.prin, m.now + 300, m.req);
    Signed(p, MacOf(key, p))
  }

  /** The run minted m. */
  ghost predicate Issues(events: seq<Event>, m: Event) {
    m in events && m.Mint?
  }

  /** Its blob was presented in time by the client it was minted for, for its own request. */
  ghost predicate Presented(key: nat, events: seq<Event>, m: Event)
    requires m.Mint?
  {
    exists k :: 0 <= k < |events| && Presents(key, events[k], m)
  }

  predicate Presents(key: nat, e: Event, m: Event)
    requires m.Mint?
  {
    e.Verify? && e.blob == BlobOf(key, m) && e.prin == m.prin && e.req == m.req && e.now < m.now + 300
  }

  /** The ledger holds what the history says: the mints, and of those still alive the presented ones. */
  ghost predicate Recorded(key: nat, events: seq<Event>, l: Ledger) {
    && l.key == key
    && (forall m :: Issues(events, m) ==> BlobOf(key, m).payload in l.minted)
    && (forall p :: p in l.minted ==> exists m :: Issues(events, m) && BlobOf(key, m).payload == p)
    && (forall m :: Issues(events, m) && m.now + 300 > l.clock ==>
          (m.jti in l.consumed <==> Presented(key, events, m)))
    && (forall m: Event :: m.Mint? && Presented(key, events, m) ==> BlobOf(key, m).payload in l.minted)
  }

  lemma NextRecordsMints(key: nat, front: seq<Event>, l: Ledger, e: Event)
    requires Recorded(key, front, l) && Sound(l) && Admissible(l, e)
    ensures var n, events := Next(l, e), front + [e];
      && n.key == key
      && (forall m :: Issues(events, m) ==> BlobOf(key, m).payload in n.minted)
      && (forall p :: p in n.minted ==> exists m :: Issues(events, m) && BlobOf(key, m).payload == p)
  {
    var n, events := Next(l, e), front + [e];
    forall p | p in n.minted ensures exists m :: Issues(events, m) && BlobOf(key, m).payload == p {
      if p in l.minted {
        var m :| Issues(front, m) && BlobOf(key, m).payload == p;
        assert Issues(events, m);
      } else {
        assert Issues(events, e);
      }
    }
  }

  lemma PresentedMore(key: nat, front: seq<Event>, e: Event, m: Event)
    requires m.Mint?
    ensures Presented(key, front + [e], m) <==> Presented(key, front, m) || Presents(key, e, m)
  {
    var events := front + [e];
    if k :| 0 <= k < |front| && Presents(key, front[k], m) {
      assert Presents(key, events[k], m);
    }
    if Presents(key, e, m) { assert Presents(key, events[|front|], m); }
  }

  /** An id still alive is spent by a verification exactly when it was spent before or is now
      presented. */
  lemma SpentBy(key: nat, l: Ledger, e: Event, m: Event)
    requires Sound(l) && Admissible(l, e) && e.Verify? && l.key == key
    requires m.Mint? && BlobOf(key, m).payload in l.minted && m.now + 300 > e.now
    ensures m.jti in Next(l, e).consumed <==> m.jti in l.consumed || Presents(key, e, m)
  {
    var p := BlobOf(key, m).payload;
    assert IssuedAs(l, m.jti, p);
    if m.jti in l.consumed {
      var q :| IssuedAs(l, m.jti, q) && q.exp == l.consumed[m.jti];
      assert q == p;
    }
    if Prunes(l, e) && e.blob.payload.jti == m.jti { assert e.blob.payload == p; }
  }

  lemma NextRecordsSpent(key: nat, front: seq<Event>, l: Ledger, e: Event, m: Event)
    requires Recorded(key, front, l) && Sound(l) && Admissible(l, e)
    requires Issues(front + [e], m) && m.now + 300 > e.now
    ensures m.jti in Next(l, e).consumed <==> Presented(key, front + [e], m)
  {
    var p := BlobOf(key, m).payload;
    PresentedMore(key, front, e, m);
    if e.Verify? {
      assert Issues(front, m);
      SpentBy(key, l, e, m);
    } else if !Issues(front, m) {
      assert m == e;
      assert p !in l.minted;
    }
  }

  lemma NextRecords(key: nat, front: seq<Event>, l: Ledger, e: Event)
    requires Recorded(key, front, l) && Sound(l) && Admissible(l, e)
    ensures Recorded(key, front + [e], Next(l, e))
  {
    var n, events := Next(l, e), front + [e];
    NextRecordsMints(key, front, l, e);
    forall m | Issues(events, m) && m.now + 300 > n.clock ensures m.jti in n.consumed <==> Presented(key, events, m) {
      NextRecordsSpent(key, front, l, e, m);
    }
    forall m: Event | m.Mint? && Presented(key, events, m) ensures BlobOf(key, m).payload in n.minted {
      PresentedMore(key, front, e, m);
    }
  }

  lemma {:induction false} RunRecords(key: nat, start: int, events: seq<Event>)
    requires AdmissibleRun(Fresh(key, start), events)
    ensures Recorded(key, events, Run(Fresh(key, start), events))
  {
    hide Admissible, Next, Sound, Recorded;
    if events == [] {
      NothingRecorded(key, start);
    } else {
      var n := |events| - 1;
      var front := events[..n];
      forall i | 0 <= i < |front| ensures Admissible(Run(Fresh(key, start), front[..i]), front[i]) {
        assert front[..i] == events[..i];
      }
      RunRecords(key, start, front);
      RunSound(key, start, front);
      NextRecords(key, front, Run(Fresh(key, start), front), events[n]);
      assert front + [events[n]] == events;
    }
  }

  lemma NothingRecorded(key: nat, start: int)
    ensures Recorded(key, [], Fresh(key, start))
  {
  }

  /** After any run, what verify says of a blob follows from the history alone: expired 300 seconds after its
      mint, then another client, then another request, then presented before, and otherwise good. */
  lemma VerdictByHistory(key: nat, start: int, events: seq<Event>, m: Event, prin: string, req: string, now: int)
    requires AdmissibleRun(Fresh(key, start), events) && Issues(events, m)
    requires Run(Fresh(key, start), events).clock <= now
    ensures Verdict(Run(Fresh(key, start), events), Verify(BlobOf(key, m), prin, req, now)) ==
      if now >= m.now + 300 then Some(Expired)
      else if prin != m.prin then Some(WrongClient)
      else if req != m.req then Some(WrongRequest)
      else if Presented(key, events, m) then Some(Reused)
      else None
  {
    RunRecords(key, start, events);
    RunSound(key, start, events);
    var l, p := Run(Fresh(key, start), events), BlobOf(key, m).payload;
    assert IssuedAs(l, m.jti, p);
    if m.jti in l.consumed {
      var q :| IssuedAs(l, m.jti, q) && q.exp == l.consumed[m.jti];
      assert q == p;
    }
  }

  /** Any other blob fails verification, and these are the only ones that do. */
  lemma ForeignRefused(key: nat, start: int, events: seq<Event>, e: Event)
    requires AdmissibleRun(Fresh(key, start), events) && e.Verify?
    requires Admissible(Run(Fresh(key, start), events), e)
    ensures Verdict(Run(Fresh(key, start), events), e) == Some(BadState) <==>
      !exists m :: Issues(events, m) && e.blob == BlobOf(key, m)
  {
    RunRecords(key, start, events);
    RunSound(key, start, events);
    hide Run, Sound;
    ForeignIn(key, events, Run(Fresh(key, start), events), e);
  }

  lemma ForeignIn(key: nat, events: seq<Event>, l: Ledger, e: Event)
    requires Recorded(key, events, l) && MintedSound(l) && e.Verify? && Admissible(l, e)
    ensures Verdict(l, e) == Some(BadState) <==> !exists m :: Issues(events, m) && e.blob == BlobOf(key, m)
  {
    if e.blob.Signed? && e.blob.mac == MacOf(key, e.blob.payload) {
      var m :| Issues(events, m) && BlobOf(key, m).payload == e.blob.payload;
      assert e.blob == BlobOf(key, m);
    }
    forall m | Issues(events, m) && e.blob == BlobOf(key, m) ensures Verdict(l, e) != Some(BadState) {
      assert e.blob.payload in l.minted;
    }
  }
}
