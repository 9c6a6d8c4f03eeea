/** The confirmation round-trips over the continuation blobs, and the line channel. */
module McpConfirmation {
  import opened Names
  import opened CanonicalWriter
  import opened McpContinuation

  datatype Answer = Accept | Reject | Absent | Malformed

  /** mcpConfirmationVerdict. Accepting the dialogue with proceed false is a refusal. */
  function ReadAnswer(answer: Value): Answer {
    match answer
    case Null => Absent
    case Plain(result) =>
      var action := if "action" in result && result["action"].Str? then result["action"].s else "";
      if action == "decline" || action == "cancel" then Reject
      else if action != "accept" then Malformed
      else if !("content" in result && result["content"].Plain?) then Malformed
      else
        var content := result["content"].entries;
        if "proceed" in content && content["proceed"] == Bool(true) then Accept else Reject
    case _ => Malformed
  }

  /** An object that carries this text under the key. */
  predicate Carries(v: Value, key: string, text: string) {
    v.Plain? && key in v.entries && v.entries[key] == Str(text)
  }

  /** Nothing is no answer. Declining, cancelling, and accepting without a proceed of true refuse;
      accepting with it consents. Anything else is no elicitation result. */
  lemma AnswerMeans(answer: Value)
    ensures ReadAnswer(answer) == Absent <==> answer == Null
    ensures ReadAnswer(answer) == Accept <==>
      && Carries(answer, "action", "accept") && "content" in answer.entries
      && var content := answer.entries["content"];
         content.Plain? && "proceed" in content.entries && content.entries["proceed"] == Bool(true)
    ensures ReadAnswer(answer) == Reject <==>
      || Carries(answer, "action", "decline") || Carries(answer, "action", "cancel")
      || (Carries(answer, "action", "accept") && "content" in answer.entries
          && var content := answer.entries["content"];
             content.Plain? && !("proceed" in content.entries && content.entries["proceed"] == Bool(true)))
  {
  }

  const CONFIRMATION_KEY := "consequential-confirmation"

  /** The parameters of one modern call that the exchange reads. blob is what the text of
      requestState parses to, when it is a text. */
  datatype Request = Request(requestState: Option<Value>, blob: Blob, inputResponses: Option<Value>)
  {
    predicate Presents() {
      requestState.Some? && requestState.value.Str? && (inputResponses.Some? ==> inputResponses.value.Plain?)
    }

    function TheAnswer(): Value {
      if inputResponses.Some? && inputResponses.value.Plain? && CONFIRMATION_KEY in inputResponses.value.entries
      then inputResponses.value.entries[CONFIRMATION_KEY]
      else Null
    }
  }

  /** The answer is what stands under its key; with no responses, or none under the key, there is none. */
  lemma TheAnswerMeans(req: Request)
    requires req.Presents()
    ensures req.requestState.Some? && req.requestState.value.Str?
    ensures req.inputResponses.None? ==> req.TheAnswer() == Null
    ensures req.inputResponses.Some? ==>
      && req.inputResponses.value.Plain?
      && var responses := req.inputResponses.value.entries;
         req.TheAnswer() ==
         if "consequential-confirmation" in responses then responses["consequential-confirmation"] else Null
  {
  }

  datatype Outcome =
    | Proceed(consented: bool)
    | InvalidParams
    | StateRefused(refusal: Refusal)
    | NotAResult
    | Declined
    | Ask(blob: Blob)
    | MissingCapability

  /** mcpConfirmationExchange. Consent is what an earlier seam gave, or a verified blob answered with
      an acceptance; a consequential command proceeds with consent only, and without it is asked for
      where the client can render the question. */
  method ConfirmationExchange(req: Request, prin: string, digest: string, now: int, jti: string,
                              consequential: bool, elicits: bool, continuation: Continuation?, alreadyConsented: bool)
    returns (r: Outcome)
    modifies continuation
    // A call that presents a blob goes by the verdict, and then by the answer beside it.
    ensures req.Presents() && continuation != null ==>
      var refusal := Verdict(old(continuation.State()), Verify(req.blob, prin, digest, now));
      && (refusal.Some? ==> r == StateRefused(refusal.value))
      && (refusal.None? ==>
            match ReadAnswer(req.TheAnswer())
            case Accept => r == Proceed(true)
            case Reject => r == Declined
            case Malformed => r == NotAResult
            case Absent => r.Ask?)
    ensures req.Presents() && continuation == null ==> r == StateRefused(BadState)
    // Malformed parameters.
    ensures req.requestState.Some? && !req.Presents() ==> r == InvalidParams
    ensures req.requestState.None? && req.inputResponses.Some? ==> r == InvalidParams
    // A call that presents nothing.
    ensures req.requestState.None? && req.inputResponses.None? ==>
      && (r == Proceed(true) <==> alreadyConsented)
      && (r == Proceed(false) <==> !alreadyConsented && !consequential)
      && (r.Ask? <==> !alreadyConsented && consequential && continuation != null && elicits)
      && (r == MissingCapability <==> !alreadyConsented && consequential && !(continuation != null && elicits))
    // What is spent and what is minted.
    ensures continuation != null && req.Presents() ==>
      var verified := Next(old(continuation.State()), Verify(req.blob, prin, digest, now));
      continuation.State() == if r.Ask? then Next(verified, Mint(jti, prin, digest, now)) else verified
    ensures continuation != null && !req.Presents() ==>
      continuation.State() ==
        if r.Ask? then Next(old(continuation.State()), Mint(jti, prin, digest, now)) else old(continuation.State())
    ensures r.Ask? ==> continuation != null && r.blob == Signed(Minted(Mint(jti, prin, digest, now)),
      MacOf(continuation.key, Minted(Mint(jti, prin, digest, now))))
  {
    var consented := alreadyConsented;
    if req.requestState.Some? {
      if !req.requestState.value.Str? { return InvalidParams; }
      if req.inputResponses.Some? && !req.inputResponses.value.Plain? { return InvalidParams; }
      if continuation == null { return StateRefused(BadState); }
      var refusal := continuation.VerifyBlob(req.blob, prin, digest, now);
      if refusal.Some? { return StateRefused(refusal.value); }
      match ReadAnswer(req.TheAnswer()) {
        case Malformed => return NotAResult;
        case Reject => return Declined;
        case Accept => consented := true;
        case Absent =>
          var again := continuation.MintBlob(jti, prin, digest, now);
          return Ask(again);
      }
    } else if req.inputResponses.Some? {
      return InvalidParams;
    }
    if consented { return Proceed(true); }
    if !consequential { return Proceed(consented); }
    if continuation != null && elicits {
      var blob := continuation.MintBlob(jti, prin, digest, now);
      return Ask(blob);
    }
    return MissingCapability;
  }

  // --- The line channel -------------------------------------------------------------------

  /** What a response carries. */
  datatype Reply = ErrorReply | ResultReply(result: Value)

  /** A client line: nothing, a response carrying an id (or none), or anything else. */
  datatype Line = Blank | Response(id: Option<string>, reply: Reply) | Message(text: string)

  /** The first response to the id among the lines, or where they end. */
  ghost function AnswerAt(lines: seq<Line>, id: string): (k: nat)
    ensures k <= |lines|
    ensures forall j :: 0 <= j < k ==> !(lines[j].Response? && lines[j].id == Some(id))
    ensures k < |lines| ==> lines[k].Response? && lines[k].id == Some(id)
  {
    if lines == [] || Answers(lines[0], id) then 0 else 1 + AnswerAt(lines[1..], id)
  }

  predicate Answers(line: Line, id: string) {
    line.Response? && line.id == Some(id)
  }

  /** What is kept of lines passed over: neither blanks nor stray responses. */
  function Kept(lines: seq<Line>): seq<Line> {
    if lines == [] then []
    else Kept(lines[..|lines| - 1]) + if lines[|lines| - 1].Message? then [lines[|lines| - 1]] else []
  }

  class Channel {
    var stream: seq<Line>
    var held: seq<Line>

    constructor (stream: seq<Line>)
      ensures this.stream == stream && held == []
    {
      this.stream, held := stream, [];
    }

    /** nextLine: what was held first, then the stream. */
    method NextLine() returns (line: Option<Line>)
      modifies this
      ensures old(held + stream) == [] ==> line.None? && held + stream == []
      ensures old(held + stream) != [] ==>
        line == Some(old(held + stream)[0]) && held + stream == old(held + stream)[1..]
    {
      if held != [] {
        line := Some(held[0]);
        held := held[1..];
      } else if stream != [] {
        line := Some(stream[0]);
        stream := stream[1..];
      } else {
        line := None;
      }
    }

    /** awaitResponse: reads up to the answer; every other message is held, in order. */
    method AwaitResponse(id: string) returns (answer: Option<Line>)
      modifies this
      ensures answer.Some? ==> answer.value.Response?
      ensures var k := AnswerAt(old(stream), id);
        && held == old(held) + Kept(old(stream)[..k])
        && (if k < |old(stream)| then answer == Some(old(stream)[k]) && stream == old(stream)[k + 1..]
            else answer.None? && stream == [])
    {
      ghost var lines, first := stream, 0;
      AnswerSplit(lines, 0, id);
      while stream != []
        invariant first <= |lines| && stream == lines[first..]
        invariant held == old(held) + Kept(lines[..first])
        invariant AnswerAt(lines, id) == first + AnswerAt(lines[first..], id)
        decreases |stream|
      {
        var line := stream[0];
        stream := stream[1..];
        if Answers(line, id) {
          return Some(line);
        }
        assert lines[..first + 1][..first] == lines[..first];
        if line.Message? {
          held := held + [line];
        }
        first := first + 1;
      }
      return None;
    }
  }

  lemma AnswerSplit(lines: seq<Line>, first: nat, id: string)
    requires first <= |lines|
    ensures lines[0..] == lines && AnswerAt(lines, id) == AnswerAt(lines[0..], id)
  {
  }

  // --- The legacy exchange --------------------------------------------------------------

  /** mcpLegacyConfirmation. wire spells a blob as the text that goes out as the request's
      id. Whatever the answer, a blob that went out is dead when the exchange returns. */
  method LegacyConfirmation(consequential: bool, elicits: bool, continuation: Continuation, channel: Channel,
                            wire: Blob -> string, prin: string, digest: string, jti: string, now: int, later: int)
    returns (decided: bool, consented: bool)
    requires Sound(continuation.State()) && now <= later
    requires Admissible(continuation.State(), Mint(jti, prin, digest, now))
    modifies continuation, channel
    ensures decided <==> consequential && elicits
    ensures !decided ==> !consented && continuation.State() == old(continuation.State())
    ensures !decided ==> channel.held == old(channel.held) && channel.stream == old(channel.stream)
    ensures decided ==>
      var lines := old(channel.stream);
      var k := AnswerAt(lines, wire(Issued(old(continuation.State()), jti, prin, digest, now)));
      && (consented <==> k < |lines| && lines[k].reply.ResultReply? && ReadAnswer(lines[k].reply.result) == Accept
                         && later < now + TTL_SECONDS)
      && channel.held == old(channel.held) + Kept(lines[..k])
      && channel.stream == (if k < |lines| then lines[k + 1..] else [])
    ensures decided ==> Sound(continuation.State()) && Dead(continuation.State(), jti)
    ensures decided ==> exists p :: IssuedAs(continuation.State(), jti, p)
  {
    if !consequential { return false, false; }
    if !elicits { return false, false; }
    ghost var l := continuation.State();
    ghost var asked := Mint(jti, prin, digest, now);
    ghost var l' := Next(l, asked);
    NextSound(l, asked);
    ghost var verify := Verify(Issued(l, jti, prin, digest, now), prin, digest, later);
    NextSound(l', verify);
    AskedIsSpent(l, asked, verify);
    var state := continuation.MintBlob(jti, prin, digest, now);
    var answer := channel.AwaitResponse(wire(state));
    var refusal := continuation.VerifyBlob(state, prin, digest, later);
    var verified := refusal.None?;
    if answer.None? { return true, false; }
    match answer.value.reply {
      case ErrorReply => return true, false;
      case ResultReply(result) =>
        if !verified { return true, false; }
        return true, ReadAnswer(result) == Accept;
    }
  }

  /** The blob minting issues. */
  function Issued(l: Ledger, jti: string, prin: string, digest: string, now: int): Blob {
    var p := Minted(Mint(jti, prin, digest, now));
    Signed(p, MacOf(l.key, p))
  }

  /** Verifying a blob straight after minting it spends it, or finds it expired. */
  lemma AskedIsSpent(l: Ledger, asked: Event, verify: Event)
    requires Sound(l) && asked.Mint? && Admissible(l, asked)
    requires verify == Verify(Signed(Minted(asked), MacOf(l.key, Minted(asked))), asked.prin, asked.req, verify.now)
    requires asked.now <= verify.now
    ensures var l' := Next(l, asked);
      && (Verdict(l', verify).None? <==> verify.now < asked.now + TTL_SECONDS)
      && Dead(Next(l', verify), asked.jti) && IssuedAs(Next(l', verify), asked.jti, Minted(asked))
  {
    var l' := Next(l, asked);
    NextSound(l, asked);
    assert asked.jti !in l'.consumed;
    forall q | IssuedAs(Next(l', verify), asked.jti, q) ensures q == Minted(asked) {
    }
  }

  /** A dead id is refused after any further admissible run. */
  lemma {:induction false} NeverAgain(l: Ledger, events: seq<Event>, jti: string, e: Event)
    requires Sound(l) && Dead(l, jti) && (exists p :: IssuedAs(l, jti, p)) && AdmissibleRun(l, events)
    requires e.Verify? && e.blob.Signed? && e.blob.payload.jti == jti && Admissible(Run(l, events), e)
    ensures Verdict(Run(l, events), e).Some?
  {
    DeadThrough(l, events, jti);
    DeadRefused(Run(l, events), e, jti);
  }

  lemma {:induction false} DeadThrough(l: Ledger, events: seq<Event>, jti: string)
    requires Sound(l) && Dead(l, jti) && (exists p :: IssuedAs(l, jti, p)) && AdmissibleRun(l, events)
    ensures Sound(Run(l, events)) && Dead(Run(l, events), jti) && exists p :: IssuedAs(Run(l, events), jti, p)
  {
    if events != [] {
      var n := |events| - 1;
      var front := events[..n];
      forall i | 0 <= i < n ensures Admissible(Run(l, front[..i]), front[i]) {
        assert front[..i] == events[..i];
      }
      DeadThrough(l, front, jti);
      var m := Run(l, front);
      NextSound(m, events[n]);
      DeadStays(m, events[n], jti);
      IssuedStays(m, events[n]);
    }
  }
}
