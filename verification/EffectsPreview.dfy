/** Preview fidelity: a dry run's log against the log of the same calls made live. */
module EffectsPreview {
  import opened Names
  import opened Effects
  import opened EffectsSafety

  // --- Straight-line handlers ---------------------------------------------------------

  /** What a handler passes: something of its own, or the result of its k-th step. */
  datatype Arg = Own(value: Value) | Forward(k: nat)

  datatype Step = Do(call: Call<Arg>, opts: Option<Options>) | CacheStep(path: string)

  function BindArg(a: Arg, results: seq<Outcome>): Value {
    match a
    case Own(v) => v
    case Forward(k) => if k < |results| && results[k].Success? then Carried(results[k].value) else Foreign("nothing")
  }

  function BindAll(args: seq<Arg>, results: seq<Outcome>): (r: seq<Value>)
    ensures |r| == |args| && forall i :: 0 <= i < |args| ==> r[i] == BindArg(args[i], results)
  {
    seq(|args|, i requires 0 <= i < |args| => BindArg(args[i], results))
  }

  function Bind(call: Call<Arg>, results: seq<Outcome>): Call<Value> {
    match call
    case Run(argv) => Run(BindAll(argv, results))
    case Spawn(argv) => Spawn(BindAll(argv, results))
    case Write(path, content) => Write(BindArg(path, results), BindArg(content, results))
    case Mkdir(path) => Mkdir(BindArg(path, results))
    case Remove(path) => Remove(BindArg(path, results))
    case Rename(src, dst) => Rename(BindArg(src, results), BindArg(dst, results))
    case Chmod(path, mode) => Chmod(BindArg(path, results), mode)
    case Http(verb, url) => Http(verb, BindArg(url, results))
  }

  function Args(call: Call<Arg>): seq<Arg> {
    match call
    case Run(argv) => argv
    case Spawn(argv) => argv
    case Write(path, content) => [path, content]
    case Mkdir(path) => [path]
    case Remove(path) => [path]
    case Rename(src, dst) => [src, dst]
    case Chmod(path, _) => [path]
    case Http(_, url) => [url]
  }

  // --- Details with holes ---------------------------------------------------------------

  /** A stretch of a detail: text, what a result delivers, or how many bytes it delivers. */
  datatype Piece = Lit(text: string) | Delivered(k: nat) | Size(k: nat)

  /** A brand where nothing produced a value; the value, or its byte count, where it did. */
  function FillPiece(p: Piece, results: seq<Outcome>): string {
    match p
    case Lit(text) => text
    case Delivered(k) =>
      var op := ResolveOperand(BindArg(Forward(k), results), "");
      if op.Success? then op.value.rendered else ""
    case Size(k) =>
      var op := ResolveOperand(BindArg(Forward(k), results), "");
      if op.Failure? then "" else if op.value.unsettled then op.value.rendered else ByteCount(Bytes(op.value.value))
  }

  function Fill(pieces: seq<Piece>, results: seq<Outcome>): string {
    if pieces == [] then "" else FillPiece(pieces[0], results) + Fill(pieces[1..], results)
  }

  function ArgPiece(a: Arg): Piece {
    match a
    case Forward(k) => Delivered(k)
    case Own(Text(text)) => Lit(text)
    case Own(_) => Lit("")
  }

  function ContentPiece(a: Arg): Piece {
    match a
    case Forward(k) => Size(k)
    case Own(Text(text)) => Lit(ByteCount(Bytes(text)))
    case Own(Raw(data)) => Lit(ByteCount(Slice(data)))
    case Own(_) => Lit("")
  }

  function ArgvShape(argv: seq<Arg>): seq<Piece> {
    if argv == [] then []
    else if |argv| == 1 then [ArgPiece(argv[0])]
    else [ArgPiece(argv[0]), Lit(" ")] + ArgvShape(argv[1..])
  }

  /** The detail of a call, before its forwarded results are known. */
  function Shape(call: Call<Arg>): seq<Piece> {
    match call
    case Run(argv) => ArgvShape(argv)
    case Spawn(argv) => ArgvShape(argv)
    case Write(path, content) => [ArgPiece(path), Lit(" ("), ContentPiece(content), Lit(")")]
    case Mkdir(path) => [ArgPiece(path)]
    case Remove(path) => [ArgPiece(path)]
    case Rename(src, dst) => [ArgPiece(src), Lit(" -> "), ArgPiece(dst)]
    case Chmod(path, mode) => [ArgPiece(path), Lit(" " + Octal(mode))]
    case Http(verb, url) => [Lit(verb + " "), ArgPiece(url)]
  }

  // --- Playing a handler -------------------------------------------------------------------

  /** shapes stands beside the log: the shape of each entry's detail. */
  datatype Replay = Replay(state: State, results: seq<Outcome>, shapes: seq<seq<Piece>>)

  function Once(p: Replay, step: Step, world: World): Replay {
    match step
    case CacheStep(path) =>
      Replay(PerformCacheWrite(p.state, path), p.results + [Success(Void(""))], p.shapes + [[Lit(path)]])
    case Do(call, opts) =>
      var (n, r) := Perform(p.state, Bind(call, p.results), opts, world);
      Replay(n, p.results + [r], p.shapes + if |n.records| > |p.state.records| then [Shape(call)] else [])
  }

  function Play(start: State, steps: seq<Step>, world: World): Replay {
    if steps == [] then Replay(start, [], [])
    else Once(Play(start, steps[..|steps| - 1], world), steps[|steps| - 1], world)
  }

  /** The handler forwards results only, each of an earlier step, and in a run only at
      positions no allowlist prefix reaches. */
  predicate StraightStep(step: Step, j: nat, allowlist: seq<seq<string>>) {
    step.Do? ==>
      && (forall i :: 0 <= i < |Args(step.call)| ==> GoodArg(Args(step.call)[i], j))
      && (step.call.Run? ==> PastPrefixes(step.call.argv, allowlist))
  }

  predicate PastPrefixes(argv: seq<Arg>, allowlist: seq<seq<string>>) {
    forall i, q :: 0 <= i < |argv| && argv[i].Forward? && 0 <= q < |allowlist| ==> |allowlist[q]| <= i
  }

  predicate GoodArg(a: Arg, j: nat) {
    match a
    case Own(v) => !v.Carried?
    case Forward(k) => k < j
  }

  ghost predicate Straight(steps: seq<Step>, allowlist: seq<seq<string>>) {
    forall j :: 0 <= j < |steps| ==> StraightStep(steps[j], j, allowlist)
  }

  predicate AllSucceed(results: seq<Outcome>) {
    forall k :: 0 <= k < |results| ==> results[k].Success?
  }

  // --- How the two runs compare ---------------------------------------------------------------

  /** A dry result beside the live one: the same, or unsettled where the live one settled. */
  predicate Mirrors(d: Carrier, l: Carrier, mutated: bool) {
    d == l || (mutated && IsUnsettled(d) && !IsUnsettled(l) &&
      ((d.Completed? && l.Completed?) || (d.Response? && l.Response?) || (d.Spawned? && l.Spawned?)))
  }

  /** The same entry: the detail fills one shape from each run's own results. */
  predicate SameEntry(d: Record, l: Record, shape: seq<Piece>, dr: seq<Outcome>, lr: seq<Outcome>) {
    && d.number == l.number && d.kind == l.kind && d.verb == l.verb && d.grant == l.grant && d.extras == l.extras
    && d.detail == Fill(shape, dr) && l.detail == Fill(shape, lr)
    && (d.bytes == l.bytes || (d.bytes.None? && l.bytes.Some?))
  }

  ghost predicate Holes(shape: seq<Piece>, n: nat) {
    forall i :: 0 <= i < |shape| ==> shape[i].Lit? || shape[i].k < n
  }

  ghost predicate SameLog(d: Replay, l: Replay) {
    && d.shapes == l.shapes && |d.shapes| == |d.state.records| == |l.state.records|
    && d.state.rendered == l.state.rendered && d.state.cached == l.state.cached
    && (forall i :: 0 <= i < |d.shapes| ==> Holes(d.shapes[i], |d.results|))
    && forall i :: 0 <= i < |d.shapes| ==>
         SameEntry(d.state.records[i], l.state.records[i], d.shapes[i], d.results, l.results)
  }

  ghost predicate SameResults(d: Replay, l: Replay) {
    && |d.results| == |l.results| && AllSucceed(d.results) && AllSucceed(l.results)
    && forall k :: 0 <= k < |d.results| ==>
         !IsUnsettled(l.results[k].value) && Mirrors(d.results[k].value, l.results[k].value, d.state.mutationRecorded)
  }

  /** The dry run beside the live one. Until the first mutation they agree exactly. */
  ghost predicate Previews(d: Replay, l: Replay) {
    && SameLog(d, l) && SameResults(d, l)
    && d.state.dryRun && !l.state.dryRun && !l.state.mutationRecorded && SameMode(d.state, l.state.(dryRun := true))
    && (!d.state.mutationRecorded ==> d.state == l.state.(dryRun := true) && d.results == l.results)
  }

  // --- Details --------------------------------------------------------------------------------

  lemma {:induction false} FillGrows(shape: seq<Piece>, results: seq<Outcome>, more: seq<Outcome>)
    requires Holes(shape, |results|)
    ensures Fill(shape, results + more) == Fill(shape, results)
    decreases |shape|
  {
    hide ResolveOperand;
    if shape != [] {
      var p := shape[0];
      if !p.Lit? { assert (results + more)[p.k] == results[p.k]; }
      FillGrows(shape[1..], results, more);
    }
  }

  lemma {:induction false} ArgvHoles(argv: seq<Arg>, j: nat)
    requires forall i :: 0 <= i < |argv| ==> GoodArg(argv[i], j)
    ensures Holes(ArgvShape(argv), j)
  {
    if |argv| > 1 { ArgvHoles(argv[1..], j); }
  }

  lemma ShapeHoles(call: Call<Arg>, j: nat)
    requires forall i :: 0 <= i < |Args(call)| ==> GoodArg(Args(call)[i], j)
    ensures Holes(Shape(call), j)
  {
    hide ByteCount, Bytes, Octal;
    match call {
      case Run(argv) => assert Args(call) == argv; ArgvHoles(argv, j);
      case Spawn(argv) => assert Args(call) == argv; ArgvHoles(argv, j);
      case Write(path, content) => assert Args(call)[1] == content && Args(call)[0] == path;
      case Rename(src, dst) => assert Args(call)[1] == dst && Args(call)[0] == src;
      case _ => assert GoodArg(Args(call)[0], j);
    }
  }

  /** No carrier but a forwarded one. */
  predicate ResultsOnly(a: Arg) {
    a.Own? ==> !a.value.Carried?
  }

  lemma ArgFills(a: Arg, results: seq<Outcome>, param: string)
    requires ResultsOnly(a) && ResolveOperand(BindArg(a, results), param).Success?
    ensures ResolveOperand(BindArg(a, results), param).value.rendered == FillPiece(ArgPiece(a), results)
  {
  }

  lemma ContentFills(a: Arg, results: seq<Outcome>)
    requires ResultsOnly(a) && ResolveContent(BindArg(a, results)).Success?
    ensures ResolveContent(BindArg(a, results)).value.rendered == FillPiece(ContentPiece(a), results)
  {
    hide DecodeOutput, ByteCount, Bytes;
  }

  lemma {:induction false} JoinFills(texts: seq<string>, argv: seq<Arg>, results: seq<Outcome>)
    requires |texts| == |argv| && forall k :: 0 <= k < |argv| ==> texts[k] == FillPiece(ArgPiece(argv[k]), results)
    ensures Join(texts, " ") == Fill(ArgvShape(argv), results)
    decreases |argv|
  {
    hide FillPiece, ArgPiece;
    if |argv| == 1 {
      FillOne(ArgPiece(argv[0]), results);
    } else if |argv| > 1 {
      JoinFills(texts[1..], argv[1..], results);
      FillPair(ArgPiece(argv[0]), Lit(" "), ArgvShape(argv[1..]), results);
      FillText(" ", results);
    }
  }

  lemma FillText(text: string, results: seq<Outcome>)
    ensures FillPiece(Lit(text), results) == text
  {
  }

  lemma FillOne(p: Piece, results: seq<Outcome>)
    ensures Fill([p], results) == FillPiece(p, results)
  {
    assert FillPiece(p, results) + "" == FillPiece(p, results);
  }

  lemma FillPair(p: Piece, q: Piece, rest: seq<Piece>, results: seq<Outcome>)
    ensures Fill([p, q] + rest, results) == FillPiece(p, results) + FillPiece(q, results) + Fill(rest, results)
  {
    var all := [p, q] + rest;
    assert all[1..] == [q] + rest && all[1..][1..] == rest;
    assert FillPiece(p, results) + (FillPiece(q, results) + Fill(rest, results))
        == FillPiece(p, results) + FillPiece(q, results) + Fill(rest, results);
  }

  lemma ArgvFills(argv: seq<Arg>, results: seq<Outcome>)
    requires (forall i :: 0 <= i < |argv| ==> ResultsOnly(argv[i])) && ResolveFrom(BindAll(argv, results), 0).Success?
    ensures Join(Rendered(ResolveFrom(BindAll(argv, results), 0).value), " ") == Fill(ArgvShape(argv), results)
  {
    hide ResolveOperand, ArgvParam, FillPiece, ArgPiece, Join, Fill;
    var values := BindAll(argv, results);
    ResolvedOperands(values, 0);
    var ops := ResolveFrom(values, 0).value;
    forall k | 0 <= k < |argv| ensures Rendered(ops)[k] == FillPiece(ArgPiece(argv[k]), results) {
      assert ResolveOperand(values[0 + k], ArgvParam(0 + k)) == Success(ops[k]);
      ArgFills(argv[k], results, ArgvParam(k));
    }
    JoinFills(Rendered(ops), argv, results);
  }

  /** The detail a call records fills its shape from the results in hand. */
  lemma DetailFills(call: Call<Arg>, results: seq<Outcome>)
    requires (forall i :: 0 <= i < |Args(call)| ==> ResultsOnly(Args(call)[i])) && Resolve(Bind(call, results)).Success?
    ensures Resolve(Bind(call, results)).value.detail == Fill(Shape(call), results)
  {
    hide ResolveOperand, ResolveContent, ResolveFrom, FillPiece, ArgPiece, ContentPiece, Join, Fill, Octal;
    assert forall a :: a in Args(call) ==> ResultsOnly(a);
    match call {
      case Run(argv) => ArgvFills(argv, results);
      case Spawn(argv) => ArgvFills(argv, results);
      case Mkdir(path) => PathFills(path, results);
      case Remove(path) => PathFills(path, results);
      case Chmod(path, mode) =>
        ArgFills(path, results, "path");
        FillTwo(ArgPiece(path), Lit(" " + Octal(mode)), results);
        FillText(" " + Octal(mode), results);
      case Write(path, content) =>
        ArgFills(path, results, "path");
        ContentFills(content, results);
        FillFour(ArgPiece(path), " (", ContentPiece(content), ")", results);
      case Rename(src, dst) =>
        ArgFills(src, results, "src");
        ArgFills(dst, results, "dst");
        FillPair(ArgPiece(src), Lit(" -> "), [ArgPiece(dst)], results);
        FillOne(ArgPiece(dst), results);
        FillText(" -> ", results);
        assert [ArgPiece(src), Lit(" -> ")] + [ArgPiece(dst)] == Shape(call);
      case Http(verb, url) =>
        ArgFills(url, results, "url");
        FillTwo(Lit(verb + " "), ArgPiece(url), results);
        FillText(verb + " ", results);
    }
  }

  lemma PathFills(path: Arg, results: seq<Outcome>)
    requires ResultsOnly(path) && ResolveOperand(BindArg(path, results), "path").Success?
    ensures ResolveOperand(BindArg(path, results), "path").value.rendered + "" == Fill([ArgPiece(path)], results)
  {
    hide ResolveOperand, FillPiece, ArgPiece;
    ArgFills(path, results, "path");
    FillOne(ArgPiece(path), results);
  }

  lemma FillTwo(p: Piece, q: Piece, results: seq<Outcome>)
    ensures Fill([p, q], results) == FillPiece(p, results) + FillPiece(q, results)
  {
    hide FillPiece;
    FillPair(p, q, [], results);
    assert [p, q] + [] == [p, q];
    assert FillPiece(p, results) + FillPiece(q, results) + "" == FillPiece(p, results) + FillPiece(q, results);
  }

  lemma FillFour(p: Piece, open: string, q: Piece, close: string, results: seq<Outcome>)
    ensures Fill([p, Lit(open), q, Lit(close)], results) ==
      FillPiece(p, results) + open + FillPiece(q, results) + close
  {
    hide FillPiece;
    FillPair(p, Lit(open), [q, Lit(close)], results);
    FillTwo(q, Lit(close), results);
    FillText(open, results);
    FillText(close, results);
    assert [p, Lit(open)] + [q, Lit(close)] == [p, Lit(open), q, Lit(close)];
  }

  // --- One step, both ways ---------------------------------------------------------------------

  /** Results in hand, dry beside live. */
  ghost predicate Paired(dr: seq<Outcome>, lr: seq<Outcome>) {
    && |dr| == |lr| && AllSucceed(dr) && AllSucceed(lr)
    && forall k :: 0 <= k < |dr| ==> !IsUnsettled(lr[k].value) && Mirrors(dr[k].value, lr[k].value, true)
  }

  /** A dry operand beside the live one: the same, or unsettled. */
  predicate Shadows(d: Operand, l: Operand) {
    !l.unsettled && (d == l || d.unsettled)
  }

  lemma OperandShadows(a: Arg, dr: seq<Outcome>, lr: seq<Outcome>, param: string)
    requires Paired(dr, lr) && GoodArg(a, |dr|) && ResolveOperand(BindArg(a, lr), param).Success?
    ensures ResolveOperand(BindArg(a, dr), param).Success?
    ensures Shadows(ResolveOperand(BindArg(a, dr), param).value, ResolveOperand(BindArg(a, lr), param).value)
    ensures a.Own? ==> BindArg(a, dr) == BindArg(a, lr)
  {
    hide DecodeOutput;
    if a.Forward? {
      assert Mirrors(dr[a.k].value, lr[a.k].value, true);
    }
  }

  lemma {:induction false} ArgvShadows(argv: seq<Arg>, dr: seq<Outcome>, lr: seq<Outcome>, i: nat)
    requires Paired(dr, lr) && i <= |argv| && forall k :: 0 <= k < |argv| ==> GoodArg(argv[k], |dr|)
    requires ResolveFrom(BindAll(argv, lr), i).Success?
    ensures ResolveFrom(BindAll(argv, dr), i).Success?
    ensures var d, l := ResolveFrom(BindAll(argv, dr), i).value, ResolveFrom(BindAll(argv, lr), i).value;
      |d| == |l| == |argv| - i &&
        forall k :: 0 <= k < |d| ==> Shadows(d[k], l[k]) && (argv[i + k].Own? ==> d[k] == l[k])
    decreases |argv| - i
  {
    hide ResolveOperand, BindArg, Paired, Shadows, GoodArg, ArgvParam;
    if i < |argv| {
      ArgvShadows(argv, dr, lr, i + 1);
      OperandShadows(argv[i], dr, lr, ArgvParam(i));
      var d, l := ResolveFrom(BindAll(argv, dr), i).value, ResolveFrom(BindAll(argv, lr), i).value;
      var d', l' := ResolveFrom(BindAll(argv, dr), i + 1).value, ResolveFrom(BindAll(argv, lr), i + 1).value;
      forall k | 0 <= k < |d| ensures Shadows(d[k], l[k]) && (argv[i + k].Own? ==> d[k] == l[k]) {
        if k > 0 {
          assert d[k] == d'[k - 1] && l[k] == l'[k - 1];
          assert argv[i + 1 + (k - 1)] == argv[i + k];
        }
      }
    }
  }

  lemma ContentShadows(a: Arg, dr: seq<Outcome>, lr: seq<Outcome>)
    requires Paired(dr, lr) && GoodArg(a, |dr|) && ResolveContent(BindArg(a, lr)).Success?
    ensures var d, l := ResolveContent(BindArg(a, dr)), ResolveContent(BindArg(a, lr));
      d.Success? && (d.value.data == l.value.data || (d.value.data.None? && l.value.data.Some?))
  {
    hide DecodeOutput, Bytes, ByteCount, Paired;
    if a.Forward? { OperandShadows(a, dr, lr, "content"); }
  }

  /** A call that resolves live resolves dry, to the same plan but for what is unsettled. */
  ghost predicate PlanShadows(d: Plan, l: Plan) {
    && d.kind == l.kind && d.verb == l.verb && |d.ops| == |l.ops|
    && (forall i :: 0 <= i < |d.ops| ==> Shadows(d.ops[i], l.ops[i]))
    && (d.data == l.data || (d.data.None? && l.data.Some?))
  }

  lemma CallShadows(call: Call<Arg>, dr: seq<Outcome>, lr: seq<Outcome>)
    requires Paired(dr, lr) && (forall i :: 0 <= i < |Args(call)| ==> GoodArg(Args(call)[i], |dr|))
    requires Resolve(Bind(call, lr)).Success?
    ensures Resolve(Bind(call, dr)).Success?
    ensures PlanShadows(Resolve(Bind(call, dr)).value, Resolve(Bind(call, lr)).value)
  {
    hide ResolveOperand, ResolveContent, BindArg, Paired, Shadows, GoodArg, Join, Rendered, Octal, ArgvParam;
    hide ResolveFrom;
    assert forall a :: a in Args(call) ==> GoodArg(a, |dr|);
    match call {
      case Run(argv) => ArgvShadows(argv, dr, lr, 0);
      case Spawn(argv) => ArgvShadows(argv, dr, lr, 0);
      case Mkdir(path) => OperandShadows(path, dr, lr, "path");
      case Remove(path) => OperandShadows(path, dr, lr, "path");
      case Chmod(path, _) => OperandShadows(path, dr, lr, "path");
      case Write(path, content) =>
        OperandShadows(path, dr, lr, "path");
        ContentShadows(content, dr, lr);
      case Rename(src, dst) =>
        OperandShadows(src, dr, lr, "src");
        OperandShadows(dst, dr, lr, "dst");
      case Http(_, url) => OperandShadows(url, dr, lr, "url");
    }
  }

  /** Forwarding past every prefix, the allowlist reads the same operands in both runs. */
  lemma ObserveSame(argv: seq<Arg>, dr: seq<Outcome>, lr: seq<Outcome>, allowlist: seq<seq<string>>)
    requires Paired(dr, lr) && (forall k :: 0 <= k < |argv| ==> GoodArg(argv[k], |dr|))
    requires PastPrefixes(argv, allowlist) && ResolveFrom(BindAll(argv, lr), 0).Success?
    ensures ResolveFrom(BindAll(argv, dr), 0).Success?
    ensures IsObserve(allowlist, ResolveFrom(BindAll(argv, dr), 0).value)
       <==> IsObserve(allowlist, ResolveFrom(BindAll(argv, lr), 0).value)
  {
    hide ResolveOperand, BindArg, Paired, GoodArg, IsObserve;
    ArgvShadows(argv, dr, lr, 0);
    var d, l := ResolveFrom(BindAll(argv, dr), 0).value, ResolveFrom(BindAll(argv, lr), 0).value;
    forall q, i | 0 <= q < |allowlist| && 0 <= i < |allowlist[q]| && i < |d| ensures d[i] == l[i] {
      assert argv[0 + i].Own?;
    }
    ObserveAlike(allowlist, d, l);
  }

  lemma ObserveAlike(allowlist: seq<seq<string>>, d: seq<Operand>, l: seq<Operand>)
    requires |d| == |l|
    requires forall q, i :: 0 <= q < |allowlist| && 0 <= i < |allowlist[q]| && i < |d| ==> d[i] == l[i]
    ensures IsObserve(allowlist, d) <==> IsObserve(allowlist, l)
  {
    assert forall q :: 0 <= q < |allowlist| ==> (Matches(allowlist[q], d) <==> Matches(allowlist[q], l));
  }

  lemma ReadingSame(call: Call<Arg>, opts: Options, dr: seq<Outcome>, lr: seq<Outcome>, d: State, l: State)
    requires Paired(dr, lr) && StraightStep(Do(call, Some(opts)), |dr|, l.allowlist) && d.allowlist == l.allowlist
    requires Resolve(Bind(call, lr)).Success? && Resolve(Bind(call, dr)).Success?
    ensures Reading(d, Bind(call, dr), Resolve(Bind(call, dr)).value, opts)
       <==> Reading(l, Bind(call, lr), Resolve(Bind(call, lr)).value, opts)
  {
    hide Paired, IsObserve, GoodArg, PastPrefixes, Join, Rendered;
    if call.Run? {
      assert Args(call) == call.argv;
      ObserveSame(call.argv, dr, lr, l.allowlist);
    }
  }

  /** What a live call returns is settled, and of its method's kind. */
  predicate Fits(call: Call<Arg>, c: Carrier) {
    match call
    case Run(_) => c.Completed?
    case Spawn(_) => c.Spawned?
    case Http(_, _) => c.Response?
    case _ => c.Void?
  }

  lemma AnswerFits(call: Call<Arg>, results: seq<Outcome>, opts: Options, reply: Reply, number: nat)
    ensures var r := Answer(Bind(call, results), opts, reply, number);
      r.Success? ==> Fits(call, r.value) && !IsUnsettled(r.value) && (r.value.Void? ==> r.value == Void(Brand(number)))
  {
    hide DecodeOutput, BindArg, Brand;
  }

  /** A live step that succeeds got all the way to the world. */
  lemma LiveSucceeds(s: State, call: Call<Arg>, results: seq<Outcome>, opts: Option<Options>, world: World)
    requires !s.dryRun && Perform(s, Bind(call, results), opts, world).1.Success?
    ensures opts.Some? && Resolve(Bind(call, results)).Success?
    ensures var (n, r) := Perform(s, Bind(call, results), opts, world);
      var plan := Resolve(Bind(call, results)).value;
      && Fits(call, r.value) && !IsUnsettled(r.value)
      && (if Reading(s, Bind(call, results), plan, opts.value)
          then ReadRefusal(Bind(call, results), opts.value).None? && n == s.(done := n.done)
          else
            var grant := Authorize(s, Bind(call, results), plan.kind, opts.value.grant);
            && grant.Success? && n == Append(s, RecordOf(s, plan, opts.value, grant.value)).(done := n.done)
            && (r.value.Void? ==> r.value == Void(Brand(s.rendered + 1))))
      && !n.dryRun && n.mutationRecorded == s.mutationRecorded
  {
    hide Resolve, Bind, Reading, ActionOf, Answer, Authorize, FirstUnsettled, Fits, Brand;
    var bound := Bind(call, results);
    if opts.Some? && Resolve(bound).Success? {
      var plan := Resolve(bound).value;
      var action := ActionOf(bound, plan, opts.value);
      if Reading(s, bound, plan, opts.value) {
        AnswerFits(call, results, opts.value, world(s.done, action), 0);
        ReadNotVoid(s, call, results, plan, opts.value);
      } else {
        AnswerFits(call, results, opts.value, world(s.done, action), s.rendered + 1);
      }
    }
  }

  lemma ReadNotVoid(s: State, call: Call<Arg>, results: seq<Outcome>, plan: Plan, opts: Options)
    requires Reading(s, Bind(call, results), plan, opts)
    ensures call.Run? || call.Http?
  {
  }

  lemma PairedOf(d: Replay, l: Replay)
    requires SameResults(d, l)
    ensures Paired(d.results, l.results)
  {
  }

  /** Results only ever gain company, and a recorded mutation stays recorded. */
  lemma ResultsGrow(d: Replay, l: Replay, d': Replay, l': Replay, dc: Carrier, lc: Carrier)
    requires SameResults(d, l) && (d.state.mutationRecorded ==> d'.state.mutationRecorded)
    requires d'.results == d.results + [Success(dc)] && l'.results == l.results + [Success(lc)]
    requires !IsUnsettled(lc) && Mirrors(dc, lc, d'.state.mutationRecorded)
    ensures SameResults(d', l')
  {
    forall k | 0 <= k < |d'.results|
      ensures !IsUnsettled(l'.results[k].value)
      ensures Mirrors(d'.results[k].value, l'.results[k].value, d'.state.mutationRecorded)
    {
      if k < |d.results| {
        assert d'.results[k] == d.results[k] && l'.results[k] == l.results[k];
        assert Mirrors(d.results[k].value, l.results[k].value, d.state.mutationRecorded);
      }
    }
  }

  lemma LogGrows(d: Replay, l: Replay, d': Replay, l': Replay, dc: Outcome, lc: Outcome)
    requires SameLog(d, l) && |d.results| == |l.results|
    requires d'.results == d.results + [dc] && l'.results == l.results + [lc]
    requires d'.shapes == d.shapes && l'.shapes == l.shapes
    requires d'.state.records == d.state.records && l'.state.records == l.state.records
    requires d'.state.rendered == d.state.rendered && l'.state.rendered == l.state.rendered
    requires d'.state.cached == d.state.cached && l'.state.cached == l.state.cached
    ensures SameLog(d', l')
  {
    hide Fill;
    forall i | 0 <= i < |d.shapes|
      ensures SameEntry(d'.state.records[i], l'.state.records[i], d'.shapes[i], d'.results, l'.results)
    {
      FillGrows(d.shapes[i], d.results, [dc]);
      FillGrows(d.shapes[i], l.results, [lc]);
      assert SameEntry(d.state.records[i], l.state.records[i], d.shapes[i], d.results, l.results);
    }
  }

  lemma LogGains(d: Replay, l: Replay, d': Replay, l': Replay, dr: Record, lr: Record, shape: seq<Piece>)
    requires SameLog(d, l) && d'.results == d.results && l'.results == l.results
    requires d'.shapes == d.shapes + [shape] && l'.shapes == l.shapes + [shape]
    requires d'.state.records == d.state.records + [dr] && l'.state.records == l.state.records + [lr]
    requires d'.state.rendered == l'.state.rendered && d'.state.cached == l'.state.cached
    requires Holes(shape, |d.results|) && SameEntry(dr, lr, shape, d.results, l.results)
    ensures SameLog(d', l')
  {
    hide SameEntry, Fill, Holes;
    forall i | 0 <= i < |d'.shapes|
      ensures SameEntry(d'.state.records[i], l'.state.records[i], d'.shapes[i], d'.results, l'.results)
        && Holes(d'.shapes[i], |d'.results|)
    {
      if i < |d.shapes| {
        assert SameEntry(d.state.records[i], l.state.records[i], d.shapes[i], d.results, l.results);
      }
    }
  }

  lemma CacheStepPreviews(d: Replay, l: Replay, path: string, world: World)
    requires Previews(d, l)
    ensures Previews(Once(d, CacheStep(path), world), Once(l, CacheStep(path), world))
  {
    hide SameLog, SameResults, Fill;
    var d', l' := Once(d, CacheStep(path), world), Once(l, CacheStep(path), world);
    var r := Record(l.state.cached + 1, CacheWrite, "cache", path, None, NO_EXTRAS, None, false);
    assert d.state.cached == l.state.cached by { SameCounts(d, l); }
    var d1, l1 := d'.(results := d.results), l'.(results := l.results);
    FillOne(Lit(path), d.results);
    FillOne(Lit(path), l.results);
    CacheCounts(d, l, d1, l1);
    LogGains(d, l, d1, l1, r, r, [Lit(path)]);
    assert |d1.results| == |l1.results| by { PairedOf(d, l); }
    LogGrows(d1, l1, d', l', Success(Void("")), Success(Void("")));
    ResultsGrow(d, l, d', l', Void(""), Void(""));
  }

  lemma SameCounts(d: Replay, l: Replay)
    requires SameLog(d, l)
    ensures d.state.cached == l.state.cached && d.state.rendered == l.state.rendered
  {
  }

  lemma CacheCounts(d: Replay, l: Replay, d1: Replay, l1: Replay)
    requires SameLog(d, l)
    requires d1.state.rendered == d.state.rendered && l1.state.rendered == l.state.rendered
    requires d1.state.cached == d.state.cached + 1 && l1.state.cached == l.state.cached + 1
    ensures d1.state.rendered == l1.state.rendered && d1.state.cached == l1.state.cached
  {
  }

  lemma BindKeeps(call: Call<Arg>, dr: seq<Outcome>, lr: seq<Outcome>, d: State, l: State, kind: Kind, opts: Options)
    requires SameMode(d, l.(dryRun := true))
    ensures ReadRefusal(Bind(call, dr), opts) == ReadRefusal(Bind(call, lr), opts)
    ensures Authorize(d, Bind(call, dr), kind, opts.grant) == Authorize(l, Bind(call, lr), kind, opts.grant)
  {
    hide BindArg, BindAll;
  }

  lemma BrandedMirrors(call: Call<Arg>, results: seq<Outcome>, brand: string, lc: Carrier)
    requires Fits(call, lc) && !IsUnsettled(lc) && (lc.Void? ==> lc == Void(brand))
    ensures Mirrors(Branded(Bind(call, results), brand), lc, true)
  {
    hide BindArg, BindAll;
  }

  lemma StaleMirrors(call: Call<Arg>, results: seq<Outcome>, brand: string, lc: Carrier)
    requires Fits(call, lc) && !IsUnsettled(lc) && (call.Run? || call.Http?)
    ensures Mirrors(Branded(Bind(call, results), brand), lc, true)
  {
    hide BindArg, BindAll;
  }

  /** With nothing recorded yet, a read does in a dry run what it does live. */
  lemma ReadAlike(l: State, call: Call<Value>, plan: Plan, opts: Options, world: World)
    requires Resolve(call) == Success(plan) && !l.dryRun && !l.mutationRecorded
    ensures var (ln, lr) := PerformRead(l, call, plan, opts, world);
      PerformRead(l.(dryRun := true), call, plan, opts, world) == (ln.(dryRun := true), lr)
  {
    hide Resolve, ActionOf, Answer, ReadRefusal, FirstUnsettled;
  }

  lemma ReadPreviews(d: Replay, l: Replay, call: Call<Arg>, opts: Options, world: World)
    requires Previews(d, l) && StraightStep(Do(call, Some(opts)), |d.results|, l.state.allowlist)
    requires Perform(l.state, Bind(call, l.results), Some(opts), world).1.Success?
    requires Resolve(Bind(call, l.results)).Success?
    requires Reading(l.state, Bind(call, l.results), Resolve(Bind(call, l.results)).value, opts)
    ensures Previews(Once(d, Do(call, Some(opts)), world), Once(l, Do(call, Some(opts)), world))
  {
    PairedOf(d, l);
    CallShadows(call, d.results, l.results);
    ReadingSame(call, opts, d.results, l.results, d.state, l.state);
    LiveSucceeds(l.state, call, l.results, Some(opts), world);
    ReadNotVoid(l.state, call, l.results, Resolve(Bind(call, l.results)).value, opts);
    BindKeeps(call, d.results, l.results, d.state, l.state, ProcMutate, opts);
    hide Resolve, Bind, Reading, ReadRefusal, SameLog, SameResults, Shape, Paired, StraightStep, PlanShadows;
    hide Branded, StaleBrand;
    var step := Do(call, Some(opts));
    var d', l' := Once(d, step, world), Once(l, step, world);
    var lc := l'.results[|l.results|].value;
    if d.state.mutationRecorded {
      var plan := Resolve(Bind(call, d.results)).value;
      StaleMirrors(call, d.results, StaleBrand(plan.detail), lc);
      assert d'.state == d.state;
    } else {
      ReadAlike(l.state, Bind(call, l.results), Resolve(Bind(call, l.results)).value, opts, world);
      assert d'.state == l'.state.(dryRun := true);
    }
    var dc := d'.results[|d.results|].value;
    LogGrows(d, l, d', l', Success(dc), Success(lc));
    ResultsGrow(d, l, d', l', dc, lc);
  }

  lemma EntryAlike(d: State, l: State, call: Call<Arg>, dr: seq<Outcome>, lr: seq<Outcome>, opts: Options,
                   grant: Option<Grant>)
    requires Paired(dr, lr) && (forall i :: 0 <= i < |Args(call)| ==> GoodArg(Args(call)[i], |dr|))
    requires Resolve(Bind(call, lr)).Success? && Resolve(Bind(call, dr)).Success? && d.rendered == l.rendered
    requires PlanShadows(Resolve(Bind(call, dr)).value, Resolve(Bind(call, lr)).value)
    ensures SameEntry(RecordOf(d, Resolve(Bind(call, dr)).value, opts, grant),
      RecordOf(l, Resolve(Bind(call, lr)).value, opts, grant),
                      Shape(call), dr, lr)
  {
    assert forall i :: 0 <= i < |Args(call)| ==> GoodArg(Args(call)[i], |dr|) && ResultsOnly(Args(call)[i]);
    DetailFills(call, dr);
    DetailFills(call, lr);
    hide Resolve, Bind, Shape, Fill, Paired;
  }

  lemma MutationPreviews(d: Replay, l: Replay, call: Call<Arg>, opts: Options, world: World)
    requires Previews(d, l) && StraightStep(Do(call, Some(opts)), |d.results|, l.state.allowlist)
    requires Perform(l.state, Bind(call, l.results), Some(opts), world).1.Success?
    requires Resolve(Bind(call, l.results)).Success?
    requires !Reading(l.state, Bind(call, l.results), Resolve(Bind(call, l.results)).value, opts)
    ensures Previews(Once(d, Do(call, Some(opts)), world), Once(l, Do(call, Some(opts)), world))
  {
    PairedOf(d, l);
    SameCounts(d, l);
    CallShadows(call, d.results, l.results);
    ReadingSame(call, opts, d.results, l.results, d.state, l.state);
    LiveSucceeds(l.state, call, l.results, Some(opts), world);
    ShapeHoles(call, |d.results|);
    var dp, lp := Resolve(Bind(call, d.results)).value, Resolve(Bind(call, l.results)).value;
    BindKeeps(call, d.results, l.results, d.state, l.state, lp.kind, opts);
    var grant := Authorize(l.state, Bind(call, l.results), lp.kind, opts.grant).value;
    EntryAlike(d.state, l.state, call, d.results, l.results, opts, grant);
    hide Resolve, Bind, Reading, Authorize, SameLog, SameResults, Shape, Paired, StraightStep, Branded, Brand;
    hide SameEntry, Fits;
    var step := Do(call, Some(opts));
    var d', l' := Once(d, step, world), Once(l, step, world);
    var dr, lr := RecordOf(d.state, dp, opts, grant), RecordOf(l.state, lp, opts, grant);
    var dc, lc := d'.results[|d.results|].value, l'.results[|l.results|].value;
    BrandedMirrors(call, d.results, Brand(d.state.rendered + 1), lc);
    var d1, l1 := d'.(results := d.results), l'.(results := l.results);
    LogGains(d, l, d1, l1, dr, lr, Shape(call));
    LogGrows(d1, l1, d', l', Success(dc), Success(lc));
    ResultsGrow(d, l, d', l', dc, lc);
  }

  lemma StepPreviews(d: Replay, l: Replay, step: Step, world: World)
    requires Previews(d, l) && StraightStep(step, |d.results|, l.state.allowlist)
    requires AllSucceed(Once(l, step, world).results)
    ensures Previews(Once(d, step, world), Once(l, step, world))
  {
    hide Previews, Resolve, Reading, StraightStep;
    match step {
      case CacheStep(path) => CacheStepPreviews(d, l, path, world);
      case Do(call, opts) =>
        assert Once(l, step, world).results[|l.results|].Success?;
        assert !l.state.dryRun by { LiveSide(d, l); }
        LiveSucceeds(l.state, call, l.results, opts, world);
        if Reading(l.state, Bind(call, l.results), Resolve(Bind(call, l.results)).value, opts.value) {
          ReadPreviews(d, l, call, opts.value, world);
        } else {
          MutationPreviews(d, l, call, opts.value, world);
        }
    }
  }

  lemma LiveSide(d: Replay, l: Replay)
    requires Previews(d, l)
    ensures !l.state.dryRun && |d.results| == |l.results|
  {
  }

  /** For any straight-line handler whose live calls all succeed, the dry run previews the
      live one, step for step. */
  lemma {:induction false} PreviewFaithful(readOnly: bool, grants: map<string, Grant>, allowlist: seq<seq<string>>,
                                           steps: seq<Step>, world: World)
    requires Straight(steps, allowlist)
    requires AllSucceed(Play(Armed(false, readOnly, grants, allowlist).state, steps, world).results)
    ensures Previews(Play(Armed(true, readOnly, grants, allowlist).state, steps, world),
                     Play(Armed(false, readOnly, grants, allowlist).state, steps, world))
    ensures |Play(Armed(false, readOnly, grants, allowlist).state, steps, world).results| == |steps|
    ensures Play(Armed(false, readOnly, grants, allowlist).state, steps, world).state.allowlist == allowlist
  {
    hide StraightStep, Resolve, Previews;
    var dry, live := Armed(true, readOnly, grants, allowlist).state, Armed(false, readOnly, grants, allowlist).state;
    if steps == [] {
      StartPreviews(dry, live);
    } else {
      var front, last := steps[..|steps| - 1], steps[|steps| - 1];
      assert Straight(front, allowlist);
      var l := Play(live, front, world);
      assert l.results <= Play(live, steps, world).results;
      assert AllSucceed(l.results) by { PrefixSucceeds(l.results, Play(live, steps, world).results); }
      PreviewFaithful(readOnly, grants, allowlist, front, world);
      assert StraightStep(steps[|front|], |front|, allowlist);
      LiveSide(Play(dry, front, world), l);
      StepPreviews(Play(dry, front, world), l, last, world);
      AllowlistStays(l, last, world);
    }
  }

  /** Until a step records a mutation, the two runs agree exactly. */
  lemma ExactUntilMutation(readOnly: bool, grants: map<string, Grant>, allowlist: seq<seq<string>>,
                           steps: seq<Step>, world: World)
    requires Straight(steps, allowlist)
    requires AllSucceed(Play(Armed(false, readOnly, grants, allowlist).state, steps, world).results)
    requires !Play(Armed(true, readOnly, grants, allowlist).state, steps, world).state.mutationRecorded
    ensures var d, l := Play(Armed(true, readOnly, grants, allowlist).state, steps, world),
                        Play(Armed(false, readOnly, grants, allowlist).state, steps, world);
      d.results == l.results && d.state == l.state.(dryRun := true)
  {
    PreviewFaithful(readOnly, grants, allowlist, steps, world);
  }

  lemma PrefixSucceeds(a: seq<Outcome>, b: seq<Outcome>)
    requires a <= b && AllSucceed(b)
    ensures AllSucceed(a)
  {
    assert forall k :: 0 <= k < |a| ==> a[k] == b[k];
  }

  lemma StartPreviews(dry: State, live: State)
    requires dry == live.(dryRun := true) && !live.dryRun && !live.mutationRecorded && live.records == []
    ensures Previews(Replay(dry, [], []), Replay(live, [], []))
  {
  }

  lemma AllowlistStays(p: Replay, step: Step, world: World)
    ensures Once(p, step, world).state.allowlist == p.state.allowlist
    ensures |Once(p, step, world).results| == |p.results| + 1
  {
    hide Resolve, Answer, ActionOf, Reading, Bind;
  }
}
