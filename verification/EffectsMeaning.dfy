/** What a call does, told from what was passed: the action it performs, what the log says of it, and
    what it returns. */
module EffectsMeaning {
  import opened Names
  import opened Numbers
  import opened Effects
  import EffectsSafety

  // --- What is passed ---------------------------------------------------------------------

  /** The text a value stands for, where something has produced it. */
  function Delivered(v: Value): Option<string> {
    match v
    case Text(text) => Some(text)
    case Carried(Completed(true, _, stdout, _, _)) => Some(stdout)
    case Carried(Response(true, _, body, _)) => DecodeOutput(body)
    case _ => None
  }

  /** The brand of a result that was never produced, of a kind that may be passed on. */
  function Branding(v: Value): Option<string> {
    match v
    case Carried(Completed(false, _, _, _, brand)) => Some(brand)
    case Carried(Response(false, _, _, brand)) => Some(brand)
    case _ => None
  }

  predicate Accepted(v: Value) {
    Delivered(v).Some? || Branding(v).Some?
  }

  /** How it stands in the log. */
  function Shown(v: Value): string
    requires Accepted(v)
  {
    if Delivered(v).Some? then Delivered(v).value else Branding(v).value
  }

  /** What a write's content is: given bytes, the encoding of a text, or nothing known. */
  function ContentOf(v: Value): Option<seq<byte>> {
    match v
    case Raw(data) => data
    case _ => if Delivered(v).Some? then Some(Bytes(Delivered(v).value)) else None
  }

  function ContentShown(v: Value): string
    requires v.Raw? || Accepted(v)
  {
    if v.Raw? then Itoa(if v.data.Some? then |v.data.value| else 0) + " bytes"
    else if Delivered(v).Some? then Itoa(|Bytes(Delivered(v).value)|) + " bytes"
    else Branding(v).value
  }

  // --- What is done and what is said ----------------------------------------------------------

  /** The action that carries out the call: the texts in the order in which they were passed. */
  ghost predicate CarriesOut(call: Call<Value>, opts: Options, a: Action) {
    match a
    case Exec(argv, o) => call.Run? && o == opts && Spells(call.argv, argv)
    case Start(argv, o) => call.Spawn? && o == opts && Spells(call.argv, argv)
    case WriteFile(path, data, mode) =>
      && call.Write? && Delivered(call.path) == Some(path) && mode == opts.extras.mode
      && data == if ContentOf(call.content).Some? then ContentOf(call.content).value else []
    case MkdirAll(path) => call.Mkdir? && Delivered(call.path) == Some(path)
    case RemoveAll(path) => call.Remove? && Delivered(call.path) == Some(path)
    case RenamePath(src, dst) => call.Rename? && Delivered(call.src) == Some(src) && Delivered(call.dst) == Some(dst)
    case ChmodPath(path, bits) => call.Chmod? && Delivered(call.path) == Some(path) && bits == call.mode
    case Send(verb, url, o) => call.Http? && verb == call.verb && Delivered(call.url) == Some(url) && o == opts
  }

  ghost predicate Spells(argv: seq<Value>, texts: seq<string>) {
    |texts| == |argv| && forall i :: 0 <= i < |argv| ==> Delivered(argv[i]) == Some(texts[i])
  }

  /** What the log says of an action. */
  function Heading(a: Action): (Kind, string) {
    match a
    case Exec(_, _) => (ProcMutate, "run")
    case Start(_, _) => (ProcSpawn, "spawn")
    case WriteFile(_, _, _) => (FileWrite, "write")
    case MkdirAll(_) => (FileWrite, "mkdir")
    case RemoveAll(_) => (FileWrite, "remove")
    case RenamePath(_, _) => (FileWrite, "rename")
    case ChmodPath(_, _) => (FileWrite, "chmod")
    case Send(_, _, _) => (NetMutate, "net")
  }

  function Rendering(a: Action): string {
    match a
    case Exec(argv, _) => Join(argv, " ")
    case Start(argv, _) => Join(argv, " ")
    case WriteFile(path, data, _) => path + " (" + Itoa(|data|) + " bytes)"
    case MkdirAll(path) => path
    case RemoveAll(path) => path
    case RenamePath(src, dst) => src + " -> " + dst
    case ChmodPath(path, bits) => path + " " + Octal(bits)
    case Send(verb, url, _) => verb + " " + url
  }

  ghost function AllShown(argv: seq<Value>): seq<string>
    requires forall v :: v in argv ==> Accepted(v)
  {
    seq(|argv|, i requires 0 <= i < |argv| => Shown(argv[i]))
  }

  function Verb(call: Call<Value>): string {
    match call
    case Run(_) => "run"
    case Spawn(_) => "spawn"
    case Write(_, _) => "write"
    case Mkdir(_) => "mkdir"
    case Remove(_) => "remove"
    case Rename(_, _) => "rename"
    case Chmod(_, _) => "chmod"
    case Http(_, _) => "net"
  }

  /** The same before anything is done, brands standing for what is not known. */
  ghost function Told(call: Call<Value>): string
    requires Acceptable(call)
  {
    match call
    case Run(argv) => Join(AllShown(argv), " ")
    case Spawn(argv) => Join(AllShown(argv), " ")
    case Write(path, content) =>
      assert path in Operands(call);
      Shown(path) + " (" + ContentShown(content) + ")"
    case Rename(src, dst) =>
      assert src in Operands(call) && dst in Operands(call);
      Shown(src) + " -> " + Shown(dst)
    case Http(verb, url) =>
      assert url in Operands(call);
      verb + " " + Shown(url)
    case Chmod(path, mode) =>
      assert path in Operands(call);
      Shown(path) + " " + Octal(mode)
    case _ =>
      assert call.path in Operands(call);
      Shown(call.path)
  }

  // --- When a call goes through ------------------------------------------------------------------

  function Operands(call: Call<Value>): seq<Value> {
    match call
    case Run(argv) => argv
    case Spawn(argv) => argv
    case Write(path, _) => [path]
    case Mkdir(path) => [path]
    case Remove(path) => [path]
    case Rename(src, dst) => [src, dst]
    case Chmod(path, _) => [path]
    case Http(_, url) => [url]
  }

  /** Every operand may be passed, an argv has one at least, and a content may be bytes. */
  ghost predicate Acceptable(call: Call<Value>) {
    && (forall v :: v in Operands(call) ==> Accepted(v)) && Operands(call) != []
    && (call.Write? ==> call.content.Raw? || Accepted(call.content))
  }

  ghost predicate AllDelivered(call: Call<Value>) {
    forall v :: v in Operands(call) ==> Delivered(v).Some?
  }

  ghost predicate OpensWith(argv: seq<Value>, prefix: seq<string>) {
    |prefix| <= |argv| && forall i :: 0 <= i < |prefix| ==> Delivered(argv[i]) == Some(prefix[i])
  }

  /** An argv that opens with an allowlisted prefix, word for word, or a declared read. */
  ghost predicate Reads(s: State, call: Call<Value>, opts: Options) {
    match call
    case Run(argv) =>
      opts.observe || exists q :: 0 <= q < |s.allowlist| && OpensWith(argv, s.allowlist[q])
    case Http(_, _) => opts.read
    case _ => false
  }

  predicate MayRead(call: Call<Value>, opts: Options) {
    opts.grant.None? && (call.Http? ==> call.verb == "GET" || call.verb == "HEAD" || call.verb == "OPTIONS")
  }

  function KindOf(call: Call<Value>): Kind {
    match call
    case Run(_) => ProcMutate
    case Spawn(_) => ProcSpawn
    case Http(_, _) => NetMutate
    case _ => FileWrite
  }

  predicate MayMutate(s: State, call: Call<Value>, opts: Options) {
    !s.readOnly &&
      (opts.grant.Some? ==> opts.grant.value in s.grants && s.grants[opts.grant.value].kind == KindOf(call))
  }

  /** A read acts until a dry run has recorded a mutation; a mutation acts live only. */
  ghost predicate Acts(s: State, call: Call<Value>, opts: Options) {
    && Acceptable(call) && AllDelivered(call)
    && if Reads(s, call, opts) then MayRead(call, opts) && !(s.dryRun && s.mutationRecorded)
       else MayMutate(s, call, opts) && !s.dryRun
  }

  /** A mutation that is allowed is recorded, in both modes. */
  ghost predicate Records(s: State, call: Call<Value>, opts: Options) {
    Acceptable(call) && !Reads(s, call, opts) && MayMutate(s, call, opts)
  }

  // --- The parts of a call -------------------------------------------------------------------------

  lemma OperandMeans(v: Value, param: string)
    ensures var r := ResolveOperand(v, param);
      && (r.Success? <==> Accepted(v))
      && (r.Success? ==> r.value.rendered == Shown(v) && (r.value.unsettled <==> Delivered(v).None?))
      && (r.Success? && Delivered(v).Some? ==> r.value.value == Delivered(v).value)
  {
    hide DecodeOutput;
  }

  lemma ContentMeans(v: Value)
    ensures var r := ResolveContent(v);
      && (r.Success? <==> v.Raw? || Accepted(v))
      && (r.Success? ==> r.value.data == ContentOf(v) && r.value.rendered == ContentShown(v))
  {
    hide DecodeOutput, Bytes;
    OperandMeans(v, "content");
  }

  lemma {:induction false} ArgvMeans(argv: seq<Value>, i: nat)
    requires i <= |argv|
    ensures ResolveFrom(argv, i).Success? <==> forall k :: i <= k < |argv| ==> Accepted(argv[k])
    decreases |argv| - i
  {
    hide Accepted, ResolveOperand, ArgvParam;
    if i < |argv| {
      ArgvMeans(argv, i + 1);
      OperandMeans(argv[i], ArgvParam(i));
    }
  }

  /** Every operand of a plan is what resolving its own value gave. */
  ghost predicate Resolved(values: seq<Value>, ops: seq<Operand>) {
    |ops| == |values| &&
    forall i :: 0 <= i < |values| ==>
      && Accepted(values[i]) && ops[i].rendered == Shown(values[i])
      && (ops[i].unsettled <==> Delivered(values[i]).None?)
      && (Delivered(values[i]).Some? ==> ops[i].value == Delivered(values[i]).value)
  }

  lemma OperandsResolved(argv: seq<Value>)
    requires ResolveFrom(argv, 0).Success?
    ensures Resolved(argv, ResolveFrom(argv, 0).value)
  {
    EffectsSafety.ResolvedOperands(argv, 0);
    hide Accepted, Delivered, Shown, ResolveOperand, ArgvParam, ResolveFrom;
    var ops := ResolveFrom(argv, 0).value;
    forall i | 0 <= i < |argv|
      ensures Accepted(argv[i]) && ops[i].rendered == Shown(argv[i])
      ensures ops[i].unsettled <==> Delivered(argv[i]).None?
      ensures Delivered(argv[i]).Some? ==> ops[i].value == Delivered(argv[i]).value
    {
      assert ResolveOperand(argv[0 + i], ArgvParam(0 + i)) == Success(ops[i]);
      OperandMeans(argv[i], ArgvParam(i));
    }
  }

  lemma PlanMeans(call: Call<Value>)
    ensures Resolve(call).Success? <==> Acceptable(call)
    ensures Resolve(call).Success? ==>
      Resolved(Operands(call), Resolve(call).value.ops) && Resolve(call).value.kind == KindOf(call)
  {
    hide ResolveOperand, ResolveContent, ResolveArgvPlan, Accepted, Delivered, Shown, Octal;
    match call
    case Run(argv) => ArgvPlan(argv, ProcMutate, "run");
    case Spawn(argv) => ArgvPlan(argv, ProcSpawn, "spawn");
    case Write(path, content) =>
      OperandMeans(path, "path");
      ContentMeans(content);
    case Rename(src, dst) =>
      OperandMeans(src, "src");
      OperandMeans(dst, "dst");
    case Http(_, url) => OperandMeans(url, "url");
    case _ => OperandMeans(call.path, "path");
  }

  lemma ArgvPlan(argv: seq<Value>, kind: Kind, verb: string)
    ensures var r := ResolveArgvPlan(argv, kind, verb);
      && (r.Success? <==> argv != [] && forall v :: v in argv ==> Accepted(v))
      && (r.Success? ==> Resolved(argv, r.value.ops) && r.value.kind == kind && r.value.verb == verb)
      && (r.Success? ==> r.value.detail == Join(Rendered(r.value.ops), " ") && r.value.data.None?)
  {
    ArgvMeans(argv, 0);
    hide Accepted, Resolved, Join, Rendered, ResolveFrom;
    assert (forall k :: 0 <= k < |argv| ==> Accepted(argv[k])) <==> forall v :: v in argv ==> Accepted(v);
    if ResolveFrom(argv, 0).Success? { OperandsResolved(argv); }
  }

  lemma SettledMeans(call: Call<Value>, plan: Plan)
    requires Resolve(call) == Success(plan)
    ensures FirstUnsettled(plan.ops, 0) == |plan.ops| <==> AllDelivered(call)
  {
    PlanMeans(call);
    hide Resolve, Accepted, Delivered, Shown;
    var values, ops := Operands(call), plan.ops;
    var k := FirstUnsettled(ops, 0);
    if k < |ops| {
      assert values[k] in values && Delivered(values[k]).None?;
    } else {
      forall v | v in values ensures Delivered(v).Some? {
        var i :| 0 <= i < |values| && values[i] == v;
        assert !ops[i].unsettled;
      }
    }
  }

  lemma ReadingMeans(s: State, call: Call<Value>, plan: Plan, opts: Options)
    requires Resolve(call) == Success(plan)
    ensures Reading(s, call, plan, opts) <==> Reads(s, call, opts)
    ensures ReadRefusal(call, opts).None? <==> MayRead(call, opts)
  {
    PlanMeans(call);
    hide Resolve, Accepted, Delivered, Shown;
    if call.Run? {
      forall q | 0 <= q < |s.allowlist|
        ensures Matches(s.allowlist[q], plan.ops) <==> OpensWith(call.argv, s.allowlist[q])
      {
        MatchesMeans(s.allowlist[q], call.argv, plan.ops);
      }
    }
  }

  lemma MatchesMeans(prefix: seq<string>, argv: seq<Value>, ops: seq<Operand>)
    requires Resolved(argv, ops)
    ensures Matches(prefix, ops) <==> OpensWith(argv, prefix)
  {
    hide Accepted, Delivered, Shown;
    if |prefix| <= |argv| {
      forall i | 0 <= i < |prefix|
        ensures !ops[i].unsettled && ops[i].value == prefix[i] <==> Delivered(argv[i]) == Some(prefix[i])
      {
      }
    }
  }

  lemma ActionMeans(call: Call<Value>, plan: Plan, opts: Options)
    requires Resolve(call) == Success(plan) && AllDelivered(call)
    ensures CarriesOut(call, opts, ActionOf(call, plan, opts))
  {
    PlanMeans(call);
    DataMeans(call, plan);
    hide Resolve, Accepted, Delivered, Shown, ContentOf;
    assert forall i :: 0 <= i < |Operands(call)| ==> Delivered(Operands(call)[i]) == Some(plan.ops[i].value);
  }

  lemma DataMeans(call: Call<Value>, plan: Plan)
    requires Resolve(call) == Success(plan)
    ensures plan.data == if call.Write? then ContentOf(call.content) else None
  {
    hide ResolveOperand, ResolveContent, ResolveArgvPlan, Octal, ContentOf;
    match call
    case Run(argv) => ArgvPlan(argv, ProcMutate, "run");
    case Spawn(argv) => ArgvPlan(argv, ProcSpawn, "spawn");
    case Write(_, content) => ContentMeans(content);
    case _ =>
  }

  lemma ArgvShown(argv: seq<Value>, ops: seq<Operand>)
    requires Resolved(argv, ops)
    ensures Rendered(ops) == AllShown(argv)
  {
    hide Accepted, Shown, Delivered;
  }

  /** What the log says of a call. */
  lemma RecordMeans(call: Call<Value>, plan: Plan)
    requires Resolve(call) == Success(plan) && Acceptable(call)
    ensures plan.verb == Verb(call) && plan.detail == Told(call)
  {
    hide Accepted, Delivered, Shown, ContentShown, ResolveOperand, ResolveContent, ResolveArgvPlan, Octal, Join;
    match call
    case Run(argv) =>
      ArgvPlan(argv, ProcMutate, "run");
      ArgvShown(argv, plan.ops);
    case Spawn(argv) =>
      ArgvPlan(argv, ProcSpawn, "spawn");
      ArgvShown(argv, plan.ops);
    case Write(path, content) =>
      OperandMeans(path, "path");
      ContentMeans(content);
    case Rename(src, dst) =>
      OperandMeans(src, "src");
      OperandMeans(dst, "dst");
    case Http(_, url) => OperandMeans(url, "url");
    case _ => OperandMeans(call.path, "path");
  }

  /** It says what it would say of the action that carries the call out. */
  lemma ToldAsDone(call: Call<Value>, opts: Options, a: Action)
    requires Acceptable(call) && CarriesOut(call, opts, a) && (call.Write? ==> ContentOf(call.content).Some?)
    ensures (KindOf(call), Verb(call)) == Heading(a) && Told(call) == Rendering(a)
  {
    match a
    case Exec(argv, _) => assert AllShown(call.argv) == argv;
    case Start(argv, _) => assert AllShown(call.argv) == argv;
    case WriteFile(path, data, _) =>
      hide Bytes, Itoa, DecodeOutput;
      var n := Itoa(|data|);
      assert ContentShown(call.content) == n + " bytes";
      assert path + " (" + (n + " bytes") + ")" == path + " (" + n + " bytes)";
    case _ => hide Octal, DecodeOutput;
  }

  // --- The whole call -----------------------------------------------------------------------------

  /** In every state, whatever was passed: the call acts exactly under these conditions, and then by one
      action, the one that carries it out. */
  lemma CallActs(s: State, call: Call<Value>, opts: Options, world: World)
    ensures var n := Perform(s, call, Some(opts), world).0;
      && (n.done != s.done <==> Acts(s, call, opts))
      && (Acts(s, call, opts) ==>
            |n.done| == |s.done| + 1 && n.done[..|s.done|] == s.done && CarriesOut(call, opts, n.done[|s.done|]))
  {
    PlanMeans(call);
    if Resolve(call).Success? {
      var plan := Resolve(call).value;
      SettledMeans(call, plan);
      ReadingMeans(s, call, plan, opts);
      if AllDelivered(call) { ActionMeans(call, plan, opts); }
      hide Resolve, ActionOf, Answer, CarriesOut, AllDelivered, FirstUnsettled, Reading, Reads, MayRead, ReadRefusal;
      hide Acceptable, Brand, PerformRead, PerformMutation;
      if Reads(s, call, opts) {
        ReadActs(s, call, plan, opts, world);
      } else {
        MutationActs(s, call, plan, opts, world);
      }
    }
  }

  lemma ReadActs(s: State, call: Call<Value>, plan: Plan, opts: Options, world: World)
    requires Resolve(call) == Success(plan) && (ReadRefusal(call, opts).None? <==> MayRead(call, opts))
    requires FirstUnsettled(plan.ops, 0) == |plan.ops| <==> AllDelivered(call)
    ensures var n := PerformRead(s, call, plan, opts, world).0;
      n.done == if MayRead(call, opts) && !(s.dryRun && s.mutationRecorded) && AllDelivered(call)
                then s.done + [ActionOf(call, plan, opts)] else s.done
  {
    hide Resolve, ActionOf, Answer, AllDelivered, FirstUnsettled, MayRead, ReadRefusal, StaleBrand, Branded;
  }

  lemma MutationActs(s: State, call: Call<Value>, plan: Plan, opts: Options, world: World)
    requires Resolve(call) == Success(plan) && plan.kind == KindOf(call)
    requires FirstUnsettled(plan.ops, 0) == |plan.ops| <==> AllDelivered(call)
    ensures var n := PerformMutation(s, call, plan, opts, world).0;
      n.done == if MayMutate(s, call, opts) && !s.dryRun && AllDelivered(call)
                then s.done + [ActionOf(call, plan, opts)] else s.done
  {
    AuthorizeMeans(s, call, opts);
    hide Resolve, ActionOf, Answer, AllDelivered, FirstUnsettled, MayMutate, Authorize, RecordOf, Brand, Branded;
  }

  /** The record of a call: the next number, what the call says of itself, the grant it names, and the
      size of what it writes. */
  ghost predicate RecordsIt(s: State, call: Call<Value>, opts: Options, r: Record)
    requires Acceptable(call) && MayMutate(s, call, opts)
  {
    && r.number == s.rendered + 1 && r.recorded == s.dryRun && r.extras == opts.extras
    && r.kind == KindOf(call) && r.verb == Verb(call) && r.detail == Told(call)
    && r.grant == (if opts.grant.Some? then Some(s.grants[opts.grant.value]) else None)
    && (call.Write? && ContentOf(call.content).Some? ==> r.bytes == Some(|ContentOf(call.content).value|))
    && (!(call.Write? && ContentOf(call.content).Some?) ==> r.bytes == None)
  }

  lemma AuthorizeMeans(s: State, call: Call<Value>, opts: Options)
    ensures var r := Authorize(s, call, KindOf(call), opts.grant);
      && (r.Success? <==> MayMutate(s, call, opts))
      && (r.Success? ==> r.value == if opts.grant.Some? then Some(s.grants[opts.grant.value]) else None)
  {
  }

  lemma RecordOfMeans(s: State, call: Call<Value>, plan: Plan, opts: Options)
    requires Resolve(call) == Success(plan) && Acceptable(call) && MayMutate(s, call, opts)
    ensures RecordsIt(s, call, opts, RecordOf(s, plan, opts, Authorize(s, call, KindOf(call), opts.grant).value))
  {
    PlanMeans(call);
    RecordMeans(call, plan);
    DataMeans(call, plan);
    AuthorizeMeans(s, call, opts);
    hide Resolve, Acceptable, Told, ContentOf, Authorize, MayMutate;
  }

  lemma MutationRecords(s: State, call: Call<Value>, plan: Plan, opts: Options, world: World)
    requires Resolve(call) == Success(plan) && plan.kind == KindOf(call)
    ensures var n, g := PerformMutation(s, call, plan, opts, world).0, Authorize(s, call, KindOf(call), opts.grant);
      && (g.Failure? ==> n == s)
      && (g.Success? ==> n.records == s.records + [RecordOf(s, plan, opts, g.value)])
      && (g.Success? ==> n.mutationRecorded == (s.mutationRecorded || s.dryRun))
  {
    hide Resolve, Authorize, RecordOf, ActionOf, Answer, FirstUnsettled, Brand, Branded;
  }

  lemma ReadRecordsNothing(s: State, call: Call<Value>, plan: Plan, opts: Options, world: World)
    requires Resolve(call) == Success(plan)
    ensures PerformRead(s, call, plan, opts, world).0 == s.(done := PerformRead(s, call, plan, opts, world).0.done)
  {
    hide Resolve, ReadRefusal, ActionOf, Answer, FirstUnsettled, StaleBrand, Branded;
  }

  /** It is recorded exactly under these conditions, and then by that record. */
  lemma CallRecords(s: State, call: Call<Value>, opts: Options, world: World)
    ensures var n := Perform(s, call, Some(opts), world).0;
      && (n.records != s.records <==> Records(s, call, opts))
      && (Records(s, call, opts) ==> |n.records| == |s.records| + 1 && n.records[..|s.records|] == s.records)
      && (Records(s, call, opts) ==> RecordsIt(s, call, opts, n.records[|s.records|]))
      && n.mutationRecorded == (s.mutationRecorded || (s.dryRun && Records(s, call, opts)))
  {
    PlanMeans(call);
    hide Resolve, PerformMutation, PerformRead, Authorize, RecordOf, Reading, Reads, RecordsIt, Acceptable, MayMutate;
    if Resolve(call).Success? {
      var plan := Resolve(call).value;
      ReadingMeans(s, call, plan, opts);
      AuthorizeMeans(s, call, opts);
      if Reads(s, call, opts) {
        ReadRecordsNothing(s, call, plan, opts, world);
      } else {
        MutationRecords(s, call, plan, opts, world);
        if MayMutate(s, call, opts) { RecordOfMeans(s, call, plan, opts); }
      }
    }
  }

  /** A cache write is recorded in both modes, under a number of its own and never as something a dry run
      would do. */
  lemma CacheRecords(s: State, path: string)
    ensures var n := PerformCacheWrite(s, path);
      && n == s.(records := n.records, cached := s.cached + 1)
      && |n.records| == |s.records| + 1 && n.records[..|s.records|] == s.records
      && var r := n.records[|s.records|];
         && r.number == s.cached + 1 && r.kind == CacheWrite && r.verb == "cache" && r.detail == path
         && r.bytes.None? && r.grant.None? && !r.recorded
  {
  }

  /** So a live mutation that acts is logged as what it does. */
  lemma LoggedAsDone(s: State, call: Call<Value>, opts: Options, world: World)
    requires Records(s, call, opts) && Acts(s, call, opts) && (call.Write? ==> ContentOf(call.content).Some?)
    ensures var n := Perform(s, call, Some(opts), world).0;
      && |n.records| == |s.records| + 1 && |n.done| == |s.done| + 1
      && var r, a := n.records[|s.records|], n.done[|s.done|];
         (r.kind, r.verb) == Heading(a) && r.detail == Rendering(a)
  {
    hide Perform, Records, Acts, CarriesOut, Told, Acceptable;
    CallActs(s, call, opts, world);
    CallRecords(s, call, opts, world);
    var n := Perform(s, call, Some(opts), world).0;
    assert Acceptable(call) by { assert Records(s, call, opts); RecordsAcceptable(s, call, opts); }
    ToldAsDone(call, opts, n.done[|s.done|]);
  }

  lemma RecordsAcceptable(s: State, call: Call<Value>, opts: Options)
    requires Records(s, call, opts)
    ensures Acceptable(call)
  {
  }

  // --- What comes back -----------------------------------------------------------------------------

  /** The result of a call nothing has produced, under a brand. */
  function Unproduced(call: Call<Value>, brand: string): Outcome {
    match call
    case Run(_) => Success(Completed(false, 0, "", "", brand))
    case Spawn(_) => Success(Spawned(false, 0, brand))
    case Http(_, _) => Success(Response(false, 0, [], brand))
    case _ => Success(Void(brand))
  }

  /** A child's two streams as text, where both are; a streamed run captures nothing. */
  ghost predicate Captured(opts: Options, reply: Reply, out: string, err: string) {
    if opts.stream then out == "" && err == ""
    else DecodeOutput(reply.stdout) == Some(out) && DecodeOutput(reply.stderr) == Some(err)
  }

  /** What the world's answer comes back as. */
  ghost predicate ComesBack(call: Call<Value>, opts: Options, reply: Reply, number: nat, r: Outcome) {
    if reply.error.Some? then r == Failure(Failed(reply.error.value))
    else
      match call
      case Run(_) =>
        && (forall out, err :: Captured(opts, reply, out, err) ==>
              r == if opts.check && reply.code != 0 then Failure(RunFailed(reply.code))
                   else Success(Completed(true, reply.code, out, err, "")))
        && ((forall out, err :: !Captured(opts, reply, out, err)) ==> r == Failure(NotUtf8))
      case Spawn(_) => r == Success(Spawned(true, reply.pid, ""))
      case Http(_, _) =>
        r == if opts.check && (reply.status < 200 || reply.status > 299) then Failure(HttpFailed(reply.status))
             else Success(Response(true, reply.status, reply.body, ""))
      case _ => r == Success(Void("\U{AB}step " + Itoa(number) + " output\U{BB}"))
  }

  lemma AnswerMeans(call: Call<Value>, opts: Options, reply: Reply, number: nat)
    ensures ComesBack(call, opts, reply, number, Answer(call, opts, reply, number))
  {
    hide DecodeOutput, Itoa;
    if call.Run? {
      var out := if opts.stream then Some("") else DecodeOutput(reply.stdout);
      var err := if opts.stream then Some("") else DecodeOutput(reply.stderr);
      if out.Some? && err.Some? { assert Captured(opts, reply, out.value, err.value); }
    }
  }

  /** A read that is allowed after a dry run has recorded a mutation. */
  ghost predicate Stale(s: State, call: Call<Value>, opts: Options) {
    Acceptable(call) && Reads(s, call, opts) && MayRead(call, opts) && s.dryRun && s.mutationRecorded
  }

  /** What every call returns: a stale read and a mutation of a dry run a brand, what acts the world's answer
      read, and all the rest an error. */
  lemma CallReturns(s: State, call: Call<Value>, opts: Options, world: World)
    ensures var (n, r) := Perform(s, call, Some(opts), world);
      && (Stale(s, call, opts) ==> r == Unproduced(call, "\U{AB}stale: " + Told(call) + "\U{BB}"))
      && (s.dryRun && Records(s, call, opts) ==>
            r == Unproduced(call, "\U{AB}step " + Itoa(s.rendered + 1) + " output\U{BB}"))
      && (Acts(s, call, opts) ==>
            |n.done| > |s.done| &&
            ComesBack(call, opts, world(s.done, n.done[|s.done|]), s.rendered + 1, r))
      && (!Stale(s, call, opts) && !(s.dryRun && Records(s, call, opts)) && !Acts(s, call, opts) ==> r.Failure?)
  {
    PlanMeans(call);
    assert Reads(s, call, opts) ==> call.Run? || call.Http?;
    hide Resolve, PerformMutation, PerformRead, Reading, Reads, Acceptable, MayMutate, AllDelivered;
    hide Unproduced, ComesBack, Itoa, Told, MayRead;
    if Resolve(call).Success? {
      var plan := Resolve(call).value;
      ReadingMeans(s, call, plan, opts);
      SettledMeans(call, plan);
      RecordMeans(call, plan);
      if Reads(s, call, opts) {
        ReadReturns(s, call, plan, opts, world);
      } else {
        MutationReturns(s, call, plan, opts, world);
      }
    }
  }

  lemma BrandedMeans(call: Call<Value>, brand: string)
    ensures Success(Branded(call, brand)) == Unproduced(call, brand)
  {
  }

  lemma ExecuteReturns(s: State, call: Call<Value>, plan: Plan, opts: Options, number: nat, world: World)
    requires Resolve(call) == Success(plan)
    ensures var (n, r) := Execute(s, call, plan, opts, number, world);
      if AllDelivered(call) then
        |n.done| == |s.done| + 1 && ComesBack(call, opts, world(s.done, n.done[|s.done|]), number, r)
      else r.Failure?
  {
    SettledMeans(call, plan);
    hide Resolve, ActionOf, Answer, ComesBack, AllDelivered, FirstUnsettled;
    if AllDelivered(call) { AnswerMeans(call, opts, world(s.done, ActionOf(call, plan, opts)), number); }
  }

  /** A read is no void call, so no number shows in what comes back. */
  lemma ReadReturns(s: State, call: Call<Value>, plan: Plan, opts: Options, world: World)
    requires Resolve(call) == Success(plan) && Acceptable(call) && plan.detail == Told(call)
    requires call.Run? || call.Http?
    ensures var (n, r) := PerformRead(s, call, plan, opts, world);
      if !MayRead(call, opts) then r.Failure?
      else if s.dryRun && s.mutationRecorded then r == Unproduced(call, "\U{AB}stale: " + Told(call) + "\U{BB}")
      else if AllDelivered(call) then
        |n.done| > |s.done| && ComesBack(call, opts, world(s.done, n.done[|s.done|]), s.rendered + 1, r)
      else r.Failure?
  {
    ReadingMeans(s, call, plan, opts);
    BrandedMeans(call, StaleBrand(plan.detail));
    ExecuteReturns(s, call, plan, opts, 0, world);
    hide Resolve, Execute, AllDelivered, MayRead, ReadRefusal, Told, Unproduced, Branded, Itoa, Reading, Reads;
  }

  lemma MutationReturns(s: State, call: Call<Value>, plan: Plan, opts: Options, world: World)
    requires Resolve(call) == Success(plan) && plan.kind == KindOf(call)
    ensures var (n, r) := PerformMutation(s, call, plan, opts, world);
      if !MayMutate(s, call, opts) then r.Failure?
      else if s.dryRun then r == Unproduced(call, "\U{AB}step " + Itoa(s.rendered + 1) + " output\U{BB}")
      else if AllDelivered(call) then
        |n.done| > |s.done| && ComesBack(call, opts, world(s.done, n.done[|s.done|]), s.rendered + 1, r)
      else r.Failure?
  {
    AuthorizeMeans(s, call, opts);
    BrandedMeans(call, Brand(s.rendered + 1));
    hide Resolve, Execute, AllDelivered, MayMutate, Unproduced, Branded, Itoa, Authorize, RecordOf, ComesBack;
    if Authorize(s, call, KindOf(call), opts.grant).Success? {
      var grant := Authorize(s, call, KindOf(call), opts.grant).value;
      ExecuteReturns(Append(s, RecordOf(s, plan, opts, grant)), call, plan, opts, s.rendered + 1, world);
    }
  }

  // --- Which refusal ------------------------------------------------------------------------------

  /** Why a value may not be passed: a result that stands for no text, bytes that are no text, or nothing
      that may be passed at all. */
  function RefusalOf(v: Value, param: string): Error
    requires !Accepted(v)
  {
    match v
    case Raw(_) => ParamType(param)
    case Foreign(_) => ParamType(param)
    case Carried(Void(_)) => RejectsCarrier(param)
    case Carried(Spawned(_, _, _)) => RejectsCarrier(param)
    case _ => NotUtf8
  }

  function ParamOf(call: Call<Value>, i: nat): string {
    match call
    case Run(_) => "argv[" + Itoa(i) + "]"
    case Spawn(_) => "argv[" + Itoa(i) + "]"
    case Rename(_, _) => if i == 0 then "src" else "dst"
    case Http(_, _) => "url"
    case _ => "path"
  }

  ghost predicate FirstRefused(call: Call<Value>, i: nat) {
    i < |Operands(call)| && !Accepted(Operands(call)[i]) && forall j :: 0 <= j < i ==> Accepted(Operands(call)[j])
  }

  ghost predicate FirstUnknown(call: Call<Value>, i: nat) {
    && i < |Operands(call)| && Delivered(Operands(call)[i]).None?
    && forall j :: 0 <= j < i ==> Delivered(Operands(call)[j]).Some?
  }

  lemma OperandRefused(v: Value, param: string)
    requires !Accepted(v)
    ensures ResolveOperand(v, param) == Failure(RefusalOf(v, param))
  {
    hide DecodeOutput;
  }

  lemma {:induction false} ArgvRefused(argv: seq<Value>, i: nat, k: nat)
    requires i <= k < |argv| && !Accepted(argv[k]) && forall j :: i <= j < k ==> Accepted(argv[j])
    ensures ResolveFrom(argv, i) == Failure(RefusalOf(argv[k], ArgvParam(k)))
    decreases |argv| - i
  {
    hide Accepted, ResolveOperand, RefusalOf, ArgvParam;
    if i == k {
      OperandRefused(argv[i], ArgvParam(i));
    } else {
      OperandMeans(argv[i], ArgvParam(i));
      ArgvRefused(argv, i + 1, k);
    }
  }

  /** The first operand that may not be passed is named, before anything else is looked at; then a content;
      an argv needs a word. */
  lemma OperandsRefuse(call: Call<Value>)
    ensures Operands(call) == [] ==> Resolve(call) == Failure(ArgvEmpty)
    ensures forall i: nat :: FirstRefused(call, i) ==>
      Resolve(call) == Failure(RefusalOf(Operands(call)[i], ParamOf(call, i)))
    ensures call.Write? && Accepted(call.path) && !call.content.Raw? && !Accepted(call.content) ==>
      Resolve(call) == Failure(RefusalOf(call.content, "content"))
  {
    forall i: nat | FirstRefused(call, i)
      ensures Resolve(call) == Failure(RefusalOf(Operands(call)[i], ParamOf(call, i))) {
      if call.Run? || call.Spawn? {
        ArgvRefused(call.argv, 0, i);
      } else {
        hide Accepted, RefusalOf, ResolveOperand, ResolveContent, Octal;
        if i > 0 { OperandMeans(Operands(call)[0], ParamOf(call, 0)); }
        OperandRefused(Operands(call)[i], ParamOf(call, i));
      }
    }
    if call.Write? && Accepted(call.path) && !call.content.Raw? && !Accepted(call.content) {
      OperandMeans(call.path, "path");
      OperandRefused(call.content, "content");
    }
  }

  /** The refusals behind the operands, in order. */
  lemma CallRefuses(s: State, call: Call<Value>, opts: Options, world: World)
    ensures var r := Perform(s, call, Some(opts), world).1;
      && (Resolve(call).Failure? ==> r == Failure(Resolve(call).error))
      && (Acceptable(call) && Reads(s, call, opts) && !MayRead(call, opts) ==>
            r == Failure(if call.Http? && call.verb != "GET" && call.verb != "HEAD" && call.verb != "OPTIONS"
                         then ReadOnMutatingMethod
                         else if call.Run? && !opts.observe then GrantOnObserve else GrantOnDeclaredRead))
      && (Acceptable(call) && !Reads(s, call, opts) && !MayMutate(s, call, opts) ==>
            r == Failure(if s.readOnly then (if call.Run? then RunNotAllowlisted else MutatingInReadOnly)
                         else if opts.grant.value !in s.grants then GrantUndeclared else GrantKindMismatch))
      && (forall i: nat :: FirstUnknown(call, i) && Reaches(s, call, opts) ==>
            r == Failure(StillUnsettled(ParamOf(call, i))))
  {
    PlanMeans(call);
    if Resolve(call).Success? {
      var plan := Resolve(call).value;
      ReadingMeans(s, call, plan, opts);
      RefusalMeans(s, call, opts);
      forall i: nat | FirstUnknown(call, i)
        ensures FirstUnsettled(plan.ops, 0) == i && ParamName(call, i) == ParamOf(call, i) {
        UnknownMeans(call, plan, i);
      }
      hide Resolve, ActionOf, Answer, FirstUnsettled, Reading, Reads, Acceptable, MayRead, MayMutate, ReadRefusal;
      hide Authorize, Brand, StaleBrand, Branded, RecordOf, ParamName, ParamOf, FirstUnknown, Delivered;
    }
  }

  /** Nothing but an operand that is not known can stop the call. */
  ghost predicate Reaches(s: State, call: Call<Value>, opts: Options) {
    && Acceptable(call)
    && if Reads(s, call, opts) then MayRead(call, opts) && !(s.dryRun && s.mutationRecorded)
       else MayMutate(s, call, opts) && !s.dryRun
  }

  lemma UnknownMeans(call: Call<Value>, plan: Plan, i: nat)
    requires Resolve(call) == Success(plan) && FirstUnknown(call, i)
    ensures FirstUnsettled(plan.ops, 0) == i && ParamName(call, i) == ParamOf(call, i)
  {
    PlanMeans(call);
    hide Resolve, Accepted, Delivered, Shown;
    var k := FirstUnsettled(plan.ops, 0);
    assert plan.ops[i].unsettled;
  }

  lemma RefusalMeans(s: State, call: Call<Value>, opts: Options)
    ensures call.Run? || call.Http? ==>
      ReadRefusal(call, opts) ==
      if MayRead(call, opts) then None
      else if call.Http? && call.verb != "GET" && call.verb != "HEAD" && call.verb != "OPTIONS"
      then Some(ReadOnMutatingMethod)
      else Some(if call.Run? && !opts.observe then GrantOnObserve else GrantOnDeclaredRead)
    ensures !MayMutate(s, call, opts) ==>
      Authorize(s, call, KindOf(call), opts.grant) ==
      Failure(if s.readOnly then (if call.Run? then RunNotAllowlisted else MutatingInReadOnly)
              else if opts.grant.value !in s.grants then GrantUndeclared else GrantKindMismatch)
    ensures MayMutate(s, call, opts) ==> Authorize(s, call, KindOf(call), opts.grant).Success?
  {
  }

  // --- Captured output --------------------------------------------------------------------------------

  /** Bytes are a text exactly when they are its encoding, with or without one line break behind it; where
      the text itself ends in a line break, that one has to be there twice. */
  lemma OutputMeans(data: seq<byte>, text: string)
    ensures DecodeOutput(data) == Some(text) <==>
      data == Bytes(text + "\n") || (data == Bytes(text) && (text == "" || text[|text| - 1] != '\n'))
  {
    hide DecodeOutput, Bytes;
    if DecodeOutput(data) == Some(text) { OutputBytes(data, text); }
    if data == Bytes(text + "\n") {
      BytesOutput(text + "\n");
      assert (text + "\n")[..|text|] == text;
    }
    if data == Bytes(text) { BytesOutput(text); }
  }

  lemma OutputBytes(data: seq<byte>, text: string)
    requires DecodeOutput(data) == Some(text)
    ensures data == Bytes(text + "\n") || (data == Bytes(text) && (text == "" || text[|text| - 1] != '\n'))
  {
    hide Utf8.Decode, Utf8.EncodeAll;
    Utf8.DecodeScalars(data);
    var whole := FromCodes(Utf8.Decode(data));
    assert Codes(whole) == Utf8.Decode(data);
    if whole != "" && whole[|whole| - 1] == '\n' { assert whole[..|whole| - 1] + "\n" == whole; }
  }

  lemma BytesOutput(text: string)
    ensures DecodeOutput(Bytes(text)) ==
      Some(if text != "" && text[|text| - 1] == '\n' then text[..|text| - 1] else text)
  {
    Utf8.WellFormedUnchanged(Codes(text));
    hide Utf8.Decode, Utf8.EncodeAll;
    assert FromCodes(Codes(text)) == text;
  }

  // --- Octal ------------------------------------------------------------------------------------------

  predicate OctalText(s: string) {
    forall k :: 0 <= k < |s| ==> '0' <= s[k] <= '7'
  }

  function OctalValue(s: string): nat
    requires OctalText(s)
  {
    if s == "" then 0 else OctalValue(s[..|s| - 1]) * 8 + (s[|s| - 1] as int - '0' as int)
  }

  /** A mode shows as a zero and its octal digits. */
  lemma {:induction false} OctalMeans(n: nat)
    ensures Octal(n) == "0" + OctalDigits(n) && OctalDigits(n) != ""
    ensures OctalText(OctalDigits(n)) && OctalValue(OctalDigits(n)) == n && (n > 0 ==> OctalDigits(n)[0] != '0')
  {
    if n < 8 {
      assert OctalDigits(n)[..0] == "";
    } else {
      OctalMeans(n / 8);
      var s := OctalDigits(n);
      assert s[..|s| - 1] == OctalDigits(n / 8);
    }
  }
}
