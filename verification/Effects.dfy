/** What one effects-handle call does to a dispatch: its log, its mode and the world. */
module Effects {
  import opened Names
  import opened Numbers
  import Utf8

  type byte = Utf8.byte

  // --- Text and bytes -------------------------------------------------------------

  function Codes(s: string): (r: seq<nat>)
    ensures |r| == |s| && forall i :: 0 <= i < |s| ==> Utf8.IsScalar(r[i]) && r[i] == s[i] as nat
  {
    seq(|s|, i requires 0 <= i < |s| => s[i] as nat)
  }

  function Bytes(s: string): seq<byte> {
    Utf8.EncodeAll(Codes(s))
  }

  function FromCodes(cs: seq<nat>): string
    requires Utf8.Scalars(cs)
  {
    seq(|cs|, i requires 0 <= i < |cs| => cs[i] as char)
  }

  /** decodeEffectOutput: strictly UTF-8, one trailing newline dropped. */
  function DecodeOutput(data: seq<byte>): Option<string> {
    Utf8.DecodeScalars(data);
    var cs := Utf8.Decode(data);
    if Utf8.EncodeAll(cs) != data then None
    else
      var text := FromCodes(cs);
      Some(if text != "" && text[|text| - 1] == '\n' then text[..|text| - 1] else text)
  }

  /** octalMode. */
  function Octal(mode: int): string {
    "0" + if mode < 0 then "-" + OctalDigits(-mode) else OctalDigits(mode)
  }

  function OctalDigits(n: nat): string {
    if n < 8 then [DigitChar(n)] else OctalDigits(n / 8) + [DigitChar(n % 8)]
  }

  // --- Declarations, carriers, records ----------------------------------------------

  datatype Kind = ProcMutate | ProcSpawn | FileWrite | NetMutate | CacheWrite

  datatype Grant = Grant(name: string, reason: string, kind: Kind)

  /** What a record repeats of a call's options. */
  datatype Extras = Extras(stdinBytes: Option<nat>, bodyBytes: Option<nat>, mode: Option<nat>,
                           timeout: nat, resource: string, skipIfCurrent: string)

  /** effectOpts. */
  datatype Options =
    Options(observe: bool, read: bool, check: bool, stream: bool, grant: Option<string>, extras: Extras)

  /** What a call returns: the void carrier, or one that may be unsettled. */
  datatype Carrier =
    | Void(brand: string)
    | Spawned(settled: bool, pid: nat, brand: string)
    | Completed(settled: bool, exitCode: int, stdout: string, stderr: string, brand: string)
    | Response(settled: bool, status: int, body: seq<byte>, brand: string)

  /** What a handler passes: a string, a byte slice (None when nil), a carrier, or something
      else. */
  datatype Value =
    Text(text: string) | Raw(data: Option<seq<byte>>) | Carried(carrier: Carrier) | Foreign(typeName: string)

  datatype Operand = Operand(value: string, rendered: string, unsettled: bool)

  /** The calls, over what is passed in each carrier-accepting position. */
  datatype Call<+V> =
    | Run(argv: seq<V>)
    | Spawn(argv: seq<V>)
    | Write(path: V, content: V)
    | Mkdir(path: V)
    | Remove(path: V)
    | Rename(src: V, dst: V)
    | Chmod(path: V, mode: int)
    | Http(verb: string, url: V)

  /** effectRecord. number is its seq. */
  datatype Record = Record(number: nat, kind: Kind, verb: string, detail: string, bytes: Option<nat>,
                           extras: Extras, grant: Option<Grant>, recorded: bool)

  datatype Error =
    | OptionsRejected
    | ArgvEmpty
    | RejectsCarrier(param: string)
    | ParamType(param: string)
    | NotUtf8
    | GrantOnObserve
    | GrantOnDeclaredRead
    | ReadOnMutatingMethod
    | RunNotAllowlisted
    | MutatingInReadOnly
    | GrantUndeclared
    | GrantKindMismatch
    | StillUnsettled(param: string)
    | Failed(why: string)
    | RunFailed(code: int)
    | HttpFailed(status: int)

  type Outcome = Result<Carrier, Error>

  // --- The world ------------------------------------------------------------------------

  /** What a call has the world do. */
  datatype Action =
    | Exec(argv: seq<string>, opts: Options)
    | Start(argv: seq<string>, opts: Options)
    | WriteFile(path: string, data: seq<byte>, mode: Option<nat>)
    | MkdirAll(path: string)
    | RemoveAll(path: string)
    | RenamePath(src: string, dst: string)
    | ChmodPath(path: string, bits: int)
    | Send(verb: string, url: string, opts: Options)

  /** What the world answers. */
  datatype Reply = Reply(error: Option<string>, pid: nat, code: int, stdout: seq<byte>, stderr: seq<byte>,
                         status: int, body: seq<byte>)

  /** The answer to an action after what has been done before. */
  type World = (seq<Action>, Action) -> Reply

  // --- One dispatch ------------------------------------------------------------------------

  datatype State = State(dryRun: bool, readOnly: bool, grants: map<string, Grant>, allowlist: seq<seq<string>>,
                         records: seq<Record>, rendered: nat, cached: nat, mutationRecorded: bool, done: seq<Action>)

  const DECLARED_READ_METHODS := ["GET", "HEAD", "OPTIONS"]

  function Brand(number: nat): string {
    "\U{AB}step " + Itoa(number) + " output\U{BB}"
  }

  function StaleBrand(description: string): string {
    "\U{AB}stale: " + description + "\U{BB}"
  }

  function ByteCount(data: seq<byte>): string {
    Itoa(|data|) + " bytes"
  }

  function ArgvParam(i: nat): string {
    "argv[" + Itoa(i) + "]"
  }

  /** resolveOperand. */
  function ResolveOperand(v: Value, param: string): Result<Operand, Error> {
    match v
    case Text(text) => Success(Operand(text, text, false))
    case Raw(_) => Failure(ParamType(param))
    case Foreign(_) => Failure(ParamType(param))
    case Carried(Void(_)) => Failure(RejectsCarrier(param))
    case Carried(Spawned(_, _, _)) => Failure(RejectsCarrier(param))
    case Carried(Completed(settled, _, stdout, _, brand)) =>
      Success(if settled then Operand(stdout, stdout, false) else Operand("", brand, true))
    case Carried(Response(settled, _, body, brand)) =>
      if !settled then Success(Operand("", brand, true))
      else if DecodeOutput(body).None? then Failure(NotUtf8)
      else Success(Operand(DecodeOutput(body).value, DecodeOutput(body).value, false))
  }

  /** The elements of an argv from i on, up to the first that is refused. */
  function ResolveFrom(argv: seq<Value>, i: nat): Result<seq<Operand>, Error>
    requires i <= |argv|
    decreases |argv| - i
  {
    if i == |argv| then Success([])
    else
      var op := ResolveOperand(argv[i], ArgvParam(i));
      if op.Failure? then Failure(op.error)
      else
        var rest := ResolveFrom(argv, i + 1);
        if rest.Failure? then rest else Success([op.value] + rest.value)
  }

  /** The bytes a slice holds: a nil one holds none. */
  function Slice(data: Option<seq<byte>>): seq<byte> {
    if data.Some? then data.value else []
  }

  /** contentOperand: the bytes where they are known, and how they render. */
  datatype Content = Content(data: Option<seq<byte>>, rendered: string)

  function ResolveContent(v: Value): Result<Content, Error> {
    match v
    case Raw(data) => Success(Content(data, ByteCount(Slice(data))))
    case Text(text) => Success(Content(Some(Bytes(text)), ByteCount(Bytes(text))))
    case _ =>
      var op := ResolveOperand(v, "content");
      if op.Failure? then Failure(op.error)
      else if op.value.unsettled then Success(Content(None, op.value.rendered))
      else Success(Content(Some(Bytes(op.value.value)), ByteCount(Bytes(op.value.value))))
  }

  function Rendered(ops: seq<Operand>): seq<string> {
    seq(|ops|, i requires 0 <= i < |ops| => ops[i].rendered)
  }

  /** A call whose operands are resolved: what it would record and what it would do. */
  datatype Plan = Plan(kind: Kind, verb: string, detail: string, ops: seq<Operand>, data: Option<seq<byte>>)

  /** Operands first, in the order of the parameters; the detail is made of how they render. */
  function Resolve(call: Call<Value>): Result<Plan, Error> {
    match call
    case Run(argv) => ResolveArgvPlan(argv, ProcMutate, "run")
    case Spawn(argv) => ResolveArgvPlan(argv, ProcSpawn, "spawn")
    case Mkdir(path) => ResolvePathPlan(path, "mkdir", "")
    case Remove(path) => ResolvePathPlan(path, "remove", "")
    case Chmod(path, mode) => ResolvePathPlan(path, "chmod", " " + Octal(mode))
    case Write(path, content) =>
      var op := ResolveOperand(path, "path");
      if op.Failure? then Failure(op.error)
      else
        var c := ResolveContent(content);
        if c.Failure? then Failure(c.error)
        else Success(
          Plan(FileWrite, "write", op.value.rendered + " (" + c.value.rendered + ")", [op.value], c.value.data))
    case Rename(src, dst) =>
      var from := ResolveOperand(src, "src");
      if from.Failure? then Failure(from.error)
      else
        var to := ResolveOperand(dst, "dst");
        if to.Failure? then Failure(to.error)
        else Success(
          Plan(FileWrite, "rename", from.value.rendered + " -> " + to.value.rendered, [from.value, to.value], None))
    case Http(verb, url) =>
      var op := ResolveOperand(url, "url");
      if op.Failure? then Failure(op.error)
      else Success(Plan(NetMutate, "net", verb + " " + op.value.rendered, [op.value], None))
  }

  function ResolveArgvPlan(argv: seq<Value>, kind: Kind, verb: string): Result<Plan, Error> {
    if argv == [] then Failure(ArgvEmpty)
    else
      var ops := ResolveFrom(argv, 0);
      if ops.Failure? then Failure(ops.error)
      else Success(Plan(kind, verb, Join(Rendered(ops.value), " "), ops.value, None))
  }

  function ResolvePathPlan(path: Value, verb: string, suffix: string): Result<Plan, Error> {
    var op := ResolveOperand(path, "path");
    if op.Failure? then Failure(op.error)
    else Success(Plan(FileWrite, verb, op.value.rendered + suffix, [op.value], None))
  }

  /** Every element of the prefix is a settled operand equal to it. */
  predicate Matches(prefix: seq<string>, ops: seq<Operand>) {
    |prefix| <= |ops| && forall i :: 0 <= i < |prefix| ==> !ops[i].unsettled && ops[i].value == prefix[i]
  }

  /** isObserve. */
  predicate IsObserve(allowlist: seq<seq<string>>, ops: seq<Operand>) {
    exists i :: 0 <= i < |allowlist| && Matches(allowlist[i], ops)
  }

  /** Whether a call only reads: a declared or allowlisted observe, or a declared read. */
  predicate Reading(s: State, call: Call<Value>, plan: Plan, opts: Options) {
    match call
    case Run(_) => opts.observe || IsObserve(s.allowlist, plan.ops)
    case Http(_, _) => opts.read
    case _ => false
  }

  function ReadRefusal(call: Call<Value>, opts: Options): Option<Error> {
    if call.Http? && call.verb !in DECLARED_READ_METHODS then Some(ReadOnMutatingMethod)
    else if opts.grant.None? then None
    else if call.Http? || opts.observe then Some(GrantOnDeclaredRead)
    else Some(GrantOnObserve)
  }

  /** checkGrant. */
  function CheckGrant(s: State, kind: Kind, grant: Option<string>): Result<Option<Grant>, Error> {
    if grant.None? then Success(None)
    else if grant.value !in s.grants then Failure(GrantUndeclared)
    else if s.grants[grant.value].kind != kind then Failure(GrantKindMismatch)
    else Success(Some(s.grants[grant.value]))
  }

  /** authorize. */
  function Authorize(s: State, call: Call<Value>, kind: Kind, grant: Option<string>): Result<Option<Grant>, Error> {
    if s.readOnly then Failure(if call.Run? then RunNotAllowlisted else MutatingInReadOnly)
    else CheckGrant(s, kind, grant)
  }

  function RecordOf(s: State, plan: Plan, opts: Options, grant: Option<Grant>): Record {
    Record(s.rendered + 1, plan.kind, plan.verb, plan.detail, if plan.data.Some? then Some(|plan.data.value|) else None,
           opts.extras, grant, s.dryRun)
  }

  /** The log with one more rendered record. */
  function Append(s: State, r: Record): State {
    s.(records := s.records + [r], rendered := s.rendered + 1)
  }

  /** The carrier a call answers with when nothing runs. */
  function Branded(call: Call<Value>, brand: string): Carrier {
    match call
    case Run(_) => Completed(false, 0, "", "", brand)
    case Spawn(_) => Spawned(false, 0, brand)
    case Http(_, _) => Response(false, 0, [], brand)
    case _ => Void(brand)
  }

  /** The name of operand i's parameter. */
  function ParamName(call: Call<Value>, i: nat): string {
    match call
    case Run(_) => ArgvParam(i)
    case Spawn(_) => ArgvParam(i)
    case Rename(_, _) => if i == 0 then "src" else "dst"
    case Http(_, _) => "url"
    case _ => "path"
  }

  /** The first operand that is still unsettled. */
  function FirstUnsettled(ops: seq<Operand>, i: nat): (k: nat)
    requires i <= |ops|
    ensures i <= k <= |ops|
    ensures k < |ops| ==> ops[k].unsettled
    ensures forall j :: i <= j < k ==> !ops[j].unsettled
    decreases |ops| - i
  {
    if i < |ops| && !ops[i].unsettled then FirstUnsettled(ops, i + 1) else i
  }

  function Settled(ops: seq<Operand>): seq<string> {
    seq(|ops|, i requires 0 <= i < |ops| => ops[i].value)
  }

  function ActionOf(call: Call<Value>, plan: Plan, opts: Options): Action
    requires Resolve(call) == Success(plan)
  {
    match call
    case Run(_) => Exec(Settled(plan.ops), opts)
    case Spawn(_) => Start(Settled(plan.ops), opts)
    case Write(_, _) => WriteFile(plan.ops[0].value, Slice(plan.data), opts.extras.mode)
    case Mkdir(_) => MkdirAll(plan.ops[0].value)
    case Remove(_) => RemoveAll(plan.ops[0].value)
    case Rename(_, _) => RenamePath(plan.ops[0].value, plan.ops[1].value)
    case Chmod(_, mode) => ChmodPath(plan.ops[0].value, mode)
    case Http(verb, _) => Send(verb, plan.ops[0].value, opts)
  }

  /** What a call returns once the world has answered. */
  function Answer(call: Call<Value>, opts: Options, reply: Reply, number: nat): Outcome {
    if reply.error.Some? then Failure(Failed(reply.error.value))
    else
      match call
      case Run(_) =>
        var out := if opts.stream then Some("") else DecodeOutput(reply.stdout);
        var err := if opts.stream then Some("") else DecodeOutput(reply.stderr);
        if out.None? || err.None? then Failure(NotUtf8)
        else if opts.check && reply.code != 0 then Failure(RunFailed(reply.code))
        else Success(Completed(true, reply.code, out.value, err.value, ""))
      case Spawn(_) => Success(Spawned(true, reply.pid, ""))
      case Http(_, _) =>
        if opts.check && !(200 <= reply.status <= 299) then Failure(HttpFailed(reply.status))
        else Success(Response(true, reply.status, reply.body, ""))
      case _ => Success(Void(Brand(number)))
  }

  /** Settle the operands, then act. number is the record's, for a void carrier's brand. */
  function Execute(s: State, call: Call<Value>, plan: Plan, opts: Options, number: nat, world: World): (State, Outcome)
    requires Resolve(call) == Success(plan)
  {
    var k := FirstUnsettled(plan.ops, 0);
    if k < |plan.ops| then (s, Failure(StillUnsettled(ParamName(call, k))))
    else
      var action := ActionOf(call, plan, opts);
      (s.(done := s.done + [action]), Answer(call, opts, world(s.done, action), number))
  }

  /** One call, whichever it is. */
  function Perform(s: State, call: Call<Value>, opts: Option<Options>, world: World): (State, Outcome) {
    if opts.None? then (s, Failure(OptionsRejected))
    else
      var resolved := Resolve(call);
      if resolved.Failure? then (s, Failure(resolved.error))
      else if Reading(s, call, resolved.value, opts.value) then PerformRead(s, call, resolved.value, opts.value, world)
      else PerformMutation(s, call, resolved.value, opts.value, world)
  }

  /** A read is never recorded; once a dry run has recorded a mutation it is stale. */
  function PerformRead(s: State, call: Call<Value>, plan: Plan, opts: Options, world: World): (State, Outcome)
    requires Resolve(call) == Success(plan)
  {
    var refusal := ReadRefusal(call, opts);
    if refusal.Some? then (s, Failure(refusal.value))
    else if s.dryRun && s.mutationRecorded then (s, Success(Branded(call, StaleBrand(plan.detail))))
    else Execute(s, call, plan, opts, 0, world)
  }

  /** A mutation is authorised and recorded in both modes, and performed in the live one. */
  function PerformMutation(s: State, call: Call<Value>, plan: Plan, opts: Options, world: World): (State, Outcome)
    requires Resolve(call) == Success(plan)
  {
    var grant := Authorize(s, call, plan.kind, opts.grant);
    if grant.Failure? then (s, Failure(grant.error))
    else
      var n := Append(s, RecordOf(s, plan, opts, grant.value));
      if s.dryRun then (n.(mutationRecorded := true), Success(Branded(call, Brand(s.rendered + 1))))
      else Execute(n, call, plan, opts, s.rendered + 1, world)
  }

  /** recordCacheWrite. */
  function PerformCacheWrite(s: State, path: string): State {
    s.(records := s.records + [Record(s.cached + 1, CacheWrite, "cache", path, None, NO_EXTRAS, None, false)],
       cached := s.cached + 1)
  }

  const NO_EXTRAS := Extras(None, None, None, 0, "", "")
}
