/** What every run of one dispatch keeps, whatever the handler calls next. */
module EffectsSafety {
  import opened Names
  import opened Effects

  /** A call the handler makes, or a cache write of the framework's own. */
  datatype Event = Invoke(call: Call<Value>, opts: Option<Options>) | Cache(path: string)

  /** A dispatch so far: given holds every carrier returned without an error. */
  datatype Session = Session(state: State, given: seq<Carrier>)

  function Armed(dryRun: bool, readOnly: bool, grants: map<string, Grant>, allowlist: seq<seq<string>>): Session {
    Session(State(dryRun, readOnly, grants, allowlist, [], 0, 0, false, []), [])
  }

  function Next(s: Session, e: Event, world: World): Session {
    match e
    case Cache(path) => s.(state := PerformCacheWrite(s.state, path))
    case Invoke(call, opts) =>
      var (n, r) := Perform(s.state, call, opts, world);
      Session(n, if r.Success? then s.given + [r.value] else s.given)
  }

  function RunAll(s: Session, events: seq<Event>, world: World): Session {
    if events == [] then s else Next(RunAll(s, events[..|events| - 1], world), events[|events| - 1], world)
  }

  function Values(call: Call<Value>): seq<Value> {
    match call
    case Run(argv) => argv
    case Spawn(argv) => argv
    case Write(path, content) => [path, content]
    case Mkdir(path) => [path]
    case Remove(path) => [path]
    case Rename(src, dst) => [src, dst]
    case Chmod(path, _) => [path]
    case Http(_, url) => [url]
  }

  /** Every carrier passed is one that came back without an error. */
  ghost predicate Forwards(s: Session, e: Event) {
    e.Invoke? ==>
      forall i :: 0 <= i < |Values(e.call)| && Values(e.call)[i].Carried? ==> Values(e.call)[i].carrier in s.given
  }

  ghost predicate ForwardsAll(s: Session, events: seq<Event>, world: World) {
    forall i :: 0 <= i < |events| ==> Forwards(RunAll(s, events[..i], world), events[i])
  }

  // --- What is kept -----------------------------------------------------------------------

  function CountOf(records: seq<Record>, cache: bool): nat {
    if records == [] then 0
    else
      CountOf(records[..|records| - 1], cache)
      + if (records[|records| - 1].kind == CacheWrite) == cache then 1 else 0
  }

  /** Rendered and cache entries each count 1, 2, 3 in log order. */
  ghost predicate Numbered(s: State) {
    && s.rendered == CountOf(s.records, false) && s.cached == CountOf(s.records, true)
    && forall i :: 0 <= i < |s.records| ==>
         s.records[i].number == CountOf(s.records[..i], s.records[i].kind == CacheWrite) + 1
  }

  /** An observe by declaration or allowlist, or a declared read by a method that reads. */
  ghost predicate OnlyReads(allowlist: seq<seq<string>>, a: Action) {
    match a
    case Exec(argv, opts) => opts.observe || exists i :: 0 <= i < |allowlist| && allowlist[i] <= argv
    case Send(verb, _, opts) => opts.read && verb in DECLARED_READ_METHODS
    case _ => false
  }

  predicate IsUnsettled(c: Carrier) {
    !c.Void? && !c.settled
  }

  ghost predicate Sound(s: Session) {
    && Numbered(s.state)
    && (s.state.mutationRecorded <==> s.state.dryRun && s.state.rendered > 0)
    && (forall c :: c in s.given && IsUnsettled(c) ==> s.state.mutationRecorded)
    && (s.state.dryRun || s.state.readOnly ==> forall a :: a in s.state.done ==> OnlyReads(s.state.allowlist, a))
    && (s.state.readOnly ==> forall i :: 0 <= i < |s.state.records| ==> s.state.records[i].kind == CacheWrite)
    && (forall i :: 0 <= i < |s.state.records| ==>
          (s.state.records[i].recorded <==> s.state.dryRun && s.state.records[i].kind != CacheWrite))
  }

  lemma ArmedSound(dryRun: bool, readOnly: bool, grants: map<string, Grant>, allowlist: seq<seq<string>>)
    ensures Sound(Armed(dryRun, readOnly, grants, allowlist))
  {
  }

  lemma AppendNumbered(s: State, n: State, r: Record)
    requires Numbered(s) && n.records == s.records + [r]
    requires r.number == CountOf(s.records, r.kind == CacheWrite) + 1
    requires n.rendered == s.rendered + (if r.kind == CacheWrite then 0 else 1)
    requires n.cached == s.cached + (if r.kind == CacheWrite then 1 else 0)
    ensures Numbered(n)
  {
    assert n.records[..|n.records| - 1] == s.records;
    forall i | 0 <= i < |n.records|
      ensures n.records[i].number == CountOf(n.records[..i], n.records[i].kind == CacheWrite) + 1
    {
      if i < |s.records| {
        assert n.records[..i] == s.records[..i];
        assert n.records[i] == s.records[i];
      }
    }
  }

  // --- Operands ------------------------------------------------------------------------------

  lemma {:induction false} ResolvedOperands(argv: seq<Value>, i: nat)
    requires i <= |argv| && ResolveFrom(argv, i).Success?
    ensures var ops := ResolveFrom(argv, i).value;
      |ops| == |argv| - i &&
        forall k :: 0 <= k < |ops| ==> ResolveOperand(argv[i + k], ArgvParam(i + k)) == Success(ops[k])
    decreases |argv| - i
  {
    hide ResolveOperand, ArgvParam;
    if i < |argv| {
      ResolvedOperands(argv, i + 1);
      var rest := ResolveFrom(argv, i + 1).value;
      var ops := ResolveFrom(argv, i).value;
      forall k | 0 <= k < |ops| ensures ResolveOperand(argv[i + k], ArgvParam(i + k)) == Success(ops[k]) {
        if k > 0 {
          assert ops[k] == rest[k - 1];
          assert argv[i + 1 + (k - 1)] == argv[i + k];
        }
      }
    }
  }

  /** An operand is unsettled only for an unsettled carrier. */
  lemma UnsettledOperand(v: Value, param: string)
    requires ResolveOperand(v, param).Success? && ResolveOperand(v, param).value.unsettled
    ensures v.Carried? && IsUnsettled(v.carrier)
  {
  }

  /** Before anything unsettled is in hand, every operand of a plan is settled. */
  lemma OperandsSettled(call: Call<Value>, plan: Plan)
    requires Resolve(call) == Success(plan)
    requires forall i :: 0 <= i < |Values(call)| && Values(call)[i].Carried? ==> !IsUnsettled(Values(call)[i].carrier)
    ensures FirstUnsettled(plan.ops, 0) == |plan.ops|
  {
    hide DecodeOutput, Join, Rendered, Octal, ByteCount, Bytes;
    var k := FirstUnsettled(plan.ops, 0);
    if k < |plan.ops| {
      match call {
        case Run(argv) =>
          ResolvedOperands(argv, 0);
          assert ResolveOperand(argv[0 + k], ArgvParam(0 + k)) == Success(plan.ops[k]);
          UnsettledOperand(Values(call)[k], ArgvParam(k));
        case Spawn(argv) =>
          ResolvedOperands(argv, 0);
          assert ResolveOperand(argv[0 + k], ArgvParam(0 + k)) == Success(plan.ops[k]);
          UnsettledOperand(Values(call)[k], ArgvParam(k));
        case Rename(src, dst) => UnsettledOperand(Values(call)[k], if k == 0 then "src" else "dst");
        case Http(_, url) => UnsettledOperand(Values(call)[0], "url");
        case _ => UnsettledOperand(Values(call)[0], "path");
      }
    }
  }

  /** Forwarding results only, an unsettled operand implies a recorded mutation. */
  lemma NothingUnsettled(s: Session, e: Event)
    requires Sound(s) && e.Invoke? && Forwards(s, e) && !s.state.mutationRecorded
    ensures Resolve(e.call).Success? ==>
      var ops := Resolve(e.call).value.ops; FirstUnsettled(ops, 0) == |ops|
  {
    if Resolve(e.call).Success? {
      OperandsSettled(e.call, Resolve(e.call).value);
    }
  }

  // --- Each call -------------------------------------------------------------------------------

  lemma ReadActionReads(s: State, call: Call<Value>, plan: Plan, opts: Options)
    requires Resolve(call) == Success(plan) && Reading(s, call, plan, opts) && ReadRefusal(call, opts).None?
    ensures OnlyReads(s.allowlist, ActionOf(call, plan, opts))
  {
    hide Resolve, DECLARED_READ_METHODS;
    if call.Run? && !opts.observe {
      var i :| 0 <= i < |s.allowlist| && Matches(s.allowlist[i], plan.ops);
      assert s.allowlist[i] <= Settled(plan.ops);
    }
  }

  /** A read changes nothing but the world's history. */
  lemma ReadStep(s: Session, call: Call<Value>, plan: Plan, opts: Options, world: World)
    requires Sound(s) && Forwards(s, Invoke(call, Some(opts)))
    requires Resolve(call) == Success(plan) && Reading(s.state, call, plan, opts)
    ensures var (n, r) := PerformRead(s.state, call, plan, opts, world);
      && n == s.state.(done := n.done)
      && (s.state.mutationRecorded ==> n == s.state)
      && (n.done == s.state.done ||
        (|n.done| > 0 && n.done[..|n.done| - 1] == s.state.done && OnlyReads(s.state.allowlist, n.done[|n.done| - 1])))
      && (r.Success? && IsUnsettled(r.value) ==> s.state.mutationRecorded)
      && (r.Failure? ==> !r.error.StillUnsettled?)
  {
    hide Resolve, ActionOf, DecodeOutput, StaleBrand;
    if !s.state.mutationRecorded {
      NothingUnsettled(s, Invoke(call, Some(opts)));
    }
    if ReadRefusal(call, opts).None? {
      ReadActionReads(s.state, call, plan, opts);
    }
  }

  /** n is s with one more rendered entry, and more done only by a live dispatch. */
  predicate Logged(s: State, n: State) {
    && !s.readOnly && n.rendered == s.rendered + 1
    && n == s.(records := n.records, rendered := n.rendered, mutationRecorded := s.dryRun, done := n.done)
    && |n.records| > 0 && n.records[..|n.records| - 1] == s.records
    && n.records[|n.records| - 1].number == s.rendered + 1
    && n.records[|n.records| - 1].kind != CacheWrite
    && n.records[|n.records| - 1].recorded == s.dryRun
    && (s.dryRun ==> n.done == s.done)
  }

  /** A mutation is refused, or adds one entry to the log; only a live one runs, and what a
      live one returns is settled. */
  predicate LogsOrRefuses(s: State, n: State, r: Outcome) {
    && (n == s || Logged(s, n))
    && (n == s ==> r.Failure?)
    && (r.Failure? ==> !r.error.StillUnsettled?)
    && (r.Success? && IsUnsettled(r.value) ==> s.dryRun)
  }

  lemma MutationStep(s: Session, call: Call<Value>, plan: Plan, opts: Options, world: World)
    requires Sound(s) && Forwards(s, Invoke(call, Some(opts))) && Resolve(call) == Success(plan)
    requires !Reading(s.state, call, plan, opts)
    ensures var (n, r) := PerformMutation(s.state, call, plan, opts, world); LogsOrRefuses(s.state, n, r)
  {
    if !s.state.mutationRecorded {
      NothingUnsettled(s, Invoke(call, Some(opts)));
    }
    assert s.state.mutationRecorded ==> s.state.dryRun;
    MutationLogs(s.state, call, plan, opts, world);
  }

  lemma MutationLogs(s: State, call: Call<Value>, plan: Plan, opts: Options, world: World)
    requires Resolve(call) == Success(plan) && (s.mutationRecorded ==> s.dryRun)
    requires s.mutationRecorded || FirstUnsettled(plan.ops, 0) == |plan.ops|
    ensures var (n, r) := PerformMutation(s, call, plan, opts, world); LogsOrRefuses(s, n, r)
  {
    PlanKind(call, plan);
    AuthorizeErrors(s, call, plan.kind, opts.grant);
    hide Resolve, ActionOf, Brand, FirstUnsettled, Authorize, Answer;
    var (n, r) := PerformMutation(s, call, plan, opts, world);
    if n != s {
      assert n.records[..|n.records| - 1] == s.records;
      if !s.dryRun {
        var action := ActionOf(call, plan, opts);
        AnswerSettled(call, opts, world(s.done, action), s.rendered + 1);
      }
    }
  }

  lemma AuthorizeErrors(s: State, call: Call<Value>, kind: Kind, grant: Option<string>)
    ensures var r := Authorize(s, call, kind, grant);
      (r.Failure? ==> !r.error.StillUnsettled?) && (r.Success? ==> !s.readOnly)
  {
  }

  lemma AnswerSettled(call: Call<Value>, opts: Options, reply: Reply, number: nat)
    ensures var r := Answer(call, opts, reply, number);
      (r.Failure? ==> !r.error.StillUnsettled?) && (r.Success? ==> !IsUnsettled(r.value))
  {
    hide DecodeOutput;
  }

  lemma PlanKind(call: Call<Value>, plan: Plan)
    requires Resolve(call) == Success(plan)
    ensures plan.kind != CacheWrite
  {
  }

  lemma GivenAfter(s: Session, n: State, r: Outcome)
    requires forall c :: c in s.given && IsUnsettled(c) ==> n.mutationRecorded
    requires r.Success? && IsUnsettled(r.value) ==> n.mutationRecorded
    ensures forall c ::
      c in (if r.Success? then s.given + [r.value] else s.given) && IsUnsettled(c) ==> n.mutationRecorded
  {
  }

  lemma StepSound(s: Session, e: Event, world: World)
    requires Sound(s) && Forwards(s, e)
    ensures Sound(Next(s, e, world))
  {
    hide Resolve, PerformRead, PerformMutation, Reading, Numbered;
    var n := Next(s, e, world);
    match e {
      case Cache(path) => CacheKeeps(s, path, world);
      case Invoke(call, opts) =>
        if opts.Some? && Resolve(call).Success? {
          var plan := Resolve(call).value;
          if Reading(s.state, call, plan, opts.value) {
            ReadStep(s, call, plan, opts.value, world);
            ReadKeeps(s, n);
          } else {
            MutationSound(s, call, plan, opts.value, world);
          }
        }
    }
  }

  lemma CacheKeeps(s: Session, path: string, world: World)
    requires Sound(s)
    ensures Sound(Next(s, Cache(path), world))
  {
    hide OnlyReads, Numbered, CountOf;
    CacheNumbered(s.state, path);
  }

  lemma CacheNumbered(s: State, path: string)
    requires Numbered(s)
    ensures Numbered(PerformCacheWrite(s, path))
  {
    hide Numbered;
    CountNow(s);
    var n := PerformCacheWrite(s, path);
    AppendNumbered(s, n, n.records[|s.records|]);
  }

  lemma CountNow(s: State)
    requires Numbered(s)
    ensures s.rendered == CountOf(s.records, false) && s.cached == CountOf(s.records, true)
  {
  }

  lemma MutationSound(s: Session, call: Call<Value>, plan: Plan, opts: Options, world: World)
    requires Sound(s) && Forwards(s, Invoke(call, Some(opts))) && Resolve(call) == Success(plan)
    requires !Reading(s.state, call, plan, opts)
    ensures Sound(Next(s, Invoke(call, Some(opts)), world))
  {
    hide Resolve, PerformMutation, Reading;
    var n := Next(s, Invoke(call, Some(opts)), world);
    MutationStep(s, call, plan, opts, world);
    if n.state != s.state {
      GivenAfter(s, n.state, PerformMutation(s.state, call, plan, opts, world).1);
      var last := n.state.records[|n.state.records| - 1];
      assert n.state.records == s.state.records + [last];
      AppendNumbered(s.state, n.state, last);
      MutationKeeps(s, n);
    }
  }

  lemma ReadKeeps(s: Session, n: Session)
    requires Sound(s) && n.state == s.state.(done := n.state.done)
    requires n.state.done == s.state.done ||
      (|n.state.done| > 0 && n.state.done[..|n.state.done| - 1] == s.state.done
       && OnlyReads(s.state.allowlist, n.state.done[|n.state.done| - 1]))
    requires forall c :: c in n.given ==> c in s.given || (IsUnsettled(c) ==> s.state.mutationRecorded)
    ensures Sound(n)
  {
    forall a | a in n.state.done && (s.state.dryRun || s.state.readOnly) ensures OnlyReads(n.state.allowlist, a) {
      if n.state.done != s.state.done {
        var k :| 0 <= k < |n.state.done| && n.state.done[k] == a;
        if k < |s.state.done| { assert s.state.done[k] == a; }
      }
      assert OnlyReads(s.state.allowlist, a);
    }
  }

  lemma MutationKeeps(s: Session, n: Session)
    requires Sound(s) && Logged(s.state, n.state) && Numbered(n.state)
    requires forall c :: c in n.given && IsUnsettled(c) ==> n.state.mutationRecorded
    ensures Sound(n)
  {
    hide Numbered, CountOf;
    forall i | 0 <= i < |n.state.records|
      ensures n.state.records[i].recorded <==> n.state.dryRun && n.state.records[i].kind != CacheWrite
    {
      if i < |s.state.records| { assert n.state.records[i] == s.state.records[i]; }
    }
    forall a | a in n.state.done && s.state.dryRun ensures OnlyReads(n.state.allowlist, a) {
      assert OnlyReads(s.state.allowlist, a);
    }
  }

  // --- Every run --------------------------------------------------------------------------------

  lemma {:induction false} RunSound(s: Session, events: seq<Event>, world: World)
    requires Sound(s) && ForwardsAll(s, events, world)
    ensures Sound(RunAll(s, events, world))
    ensures SameMode(s.state, RunAll(s, events, world).state)
  {
    if events != [] {
      var front := events[..|events| - 1];
      ForwardsFront(s, events, world);
      RunSound(s, front, world);
      StepSound(RunAll(s, front, world), events[|events| - 1], world);
      StepMode(RunAll(s, front, world), events[|events| - 1], world);
    }
  }

  predicate SameMode(a: State, b: State) {
    a.dryRun == b.dryRun && a.readOnly == b.readOnly && a.grants == b.grants && a.allowlist == b.allowlist
  }

  lemma StepMode(s: Session, e: Event, world: World)
    ensures SameMode(s.state, Next(s, e, world).state)
  {
    hide Resolve, Answer, ActionOf, Reading;
  }

  lemma ForwardsFront(s: Session, events: seq<Event>, world: World)
    requires events != [] && ForwardsAll(s, events, world)
    ensures ForwardsAll(s, events[..|events| - 1], world)
    ensures Forwards(RunAll(s, events[..|events| - 1], world), events[|events| - 1])
  {
    var front := events[..|events| - 1];
    forall i | 0 <= i < |front| ensures Forwards(RunAll(s, front[..i], world), front[i]) {
      assert front[..i] == events[..i];
    }
  }

  /** Once a dry run has recorded a mutation, nothing more is done. */
  lemma StepFrozen(s: Session, e: Event, world: World)
    requires Sound(s) && Forwards(s, e) && s.state.mutationRecorded
    ensures Next(s, e, world).state.done == s.state.done && Next(s, e, world).state.mutationRecorded
  {
    hide Resolve, PerformRead, PerformMutation, Reading;
    if e.Invoke? && e.opts.Some? && Resolve(e.call).Success? {
      var plan := Resolve(e.call).value;
      if Reading(s.state, e.call, plan, e.opts.value) {
        ReadStep(s, e.call, plan, e.opts.value, world);
      } else {
        MutationStep(s, e.call, plan, e.opts.value, world);
      }
    }
  }

  /** Everything a dry run does, it does before the first recorded mutation. */
  lemma {:induction false} FrozenAfterMutation(s: Session, events: seq<Event>, world: World, i: nat)
    requires Sound(s) && ForwardsAll(s, events, world) && i <= |events|
    requires RunAll(s, events[..i], world).state.mutationRecorded
    ensures RunAll(s, events, world).state.done == RunAll(s, events[..i], world).state.done
    ensures RunAll(s, events, world).state.mutationRecorded
    decreases |events|
  {
    if i == |events| {
      assert events[..i] == events;
    } else {
      var front := events[..|events| - 1];
      assert front[..i] == events[..i];
      ForwardsFront(s, events, world);
      FrozenAfterMutation(s, front, world, i);
      RunSound(s, front, world);
      StepFrozen(RunAll(s, front, world), events[|events| - 1], world);
    }
  }

  /** The settling backstop never fires on forwarded results, in either mode. */
  lemma BackstopSilent(s: Session, events: seq<Event>, world: World, call: Call<Value>, opts: Option<Options>)
    requires Sound(s) && ForwardsAll(s, events, world)
    requires Forwards(RunAll(s, events, world), Invoke(call, opts))
    ensures var r := Perform(RunAll(s, events, world).state, call, opts, world).1;
      r.Failure? ==> !r.error.StillUnsettled?
  {
    hide RunAll, PerformRead, PerformMutation, Reading;
    RunSound(s, events, world);
    var now := RunAll(s, events, world);
    if opts.Some? && Resolve(call).Success? {
      var plan := Resolve(call).value;
      if Reading(now.state, call, plan, opts.value) {
        ReadStep(now, call, plan, opts.value, world);
      } else {
        MutationStep(now, call, plan, opts.value, world);
      }
    } else if Resolve(call).Failure? {
      ResolveErrors(call);
    }
  }

  lemma ResolveErrors(call: Call<Value>)
    ensures Resolve(call).Failure? ==> !Resolve(call).error.StillUnsettled?
  {
    match call {
      case Run(argv) => ResolveFromErrors(argv, 0);
      case Spawn(argv) => ResolveFromErrors(argv, 0);
      case _ =>
    }
  }

  lemma {:induction false} ResolveFromErrors(argv: seq<Value>, i: nat)
    requires i <= |argv|
    ensures ResolveFrom(argv, i).Failure? ==> !ResolveFrom(argv, i).error.StillUnsettled?
    decreases |argv| - i
  {
    if i < |argv| { ResolveFromErrors(argv, i + 1); }
  }

  /** Over every run from the arming of a dispatch: the two numberings, what mutationRecorded
      means, what unsettled results mean, and what a dry or read-only dispatch may do. */
  lemma DispatchSafe(dryRun: bool, readOnly: bool, grants: map<string, Grant>, allowlist: seq<seq<string>>,
                     events: seq<Event>, world: World)
    requires ForwardsAll(Armed(dryRun, readOnly, grants, allowlist), events, world)
    ensures var end := RunAll(Armed(dryRun, readOnly, grants, allowlist), events, world);
      && Numbered(end.state)
      && (end.state.mutationRecorded <==> dryRun && end.state.rendered > 0)
      && (forall c :: c in end.given && IsUnsettled(c) ==> end.state.mutationRecorded)
      && (dryRun || readOnly ==> forall a :: a in end.state.done ==> OnlyReads(allowlist, a))
      && (readOnly ==> forall i :: 0 <= i < |end.state.records| ==> end.state.records[i].kind == CacheWrite)
  {
    ArmedSound(dryRun, readOnly, grants, allowlist);
    RunSound(Armed(dryRun, readOnly, grants, allowlist), events, world);
  }

  // --- What the backstop covers ------------------------------------------------------------

  predicate PassesUnsettled(call: Call<Value>) {
    exists v :: v in Values(call) && v.Carried? && IsUnsettled(v.carrier)
  }

  /** A write whose content is an unsettled carrier and that nothing else refuses. */
  predicate SlipsThrough(s: State, call: Call<Value>, opts: Option<Options>) {
    && !s.dryRun && !s.readOnly && opts.Some? && call.Write?
    && call.content.Carried? && IsUnsettled(call.content.carrier) && !call.content.carrier.Spawned?
    && ResolveOperand(call.path, "path").Success? && !ResolveOperand(call.path, "path").value.unsettled
    && CheckGrant(s, FileWrite, opts.value.grant).Success?
  }

  /** Whoever passes an unsettled carrier, in either mode and wherever it came from: the call
      acts exactly when the carrier is a write's content and nothing else refuses the call;
      what it then writes is nothing. */
  lemma BackstopCovers(s: State, call: Call<Value>, opts: Option<Options>, world: World)
    requires PassesUnsettled(call)
    ensures Perform(s, call, opts, world).0.done != s.done <==> SlipsThrough(s, call, opts)
    ensures SlipsThrough(s, call, opts) ==>
      Perform(s, call, opts, world).0.done ==
        s.done + [WriteFile(ResolveOperand(call.path, "path").value.value, [], opts.value.extras.mode)]
  {
    if opts.Some? && Resolve(call).Success? {
      var plan := Resolve(call).value;
      UnsettledStays(call, plan);
      if call.Write? && call.content.Carried? && IsUnsettled(call.content.carrier) {
        WriteActs(s, call, opts.value, world);
      } else {
        NothingActs(s, call, plan, opts.value, world);
      }
    }
  }

  /** Except in a write's content, an unsettled carrier makes an unsettled operand. */
  lemma UnsettledStays(call: Call<Value>, plan: Plan)
    requires Resolve(call) == Success(plan) && PassesUnsettled(call)
    ensures FirstUnsettled(plan.ops, 0) < |plan.ops| ||
      (call.Write? && call.content.Carried? && IsUnsettled(call.content.carrier))
  {
    hide DecodeOutput, Join, Rendered, Octal, ByteCount, Bytes;
    var v :| v in Values(call) && v.Carried? && IsUnsettled(v.carrier);
    if call.Run? || call.Spawn? {
      ResolvedOperands(call.argv, 0);
      var i :| 0 <= i < |call.argv| && call.argv[i] == v;
      assert ResolveOperand(call.argv[0 + i], ArgvParam(0 + i)) == Success(plan.ops[i]);
      assert plan.ops[i].unsettled;
    }
  }

  lemma NothingActs(s: State, call: Call<Value>, plan: Plan, opts: Options, world: World)
    requires Resolve(call) == Success(plan) && FirstUnsettled(plan.ops, 0) < |plan.ops|
    ensures Perform(s, call, Some(opts), world).0.done == s.done
  {
    hide Resolve, Authorize, Reading, ReadRefusal, Answer, ActionOf, FirstUnsettled;
  }

  lemma WriteActs(s: State, call: Call<Value>, opts: Options, world: World)
    requires call.Write? && call.content.Carried? && IsUnsettled(call.content.carrier) && Resolve(call).Success?
    ensures Perform(s, call, Some(opts), world).0.done != s.done <==> SlipsThrough(s, call, Some(opts))
    ensures SlipsThrough(s, call, Some(opts)) ==>
      Perform(s, call, Some(opts), world).0.done ==
        s.done + [WriteFile(ResolveOperand(call.path, "path").value.value, [], opts.extras.mode)]
  {
    hide DecodeOutput, Brand, Answer, CheckGrant, ByteCount, Bytes;
    var plan := Resolve(call).value;
    assert plan.ops == [ResolveOperand(call.path, "path").value] && plan.data.None?;
  }

  /** The carrier that comes back beside a failed run's error is such a content. */
  lemma ContentIsNotCovered(s: State, path: string, opts: Options, world: World)
    requires !s.dryRun && !s.readOnly && opts.grant.None?
    ensures var call := Write(Text(path), Carried(Completed(false, 0, "", "", "")));
      Perform(s, call, Some(opts), world).0.done == s.done + [WriteFile(path, [], opts.extras.mode)]
  {
    var call := Write(Text(path), Carried(Completed(false, 0, "", "", "")));
    assert call.content in Values(call);
    BackstopCovers(s, call, Some(opts), world);
  }
}
