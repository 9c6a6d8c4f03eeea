/** The effects handle and its log: the eight methods, each proved to perform its call. */
module EffectsHandle {
  import opened Names
  import opened Effects

  class EffectLog {
    var records: seq<Record>
    var rendered: nat
    var cached: nat

    constructor ()
      ensures records == [] && rendered == 0 && cached == 0
    {
      records, rendered, cached := [], 0, 0;
    }

    /** nextSeq. */
    function NextSeq(): nat
      reads this
    {
      rendered + 1
    }

    method AppendRecord(r: Record)
      modifies this
      ensures records == old(records) + [r]
      ensures rendered == old(rendered) + (if r.kind == CacheWrite then 0 else 1)
      ensures cached == old(cached) + (if r.kind == CacheWrite then 1 else 0)
    {
      records := records + [r];
      if r.kind == CacheWrite {
        cached := cached + 1;
      } else {
        rendered := rendered + 1;
      }
    }
  }

  /** Operands already resolved, and what the rest resolves to. */
  function Operands(ops: seq<Operand>, rest: Result<seq<Operand>, Error>): Result<seq<Operand>, Error> {
    if rest.Failure? then rest else Success(ops + rest.value)
  }

  lemma NoOperands(rest: Result<seq<Operand>, Error>)
    ensures Operands([], rest) == rest
  {
    if rest.Success? { assert [] + rest.value == rest.value; }
  }

  lemma OneOperand(argv: seq<Value>, i: nat, ops: seq<Operand>)
    requires i < |argv|
    ensures var op := ResolveOperand(argv[i], ArgvParam(i));
      Operands(ops, ResolveFrom(argv, i)) ==
      if op.Failure? then Failure(op.error) else Operands(ops + [op.value], ResolveFrom(argv, i + 1))
  {
    hide ResolveOperand, ArgvParam;
    var op, rest := ResolveOperand(argv[i], ArgvParam(i)), ResolveFrom(argv, i + 1);
    if op.Success? && rest.Success? { Associate(ops, [op.value], rest.value); }
  }

  lemma AllOperands(argv: seq<Value>, ops: seq<Operand>)
    ensures Operands(ops, ResolveFrom(argv, |argv|)) == Success(ops)
  {
    assert ops + [] == ops;
  }


  class Handle {
    const dryRun: bool
    const readOnly: bool
    const grants: map<string, Grant>
    const allowlist: seq<seq<string>>
    const world: World
    const log: EffectLog
    var mutationRecorded: bool
    var done: seq<Action>

    ghost function Now(): State
      reads this, log
    {
      State(dryRun, readOnly, grants, allowlist, log.records, log.rendered, log.cached, mutationRecorded, done)
    }

    constructor (dryRun: bool, readOnly: bool, grants: map<string, Grant>, allowlist: seq<seq<string>>, world: World,
                 log: EffectLog, done: seq<Action>)
      ensures Now() == State(dryRun, readOnly, grants, allowlist, log.records, log.rendered, log.cached, false, done)
      ensures this.world == world && this.log == log
    {
      this.dryRun, this.readOnly, this.grants, this.allowlist := dryRun, readOnly, grants, allowlist;
      this.world, this.log, this.done, mutationRecorded := world, log, done, false;
    }

    /** recordCacheWrite. */
    method RecordCacheWrite(path: string)
      modifies log
      ensures Now() == PerformCacheWrite(old(Now()), path)
    {
      log.AppendRecord(Record(log.cached + 1, CacheWrite, "cache", path, None, NO_EXTRAS, None, false));
    }

    method ResolveArgv(argv: seq<Value>) returns (r: Result<seq<Operand>, Error>)
      ensures r == if argv == [] then Failure(ArgvEmpty) else ResolveFrom(argv, 0)
    {
      if |argv| == 0 { return Failure(ArgvEmpty); }
      var ops: seq<Operand> := [];
      NoOperands(ResolveFrom(argv, 0));
      for i := 0 to |argv|
        invariant ResolveFrom(argv, 0) == Operands(ops, ResolveFrom(argv, i))
      {
        var op := ResolveOperand(argv[i], ArgvParam(i));
        OneOperand(argv, i, ops);
        if op.Failure? { return Failure(op.error); }
        ops := ops + [op.value];
      }
      AllOperands(argv, ops);
      return Success(ops);
    }

    /** isObserve: element by element, no normalisation. */
    method MatchesAllowlist(ops: seq<Operand>) returns (observe: bool)
      ensures observe <==> IsObserve(allowlist, ops)
    {
      for i := 0 to |allowlist|
        invariant forall j :: 0 <= j < i ==> !Matches(allowlist[j], ops)
      {
        var prefix := allowlist[i];
        if |prefix| > |ops| { continue; }
        var matched := true;
        for k := 0 to |prefix|
          invariant matched && forall j :: 0 <= j < k ==> !ops[j].unsettled && ops[j].value == prefix[j]
        {
          if ops[k].unsettled || ops[k].value != prefix[k] {
            matched := false;
            break;
          }
        }
        if matched {
          assert Matches(allowlist[i], ops);
          return true;
        }
      }
      return false;
    }

    method LookUpGrant(kind: Kind, grant: Option<string>) returns (r: Result<Option<Grant>, Error>)
      ensures r == CheckGrant(Now(), kind, grant)
    {
      if grant.None? { return Success(None); }
      if grant.value !in grants { return Failure(GrantUndeclared); }
      var declared := grants[grant.value];
      if declared.kind != kind { return Failure(GrantKindMismatch); }
      return Success(Some(declared));
    }

    method AuthorizeCall(kind: Kind, grant: Option<string>) returns (r: Result<Option<Grant>, Error>)
      ensures r == if readOnly then Failure(MutatingInReadOnly) else CheckGrant(Now(), kind, grant)
    {
      if readOnly { return Failure(MutatingInReadOnly); }
      r := LookUpGrant(kind, grant);
    }

    /** record: the entry takes the next would-do number. */
    method RecordPlan(plan: Plan, opts: Options, grant: Option<Grant>) returns (number: nat)
      requires plan.kind != CacheWrite
      modifies log
      ensures Now() == Append(old(Now()), RecordOf(old(Now()), plan, opts, grant))
      ensures number == old(log.rendered) + 1
    {
      number := log.NextSeq();
      var bytes := if plan.data.Some? then Some(|plan.data.value|) else None;
      log.AppendRecord(Record(number, plan.kind, plan.verb, plan.detail, bytes, opts.extras, grant, dryRun));
    }

    /** brandFor. */
    method BrandFor(number: nat) returns (brand: string)
      modifies this`mutationRecorded
      ensures mutationRecorded && brand == Brand(number)
    {
      mutationRecorded := true;
      return Brand(number);
    }

    /** settledArgv. */
    method SettledArgv(ops: seq<Operand>) returns (r: Result<seq<string>, Error>)
      ensures var k := FirstUnsettled(ops, 0);
        r == if k < |ops| then Failure(StillUnsettled(ArgvParam(k))) else Success(Settled(ops))
    {
      var out := [];
      for i := 0 to |ops|
        invariant |out| == i && (forall j :: 0 <= j < i ==> !ops[j].unsettled && out[j] == ops[j].value)
      {
        if ops[i].unsettled {
          assert FirstUnsettled(ops, 0) == i;
          return Failure(StillUnsettled(ArgvParam(i)));
        }
        out := out + [ops[i].value];
      }
      assert FirstUnsettled(ops, 0) == |ops| && out == Settled(ops);
      return Success(out);
    }

    /** Hands an action to the world. */
    method Do(action: Action) returns (reply: Reply)
      modifies this`done
      ensures done == old(done) + [action] && reply == world(old(done), action)
    {
      reply := world(done, action);
      done := done + [action];
    }

    /** execRun. */
    method ExecRun(ops: seq<Operand>, opts: Options) returns (r: Outcome)
      modifies this`done
      ensures var k := FirstUnsettled(ops, 0);
        if k < |ops| then r == Failure(StillUnsettled(ArgvParam(k))) && done == old(done)
        else
          var action := Exec(Settled(ops), opts);
          done == old(done) + [action] && r == Answer(Run([]), opts, world(old(done), action), 0)
    {
      var argv := SettledArgv(ops);
      if argv.Failure? { return Failure(argv.error); }
      var reply := Do(Exec(argv.value, opts));
      if reply.error.Some? { return Failure(Failed(reply.error.value)); }
      var out, err := "", "";
      if !opts.stream {
        var decoded := DecodeOutput(reply.stdout);
        if decoded.None? { return Failure(NotUtf8); }
        out := decoded.value;
        decoded := DecodeOutput(reply.stderr);
        if decoded.None? { return Failure(NotUtf8); }
        err := decoded.value;
      }
      if opts.check && reply.code != 0 { return Failure(RunFailed(reply.code)); }
      return Success(Completed(true, reply.code, out, err, ""));
    }

    method RunCall(argv: seq<Value>, options: Option<Options>) returns (r: Outcome)
      modifies this, log
      ensures (Now(), r) == Perform(old(Now()), Run(argv), options, world)
    {
      hide DecodeOutput, Join, Rendered, ArgvParam, ResolveFrom, Brand, StaleBrand, Matches, IsObserve, FirstUnsettled;
      if options.None? { return Failure(OptionsRejected); }
      var opts := options.value;
      var ops := ResolveArgv(argv);
      if ops.Failure? { return Failure(ops.error); }
      var joined := Join(Rendered(ops.value), " ");
      var observe := MatchesAllowlist(ops.value);
      if opts.observe || observe {
        if opts.grant.Some? {
          if opts.observe { return Failure(GrantOnDeclaredRead); }
          return Failure(GrantOnObserve);
        }
        if dryRun && mutationRecorded { return Success(Completed(false, 0, "", "", StaleBrand(joined))); }
        r := ExecRun(ops.value, opts);
        return r;
      }
      if readOnly { return Failure(RunNotAllowlisted); }
      var declared := LookUpGrant(ProcMutate, opts.grant);
      if declared.Failure? { return Failure(declared.error); }
      var number := RecordPlan(Plan(ProcMutate, "run", joined, ops.value, None), opts, declared.value);
      if dryRun {
        var brand := BrandFor(number);
        return Success(Completed(false, 0, "", "", brand));
      }
      r := ExecRun(ops.value, opts);
    }

    method SpawnCall(argv: seq<Value>, options: Option<Options>) returns (r: Outcome)
      modifies this, log
      ensures (Now(), r) == Perform(old(Now()), Spawn(argv), options, world)
    {
      hide DecodeOutput, Join, Rendered, ArgvParam, ResolveFrom, Brand, StaleBrand, Matches, IsObserve, FirstUnsettled;
      if options.None? { return Failure(OptionsRejected); }
      var opts := options.value;
      var ops := ResolveArgv(argv);
      if ops.Failure? { return Failure(ops.error); }
      var joined := Join(Rendered(ops.value), " ");
      var declared := AuthorizeCall(ProcSpawn, opts.grant);
      if declared.Failure? { return Failure(declared.error); }
      var number := RecordPlan(Plan(ProcSpawn, "spawn", joined, ops.value, None), opts, declared.value);
      if dryRun {
        var brand := BrandFor(number);
        return Success(Spawned(false, 0, brand));
      }
      var settled := SettledArgv(ops.value);
      if settled.Failure? { return Failure(settled.error); }
      var reply := Do(Start(settled.value, opts));
      if reply.error.Some? { return Failure(Failed(reply.error.value)); }
      return Success(Spawned(true, reply.pid, ""));
    }

    /** settled: the backstop for one operand. */
    method SettledOperand(op: Operand, param: string) returns (r: Result<string, Error>)
      ensures r == if op.unsettled then Failure(StillUnsettled(param)) else Success(op.value)
    {
      if op.unsettled { return Failure(StillUnsettled(param)); }
      return Success(op.value);
    }

    method WriteCall(path: Value, content: Value, options: Option<Options>) returns (r: Outcome)
      modifies this, log
      ensures (Now(), r) == Perform(old(Now()), Write(path, content), options, world)
    {
      hide DecodeOutput, Join, ArgvParam, ResolveFrom, Brand, StaleBrand, ResolveOperand, ResolveContent;
      if options.None? { return Failure(OptionsRejected); }
      var opts := options.value;
      var pathOp := ResolveOperand(path, "path");
      if pathOp.Failure? { return Failure(pathOp.error); }
      var resolved := ResolveContent(content);
      if resolved.Failure? { return Failure(resolved.error); }
      var detail := pathOp.value.rendered + " (" + resolved.value.rendered + ")";
      var declared := AuthorizeCall(FileWrite, opts.grant);
      if declared.Failure? { return Failure(declared.error); }
      var number :=
        RecordPlan(Plan(FileWrite, "write", detail, [pathOp.value], resolved.value.data), opts, declared.value);
      if dryRun {
        var brand := BrandFor(number);
        return Success(Void(brand));
      }
      var target := SettledOperand(pathOp.value, "path");
      if target.Failure? { return Failure(target.error); }
      var reply := Do(WriteFile(target.value, Slice(resolved.value.data), opts.extras.mode));
      if reply.error.Some? { return Failure(Failed(reply.error.value)); }
      return Success(Void(Brand(number)));
    }

    method MkdirCall(path: Value, options: Option<Options>) returns (r: Outcome)
      modifies this, log
      ensures (Now(), r) == Perform(old(Now()), Mkdir(path), options, world)
    {
      r := PathEffect(Mkdir(path), "mkdir", path, options, p => MkdirAll(p));
    }

    method RemoveCall(path: Value, options: Option<Options>) returns (r: Outcome)
      modifies this, log
      ensures (Now(), r) == Perform(old(Now()), Remove(path), options, world)
    {
      r := PathEffect(Remove(path), "remove", path, options, p => RemoveAll(p));
    }

    /** pathEffect, shared by mkdir and remove. */
    method PathEffect(ghost call: Call<Value>, verb: string, path: Value, options: Option<Options>,
                      perform: string -> Action)
      returns (r: Outcome)
      requires (call == Mkdir(path) && verb == "mkdir" && forall p :: perform(p) == MkdirAll(p))
            || (call == Remove(path) && verb == "remove" && forall p :: perform(p) == RemoveAll(p))
      modifies this, log
      ensures (Now(), r) == Perform(old(Now()), call, options, world)
    {
      hide DecodeOutput, Join, ArgvParam, ResolveFrom, Brand, StaleBrand, ResolveOperand, ResolveContent;
      if options.None? { return Failure(OptionsRejected); }
      var opts := options.value;
      var pathOp := ResolveOperand(path, "path");
      if pathOp.Failure? { return Failure(pathOp.error); }
      var declared := AuthorizeCall(FileWrite, opts.grant);
      if declared.Failure? { return Failure(declared.error); }
      assert pathOp.value.rendered + "" == pathOp.value.rendered;
      var number :=
        RecordPlan(Plan(FileWrite, verb, pathOp.value.rendered, [pathOp.value], None), opts, declared.value);
      if dryRun {
        var brand := BrandFor(number);
        return Success(Void(brand));
      }
      var target := SettledOperand(pathOp.value, "path");
      if target.Failure? { return Failure(target.error); }
      var reply := Do(perform(target.value));
      if reply.error.Some? { return Failure(Failed(reply.error.value)); }
      return Success(Void(Brand(number)));
    }

    method RenameCall(src: Value, dst: Value, options: Option<Options>) returns (r: Outcome)
      modifies this, log
      ensures (Now(), r) == Perform(old(Now()), Rename(src, dst), options, world)
    {
      hide DecodeOutput, Join, ArgvParam, ResolveFrom, Brand, StaleBrand, ResolveOperand, ResolveContent;
      if options.None? { return Failure(OptionsRejected); }
      var opts := options.value;
      var srcOp := ResolveOperand(src, "src");
      if srcOp.Failure? { return Failure(srcOp.error); }
      var dstOp := ResolveOperand(dst, "dst");
      if dstOp.Failure? { return Failure(dstOp.error); }
      var detail := srcOp.value.rendered + " -> " + dstOp.value.rendered;
      var declared := AuthorizeCall(FileWrite, opts.grant);
      if declared.Failure? { return Failure(declared.error); }
      var number :=
        RecordPlan(Plan(FileWrite, "rename", detail, [srcOp.value, dstOp.value], None), opts, declared.value);
      if dryRun {
        var brand := BrandFor(number);
        return Success(Void(brand));
      }
      var from := SettledOperand(srcOp.value, "src");
      if from.Failure? { return Failure(from.error); }
      var to := SettledOperand(dstOp.value, "dst");
      if to.Failure? { return Failure(to.error); }
      var reply := Do(RenamePath(from.value, to.value));
      if reply.error.Some? { return Failure(Failed(reply.error.value)); }
      return Success(Void(Brand(number)));
    }

    method ChmodCall(path: Value, mode: int, options: Option<Options>) returns (r: Outcome)
      modifies this, log
      ensures (Now(), r) == Perform(old(Now()), Chmod(path, mode), options, world)
    {
      hide DecodeOutput, Join, ArgvParam, ResolveFrom, Brand, StaleBrand, ResolveOperand, ResolveContent, Octal;
      if options.None? { return Failure(OptionsRejected); }
      var opts := options.value;
      var pathOp := ResolveOperand(path, "path");
      if pathOp.Failure? { return Failure(pathOp.error); }
      var detail := pathOp.value.rendered + (" " + Octal(mode));
      var declared := AuthorizeCall(FileWrite, opts.grant);
      if declared.Failure? { return Failure(declared.error); }
      var number := RecordPlan(Plan(FileWrite, "chmod", detail, [pathOp.value], None), opts, declared.value);
      if dryRun {
        var brand := BrandFor(number);
        return Success(Void(brand));
      }
      var target := SettledOperand(pathOp.value, "path");
      if target.Failure? { return Failure(target.error); }
      var reply := Do(ChmodPath(target.value, mode));
      if reply.error.Some? { return Failure(Failed(reply.error.value)); }
      return Success(Void(Brand(number)));
    }

    /** execHTTP. */
    method ExecHttp(verb: string, url: string, opts: Options) returns (r: Outcome)
      modifies this`done
      ensures var action := Send(verb, url, opts);
        done == old(done) + [action] &&
        r == Answer(Http(verb, Text(url)), opts, world(old(done), action), 0)
    {
      var reply := Do(Send(verb, url, opts));
      if reply.error.Some? { return Failure(Failed(reply.error.value)); }
      if opts.check && (reply.status < 200 || reply.status > 299) { return Failure(HttpFailed(reply.status)); }
      return Success(Response(true, reply.status, reply.body, ""));
    }

    /** The part of HttpCall for a request declared as a read. */
    method DeclaredRead(verb: string, ghost url: Value, urlOp: Operand, detail: string,
                        opts: Options) returns (r: Outcome)
      requires ResolveOperand(url, "url") == Success(urlOp) && detail == verb + " " + urlOp.rendered
      requires Resolve(Http(verb, url)) == Success(Plan(NetMutate, "net", detail, [urlOp], None))
      modifies this
      ensures (Now(), r) ==
        PerformRead(old(Now()), Http(verb, url), Plan(NetMutate, "net", detail, [urlOp], None), opts, world)
    {
      hide DecodeOutput, Join, ArgvParam, ResolveFrom, Brand, StaleBrand, ResolveOperand, ResolveContent, Resolve;
      if verb !in DECLARED_READ_METHODS { return Failure(ReadOnMutatingMethod); }
      if opts.grant.Some? { return Failure(GrantOnDeclaredRead); }
      if dryRun && mutationRecorded { return Success(Response(false, 0, [], StaleBrand(detail))); }
      var target := SettledOperand(urlOp, "url");
      if target.Failure? { return Failure(target.error); }
      r := ExecHttp(verb, target.value, opts);
    }

    method HttpCall(verb: string, url: Value, options: Option<Options>) returns (r: Outcome)
      modifies this, log
      ensures (Now(), r) == Perform(old(Now()), Http(verb, url), options, world)
    {
      hide DecodeOutput, Join, ArgvParam, ResolveFrom, Brand, StaleBrand, ResolveOperand, ResolveContent;
      if options.None? { return Failure(OptionsRejected); }
      var opts := options.value;
      var urlOp := ResolveOperand(url, "url");
      if urlOp.Failure? { return Failure(urlOp.error); }
      var detail := verb + " " + urlOp.value.rendered;
      if opts.read {
        r := DeclaredRead(verb, url, urlOp.value, detail, opts);
        return;
      }
      var declared := AuthorizeCall(NetMutate, opts.grant);
      if declared.Failure? { return Failure(declared.error); }
      var number := RecordPlan(Plan(NetMutate, "net", detail, [urlOp.value], None), opts, declared.value);
      if dryRun {
        var brand := BrandFor(number);
        return Success(Response(false, 0, [], brand));
      }
      var target := SettledOperand(urlOp.value, "url");
      if target.Failure? { return Failure(target.error); }
      r := ExecHttp(verb, target.value, opts);
    }
  }
}
