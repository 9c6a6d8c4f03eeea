/** The output member and the child captures that decode into it. */
module Output {
  import opened Names
  import opened Utf8

  /** Reading bytes emits c first and goes on as reading the rest would. */
  ghost predicate Emits(final: bool, bytes: seq<byte>, c: nat, rest: seq<byte>) {
    if final then Decode(bytes) == [c] + Decode(rest)
    else Run(START, bytes) == Stepped([c] + Run(START, rest).out, Run(START, rest).state)
  }

  /** Reading all of b has emitted done by position i, and the rest is still to read. */
  ghost predicate Ahead(final: bool, b: seq<byte>, done: seq<nat>, i: nat)
    requires i <= |b|
  {
    if final then Decode(b) == done + Decode(b[i..])
    else Run(START, b) == Stepped(done + Run(START, b[i..]).out, Run(START, b[i..]).state)
  }

  lemma AheadStart(final: bool, b: seq<byte>)
    ensures Ahead(final, b, [], 0)
  {
    assert b[0..] == b;
  }

  lemma AheadStep(final: bool, b: seq<byte>, done: seq<nat>, i: nat, c: nat, j: nat)
    requires i <= j <= |b| && Ahead(final, b, done, i) && Emits(final, b[i..], c, b[j..])
    ensures Ahead(final, b, done + [c], j)
  {
    hide Run, Decode;
    if final {
      assert done + ([c] + Decode(b[j..])) == done + [c] + Decode(b[j..]);
    } else {
      var out := Run(START, b[j..]).out;
      assert done + ([c] + out) == done + [c] + out;
    }
  }

  lemma AheadEnd(final: bool, b: seq<byte>, done: seq<nat>)
    requires Ahead(final, b, done, |b|)
    ensures if final then Decode(b) == done else Run(START, b) == Stepped(done, START)
  {
    assert b[|b|..] == [];
  }

  /** A sequence cut short by b[j] is replaced, and b[j] starts the next one. */
  lemma EmitsCut(final: bool, b: seq<byte>, i: nat, j: nat, st: State)
    requires i < j < |b| && Holds(st, b[i..j]) && st.needed > 0 && (b[j] < st.lower || b[j] > st.upper)
    ensures Emits(final, b[i..], REPLACEMENT, b[j..])
  {
    hide Holds, Step, Run, First;
    RunFrom(b, i, j, st);
    assert b[j..] == [b[j]] + b[j + 1..];
    StepCut(st, b[j]);
    StepRun(st, b[j], b[j + 1..]);
    StepRun(START, b[j], b[j + 1..]);
    var again, rest := First(b[j]), Run(First(b[j]).state, b[j + 1..]);
    assert [REPLACEMENT] + again.out + rest.out == [REPLACEMENT] + (again.out + rest.out);
  }

  lemma StepCut(st: State, b: byte)
    requires st.needed > 0 && (b < st.lower || b > st.upper)
    ensures Step(st, b) == Stepped([REPLACEMENT] + First(b).out, First(b).state)
    ensures Step(START, b) == First(b)
  {
  }

  lemma RunFrom(b: seq<byte>, i: nat, j: nat, st: State)
    requires i <= j <= |b| && Holds(st, b[i..j])
    ensures Run(START, b[i..]) == Run(st, b[j..])
  {
    hide Holds, Step;
    RunHeld(st, b[i..j]);
    RunConcat(START, b[i..j], b[j..]);
    assert b[i..] == b[i..j] + b[j..];
  }

  /** A sequence that the input ends in the middle of. */
  lemma EmitsTail(b: seq<byte>, i: nat, st: State)
    requires i < |b| && Holds(st, b[i..]) && st.needed > 0
    ensures Run(START, b[i..]) == Stepped([], st)
    ensures Emits(true, b[i..], REPLACEMENT, b[|b|..])
  {
    RunHeld(st, b[i..]);
    assert b[|b|..] == [];
  }

  /** A complete sequence emits its scalar. */
  lemma EmitsWhole(final: bool, b: seq<byte>, i: nat, j: nat, st: State)
    requires i < j < |b| && Holds(st, b[i..j]) && st.needed == st.seen + 1 && st.lower <= b[j] <= st.upper
    ensures var c := Step(st, b[j]).out[0];
      |Step(st, b[j]).out| == 1 && IsScalar(c) && Encode(c) == b[i..j + 1] && Emits(final, b[i..], c, b[j + 1..])
  {
    hide Encode;
    HoldsNext(st, b[i..j], b[j]);
    assert b[i..j + 1] == b[i..j] + [b[j]];
    RunFrom(b, i, j, st);
    assert b[j..] == [b[j]] + b[j + 1..];
    StepRun(st, b[j], b[j + 1..]);
    var c, rest := Step(st, b[j]).out[0], Run(START, b[j + 1..]);
    assert Step(st, b[j]).out == [c];
    assert [c] + rest.out + Flush(rest.state) == [c] + (rest.out + Flush(rest.state));
  }

  /** A byte that is a sequence by itself, or that no sequence starts with. */
  lemma EmitsSingle(final: bool, b: seq<byte>, i: nat)
    requires i < |b| && First(b[i]).state == START
    ensures Emits(final, b[i..], if b[i] < 0x80 then b[i] else REPLACEMENT, b[i + 1..])
  {
    assert b[i..] == [b[i]] + b[i + 1..];
    StepRun(START, b[i], b[i + 1..]);
    var c, rest := First(b[i]).out[0], Run(START, b[i + 1..]);
    assert [c] + rest.out + Flush(rest.state) == [c] + (rest.out + Flush(rest.state));
  }

  /** How many continuation bytes a first byte needs, and the range of the next one. */
  method Classify(c: byte) returns (need: nat, lower: byte, upper: byte)
    requires c >= 0x80
    ensures need == Lead(c).needed && (need > 0 ==> lower == Lead(c).lower && upper == Lead(c).upper)
  {
    need, lower, upper := 0, 0x80, 0xBF;
    if 0xC2 <= c <= 0xDF { need := 1; }
    else if c == 0xE0 { need, lower := 2, 0xA0; }
    else if 0xE1 <= c <= 0xEC || c == 0xEE || c == 0xEF { need := 2; }
    else if c == 0xED { need, upper := 2, 0x9F; }
    else if c == 0xF0 { need, lower := 3, 0x90; }
    else if 0xF1 <= c <= 0xF3 { need := 3; }
    else if c == 0xF4 { need, upper := 3, 0x8F; }
  }

  /** One turn of the decoding loop from position i: the bytes it writes and the position
      it goes on at, or stop when an unfinished tail must wait. */
  method DecodeOne(b: seq<byte>, i: nat, final: bool)
    returns (piece: seq<byte>, j: nat, stop: bool, ghost c: nat)
    requires i < |b|
    ensures stop ==> !final && Run(START, b[i..]).out == [] && Holds(Run(START, b[i..]).state, b[i..])
    ensures !stop ==> i < j <= |b| && IsScalar(c) && piece == Encode(c) && Emits(final, b[i..], c, b[j..])
  {
    hide Encode, Emits, Step;
    j, stop := i + 1, false;
    if b[i] < 0x80 {
      EmitsSingle(final, b, i);
      EncodeByte(b[i]);
      return [b[i]], i + 1, false, b[i];
    }
    var need, lower, upper := Classify(b[i]);
    if need == 0 {
      EmitsSingle(final, b, i);
      return Encode(REPLACEMENT), i + 1, false, REPLACEMENT;
    }
    ghost var st := Lead(b[i]);
    assert b[i..i + 1] == [b[i]];
    HoldsFirst(b[i]);
    var seen := 0;
    while seen < need
      invariant seen < need && i < j <= |b| && st.needed == need && st.seen == seen
      invariant Holds(st, b[i..j]) && lower == st.lower && upper == st.upper
      decreases need - seen
    {
      if j == |b| {
        assert b[i..j] == b[i..];
        EmitsTail(b, i, st);
        if !final { return [], j, true, REPLACEMENT; }
        return Encode(REPLACEMENT), j, false, REPLACEMENT;
      }
      if b[j] < lower || b[j] > upper {
        EmitsCut(final, b, i, j, st);
        return Encode(REPLACEMENT), j, false, REPLACEMENT;
      }
      assert b[i..j + 1] == b[i..j] + [b[j]];
      if seen + 1 == need {
        EmitsWhole(final, b, i, j, st);
        return b[i..j + 1], j + 1, false, Step(st, b[j]).out[0];
      }
      HoldsNext(st, b[i..j], b[j]);
      st := Step(st, b[j]).state;
      lower, upper := 0x80, 0xBF;
      j, seen := j + 1, seen + 1;
    }
  }

  lemma EncodeByte(b: byte)
    requires b < 0x80
    ensures Encode(b) == [b]
  {
  }

  /** decodeUTF8Replacing. The text is what the WHATWG decoder emits, encoded; an
      unfinished tail is returned undecoded, or replaced when final. */
  method DecodeUTF8Replacing(b: seq<byte>, final: bool) returns (text: seq<byte>, rest: seq<byte>)
    ensures Scalars(Run(START, b).out) && Scalars(Decode(b))
    ensures !final ==> text == EncodeAll(Run(START, b).out) && Holds(Run(START, b).state, rest)
    ensures final ==> text == EncodeAll(Decode(b)) && rest == []
  {
    hide Encode, Step, Emits;
    DecodeScalars(b);
    text := [];
    var i := 0;
    ghost var done: seq<nat> := [];
    AheadStart(final, b);
    while i < |b|
      invariant i <= |b| && Scalars(done) && text == EncodeAll(done)
      invariant Ahead(final, b, done, i)
    {
      var piece, j, stop, c := DecodeOne(b, i, final);
      if stop {
        assert done + [] == done;
        return text, b[i..];
      }
      AheadStep(final, b, done, i, c, j);
      EncodeConcat(done, [c]);
      EncodeOne(c);
      done, text, i := done + [c], text + piece, j;
    }
    AheadEnd(final, b, done);
    return text, [];
  }

  // --- The member and its captures ------------------------------------------------------

  /** outputMember: the text so far, and whether anything was written. */
  class OutputMember {
    var text: seq<byte>
    var written: bool

    constructor ()
      ensures text == [] && !written
    {
      text, written := [], false;
    }

    method AppendText(t: seq<byte>)
      modifies this
      ensures text == old(text) + t && written
    {
      text := text + t;
      written := true;
    }

    /** value: nil when nothing was written. */
    method Value() returns (r: Option<seq<byte>>)
      ensures r == if written then Some(text) else None
    {
      return if written then Some(text) else None;
    }
  }

  /** childCapture: decodes one child's stdout into the member as it arrives. The member
      is shared with other writers, so the capture keeps its own account of what came in
      and what it appended. */
  class ChildCapture {
    const out: OutputMember
    var pending: seq<byte>
    ghost var received: seq<byte>
    ghost var appended: seq<byte>

    /** Everything emitted so far is appended, encoded; the unfinished rest is pending. */
    ghost predicate Valid()
      reads this
    {
      var r := Run(START, received);
      Scalars(r.out) && appended == EncodeAll(r.out) && Holds(r.state, pending)
    }

    constructor (out: OutputMember)
      ensures Valid() && this.out == out && received == [] && appended == [] && pending == []
    {
      this.out, pending, received, appended := out, [], [], [];
    }

    method Write(p: seq<byte>)
      requires Valid()
      modifies this, out
      ensures Valid() && received == old(received) + p && |pending| <= 3
      ensures old(appended) <= appended && out.text == old(out.text) + appended[|old(appended)|..]
      ensures out.written == (old(out.written) || p != [])
    {
      hide Step, Encode;
      ghost var r := Run(START, received);
      RunHeld(r.state, pending);
      RunConcat(START, pending, p);
      RunConcat(START, received, p);
      var text, rest := DecodeUTF8Replacing(pending + p, false);
      ghost var more := Run(r.state, p);
      assert [] + more.out == more.out;
      EncodeConcat(r.out, more.out);
      HeldBound(more.state, rest);
      if p == [] {
        assert received + p == received && appended + text == appended;
      }
      if text != [] || p != [] {
        out.AppendText(text);
      }
      pending, received, appended := rest, received + p, appended + text;
    }

    /** close: flushes an unfinished trailing sequence as one replacement. */
    method Close()
      requires Valid()
      modifies this, out
      ensures pending == [] && received == old(received)
      ensures Scalars(Decode(received)) && appended == EncodeAll(Decode(received))
      ensures old(appended) <= appended && out.text == old(out.text) + appended[|old(appended)|..]
    {
      hide Step, Encode;
      ghost var r := Run(START, received);
      DecodeScalars(received);
      if pending == [] {
        NothingHeld(r.state, pending);
        assert r.out + [] == r.out;
        return;
      }
      RunHeld(r.state, pending);
      var text, _ := DecodeUTF8Replacing(pending, true);
      EncodeConcat(r.out, Flush(r.state));
      assert [] + Flush(r.state) == Flush(r.state);
      pending := [];
      out.AppendText(text);
      appended := appended + text;
    }
  }

  lemma HeldBound(st: State, held: seq<byte>)
    requires Holds(st, held)
    ensures |held| <= 3
  {
  }

  lemma NothingHeld(st: State, held: seq<byte>)
    requires Holds(st, held)
    ensures held == [] <==> st.needed == 0
  {
  }

  ghost function Concat(chunks: seq<seq<byte>>): seq<byte> {
    if chunks == [] then [] else Concat(chunks[..|chunks| - 1]) + chunks[|chunks| - 1]
  }

  /** A captured child: its stdout is copied into the capture write by write, then the
      capture is closed. However the bytes were cut, the member gains their decoding. */
  method CaptureChild(out: OutputMember, chunks: seq<seq<byte>>)
    modifies out
    ensures Scalars(Decode(Concat(chunks)))
    ensures out.text == old(out.text) + EncodeAll(Decode(Concat(chunks)))
  {
    hide Run, Decode, EncodeAll, Holds;
    var capture := new ChildCapture(out);
    ghost var before := out.text;
    for k := 0 to |chunks|
      invariant capture.Valid() && capture.out == out && fresh(capture)
      invariant capture.received == Concat(chunks[..k]) && out.text == before + capture.appended
    {
      assert chunks[..k + 1][..k] == chunks[..k];
      ghost var was := capture.appended;
      capture.Write(chunks[k]);
      Gained(before, was, capture.appended);
    }
    assert chunks[..|chunks|] == chunks;
    ghost var was := capture.appended;
    capture.Close();
    Gained(before, was, capture.appended);
  }

  lemma Gained(before: seq<byte>, was: seq<byte>, now: seq<byte>)
    requires was <= now
    ensures before + was + now[|was|..] == before + now
  {
    assert now == was + now[|was|..];
  }

  /** Well-formed output is passed through byte for byte. */
  lemma WellFormedPassesThrough(cs: seq<nat>)
    requires Scalars(cs)
    ensures Decode(EncodeAll(cs)) == cs && EncodeAll(Decode(EncodeAll(cs))) == EncodeAll(cs)
  {
    WellFormedUnchanged(cs);
  }
}
