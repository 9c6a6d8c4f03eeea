/** UTF-8: the WHATWG decoder (Encoding Standard, section 8.1.1) one byte at a time, and
    the encoding of scalar values. */
module Utf8 {
  type byte = n: int | 0 <= n < 256

  const REPLACEMENT: nat := 0xFFFD

  predicate IsScalar(c: nat) {
    c < 0xD800 || 0xE000 <= c < 0x110000
  }

  function Encode(c: nat): (r: seq<byte>)
    requires IsScalar(c)
    ensures 1 <= |r| <= 4
  {
    if c < 0x80 then [c]
    else if c < 0x800 then [0xC0 + c / 64, 0x80 + c % 64]
    else if c < 0x10000 then [0xE0 + c / 4096, 0x80 + c / 64 % 64, 0x80 + c % 64]
    else [0xF0 + c / 262144, 0x80 + c / 4096 % 64, 0x80 + c / 64 % 64, 0x80 + c % 64]
  }

  ghost predicate Scalars(cs: seq<nat>) {
    forall i :: 0 <= i < |cs| ==> IsScalar(cs[i])
  }

  function EncodeAll(cs: seq<nat>): seq<byte>
    requires Scalars(cs)
  {
    if cs == [] then [] else Encode(cs[0]) + EncodeAll(cs[1..])
  }

  lemma {:induction false} EncodeConcat(a: seq<nat>, b: seq<nat>)
    requires Scalars(a) && Scalars(b)
    ensures Scalars(a + b) && EncodeAll(a + b) == EncodeAll(a) + EncodeAll(b)
  {
    hide Encode;
    if a == [] {
      assert a + b == b;
    } else {
      EncodeConcat(a[1..], b);
      assert (a + b)[1..] == a[1..] + b;
      assert Encode(a[0]) + (EncodeAll(a[1..]) + EncodeAll(b)) == Encode(a[0]) + EncodeAll(a[1..]) + EncodeAll(b);
    }
  }

  lemma EncodeOne(c: nat)
    requires IsScalar(c)
    ensures EncodeAll([c]) == Encode(c)
  {
    assert [c][1..] == [] && Encode(c) + [] == Encode(c);
  }

  // --- The decoder ----------------------------------------------------------------

  /** Between bytes: needed is 0 outside a sequence; otherwise seen of its needed
      continuation bytes have come, and the next must lie in lower..upper. */
  datatype State = State(codePoint: nat, needed: nat, seen: nat, lower: byte, upper: byte)

  const START := State(0, 0, 0, 0x80, 0xBF)

  /** What a first byte opens, or None when no sequence starts with it. */
  function Lead(b: byte): State
    requires 0x80 <= b
  {
    if 0xC2 <= b <= 0xDF then State(b - 0xC0, 1, 0, 0x80, 0xBF)
    else if 0xE0 <= b <= 0xEF then
      State(b - 0xE0, 2, 0, if b == 0xE0 then 0xA0 else 0x80, if b == 0xED then 0x9F else 0xBF)
    else if 0xF0 <= b <= 0xF4 then
      State(b - 0xF0, 3, 0, if b == 0xF0 then 0x90 else 0x80, if b == 0xF4 then 0x8F else 0xBF)
    else START
  }

  datatype Stepped = Stepped(out: seq<nat>, state: State)

  function First(b: byte): Stepped {
    if b < 0x80 then Stepped([b], START)
    else if Lead(b) == START then Stepped([REPLACEMENT], START)
    else Stepped([], Lead(b))
  }

  /** One byte. A byte out of range ends the sequence with a replacement and is read
      again as a first byte. */
  function Step(st: State, b: byte): Stepped {
    if st.needed == 0 then First(b)
    else if b < st.lower || b > st.upper then
      var again := First(b);
      Stepped([REPLACEMENT] + again.out, again.state)
    else
      var codePoint := st.codePoint * 64 + (if b < 0x80 then 0 else b - 0x80);
      if st.seen + 1 == st.needed then Stepped([codePoint], START)
      else Stepped([], State(codePoint, st.needed, st.seen + 1, 0x80, 0xBF))
  }

  function Run(st: State, bytes: seq<byte>): Stepped
    decreases |bytes|
  {
    if bytes == [] then Stepped([], st)
    else
      var s := Step(st, bytes[0]);
      var rest := Run(s.state, bytes[1..]);
      Stepped(s.out + rest.out, rest.state)
  }

  /** End of input: an open sequence becomes one replacement. */
  function Flush(st: State): seq<nat> {
    if st.needed == 0 then [] else [REPLACEMENT]
  }

  function Decode(bytes: seq<byte>): seq<nat> {
    var r := Run(START, bytes);
    r.out + Flush(r.state)
  }

  lemma {:induction false} RunConcat(st: State, a: seq<byte>, b: seq<byte>)
    ensures var r, q := Run(st, a), Run(Run(st, a).state, b);
      Run(st, a + b) == Stepped(r.out + q.out, q.state)
    decreases |a|
  {
    hide Step;
    if a == [] {
      assert a + b == b;
    } else {
      var s := Step(st, a[0]);
      RunConcat(s.state, a[1..], b);
      assert (a + b)[1..] == a[1..] + b;
      assert (a + b)[0] == a[0];
      var r, q := Run(s.state, a[1..]), Run(Run(s.state, a[1..]).state, b);
      assert s.out + (r.out + q.out) == s.out + r.out + q.out;
    }
  }

  // --- Every emitted value is a scalar, and completes exactly its bytes ----------------

  /** held is an unfinished sequence that leaves the decoder in st. */
  predicate Holds(st: State, held: seq<byte>) {
    if st.needed == 0 then st == START && held == []
    else
      && |held| == st.seen + 1 <= st.needed <= 3 && held[0] >= 0x80 && Lead(held[0]).needed == st.needed
      && (st.seen == 0 ==> st == Lead(held[0]))
      && (st.seen > 0 ==> st.lower == 0x80 && st.upper == 0xBF && Lead(held[0]).lower <= held[1] <= Lead(held[0]).upper)
      && (st.seen == 1 ==> st.codePoint == Lead(held[0]).codePoint * 64 + (held[1] - 0x80))
      && (st.seen == 2 ==> 0x80 <= held[2] <= 0xBF)
      && (st.seen == 2 ==> st.codePoint == (Lead(held[0]).codePoint * 64 + (held[1] - 0x80)) * 64 + (held[2] - 0x80))
  }

  lemma HoldsFirst(b: byte)
    ensures var s := First(b); Holds(s.state, if s.state == START then [] else [b])
    ensures First(b).state == START ==> First(b).out == [if b < 0x80 then b else REPLACEMENT]
    ensures First(b).state != START ==> First(b).out == []
  {
  }

  /** A byte in range either continues the held sequence or completes it to a scalar
      whose encoding is the sequence itself. */
  lemma HoldsNext(st: State, held: seq<byte>, b: byte)
    requires Holds(st, held) && st.needed > 0 && st.lower <= b <= st.upper
    ensures var s := Step(st, b);
      if st.seen + 1 < st.needed then s.out == [] && Holds(s.state, held + [b]) && s.state.needed == st.needed
      else |s.out| == 1 && s.state == START && IsScalar(s.out[0]) && Encode(s.out[0]) == held + [b]
  {
    if st.seen + 1 == st.needed {
      var c := Step(st, b).out[0];
      if st.needed == 1 { TwoBytes(held[0], b); }
      else if st.needed == 2 { ThreeBytes(held[0], held[1], b); }
      else { FourBytes(held[0], held[1], held[2], b); }
    }
  }

  lemma TwoBytes(a: byte, b: byte)
    requires 0xC2 <= a <= 0xDF && 0x80 <= b <= 0xBF
    ensures var c := (a - 0xC0) * 64 + (b - 0x80); 0x80 <= c < 0x800 && Encode(c) == [a, b]
  {
  }

  lemma ThreeBytes(a: byte, b: byte, d: byte)
    requires 0xE0 <= a <= 0xEF && Lead(a).lower <= b <= Lead(a).upper && 0x80 <= d <= 0xBF
    ensures var c := ((a - 0xE0) * 64 + (b - 0x80)) * 64 + (d - 0x80);
      0x800 <= c < 0x10000 && IsScalar(c) && Encode(c) == [a, b, d]
  {
    var m := (a - 0xE0) * 64 + (b - 0x80);
    var c := m * 64 + (d - 0x80);
    assert c / 64 == m && c % 64 == d - 0x80 && m % 64 == b - 0x80 && m / 64 == a - 0xE0;
    assert c / 4096 == a - 0xE0;
  }

  lemma FourBytes(a: byte, b: byte, d: byte, e: byte)
    requires 0xF0 <= a <= 0xF4 && Lead(a).lower <= b <= Lead(a).upper && 0x80 <= d <= 0xBF && 0x80 <= e <= 0xBF
    ensures var c := (((a - 0xF0) * 64 + (b - 0x80)) * 64 + (d - 0x80)) * 64 + (e - 0x80);
      0x10000 <= c < 0x110000 && Encode(c) == [a, b, d, e]
  {
    var k := (a - 0xF0) * 64 + (b - 0x80);
    var m := k * 64 + (d - 0x80);
    var c := m * 64 + (e - 0x80);
    assert c / 64 == m && c % 64 == e - 0x80 && m % 64 == d - 0x80 && m / 64 == k;
    assert k % 64 == b - 0x80 && k / 64 == a - 0xF0;
    assert c / 4096 == k && c / 262144 == a - 0xF0;
  }

  lemma StepRun(st: State, b: byte, rest: seq<byte>)
    ensures var s := Step(st, b);
      Run(st, [b] + rest) == Stepped(s.out + Run(s.state, rest).out, Run(s.state, rest).state)
  {
    hide Step;
    assert ([b] + rest)[1..] == rest;
  }

  /** Running on from a state that holds some bytes gives scalars only, and leaves a
      state that holds some bytes. */
  lemma {:induction false} RunHolds(st: State, held: seq<byte>, bytes: seq<byte>) returns (held': seq<byte>)
    requires Holds(st, held)
    ensures Scalars(Run(st, bytes).out) && Holds(Run(st, bytes).state, held')
    decreases |bytes|
  {
    if bytes == [] {
      held' := held;
    } else {
      hide Step, Holds;
      var next := StepHolds(st, held, bytes[0]);
      held' := RunHolds(Step(st, bytes[0]).state, next, bytes[1..]);
    }
  }

  lemma StepHolds(st: State, held: seq<byte>, b: byte) returns (next: seq<byte>)
    requires Holds(st, held)
    ensures Scalars(Step(st, b).out) && Holds(Step(st, b).state, next)
  {
    HoldsFirst(b);
    if st.needed == 0 || b < st.lower || b > st.upper {
      next := if First(b).state == START then [] else [b];
    } else {
      HoldsNext(st, held, b);
      next := if st.seen + 1 < st.needed then held + [b] else [];
    }
  }

  lemma DecodeScalars(bytes: seq<byte>)
    ensures Scalars(Decode(bytes)) && Scalars(Run(START, bytes).out)
  {
    var _ := RunHolds(START, [], bytes);
  }

  /** Reading just the held bytes from the start emits nothing and arrives in their state. */
  lemma RunHeld(st: State, held: seq<byte>)
    requires Holds(st, held)
    ensures Run(START, held) == Stepped([], st)
  {
    if held == [] {
    } else if |held| == 1 {
      RunHeldOne(st, held);
    } else if |held| == 2 {
      RunHeldTwo(st, held);
    } else {
      RunHeldThree(st, held);
    }
  }

  lemma RunHeldOne(st: State, held: seq<byte>)
    requires Holds(st, held) && |held| == 1
    ensures Run(START, held) == Stepped([], st)
  {
    assert Step(START, held[0]) == Stepped([], Lead(held[0]));
    assert held == [held[0]] + [];
    StepRun(START, held[0], []);
  }

  lemma RunHeldTwo(st: State, held: seq<byte>)
    requires Holds(st, held) && |held| == 2
    ensures Run(START, held) == Stepped([], st)
  {
    var a := Lead(held[0]);
    assert Step(START, held[0]) == Stepped([], a);
    assert held == [held[0]] + [held[1]] && [held[1]] == [held[1]] + [];
    StepRun(START, held[0], [held[1]]);
    StepRun(a, held[1], []);
  }

  lemma RunHeldThree(st: State, held: seq<byte>)
    requires Holds(st, held) && |held| == 3
    ensures Run(START, held) == Stepped([], st)
  {
    var a := Lead(held[0]);
    assert Step(START, held[0]) == Stepped([], a);
    var b := Step(a, held[1]).state;
    assert held == [held[0]] + [held[1], held[2]] &&
      [held[1], held[2]] == [held[1]] + [held[2]] && [held[2]] == [held[2]] + [];
    StepRun(START, held[0], [held[1], held[2]]);
    StepRun(a, held[1], [held[2]]);
    StepRun(b, held[2], []);
  }

  // --- Well-formed input -------------------------------------------------------------

  /** An encoded scalar is decoded to itself. */
  lemma RunEncoded(c: nat)
    requires IsScalar(c)
    ensures Run(START, Encode(c)) == Stepped([c], START)
  {
    var e := Encode(c);
    if c < 0x80 {
      assert e == [e[0]] + [];
      StepRun(START, e[0], []);
    } else {
      hide Encode, Step, Holds, Lead, Run;
      EncodedShape(c);
      var st := RunFront(e);
      RunLast(e, st);
      EncodeInjective(Run(START, e).out[0], c);
    }
  }

  lemma RunLast(e: seq<byte>, st: State)
    requires |e| >= 2 && Holds(st, e[..|e| - 1]) && st.needed == st.seen + 1 && st.lower <= e[|e| - 1] <= st.upper
    ensures var r := Run(START, e); |r.out| == 1 && r.state == START && IsScalar(r.out[0]) && Encode(r.out[0]) == e
  {
    hide Encode, Step, Holds;
    var held, b := e[..|e| - 1], e[|e| - 1];
    HoldsNext(st, held, b);
    RunHeld(st, held);
    RunConcat(START, held, [b]);
    assert e == held + [b] && [b] == [b] + [];
    StepRun(st, b, []);
  }

  /** The bytes of an encoding beyond ASCII lie in the ranges the decoder demands. */
  lemma EncodedShape(c: nat)
    requires IsScalar(c) && c >= 0x80
    ensures var e := Encode(c);
      && |e| >= 2 && e[0] >= 0x80 && Lead(e[0]).needed == |e| - 1 && Lead(e[0]).lower <= e[1] <= Lead(e[0]).upper
      && forall k :: 2 <= k < |e| ==> 0x80 <= e[k] <= 0xBF
  {
  }

  lemma RunFront(e: seq<byte>) returns (st: State)
    requires 2 <= |e| <= 4 && e[0] >= 0x80 && Lead(e[0]).needed == |e| - 1
    requires Lead(e[0]).lower <= e[1] <= Lead(e[0]).upper && forall k :: 2 <= k < |e| ==> 0x80 <= e[k] <= 0xBF
    ensures Holds(st, e[..|e| - 1]) && st.needed == |e| - 1 && st.seen == |e| - 2
    ensures st.lower <= e[|e| - 1] <= st.upper
  {
    st := Lead(e[0]);
    assert Holds(st, e[..1]);
    if |e| >= 3 {
      HoldsNext(st, e[..1], e[1]);
      st := Step(st, e[1]).state;
      assert e[..1] + [e[1]] == e[..2];
      if |e| == 4 {
        HoldsNext(st, e[..2], e[2]);
        st := Step(st, e[2]).state;
        assert e[..2] + [e[2]] == e[..3];
      }
    }
  }

  /** The scalar an encoding spells. */
  function Spelled(e: seq<byte>): int
    requires 1 <= |e| <= 4
  {
    var a: int := e[0];
    if |e| == 1 then a
    else
      var b: int := e[1];
      if |e| == 2 then (a - 0xC0) * 64 + (b - 0x80)
      else
        var d: int := e[2];
        if |e| == 3 then ((a - 0xE0) * 64 + (b - 0x80)) * 64 + (d - 0x80)
        else
          var f: int := e[3];
          (((a - 0xF0) * 64 + (b - 0x80)) * 64 + (d - 0x80)) * 64 + (f - 0x80)
  }

  lemma EncodeSpelled(c: nat)
    requires IsScalar(c)
    ensures Spelled(Encode(c)) == c
  {
    var m := c / 64;
    var k := m / 64;
    assert c == m * 64 + c % 64 && m == k * 64 + m % 64 && k == k / 64 * 64 + k % 64;
    assert c / 4096 == k && c / 262144 == k / 64;
  }

  /** Different scalars have different encodings. */
  lemma EncodeInjective(c: nat, d: nat)
    requires IsScalar(c) && IsScalar(d) && Encode(c) == Encode(d)
    ensures c == d
  {
    EncodeSpelled(c);
    EncodeSpelled(d);
  }

  /** Well-formed input is decoded to the scalars it encodes, leaving nothing held. */
  lemma {:induction false} WellFormedUnchanged(cs: seq<nat>)
    requires Scalars(cs)
    ensures Run(START, EncodeAll(cs)) == Stepped(cs, START) && Decode(EncodeAll(cs)) == cs
  {
    hide Encode;
    if cs != [] {
      RunEncoded(cs[0]);
      WellFormedUnchanged(cs[1..]);
      RunConcat(START, Encode(cs[0]), EncodeAll(cs[1..]));
      assert cs == [cs[0]] + cs[1..];
    }
  }
}
