/** Decoding told without a decoder: an encoded scalar is read as itself, and where none stands the
    maximal subpart becomes one replacement (the Unicode Standard, section 3.9, "U+FFFD Substitution of
    Maximal Subparts"). */
module Utf8Subparts {
  import opened Names
  import opened Utf8
  import opened Output

  /** Proper, non-empty beginnings of encodings. */
  ghost predicate Opens(p: seq<byte>) {
    p != [] && exists c :: IsScalar(c) && |p| < |Encode(c)| && p == Encode(c)[..|p|]
  }

  /** b begins with the encoding of c. */
  predicate StartsWith(b: seq<byte>, c: nat)
    requires IsScalar(c)
  {
    Encode(c) <= b
  }

  /** The longest beginning of b that opens an encoding, or one byte when none does. */
  ghost predicate MaximalSubpart(b: seq<byte>, k: nat) {
    && 0 < k <= |b|
    && (Opens(b[..k]) || k == 1)
    && forall m :: k < m <= |b| ==> !Opens(b[..m])
  }

  // --- What is held opens an encoding ---------------------------------------------------------

  lemma {:induction false} HeldOpens(st: State, held: seq<byte>)
    requires Holds(st, held) && st.needed > 0
    ensures Opens(held)
    decreases st.needed - st.seen
  {
    hide Encode, Step;
    var b := st.lower;
    assert st.lower <= st.upper;
    HoldsNext(st, held, b);
    var s := Step(st, b);
    if st.seen + 1 < st.needed {
      HeldSeen(st, b);
      HeldOpens(s.state, held + [b]);
      var c :| IsScalar(c) && |held + [b]| < |Encode(c)| && held + [b] == Encode(c)[..|held + [b]|];
      assert held == (held + [b])[..|held|] == Encode(c)[..|held|];
    } else {
      assert held == (held + [b])[..|held|];
    }
  }

  lemma HeldSeen(st: State, b: byte)
    requires st.needed > 0 && st.lower <= b <= st.upper && st.seen + 1 < st.needed
    ensures Step(st, b).state.seen == st.seen + 1 && Step(st, b).state.needed == st.needed
  {
  }

  lemma OpensHeld(p: seq<byte>) returns (st: State)
    requires Opens(p)
    ensures Holds(st, p) && st.needed > 0
  {
    var c :| IsScalar(c) && |p| < |Encode(c)| && p == Encode(c)[..|p|];
    EncodedShape(c);
    st := HeldFront(Encode(c), |p|);
  }

  /** Every proper beginning of an encoding leaves the decoder waiting. */
  lemma HeldFront(e: seq<byte>, k: nat) returns (st: State)
    requires 2 <= |e| <= 4 && e[0] >= 0x80 && Lead(e[0]).needed == |e| - 1
    requires Lead(e[0]).lower <= e[1] <= Lead(e[0]).upper && forall j :: 2 <= j < |e| ==> 0x80 <= e[j] <= 0xBF
    requires 0 < k < |e|
    ensures Holds(st, e[..k]) && st.needed == |e| - 1 && st.seen == k - 1
    decreases k
  {
    st := Lead(e[0]);
    if k == 1 {
      assert Holds(st, e[..1]);
    } else {
      var before := HeldFront(e, k - 1);
      InRange(before, e, k - 1);
      HoldsNext(before, e[..k - 1], e[k - 1]);
      HeldSeen(before, e[k - 1]);
      assert e[..k - 1] + [e[k - 1]] == e[..k];
      st := Step(before, e[k - 1]).state;
    }
  }

  lemma InRange(st: State, e: seq<byte>, k: nat)
    requires 0 < k < |e| && e[0] >= 0x80 && Holds(st, e[..k]) && st.needed > 0 && st.seen == k - 1
    requires Lead(e[0]).lower <= e[1] <= Lead(e[0]).upper && forall j :: 2 <= j < |e| ==> 0x80 <= e[j] <= 0xBF
    ensures st.lower <= e[k] <= st.upper
  {
    assert e[..k][0] == e[0];
  }

  // --- One step of the reading ------------------------------------------------------------------

  /** Where an encoded scalar stands, it is read. */
  lemma ScalarRead(c: nat, rest: seq<byte>)
    requires IsScalar(c)
    ensures Decode(Encode(c) + rest) == [c] + Decode(rest)
  {
    RunEncoded(c);
    RunConcat(START, Encode(c), rest);
    hide Run, Encode;
    Associate([c], Run(START, rest).out, Flush(Run(START, rest).state));
  }

  /** Where none does, one replacement stands for the maximal subpart. */
  lemma SubpartReplaced(b: seq<byte>, k: nat)
    requires (forall c :: IsScalar(c) ==> !StartsWith(b, c)) && MaximalSubpart(b, k)
    ensures Decode(b) == [0xFFFD] + Decode(b[k..])
  {
    assert b[0..] == b;
    if Opens(b[..k]) {
      var st := OpensHeld(b[..k]);
      assert b[0..k] == b[..k];
      if k == |b| {
        assert b[..k] == b[0..];
        EmitsTail(b, 0, st);
      } else {
        if st.lower <= b[k] <= st.upper { Continues(b, k, st); }
        EmitsCut(true, b, 0, k, st);
      }
    } else {
      LoneByte(b);
      EmitsSingle(true, b, 0);
    }
  }

  /** A byte in range would make the subpart longer, or complete a scalar. */
  lemma Continues(b: seq<byte>, k: nat, st: State)
    requires 0 < k < |b| && Holds(st, b[..k]) && st.needed > 0 && st.lower <= b[k] <= st.upper
    ensures Opens(b[..k + 1]) || exists c :: IsScalar(c) && StartsWith(b, c)
  {
    HoldsNext(st, b[..k], b[k]);
    assert b[..k] + [b[k]] == b[..k + 1];
    var s := Step(st, b[k]);
    if st.seen + 1 < st.needed {
      HeldSeen(st, b[k]);
      HeldOpens(s.state, b[..k + 1]);
    } else {
      assert StartsWith(b, s.out[0]);
    }
  }

  lemma LoneByte(b: seq<byte>)
    requires b != [] && (forall c :: IsScalar(c) ==> !StartsWith(b, c)) && !Opens(b[..1])
    ensures First(b[0]).state == START && b[0] >= 0x80
  {
    assert !StartsWith(b, if b[0] < 0x80 then b[0] else 0);
    if b[0] >= 0x80 && First(b[0]).state != START {
      HoldsFirst(b[0]);
      assert b[..1] == [b[0]];
      HeldOpens(Lead(b[0]), b[..1]);
    }
  }

  /** There always is one. */
  lemma {:induction false} SubpartExists(b: seq<byte>) returns (k: nat)
    requires b != []
    ensures MaximalSubpart(b, k)
  {
    k := |b|;
    while k > 1 && !Opens(b[..k])
      invariant 0 < k <= |b| && forall m :: k < m <= |b| ==> !Opens(b[..m])
    {
      k := k - 1;
    }
  }
}
