/** mcpB64URLCanonical: the one unpadded base64url spelling of some bytes (RFC 4648,
    sections 3.5 and 5). */
module McpBase64 {
  import opened Names
  import opened Utf8

  /** The alphabet in value order: A to Z, a to z, 0 to 9, then - and _. */
  function Letter(v: nat): char
    requires v < 64
  {
    if v < 26 then 'A' + v as char
    else if v < 52 then 'a' + (v - 26) as char
    else if v < 62 then '0' + (v - 52) as char
    else if v == 62 then '-'
    else '_'
  }

  /** The value of a letter, by the runs of the alphabet. */
  function ValueOf(c: char): Option<nat> {
    if 'A' <= c <= 'Z' then Some(c as int - 'A' as int)
    else if 'a' <= c <= 'z' then Some(26 + (c as int - 'a' as int))
    else if '0' <= c <= '9' then Some(52 + (c as int - '0' as int))
    else if c == '-' then Some(62)
    else if c == '_' then Some(63)
    else None
  }

  lemma LetterValue(v: nat)
    requires v < 64
    ensures ValueOf(Letter(v)) == Some(v)
  {
  }

  lemma ValueLetter(c: char)
    requires ValueOf(c).Some?
    ensures ValueOf(c).value < 64 && Letter(ValueOf(c).value) == c
  {
  }

  /** strings.IndexByte on the alphabet. */
  method IndexInAlphabet(c: char) returns (value: int)
    ensures ValueOf(c) == if value < 0 then None else Some(value)
    ensures value < 64
  {
    for v: int := 0 to 64
      invariant forall w :: 0 <= w < v ==> Letter(w) != c
    {
      if Letter(v) == c {
        LetterValue(v);
        return v;
      }
    }
    if ValueOf(c).Some? { ValueLetter(c); }
    return -1;
  }

  /** The encoding: three bytes to four letters, and a shorter tail unpadded with its
      left-over bits zero. */
  function EncodeBytes(b: seq<byte>): string {
    if b == [] then ""
    else
      var x: nat := b[0];
      if |b| == 1 then [Letter(x / 4), Letter(x % 4 * 16)]
      else
        var y: nat := b[1];
        if |b| == 2 then [Letter(x / 4), Letter(x % 4 * 16 + y / 16), Letter(y % 16 * 4)]
        else
          var z: nat := b[2];
          [Letter(x / 4), Letter(x % 4 * 16 + y / 16), Letter(y % 16 * 4 + z / 64), Letter(z % 64)] +
            EncodeBytes(b[3..])
  }

  predicate AllLetters(text: string) {
    forall i :: 0 <= i < |text| ==> ValueOf(text[i]).Some?
  }

  /** The bits of the last letter that fill no byte are zero. */
  predicate TailClear(text: string)
    requires AllLetters(text) && |text| % 4 != 1
  {
    if |text| % 4 == 0 then true
    else
      var last := ValueOf(text[|text| - 1]).value;
      if |text| % 4 == 2 then last % 16 == 0 else last % 4 == 0
  }

  predicate Canonical(text: string) {
    |text| % 4 != 1 && AllLetters(text) && TailClear(text)
  }

  /** mcpB64URLCanonical. */
  method IsCanonical(text: string) returns (ok: bool)
    ensures ok <==> exists b: seq<byte> :: EncodeBytes(b) == text
  {
    CanonicalIffEncoding(text);
    var remainder := |text| % 4;
    if remainder == 1 { return false; }
    var last := 0;
    for i := 0 to |text|
      invariant forall k :: 0 <= k < i ==> ValueOf(text[k]).Some?
      invariant i > 0 ==> ValueOf(text[i - 1]) == Some(last)
    {
      var value := IndexInAlphabet(text[i]);
      if value < 0 { return false; }
      last := value;
    }
    if remainder == 0 { return true; }
    var leftover := 4;
    if remainder == 2 { leftover := 16; }
    return last % leftover == 0;
  }

  function V(c: char): (v: nat)
    requires ValueOf(c).Some?
    ensures v < 64
  {
    ValueOf(c).value
  }

  /** The bytes of a canonical text. */
  function DecodeText(t: string): seq<byte>
    requires Canonical(t)
  {
    if t == "" then []
    else
      assert |t| >= 2;
      var p, q := V(t[0]), V(t[1]);
      if |t| == 2 then [p * 4 + q / 16]
      else
        var r := V(t[2]);
        if |t| == 3 then [p * 4 + q / 16, q % 16 * 16 + r / 4]
        else
          var s := V(t[3]);
          CanonicalRest(t);
          [p * 4 + q / 16, q % 16 * 16 + r / 4, r % 4 * 64 + s] + DecodeText(t[4..])
  }

  lemma CanonicalRest(t: string)
    requires |t| >= 4
    ensures Canonical(t) <==> Canonical(t[4..]) && AllLetters(t[..4])
  {
    assert t == t[..4] + t[4..];
    assert |t| % 4 == |t[4..]| % 4;
    if Canonical(t[4..]) && AllLetters(t[..4]) {
      forall i | 0 <= i < |t| ensures ValueOf(t[i]).Some? {
        if i < 4 { assert t[i] == t[..4][i]; } else { assert t[i] == t[4..][i - 4]; }
      }
    }
    if |t| % 4 != 0 { assert t[|t| - 1] == t[4..][|t[4..]| - 1]; }
  }

  lemma LettersBack(t: string, values: seq<nat>)
    requires |t| == |values| && forall i :: 0 <= i < |t| ==> values[i] < 64 && t[i] == Letter(values[i])
    ensures AllLetters(t) && forall i :: 0 <= i < |t| ==> V(t[i]) == values[i]
  {
    forall i | 0 <= i < |t| ensures ValueOf(t[i]) == Some(values[i]) {
      LetterValue(values[i]);
    }
  }

  /** Six-bit pieces of bytes put together again. */
  lemma Pieces(x: nat, y: nat, z: nat)
    requires x < 256 && y < 256 && z < 256
    ensures x / 4 * 4 + x % 4 == x && (x % 4 * 16 + y / 16) / 16 == x % 4 && (x % 4 * 16 + y / 16) % 16 == y / 16
    ensures y / 16 * 16 + y % 16 == y && (y % 16 * 4 + z / 64) / 4 == y % 16 && (y % 16 * 4 + z / 64) % 4 == z / 64
    ensures z / 64 * 64 + z % 64 == z && (x % 4 * 16) / 16 == x % 4 && (y % 16 * 4) / 4 == y % 16
    ensures x % 4 * 16 % 16 == 0 && y % 16 * 4 % 4 == 0
  {
  }

  lemma {:induction false} EncodedIsCanonical(b: seq<byte>)
    ensures Canonical(EncodeBytes(b)) && DecodeText(EncodeBytes(b)) == b
    decreases |b|
  {
    hide ValueOf, Letter;
    var t := EncodeBytes(b);
    if b == [] {
    } else {
      var x: nat := b[0];
      var y: nat := if |b| > 1 then b[1] else 0;
      var z: nat := if |b| > 2 then b[2] else 0;
      Pieces(x, y, z);
      if |b| == 1 {
        LettersBack(t, [x / 4, x % 4 * 16]);
      } else if |b| == 2 {
        LettersBack(t, [x / 4, x % 4 * 16 + y / 16, y % 16 * 4]);
      } else {
        EncodedGroup(b, x, y, z);
      }
    }
  }

  lemma {:induction false} EncodedGroup(b: seq<byte>, x: nat, y: nat, z: nat)
    requires |b| >= 3 && b[0] == x && b[1] == y && b[2] == z
    ensures Canonical(EncodeBytes(b)) && DecodeText(EncodeBytes(b)) == b
    decreases |b|, 0
  {
    hide ValueOf, Letter, Canonical, AllLetters;
    var t := EncodeBytes(b);
    var values := [x / 4, x % 4 * 16 + y / 16, y % 16 * 4 + z / 64, z % 64];
    Pieces(x, y, z);
    LettersBack(t[..4], values);
    assert t[4..] == EncodeBytes(b[3..]);
    EncodedIsCanonical(b[3..]);
    CanonicalRest(t);
    assert forall i :: 0 <= i < 4 ==> t[i] == t[..4][i];
    assert b == [b[0], b[1], b[2]] + b[3..];
  }

  /** The letters of decoded bytes put together again. */
  lemma BytePieces(p: nat, q: nat, r: nat, s: nat)
    requires p < 64 && q < 64 && r < 64 && s < 64
    ensures var x, y, z := p * 4 + q / 16, q % 16 * 16 + r / 4, r % 4 * 64 + s;
      && x < 256 && y < 256 && z < 256
      && x / 4 == p && x % 4 * 16 + y / 16 == q && y % 16 * 4 + z / 64 == r && z % 64 == s
      && (q % 16 == 0 ==> x % 4 * 16 == q) && (r % 4 == 0 ==> y % 16 * 4 == r)
  {
    assert (p * 4 + q / 16) / 4 == p && (p * 4 + q / 16) % 4 == q / 16;
    assert (q % 16 * 16 + r / 4) / 16 == q % 16 && (q % 16 * 16 + r / 4) % 16 == r / 4;
    assert (r % 4 * 64 + s) / 64 == r % 4 && (r % 4 * 64 + s) % 64 == s;
  }

  lemma VLetter(c: char)
    requires ValueOf(c).Some?
    ensures Letter(V(c)) == c
  {
    ValueLetter(c);
  }

  lemma {:induction false} CanonicalIsEncoded(t: string)
    requires Canonical(t)
    ensures EncodeBytes(DecodeText(t)) == t
    decreases |t|, 1
  {
    hide ValueOf, Letter, V;
    if |t| >= 4 {
      DecodedGroup(t);
    } else if t != "" {
      assert |t| >= 2;
      var p, q, r := V(t[0]), V(t[1]), if |t| == 3 then V(t[2]) else 0;
      BytePieces(p, q, r, 0);
      VLetter(t[0]);
      VLetter(t[1]);
      if |t| == 2 {
        assert q % 16 == 0 by { LastValue(t); }
        assert t == [t[0], t[1]];
      } else {
        assert r % 4 == 0 by { LastValue(t); }
        VLetter(t[2]);
        assert t == [t[0], t[1], t[2]];
      }
    }
  }

  lemma LastValue(t: string)
    requires Canonical(t) && 2 <= |t| <= 3
    ensures if |t| == 2 then V(t[1]) % 16 == 0 else V(t[2]) % 4 == 0
  {
  }

  lemma {:induction false} DecodedGroup(t: string)
    requires Canonical(t) && |t| >= 4
    ensures EncodeBytes(DecodeText(t)) == t
    decreases |t|, 0
  {
    hide ValueOf, Letter, V, Canonical;
    assert AllLetters(t) by { CanonicalLetters(t); }
    var p, q, r, s := V(t[0]), V(t[1]), V(t[2]), V(t[3]);
    BytePieces(p, q, r, s);
    VLetter(t[0]);
    VLetter(t[1]);
    VLetter(t[2]);
    VLetter(t[3]);
    CanonicalRest(t);
    CanonicalIsEncoded(t[4..]);
    GroupText(t, p, q, r, s);
  }

  lemma CanonicalLetters(t: string)
    requires Canonical(t)
    ensures AllLetters(t)
  {
  }

  lemma GroupText(t: string, p: nat, q: nat, r: nat, s: nat)
    requires |t| >= 4 && Canonical(t) && Canonical(t[4..]) && EncodeBytes(DecodeText(t[4..])) == t[4..]
    requires p < 64 && q < 64 && r < 64 && s < 64
    requires t[0] == Letter(p) && t[1] == Letter(q) && t[2] == Letter(r) && t[3] == Letter(s)
    requires var x, y, z := p * 4 + q / 16, q % 16 * 16 + r / 4, r % 4 * 64 + s;
      && x < 256 && y < 256 && z < 256
      && DecodeText(t) == [x, y, z] + DecodeText(t[4..])
      && x / 4 == p && x % 4 * 16 + y / 16 == q && y % 16 * 4 + z / 64 == r && z % 64 == s
    ensures EncodeBytes(DecodeText(t)) == t
  {
    hide ValueOf, Letter, Canonical, DecodeText;
    var x, y, z := p * 4 + q / 16, q % 16 * 16 + r / 4, r % 4 * 64 + s;
    var rest := DecodeText(t[4..]);
    assert ([x, y, z] + rest)[3..] == rest;
    assert t == [t[0], t[1], t[2], t[3]] + t[4..];
  }

  /** Canonical texts are exactly the encodings of byte strings. */
  lemma CanonicalIffEncoding(text: string)
    ensures Canonical(text) <==> exists b: seq<byte> :: EncodeBytes(b) == text
  {
    if Canonical(text) { CanonicalIsEncoded(text); }
    forall b: seq<byte> | EncodeBytes(b) == text ensures Canonical(text) { EncodedIsCanonical(b); }
  }

  /** And a canonical text spells one byte string only. */
  lemma EncodingUnique(a: seq<byte>, b: seq<byte>)
    requires EncodeBytes(a) == EncodeBytes(b)
    ensures a == b
  {
    EncodedIsCanonical(a);
    EncodedIsCanonical(b);
  }

  // --- The encoding, bit by bit -------------------------------------------------------------

  /** The alphabet runs from A to Z, from a to z and from 0 to 9, and ends in - and _. */
  lemma LettersRun(v: nat)
    requires v < 64
    ensures Letter(0) == 'A' && Letter(25) == 'Z' && Letter(26) == 'a' && Letter(51) == 'z'
    ensures Letter(52) == '0' && Letter(61) == '9' && Letter(62) == '-' && Letter(63) == '_'
    ensures v !in {25, 51, 61, 62, 63} ==> Letter(v + 1) as int == Letter(v) as int + 1
  {
  }

  /** The w low bits of n, the highest first. */
  function Bits(n: nat, w: nat): (r: seq<nat>)
    ensures |r| == w
  {
    if w == 0 then [] else Bits(n / 2, w - 1) + [n % 2]
  }

  function Power(w: nat): nat {
    if w == 0 then 1 else 2 * Power(w - 1)
  }

  lemma {:induction false} BitsSplit(high: nat, low: nat, w: nat, v: nat)
    requires low < Power(v)
    ensures Bits(high * Power(v) + low, w + v) == Bits(high, w) + Bits(low, v)
    decreases v
  {
    if v == 0 {
      assert high * Power(0) + low == high;
    } else {
      var p := Power(v - 1);
      var n := high * Power(v) + low;
      assert n == 2 * (high * p) + low;
      assert n / 2 == high * p + low / 2 && n % 2 == low % 2;
      BitsSplit(high, low / 2, w, v - 1);
    }
  }

  lemma PowersAre()
    ensures Power(0) == 1 && Power(2) == 4 && Power(4) == 16 && Power(6) == 64
  {
    assert Power(1) == 2 && Power(3) == 8 && Power(5) == 32;
  }

  /** A byte's bits, cut where one letter ends and the next begins. */
  lemma ByteCuts(x: nat)
    requires x < 256
    ensures Bits(x, 8) == Bits(x / 4, 6) + Bits(x % 4, 2)
    ensures Bits(x, 8) == Bits(x / 16, 4) + Bits(x % 16, 4)
    ensures Bits(x, 8) == Bits(x / 64, 2) + Bits(x % 64, 6)
  {
    PowersAre();
    hide Bits, Power;
    BitsSplit(x / 4, x % 4, 6, 2);
    BitsSplit(x / 16, x % 16, 4, 4);
    BitsSplit(x / 64, x % 64, 2, 6);
  }

  /** A letter's bits, cut where one byte ends and the next begins. */
  lemma LetterCuts(high: nat, low: nat)
    ensures high < 4 && low < 16 ==> Bits(high * 16 + low, 6) == Bits(high, 2) + Bits(low, 4)
    ensures high < 16 && low < 4 ==> Bits(high * 4 + low, 6) == Bits(high, 4) + Bits(low, 2)
  {
    PowersAre();
    hide Bits, Power;
    if low < 16 { BitsSplit(high, low, 2, 4); }
    if low < 4 { BitsSplit(high, low, 4, 2); }
  }

  function ByteBits(b: seq<byte>): seq<nat> {
    if b == [] then [] else Bits(b[0], 8) + ByteBits(b[1..])
  }

  /** Six bits for a letter, by its place in the alphabet. */
  function LetterBits(text: string): seq<nat>
    requires AllLetters(text)
  {
    if text == "" then [] else Bits(V(text[0]), 6) + LetterBits(text[1..])
  }

  /** How many bits of the last letter are left over. */
  function LeftOver(bytes: nat): nat {
    if bytes % 3 == 0 then 0 else if bytes % 3 == 1 then 4 else 2
  }

  lemma {:induction false} LetterBitsConcat(a: string, b: string)
    requires AllLetters(a) && AllLetters(b)
    ensures AllLetters(a + b) && LetterBits(a + b) == LetterBits(a) + LetterBits(b)
  {
    if a == "" {
      assert a + b == b;
    } else {
      assert (a + b)[1..] == a[1..] + b;
      LetterBitsConcat(a[1..], b);
    }
  }

  lemma LetterFirst(v: nat, rest: string)
    requires v < 64 && AllLetters(rest)
    ensures AllLetters([Letter(v)] + rest) && LetterBits([Letter(v)] + rest) == Bits(v, 6) + LetterBits(rest)
  {
    LetterValue(v);
    hide Letter, ValueOf, Bits;
    assert ([Letter(v)] + rest)[1..] == rest;
  }

  lemma TwoLetters(u: nat, v: nat, rest: string)
    requires u < 64 && v < 64 && AllLetters(rest)
    ensures var t := [Letter(u), Letter(v)] + rest;
      AllLetters(t) && LetterBits(t) == Bits(u, 6) + Bits(v, 6) + LetterBits(rest)
  {
    LetterFirst(v, rest);
    LetterFirst(u, [Letter(v)] + rest);
    hide Letter, AllLetters, LetterBits, Bits;
    assert [Letter(u), Letter(v)] + rest == [Letter(u)] + ([Letter(v)] + rest);
    Associate(Bits(u, 6), Bits(v, 6), LetterBits(rest));
  }

  lemma TailLetters(u: nat, v: nat, w: nat)
    requires u < 64 && v < 64 && w < 64
    ensures AllLetters([Letter(u), Letter(v)]) && LetterBits([Letter(u), Letter(v)]) == Bits(u, 6) + Bits(v, 6)
    ensures var t := [Letter(u), Letter(v), Letter(w)];
      AllLetters(t) && LetterBits(t) == Bits(u, 6) + Bits(v, 6) + Bits(w, 6)
  {
    NothingEncoded();
    hide Letter, AllLetters, LetterBits, Bits;
    LetterFirst(w, "");
    Ends([Letter(u), Letter(v)], Bits(u, 6) + Bits(v, 6), [Letter(w)], Bits(w, 6));
    TwoLetters(u, v, "");
    TwoLetters(u, v, [Letter(w)]);
    assert [Letter(u), Letter(v)] + [Letter(w)] == [Letter(u), Letter(v), Letter(w)];
  }

  lemma Ends(a: string, b: seq<nat>, c: string, d: seq<nat>)
    ensures a + "" == a && b + [] == b && c + "" == c && d + [] == d
  {
  }

  lemma FourLetters(u: nat, v: nat, w: nat, x: nat, rest: string)
    requires u < 64 && v < 64 && w < 64 && x < 64 && AllLetters(rest)
    ensures var t := [Letter(u), Letter(v), Letter(w), Letter(x)] + rest;
      AllLetters(t) && LetterBits(t) == Bits(u, 6) + Bits(v, 6) + (Bits(w, 6) + Bits(x, 6)) + LetterBits(rest)
  {
    TwoLetters(w, x, rest);
    TwoLetters(u, v, [Letter(w), Letter(x)] + rest);
    hide Letter, AllLetters, LetterBits, Bits;
    assert [Letter(u), Letter(v), Letter(w), Letter(x)] + rest ==
      [Letter(u), Letter(v)] + ([Letter(w), Letter(x)] + rest);
    Associate(Bits(u, 6) + Bits(v, 6), Bits(w, 6) + Bits(x, 6), LetterBits(rest));
  }

  lemma Regroup<T>(p: seq<T>, q: seq<T>, r: seq<T>, s: seq<T>)
    ensures p + (q + r) == (p + q) + r && (p + (q + r)) + s == (p + q) + (r + s)
  {
  }

  /** One byte in two letters, two in three, and three in four. */
  lemma OneByte(x: nat)
    requires x < 256
    ensures Bits(x / 4, 6) + Bits(x % 4 * 16, 6) == Bits(x, 8) + Bits(0, 4)
  {
    hide Bits;
    ByteCuts(x);
    LetterCuts(x % 4, 0);
    Regroup(Bits(x / 4, 6), Bits(x % 4, 2), Bits(0, 4), []);
  }

  lemma TwoBytesCut(x: nat, y: nat)
    requires x < 256 && y < 256
    ensures Bits(x / 4, 6) + Bits(x % 4 * 16 + y / 16, 6) + Bits(y % 16 * 4, 6) == Bits(x, 8) + Bits(y, 8) + Bits(0, 2)
  {
    hide Bits;
    ByteCuts(x);
    ByteCuts(y);
    LetterCuts(x % 4, y / 16);
    LetterCuts(y % 16, 0);
    Regroup(Bits(x / 4, 6), Bits(x % 4, 2), Bits(y / 16, 4), Bits(y % 16, 4) + Bits(0, 2));
    Regroup(Bits(x, 8), Bits(y / 16, 4), Bits(y % 16, 4), Bits(0, 2));
    Regroup(Bits(y / 16, 4), Bits(y % 16, 4), Bits(0, 2), []);
    Associate(Bits(x, 8), Bits(y, 8), Bits(0, 2));
  }

  lemma ThreeBytesCut(x: nat, y: nat, z: nat)
    requires x < 256 && y < 256 && z < 256
    ensures Bits(x / 4, 6) + Bits(x % 4 * 16 + y / 16, 6) + (Bits(y % 16 * 4 + z / 64, 6) + Bits(z % 64, 6)) ==
      Bits(x, 8) + Bits(y, 8) + Bits(z, 8)
  {
    hide Bits;
    ByteCuts(x);
    ByteCuts(y);
    ByteCuts(z);
    LetterCuts(x % 4, y / 16);
    LetterCuts(y % 16, z / 64);
    var front, last := Bits(y / 16, 4), Bits(y % 16, 4);
    Associate(last, Bits(z / 64, 2), Bits(z % 64, 6));
    Regroup(Bits(x / 4, 6), Bits(x % 4, 2), front, last + Bits(z, 8));
    Associate(front, last, Bits(z, 8));
    Associate(Bits(x, 8), Bits(y, 8), Bits(z, 8));
  }

  lemma BytesFirst(b: seq<byte>)
    ensures |b| == 1 ==> ByteBits(b) == Bits(b[0], 8)
    ensures |b| == 2 ==> ByteBits(b) == Bits(b[0], 8) + Bits(b[1], 8)
    ensures |b| >= 3 ==> ByteBits(b) == Bits(b[0], 8) + Bits(b[1], 8) + Bits(b[2], 8) + ByteBits(b[3..])
  {
    hide Bits, ByteBits;
    NothingEncoded();
    if b != [] { ByteFirst(b); }
    if |b| >= 2 { ByteFirst(b[1..]); }
    if |b| >= 3 {
      ByteFirst(b[2..]);
      assert b[1..][1..] == b[2..] && b[2..][1..] == b[3..];
      Regroup(Bits(b[0], 8), Bits(b[1], 8), Bits(b[2], 8), ByteBits(b[3..]));
    } else if |b| == 2 {
      assert b[1..][1..] == [] && Bits(b[1], 8) + [] == Bits(b[1], 8);
    } else if |b| == 1 {
      assert b[1..] == [] && Bits(b[0], 8) + [] == Bits(b[0], 8);
    }
  }

  lemma ByteFirst(b: seq<byte>)
    requires b != []
    ensures ByteBits(b) == Bits(b[0], 8) + ByteBits(b[1..])
  {
  }

  /** The letters spell the bytes' bits in order, with zeros in what is left over. */
  lemma {:induction false} EncodingBits(b: seq<byte>)
    ensures AllLetters(EncodeBytes(b))
    ensures LetterBits(EncodeBytes(b)) == ByteBits(b) + Bits(0, LeftOver(|b|))
    decreases |b|
  {
    BytesFirst(b);
    hide Letter, AllLetters, LetterBits, Bits, ByteBits;
    if b == [] {
      NothingEncoded();
    } else if |b| == 1 {
      var x: nat := b[0];
      TailLetters(x / 4, x % 4 * 16, 0);
      OneByte(x);
    } else if |b| == 2 {
      var x: nat, y: nat := b[0], b[1];
      TailLetters(x / 4, x % 4 * 16 + y / 16, y % 16 * 4);
      TwoBytesCut(x, y);
    } else {
      var x: nat, y: nat, z: nat := b[0], b[1], b[2];
      EncodingBits(b[3..]);
      FourLetters(x / 4, x % 4 * 16 + y / 16, y % 16 * 4 + z / 64, z % 64, EncodeBytes(b[3..]));
      ThreeBytesCut(x, y, z);
      Associate(Bits(x, 8) + Bits(y, 8) + Bits(z, 8), ByteBits(b[3..]), Bits(0, LeftOver(|b|)));
    }
  }

  lemma NothingEncoded()
    ensures AllLetters("") && LetterBits("") == [] && ByteBits([]) == [] && Bits(0, 0) == []
  {
  }
}
