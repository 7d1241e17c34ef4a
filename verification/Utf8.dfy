/** UTF-8: the validator of the value printer, the encoder behind the \u and \U escapes of the
    configuration parser, and the encoding both are meant to follow (section 3 of RFC 3629). */
module Utf8 {
  type Byte = x: int | 0 <= x < 256

  /** Unicode scalar values. */
  predicate IsScalar(c: nat) {
    c <= 0x10ffff && !(0xd800 <= c <= 0xdfff)
  }

  ghost predicate AllScalar(cs: seq<nat>) {
    forall i :: 0 <= i < |cs| ==> IsScalar(cs[i])
  }

  /** The encoding of section 3 of RFC 3629. */
  function Encode(c: nat): (bytes: seq<Byte>)
    requires IsScalar(c)
    ensures 1 <= |bytes| <= 4
  {
    if c <= 0x7f then [c]
    else if c <= 0x7ff then [0xc0 + c / 64, 0x80 + c % 64]
    else if c <= 0xffff then [0xe0 + c / 64 / 64, 0x80 + (c / 64) % 64, 0x80 + c % 64]
    else [0xf0 + c / 64 / 64 / 64, 0x80 + (c / 64 / 64) % 64, 0x80 + (c / 64) % 64, 0x80 + c % 64]
  }

  ghost function EncodeAll(cs: seq<nat>): seq<Byte>
    requires AllScalar(cs)
  {
    if cs == [] then [] else Encode(cs[0]) + EncodeAll(cs[1..])
  }

  // ---------- the validator ----------

  predicate IsTrail(t: Byte) {
    0x80 <= t <= 0xbf
  }

  /** Length of the well-formed character at the head of `s`, or 0. */
  function HeadLength(s: seq<Byte>): (n: nat)
    requires s != []
    ensures n <= |s|
  {
    var lead := s[0];
    if lead <= 0x7f then 1
    else if lead < 0xc2 then 0
    else if lead <= 0xdf && 2 <= |s| && IsTrail(s[1]) then 2
    else if 0xe0 <= lead <= 0xef && 3 <= |s| && IsTrail(s[1]) && IsTrail(s[2])
            && (lead != 0xe0 || s[1] >= 0xa0) && (lead != 0xed || s[1] < 0xa0) then 3
    else if 0xf0 <= lead <= 0xf4 && 4 <= |s| && IsTrail(s[1]) && IsTrail(s[2]) && IsTrail(s[3])
            && (lead != 0xf0 || s[1] >= 0x90) && (lead != 0xf4 || s[1] < 0x90) then 4
    else 0
  }

  predicate Accepted(s: seq<Byte>) {
    s == [] || (HeadLength(s) > 0 && Accepted(s[HeadLength(s)..]))
  }

  /** The validation loop over a byte buffer. */
  method IsValidUTF8(s: seq<Byte>) returns (valid: bool)
    ensures valid <==> exists cs :: AllScalar(cs) && s == EncodeAll(cs)
  {
    AcceptedExactly(s);
    var i := 0;
    while i < |s|
      invariant 0 <= i <= |s|
      invariant Accepted(s) <==> Accepted(s[i..])
    {
      ghost var rest := s[i..];
      var lead := s[i];
      i := i + 1;
      if lead <= 0x7f {
        assert HeadLength(rest) == 1;
      } else if lead < 0xc2 {
        return false;
      } else if lead <= 0xdf && i + 1 <= |s| && IsTrail(s[i]) {
        assert HeadLength(rest) == 2;
        i := i + 1;
      } else if 0xe0 <= lead <= 0xef && i + 2 <= |s| && IsTrail(s[i]) && IsTrail(s[i + 1])
                && (lead != 0xe0 || s[i] >= 0xa0) && (lead != 0xed || s[i] < 0xa0) {
        assert HeadLength(rest) == 3;
        i := i + 2;
      } else if 0xf0 <= lead <= 0xf4 && i + 3 <= |s| && IsTrail(s[i]) && IsTrail(s[i + 1]) && IsTrail(s[i + 2])
                && (lead != 0xf0 || s[i] >= 0x90) && (lead != 0xf4 || s[i] < 0x90) {
        assert HeadLength(rest) == 4;
        i := i + 3;
      } else {
        return false;
      }
      assert rest[HeadLength(rest)..] == s[i..];
    }
    return true;
  }

  /** The scalar value at the head of a well-formed string. */
  function DecodeHead(s: seq<Byte>): (c: nat)
    requires s != [] && HeadLength(s) > 0
  {
    var lead: int := s[0];
    match HeadLength(s)
    case 1 => lead
    case 2 => Low(lead - 0xc0, s[1])
    case 3 => Low(Low(lead - 0xe0, s[1]), s[2])
    case _ => Low(Low(Low(lead - 0xf0, s[1]), s[2]), s[3])
  }

  /** Appends the six payload bits of a trail byte. */
  function Low(high: nat, trail: Byte): (c: nat)
    requires IsTrail(trail)
    ensures c / 64 == high && c % 64 == trail - 0x80
  {
    high * 64 + (trail - 0x80)
  }

  lemma LowUnique(high: nat, trail: Byte, c: nat)
    requires IsTrail(trail) && high == c / 64 && trail == 0x80 + c % 64
    ensures Low(high, trail) == c
  {
  }

  lemma ThreeBytesScalar(lead: Byte, second: Byte, third: Byte)
    requires 0xe0 <= lead <= 0xef && IsTrail(second) && IsTrail(third)
    requires (lead != 0xe0 || second >= 0xa0) && (lead != 0xed || second < 0xa0)
    ensures var c := Low(Low(lead - 0xe0, second), third);
      0x7ff < c <= 0xffff && IsScalar(c) && Encode(c) == [lead, second, third]
  {
  }

  lemma FourBytesScalar(lead: Byte, second: Byte, third: Byte, fourth: Byte)
    requires 0xf0 <= lead <= 0xf4 && IsTrail(second) && IsTrail(third) && IsTrail(fourth)
    requires (lead != 0xf0 || second >= 0x90) && (lead != 0xf4 || second < 0x90)
    ensures var c := Low(Low(Low(lead - 0xf0, second), third), fourth);
      0xffff < c <= 0x10ffff && Encode(c) == [lead, second, third, fourth]
  {
  }

  lemma DecodeHeadEncodes(s: seq<Byte>)
    requires s != [] && HeadLength(s) > 0
    ensures IsScalar(DecodeHead(s)) && Encode(DecodeHead(s)) == s[..HeadLength(s)]
  {
    if HeadLength(s) == 3 {
      ThreeBytesScalar(s[0], s[1], s[2]);
    } else if HeadLength(s) == 4 {
      FourBytesScalar(s[0], s[1], s[2], s[3]);
    }
  }

  lemma EncodedHeadLength(c: nat, tail: seq<Byte>)
    requires IsScalar(c)
    ensures HeadLength(Encode(c) + tail) == |Encode(c)|
    ensures DecodeHead(Encode(c) + tail) == c
  {
    var s := Encode(c) + tail;
    if 0x7f < c <= 0x7ff {
      LowUnique(c / 64, s[1], c);
    } else if 0x7ff < c <= 0xffff {
      LowUnique(c / 64 / 64, s[1], c / 64);
      LowUnique(c / 64, s[2], c);
    } else if 0xffff < c {
      LowUnique(c / 64 / 64 / 64, s[1], c / 64 / 64);
      LowUnique(c / 64 / 64, s[2], c / 64);
      LowUnique(c / 64, s[3], c);
    }
  }

  lemma {:induction false} AcceptedDecodes(s: seq<Byte>) returns (cs: seq<nat>)
    requires Accepted(s)
    ensures AllScalar(cs) && s == EncodeAll(cs)
  {
    if s == [] {
      cs := [];
    } else {
      DecodeHeadEncodes(s);
      var rest := AcceptedDecodes(s[HeadLength(s)..]);
      cs := [DecodeHead(s)] + rest;
      assert cs[1..] == rest;
    }
  }

  lemma {:induction false} EncodedAccepted(cs: seq<nat>)
    requires AllScalar(cs)
    ensures Accepted(EncodeAll(cs))
  {
    if cs != [] {
      var tail := EncodeAll(cs[1..]);
      EncodedAccepted(cs[1..]);
      EncodedHeadLength(cs[0], tail);
      assert (Encode(cs[0]) + tail)[|Encode(cs[0])|..] == tail;
    }
  }

  /** Accepted strings are exactly the encodings of sequences of scalar values. */
  lemma AcceptedExactly(s: seq<Byte>)
    ensures Accepted(s) <==> exists cs :: AllScalar(cs) && s == EncodeAll(cs)
  {
    if Accepted(s) {
      var cs := AcceptedDecodes(s);
    }
    forall cs | AllScalar(cs) && s == EncodeAll(cs)
      ensures Accepted(s)
    {
      EncodedAccepted(cs);
    }
  }

  /** An encoding decodes in one way only. */
  lemma {:induction false} EncodingUnique(cs: seq<nat>, ds: seq<nat>)
    requires AllScalar(cs) && AllScalar(ds) && EncodeAll(cs) == EncodeAll(ds)
    ensures cs == ds
  {
    if cs != [] && ds != [] {
      var ct, dt := EncodeAll(cs[1..]), EncodeAll(ds[1..]);
      EncodedHeadLength(cs[0], ct);
      EncodedHeadLength(ds[0], dt);
      assert ct == (Encode(cs[0]) + ct)[|Encode(cs[0])|..];
      assert dt == (Encode(ds[0]) + dt)[|Encode(ds[0])|..];
      EncodingUnique(cs[1..], ds[1..]);
      assert cs == [cs[0]] + cs[1..] && ds == [ds[0]] + ds[1..];
    }
  }

  // ---------- the encoder of the configuration parser ----------

  /** What a \u or \U escape of scalar value `c` is replaced by. The second byte of the three-byte
      form keeps five bits of the middle part, not six. */
  function Emit(c: nat): (bytes: seq<Byte>)
    requires IsScalar(c)
    ensures 1 <= |bytes| <= 4
  {
    if c <= 0x7f then [c % 128]
    else if c <= 0x7ff then [0xc0 + (c / 64) % 32, 0x80 + c % 64]
    else if c <= 0xffff then [0xe0 + (c / 64 / 64) % 16, 0x80 + (c / 64) % 32, 0x80 + c % 64]
    else [0xf0 + (c / 64 / 64 / 64) % 8, 0x80 + (c / 64 / 64) % 64, 0x80 + (c / 64) % 64, 0x80 + c % 64]
  }

  ghost function EmitAll(cs: seq<nat>): seq<Byte>
    requires AllScalar(cs)
  {
    if cs == [] then [] else Emit(cs[0]) + EmitAll(cs[1..])
  }

  /** Three-byte values whose bit 11 is set. */
  predicate Mangled(c: nat) {
    0x800 <= c <= 0xffff && (c / 64 / 32) % 2 == 1
  }

  ghost predicate NoneMangled(cs: seq<nat>) {
    forall i :: 0 <= i < |cs| ==> !Mangled(cs[i])
  }

  /** The value that is written in place of `c`. */
  function Written(c: nat): nat {
    if Mangled(c) then c - 0x800 else c
  }

  lemma SixthBit(m: nat)
    ensures m % 64 == m % 32 + 32 * ((m / 32) % 2)
  {
  }

  /** The escape is encoded correctly exactly when bit 11 is not lost. */
  lemma EmitCorrectExactly(c: nat)
    requires IsScalar(c)
    ensures Emit(c) == Encode(c) <==> !Mangled(c)
  {
    SixthBit(c / 64);
    if 0x7ff < c <= 0xffff {
      assert Emit(c)[1] == Encode(c)[1] <==> !Mangled(c);
      assert (c / 64 / 64) % 16 == c / 64 / 64;
    } else if c <= 0x7ff {
      assert c > 0x7f ==> (c / 64) % 32 == c / 64;
    } else {
      assert (c / 64 / 64 / 64) % 8 == c / 64 / 64 / 64;
    }
  }

  lemma DropBit11(c: nat)
    requires 0x1000 <= c <= 0xffff && IsScalar(c) && Mangled(c)
    ensures var d: nat := c - 0x800;
      && 0x7ff < d && IsScalar(d) && !Mangled(d)
      && d / 64 / 64 == c / 64 / 64 && (d / 64) % 64 == (c / 64) % 32 && d % 64 == c % 64
  {
    var d, m := c - 0x800, c / 64;
    assert d / 64 == m - 32;
    SixthBit(m);
    SixthBit(m - 32);
    assert (m - 32) / 32 == m / 32 - 1;
  }

  /** Apart from the values whose emission is not shortest-form, a mangled value is silently
      replaced by another scalar value. */
  lemma EmitsOtherScalar(c: nat)
    requires IsScalar(c) && !(0x800 <= c <= 0xfff)
    ensures IsScalar(Written(c)) && !Mangled(Written(c)) && Emit(c) == Encode(Written(c))
  {
    if Mangled(c) {
      DropBit11(c);
      assert (c / 64 / 64) % 16 == c / 64 / 64;
    } else {
      EmitCorrectExactly(c);
    }
  }

  /** Values 0x800 to 0xfff are emitted in a form that no string starting with it survives validation. */
  lemma OverlongRejected(c: nat, tail: seq<Byte>)
    requires 0x800 <= c <= 0xfff
    ensures HeadLength(Emit(c) + tail) == 0
  {
  }

  lemma EmitAcceptedExactly(c: nat)
    requires IsScalar(c)
    ensures Accepted(Emit(c)) <==> !(0x800 <= c <= 0xfff)
  {
    if 0x800 <= c <= 0xfff {
      OverlongRejected(c, []);
      assert Emit(c) + [] == Emit(c);
    } else {
      EmitsOtherScalar(c);
      EncodedAccepted([Written(c)]);
      assert EncodeAll([Written(c)]) == Emit(c);
    }
  }

  lemma {:induction false} EmittedIsEncoded(ds: seq<nat>) returns (cs: seq<nat>)
    requires AllScalar(ds) && Accepted(EmitAll(ds))
    ensures AllScalar(cs) && NoneMangled(cs) && EncodeAll(cs) == EmitAll(ds)
  {
    if ds == [] {
      cs := [];
    } else {
      var tail := EmitAll(ds[1..]);
      if 0x800 <= ds[0] <= 0xfff { OverlongRejected(ds[0], tail); }
      EmitsOtherScalar(ds[0]);
      EncodedHeadLength(Written(ds[0]), tail);
      assert (Emit(ds[0]) + tail)[|Emit(ds[0])|..] == tail;
      var rest := EmittedIsEncoded(ds[1..]);
      cs := [Written(ds[0])] + rest;
      assert cs[1..] == rest;
    }
  }

  lemma {:induction false} UnmangledEmitted(cs: seq<nat>)
    requires AllScalar(cs) && NoneMangled(cs)
    ensures EmitAll(cs) == EncodeAll(cs)
  {
    if cs != [] {
      EmitCorrectExactly(cs[0]);
      UnmangledEmitted(cs[1..]);
    }
  }

  /** Which accepted strings can be written with escapes: exactly those without a mangled value. */
  lemma EmittableExactly(s: seq<Byte>)
    requires Accepted(s)
    ensures (exists ds :: AllScalar(ds) && s == EmitAll(ds)) <==>
      (exists cs :: AllScalar(cs) && NoneMangled(cs) && s == EncodeAll(cs))
  {
    forall ds | AllScalar(ds) && s == EmitAll(ds)
      ensures exists cs :: AllScalar(cs) && NoneMangled(cs) && s == EncodeAll(cs)
    {
      var cs := EmittedIsEncoded(ds);
    }
    forall cs | AllScalar(cs) && NoneMangled(cs) && s == EncodeAll(cs)
      ensures exists ds :: AllScalar(ds) && s == EmitAll(ds)
    {
      UnmangledEmitted(cs);
    }
  }

  /** U+0800: accepted by the validator, never produced by an escape, and its own escape is rejected. */
  lemma MangledWitness()
    ensures IsScalar(0x800) && Encode(0x800) == [0xe0, 0xa0, 0x80] && Accepted(Encode(0x800))
    ensures !exists ds :: AllScalar(ds) && Encode(0x800) == EmitAll(ds)
    ensures !Accepted(Emit(0x800))
  {
    var s := Encode(0x800);
    assert EncodeAll([0x800]) == s;
    EncodedAccepted([0x800]);
    EmittableExactly(s);
    forall cs | AllScalar(cs) && s == EncodeAll(cs)
      ensures !NoneMangled(cs)
    {
      EncodingUnique(cs, [0x800]);
      assert Mangled(cs[0]);
    }
    EmitAcceptedExactly(0x800);
  }
}
