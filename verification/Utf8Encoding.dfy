/**
 The encoder of section 3 of RFC 3629, and the decoder against it: every encoded text is read back,
 and of all files exactly the encoded texts come back from being read and written again.
 */
module Utf8Encoding {
  import opened Utf8

  /** The code points that can be encoded: all but those of surrogates. */
  predicate IsScalar(c: nat) {
    c <= 0x10FFFF && !(0xD800 <= c <= 0xDFFF)
  }

  ghost predicate IsText(text: Text) {
    forall i :: 0 <= i < |text| ==> IsScalar(text[i])
  }

  /** A continuation byte with six bits. */
  function Tail(bits: nat): Byte
    requires bits < 64
  {
    (0x80 + bits) as Byte
  }

  /** One code point: the lead byte says how many bytes follow, each with six more bits. */
  function EncodeOne(c: nat): seq<Byte>
    requires IsScalar(c)
  {
    if c < 0x80 then [c as Byte]
    else if c < 0x800 then [(0xC0 + c / 64) as Byte, Tail(c % 64)]
    else if c < 0x10000 then [(0xE0 + c / 4096) as Byte, Tail(c / 64 % 64), Tail(c % 64)]
    else [(0xF0 + c / 262144) as Byte, Tail(c / 4096 % 64), Tail(c / 64 % 64), Tail(c % 64)]
  }

  function Encode(text: Text): seq<Byte>
    requires IsText(text)
    decreases |text|
  {
    if text == [] then [] else EncodeOne(text[0]) + Encode(text[1..])
  }

  // ── What was encoded is read back ─────────────────────────────────────────

  lemma OneStep(d: Decoder, b: Byte, rest: seq<Byte>)
    requires d.Valid()
    ensures DecodeFrom(d, [b] + rest) == Step(d, b).1 + DecodeFrom(Step(d, b).0, rest)
  {
    assert ([b] + rest)[1..] == rest;
  }

  lemma ReadTail(d: Decoder, bits: nat, rest: seq<Byte>)
    requires d.Valid() && d.needed > 0 && bits < 64 && d.lower <= 0x80 + bits <= d.upper
    ensures d.needed == 1 ==> DecodeFrom(d, [Tail(bits)] + rest) == [d.bits * 64 + bits] + Decode(rest)
    ensures d.needed > 1 ==>
      Decoder(d.needed - 1, d.bits * 64 + bits, 0x80, 0xBF).Valid()
      && DecodeFrom(d, [Tail(bits)] + rest) == DecodeFrom(Decoder(d.needed - 1, d.bits * 64 + bits, 0x80, 0xBF), rest)
  {
    OneStep(d, Tail(bits), rest);
    hide DecodeFrom;
    assert Step(d, Tail(bits)).0.Valid();
    if d.needed > 1 {
      assert [] + DecodeFrom(Step(d, Tail(bits)).0, rest) == DecodeFrom(Step(d, Tail(bits)).0, rest);
    }
  }

  lemma ReadLead(b: Byte, rest: seq<Byte>)
    ensures Decode([b] + rest) == Lead(b).1 + DecodeFrom(Lead(b).0, rest)
    ensures Lead(b).1 == [] ==> Decode([b] + rest) == DecodeFrom(Lead(b).0, rest)
  {
    OneStep(IDLE, b, rest);
    hide DecodeFrom, Lead;
    assert Lead(b).1 == [] ==> Lead(b).1 + DecodeFrom(Lead(b).0, rest) == DecodeFrom(Lead(b).0, rest);
  }

  lemma ReadTwo(c: nat, rest: seq<Byte>)
    requires 0x80 <= c < 0x800
    ensures Decode(EncodeOne(c) + rest) == [c] + Decode(rest)
  {
    var lead, last := (0xC0 + c / 64) as Byte, Tail(c % 64);
    ReadLead(lead, [last] + rest);
    assert EncodeOne(c) + rest == [lead] + ([last] + rest);
    hide DecodeFrom, Decode;
    ReadTail(Lead(lead).0, c % 64, rest);
  }

  lemma ReadThree(c: nat, rest: seq<Byte>)
    requires 0x800 <= c < 0x10000 && IsScalar(c)
    ensures Decode(EncodeOne(c) + rest) == [c] + Decode(rest)
  {
    var lead, mid, last := (0xE0 + c / 4096) as Byte, c / 64 % 64, c % 64;
    var behind := [Tail(last)] + rest;
    assert EncodeOne(c) + rest == [lead] + ([Tail(mid)] + behind);
    ReadLead(lead, [Tail(mid)] + behind);
    var d := Lead(lead).0;
    SixBits(c);
    assert d.needed == 2 && d.bits == c / 4096 && d.lower <= 0x80 + mid <= d.upper;
    hide DecodeFrom, Decode, Lead, EncodeOne;
    ReadTail(d, mid, behind);
    ReadTail(Decoder(1, d.bits * 64 + mid, 0x80, 0xBF), last, rest);
  }

  /** A number from its bits in groups of six. */
  lemma SixBits(c: nat)
    ensures c == c / 64 * 64 + c % 64
    ensures c / 64 == c / 4096 * 64 + c / 64 % 64
    ensures c / 4096 == c / 262144 * 64 + c / 4096 % 64
  {
    assert c / 64 / 64 == c / 4096 && c / 4096 / 64 == c / 262144;
  }

  lemma ReadFour(c: nat, rest: seq<Byte>)
    requires 0x10000 <= c <= 0x10FFFF
    ensures Decode(EncodeOne(c) + rest) == [c] + Decode(rest)
  {
    var lead, first, mid, last := (0xF0 + c / 262144) as Byte, c / 4096 % 64, c / 64 % 64, c % 64;
    var behind := [Tail(last)] + rest;
    var after := [Tail(mid)] + behind;
    assert EncodeOne(c) + rest == [lead] + ([Tail(first)] + after);
    ReadLead(lead, [Tail(first)] + after);
    var d := Lead(lead).0;
    SixBits(c);
    assert d.needed == 3 && d.bits == c / 262144 && d.lower <= 0x80 + first <= d.upper;
    hide DecodeFrom, Decode, Lead, EncodeOne;
    ReadTail(d, first, after);
    var d1 := Decoder(2, d.bits * 64 + first, 0x80, 0xBF);
    ReadTail(d1, mid, behind);
    ReadTail(Decoder(1, d1.bits * 64 + mid, 0x80, 0xBF), last, rest);
  }

  lemma ReadOne(c: nat, rest: seq<Byte>)
    requires IsScalar(c)
    ensures Decode(EncodeOne(c) + rest) == [c] + Decode(rest)
  {
    if c < 0x80 {
      ReadLead(c as Byte, rest);
    } else {
      hide DecodeFrom, Decode, EncodeOne, IsScalar;
      if c < 0x800 {
        ReadTwo(c, rest);
      } else if c < 0x10000 {
        ReadThree(c, rest);
      } else {
        assert c <= 0x10FFFF by { ScalarBound(c); }
        ReadFour(c, rest);
      }
    }
  }

  lemma ScalarBound(c: nat)
    requires IsScalar(c)
    ensures c <= 0x10FFFF
  {
  }

  /** Reading an encoded text gives back the text, and then what follows it. */
  lemma {:induction false} EncodedIsRead(text: Text, rest: seq<Byte>)
    requires IsText(text)
    ensures Decode(Encode(text) + rest) == text + Decode(rest)
    decreases |text|
  {
    hide Decode, EncodeOne, IsScalar;
    if text == [] {
      assert Encode(text) + rest == rest && text + Decode(rest) == Decode(rest);
    } else {
      var behind := Encode(text[1..]) + rest;
      assert Encode(text) + rest == EncodeOne(text[0]) + behind;
      ReadOne(text[0], behind);
      EncodedIsRead(text[1..], rest);
      assert [text[0]] + (text[1..] + Decode(rest)) == text + Decode(rest);
    }
  }

  /** Main result: decoding inverts the encoder of the standard, for every text of scalar values. */
  lemma DecodesEncoding(text: Text)
    requires IsText(text)
    ensures Decode(Encode(text)) == text
  {
    EncodedIsRead(text, []);
    assert Decode([]) == [];
    hide Decode, Encode;
    assert Encode(text) + [] == Encode(text) && text + [] == text;
  }

  // ── Which files come back when written again ──────────────────────────────

  /** Bits from which only scalar values can be completed. */
  ghost predicate LeadsToScalar(d: Decoder) {
    && d.lower >= 0x80 && d.upper <= 0xBF
    && (d.needed == 1 ==> d.bits <= 0x43FF && !(0x360 <= d.bits <= 0x37F))
    && (d.needed == 2 ==> d.bits <= 0x10F && (d.bits == 0xD ==> d.upper <= 0x9F))
    && (d.needed == 3 ==> d.bits <= 4 && (d.bits == 0 ==> d.lower >= 0x90) && (d.bits == 4 ==> d.upper <= 0x8F))
  }

  lemma LeadGivesScalars(b: Byte)
    ensures LeadsToScalar(Lead(b).0) && IsText(Lead(b).1) && |Lead(b).1| <= 1
  {
  }

  lemma StepGivesScalars(d: Decoder, b: Byte)
    requires d.Valid() && LeadsToScalar(d)
    ensures LeadsToScalar(Step(d, b).0) && IsText(Step(d, b).1)
  {
    LeadGivesScalars(b);
    hide Lead;
  }

  lemma TextConcat(a: Text, b: Text)
    requires IsText(a) && IsText(b)
    ensures IsText(a + b)
  {
  }

  /** Whatever the bytes are, what is decoded can be encoded. */
  lemma {:induction false} DecodedIsText(d: Decoder, bytes: seq<Byte>)
    requires d.Valid() && LeadsToScalar(d)
    ensures IsText(DecodeFrom(d, bytes))
    decreases |bytes|
  {
    if bytes != [] {
      StepGivesScalars(d, bytes[0]);
      DecodedIsText(Step(d, bytes[0]).0, bytes[1..]);
      hide Step, LeadsToScalar, IsText;
      TextConcat(Step(d, bytes[0]).1, DecodeFrom(Step(d, bytes[0]).0, bytes[1..]));
    }
  }

  /** The byte neither breaks a sequence off nor is one that can begin none. */
  predicate GoesOn(d: Decoder, b: Byte) {
    if d.needed == 0 then b < 0x80 || 0xC2 <= b <= 0xF4 else d.lower <= b as nat <= d.upper
  }

  /** No byte calls for a replacement, nor does the end. */
  predicate IsUnbroken(d: Decoder, bytes: seq<Byte>)
    requires d.Valid()
    decreases |bytes|
  {
    if bytes == [] then d.needed == 0
    else GoesOn(d, bytes[0]) && IsUnbroken(Step(d, bytes[0]).0, bytes[1..])
  }

  lemma UnbrokenStep(d: Decoder, bytes: seq<Byte>)
    requires d.Valid() && IsUnbroken(d, bytes) && d.needed > 0
    ensures bytes != [] && d.lower <= bytes[0] as nat <= d.upper
    ensures d.needed == 1 ==> IsUnbroken(IDLE, bytes[1..])
    ensures d.needed > 1 ==>
      var next := Decoder(d.needed - 1, d.bits * 64 + (bytes[0] as nat - 0x80), 0x80, 0xBF); next.Valid() && IsUnbroken(next, bytes[1..])
  {
    assert Step(d, bytes[0]).0.Valid();
  }

  lemma TwoIsEncoded(b0: Byte, b1: Byte) returns (c: nat)
    requires 0xC2 <= b0 <= 0xDF && 0x80 <= b1 <= 0xBF
    ensures 0x80 <= c < 0x800 && EncodeOne(c) == [b0, b1]
  {
    c := (b0 as nat - 0xC0) * 64 + (b1 as nat - 0x80);
    assert c / 64 == b0 as nat - 0xC0 && c % 64 == b1 as nat - 0x80;
  }

  lemma ThreeIsEncoded(b0: Byte, b1: Byte, b2: Byte) returns (c: nat)
    requires 0xE0 <= b0 <= 0xEF && 0x80 <= b2 <= 0xBF
    requires (if b0 == 0xE0 then 0xA0 else 0x80) <= b1 as nat <= (if b0 == 0xED then 0x9F else 0xBF)
    ensures IsScalar(c) && EncodeOne(c) == [b0, b1, b2]
  {
    var x, y, z := b0 as nat - 0xE0, b1 as nat - 0x80, b2 as nat - 0x80;
    c := x * 4096 + y * 64 + z;
    assert c / 64 == x * 64 + y && c % 64 == z && c / 64 % 64 == y && c / 4096 == x;
  }

  lemma FourIsEncoded(b0: Byte, b1: Byte, b2: Byte, b3: Byte) returns (c: nat)
    requires 0xF0 <= b0 <= 0xF4 && 0x80 <= b2 <= 0xBF && 0x80 <= b3 <= 0xBF
    requires (if b0 == 0xF0 then 0x90 else 0x80) <= b1 as nat <= (if b0 == 0xF4 then 0x8F else 0xBF)
    ensures IsScalar(c) && EncodeOne(c) == [b0, b1, b2, b3]
  {
    var w, x, y, z := b0 as nat - 0xF0, b1 as nat - 0x80, b2 as nat - 0x80, b3 as nat - 0x80;
    c := w * 262144 + x * 4096 + y * 64 + z;
    assert c / 64 == w * 4096 + x * 64 + y && c % 64 == z && c / 64 % 64 == y;
    assert c / 4096 == w * 64 + x && c / 4096 % 64 == x && c / 262144 == w;
  }

  lemma Unfolded(bytes: seq<Byte>, n: nat)
    requires n <= |bytes|
    ensures bytes == bytes[..n] + bytes[n..]
    ensures n == 1 ==> bytes[..n] == [bytes[0]]
    ensures n == 2 ==> bytes[..n] == [bytes[0], bytes[1]]
    ensures n == 3 ==> bytes[..n] == [bytes[0], bytes[1], bytes[2]]
    ensures n == 4 ==> bytes[..n] == [bytes[0], bytes[1], bytes[2], bytes[3]]
  {
  }

  /** Unbroken bytes begin with an encoded code point, and what follows is unbroken. */
  lemma FirstIsEncoded(bytes: seq<Byte>) returns (c: nat, rest: seq<Byte>)
    requires bytes != [] && IsUnbroken(IDLE, bytes)
    ensures IsScalar(c) && bytes == EncodeOne(c) + rest && IsUnbroken(IDLE, rest) && |rest| < |bytes|
  {
    var b0 := bytes[0];
    if b0 < 0x80 {
      c, rest := b0 as nat, bytes[1..];
      Unfolded(bytes, 1);
    } else {
      var d := Lead(b0).0;
      assert IsUnbroken(d, bytes[1..]) && d.needed > 0;
      UnbrokenStep(d, bytes[1..]);
      if b0 <= 0xDF {
        c := TwoIsEncoded(b0, bytes[1]);
        rest := bytes[2..];
        Unfolded(bytes, 2);
        assert bytes[1..][1..] == bytes[2..];
      } else {
        c, rest := LongIsEncoded(bytes);
      }
    }
  }

  lemma LongIsEncoded(bytes: seq<Byte>) returns (c: nat, rest: seq<Byte>)
    requires bytes != [] && IsUnbroken(IDLE, bytes) && bytes[0] >= 0xE0
    ensures IsScalar(c) && bytes == EncodeOne(c) + rest && IsUnbroken(IDLE, rest) && |rest| < |bytes|
  {
    var b0 := bytes[0];
    var d := Lead(b0).0;
    assert IsUnbroken(d, bytes[1..]) && d.needed > 1;
    hide IsUnbroken, EncodeOne;
    UnbrokenStep(d, bytes[1..]);
    var d1 := Decoder(d.needed - 1, d.bits * 64 + (bytes[1] as nat - 0x80), 0x80, 0xBF);
    assert bytes[1..][1..] == bytes[2..];
    UnbrokenStep(d1, bytes[2..]);
    assert bytes[2..][1..] == bytes[3..];
    if b0 <= 0xEF {
      c := ThreeIsEncoded(b0, bytes[1], bytes[2]);
      rest := bytes[3..];
      Unfolded(bytes, 3);
    } else {
      var d2 := Decoder(1, d1.bits * 64 + (bytes[2] as nat - 0x80), 0x80, 0xBF);
      UnbrokenStep(d2, bytes[3..]);
      assert bytes[3..][1..] == bytes[4..];
      c := FourIsEncoded(b0, bytes[1], bytes[2], bytes[3]);
      rest := bytes[4..];
      Unfolded(bytes, 4);
    }
  }

  /** Unbroken bytes are an encoded text. */
  lemma {:induction false} UnbrokenIsEncoded(bytes: seq<Byte>) returns (text: Text)
    requires IsUnbroken(IDLE, bytes)
    ensures IsText(text) && bytes == Encode(text)
    decreases |bytes|
  {
    if bytes == [] {
      text := [];
    } else {
      var c, rest := FirstIsEncoded(bytes);
      hide IsUnbroken, EncodeOne, IsScalar;
      var more := UnbrokenIsEncoded(rest);
      text := [c] + more;
      assert text[1..] == more;
    }
  }

  lemma TailGoesOn(d: Decoder, bits: nat, rest: seq<Byte>)
    requires d.Valid() && d.needed > 0 && bits < 64 && d.lower <= 0x80 + bits <= d.upper && IsUnbroken(IDLE, rest)
    ensures d.needed == 1 ==> IsUnbroken(d, [Tail(bits)] + rest)
  {
    assert ([Tail(bits)] + rest)[1..] == rest;
  }

  lemma TailGoesFurther(d: Decoder, bits: nat, rest: seq<Byte>)
    requires d.Valid() && d.needed > 1 && bits < 64 && d.lower <= 0x80 + bits <= d.upper
    ensures Decoder(d.needed - 1, d.bits * 64 + bits, 0x80, 0xBF).Valid()
    ensures IsUnbroken(Decoder(d.needed - 1, d.bits * 64 + bits, 0x80, 0xBF), rest) ==> IsUnbroken(d, [Tail(bits)] + rest)
  {
    assert ([Tail(bits)] + rest)[1..] == rest;
    assert Step(d, Tail(bits)).0.Valid();
  }

  lemma LeadGoesOn(b: Byte, rest: seq<Byte>)
    requires b < 0x80 || 0xC2 <= b <= 0xF4
    ensures IsUnbroken(Lead(b).0, rest) ==> IsUnbroken(IDLE, [b] + rest)
  {
    assert ([b] + rest)[1..] == rest;
  }

  lemma ThreeGoOn(c: nat, rest: seq<Byte>)
    requires 0x800 <= c < 0x10000 && IsScalar(c) && IsUnbroken(IDLE, rest)
    ensures IsUnbroken(IDLE, EncodeOne(c) + rest)
  {
    var lead, mid, last := (0xE0 + c / 4096) as Byte, c / 64 % 64, c % 64;
    var behind := [Tail(last)] + rest;
    assert EncodeOne(c) + rest == [lead] + ([Tail(mid)] + behind);
    var d := Lead(lead).0;
    SixBits(c);
    assert d.needed == 2 && d.bits == c / 4096 && d.lower <= 0x80 + mid <= d.upper;
    LeadGoesOn(lead, [Tail(mid)] + behind);
    hide IsUnbroken, Lead, EncodeOne;
    TailGoesFurther(d, mid, behind);
    TailGoesOn(Decoder(1, d.bits * 64 + mid, 0x80, 0xBF), last, rest);
  }

  lemma FourGoOn(c: nat, rest: seq<Byte>)
    requires 0x10000 <= c <= 0x10FFFF && IsUnbroken(IDLE, rest)
    ensures IsUnbroken(IDLE, EncodeOne(c) + rest)
  {
    var lead, first, mid, last := (0xF0 + c / 262144) as Byte, c / 4096 % 64, c / 64 % 64, c % 64;
    var behind := [Tail(last)] + rest;
    var after := [Tail(mid)] + behind;
    assert EncodeOne(c) + rest == [lead] + ([Tail(first)] + after);
    var d := Lead(lead).0;
    SixBits(c);
    assert d.needed == 3 && d.bits == c / 262144 && d.lower <= 0x80 + first <= d.upper;
    LeadGoesOn(lead, [Tail(first)] + after);
    hide IsUnbroken, Lead, EncodeOne;
    TailGoesFurther(d, first, after);
    var d1 := Decoder(2, d.bits * 64 + first, 0x80, 0xBF);
    TailGoesFurther(d1, mid, behind);
    TailGoesOn(Decoder(1, d1.bits * 64 + mid, 0x80, 0xBF), last, rest);
  }

  lemma OneGoesOn(c: nat, rest: seq<Byte>)
    requires IsScalar(c) && IsUnbroken(IDLE, rest)
    ensures IsUnbroken(IDLE, EncodeOne(c) + rest)
  {
    if c < 0x80 {
      LeadGoesOn(c as Byte, rest);
    } else if c < 0x800 {
      var lead, last := (0xC0 + c / 64) as Byte, Tail(c % 64);
      LeadGoesOn(lead, [last] + rest);
      assert EncodeOne(c) + rest == [lead] + ([last] + rest);
      hide IsUnbroken;
      TailGoesOn(Lead(lead).0, c % 64, rest);
    } else if c < 0x10000 {
      hide IsUnbroken, EncodeOne;
      ThreeGoOn(c, rest);
    } else {
      hide IsUnbroken, EncodeOne;
      FourGoOn(c, rest);
    }
  }

  lemma {:induction false} EncodedIsUnbroken(text: Text)
    requires IsText(text)
    ensures IsUnbroken(IDLE, Encode(text))
    decreases |text|
  {
    if text != [] {
      EncodedIsUnbroken(text[1..]);
      hide IsUnbroken, EncodeOne, IsScalar;
      OneGoesOn(text[0], Encode(text[1..]));
    }
  }

  /** Main result for files: of all bytes exactly those in which nothing is broken come back when decoded and encoded again. */
  lemma ComesBackExactly(bytes: seq<Byte>)
    ensures IsText(Decode(bytes))
    ensures Encode(Decode(bytes)) == bytes <==> IsUnbroken(IDLE, bytes)
  {
    DecodedIsText(IDLE, bytes);
    EncodedIsUnbroken(Decode(bytes));
    if IsUnbroken(IDLE, bytes) {
      var text := UnbrokenIsEncoded(bytes);
      hide Decode, Encode, IsUnbroken, IsText;
      DecodesEncoding(text);
    }
  }
}
