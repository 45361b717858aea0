/**
 UTF-8 decoding with replacement, as a byte-at-a-time machine, and the fact that makes splitting
 a file at newline bytes sound: a newline byte is never part of a multi-byte sequence
 (section 3 of RFC 3629), whatever surrounds it, so decoding commutes with splitting.
 */
module Utf8 {
  import opened Splitting

  newtype Byte = b: int | 0 <= b < 256

  /** Decoded text, as its sequence of code points. */
  type Text = seq<nat>

  const NEWLINE: Byte := 10
  const LINE_FEED: nat := 10
  const REPLACEMENT := 0xFFFD

  /** How many continuation bytes are still due, the bits so far, and the range of the next byte. */
  datatype Decoder = Decoder(needed: nat, bits: nat, lower: nat, upper: nat) {
    /** Besides the ranges: enough bits are set that no overlong form can be completed. */
    ghost predicate Valid() {
      && needed <= 3
      && (needed > 0 ==> 0x80 <= lower && upper < 256)
      && (needed == 1 ==> bits >= 2)
      && (needed == 2 ==> bits >= 1 || lower >= 0xA0)
      && (needed == 3 ==> bits >= 1 || lower >= 0x90)
    }
  }

  const IDLE := Decoder(0, 0, 0x80, 0xBF)

  /** The first byte of a sequence: the next state and the code points emitted. */
  function Lead(b: Byte): (r: (Decoder, Text))
    ensures r.0.Valid()
  {
    var n := b as nat;
    if n < 0x80 then (IDLE, [n])
    else if 0xC2 <= n <= 0xDF then (Decoder(1, n - 0xC0, 0x80, 0xBF), [])
    else if 0xE0 <= n <= 0xEF then
      (Decoder(2, n - 0xE0, if n == 0xE0 then 0xA0 else 0x80, if n == 0xED then 0x9F else 0xBF), [])
    else if 0xF0 <= n <= 0xF4 then
      (Decoder(3, n - 0xF0, if n == 0xF0 then 0x90 else 0x80, if n == 0xF4 then 0x8F else 0xBF), [])
    else (IDLE, [REPLACEMENT])
  }

  function Step(d: Decoder, b: Byte): (r: (Decoder, Text))
    requires d.Valid()
    ensures r.0.Valid()
  {
    if d.needed == 0 then Lead(b)
    else if b as nat < d.lower || b as nat > d.upper then
      // The sequence is broken off; this byte starts afresh.
      (Lead(b).0, [REPLACEMENT] + Lead(b).1)
    else
      var bits := d.bits * 64 + (b as nat - 0x80);
      if d.needed == 1 then (IDLE, [bits]) else (Decoder(d.needed - 1, bits, 0x80, 0xBF), [])
  }

  function DecodeFrom(d: Decoder, bytes: seq<Byte>): Text
    requires d.Valid()
    decreases |bytes|
  {
    if bytes == [] then (if d.needed == 0 then [] else [REPLACEMENT])
    else Step(d, bytes[0]).1 + DecodeFrom(Step(d, bytes[0]).0, bytes[1..])
  }

  function Decode(bytes: seq<Byte>): Text {
    DecodeFrom(IDLE, bytes)
  }

  /** A newline byte ends whatever sequence was open and is itself a newline. */
  lemma {:induction false} DecodeFromAtNewline(d: Decoder, a: seq<Byte>, b: seq<Byte>)
    requires d.Valid()
    ensures DecodeFrom(d, a + [NEWLINE] + b) == DecodeFrom(d, a) + [LINE_FEED] + Decode(b)
    decreases |a|
  {
    var s := a + [NEWLINE] + b;
    if a == [] {
      assert s[0] == NEWLINE && s[1..] == b;
    } else {
      assert s[0] == a[0] && s[1..] == a[1..] + [NEWLINE] + b;
      DecodeFromAtNewline(Step(d, a[0]).0, a[1..], b);
    }
  }

  lemma {:induction false} DecodeFromWithoutNewline(d: Decoder, a: seq<Byte>)
    requires d.Valid() && NEWLINE !in a
    ensures LINE_FEED !in DecodeFrom(d, a)
    decreases |a|
  {
    if a != [] {
      DecodeFromWithoutNewline(Step(d, a[0]).0, a[1..]);
    }
  }

  lemma DecodeAtNewline(a: seq<Byte>, b: seq<Byte>)
    ensures Decode(a + [NEWLINE] + b) == Decode(a) + [LINE_FEED] + Decode(b)
  {
    DecodeFromAtNewline(IDLE, a, b);
  }

  lemma DecodeWithoutNewline(a: seq<Byte>)
    requires NEWLINE !in a
    ensures LINE_FEED !in Decode(a)
  {
    DecodeFromWithoutNewline(IDLE, a);
  }

  /** The lines of a file, cut out byte by byte before decoding. */
  function DecodedLines(parts: seq<seq<Byte>>): (lines: seq<Text>)
    ensures |lines| == |parts|
  {
    seq(|parts|, i requires 0 <= i < |parts| => Decode(parts[i]))
  }

  /** Splitting at newline bytes and decoding each piece gives exactly the lines of the decoded file. */
  lemma {:induction false} SplitBeforeDecoding(bytes: seq<Byte>)
    ensures Split(Decode(bytes), LINE_FEED) == DecodedLines(Split(bytes, NEWLINE))
    decreases |bytes|
  {
    hide Split, DecodeFrom, Decode;
    if NEWLINE in bytes {
      var k :| 0 <= k < |bytes| && bytes[k] == NEWLINE;
      var a, b := bytes[..k], bytes[k + 1..];
      assert bytes == a + [NEWLINE] + b;
      DecodeAtNewline(a, b);
      SplitAtSeparator(a, NEWLINE, b);
      SplitAtSeparator(Decode(a), LINE_FEED, Decode(b));
      SplitBeforeDecoding(a);
      SplitBeforeDecoding(b);
    } else {
      DecodeWithoutNewline(bytes);
      SplitWithoutSeparator(bytes, NEWLINE);
      SplitWithoutSeparator(Decode(bytes), LINE_FEED);
    }
  }
}
