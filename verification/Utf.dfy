/** The conversions between one UTF-16 code unit and its UTF-8 bytes (src/module.cpp). Masks and
    shifts are written as the divisions and remainders by powers of two that they stand for, and a
    union of disjoint bits as a sum. */
module Utf {

  type Byte = b: nat | b < 0x100
  type Unit = u: nat | u < 0x1_0000

  /** c8toc16: the octet as a wider number. */
  function Wide(b: Byte): int {
    b
  }

  predicate Surrogate(u: Unit) {
    0xD800 <= u < 0xE000
  }

  /** The rows for up to three octets of the table in section 3 of RFC 3629, in shortest form: the
      first octet tells the length, the others are of the form 10xxxxxx, and the free bits in order
      make up the number. */
  predicate IsUtf8Of(bytes: seq<Byte>, u: Unit) {
    if |bytes| == 1 then
      bytes[0] < 0x80 && bytes[0] == u
    else if |bytes| == 2 then
      && 0x80 <= u
      && 0xC0 <= bytes[0] < 0xE0 && 0x80 <= bytes[1] < 0xC0
      && (Wide(bytes[0]) - 0xC0) * 0x40 + (Wide(bytes[1]) - 0x80) == u
    else if |bytes| == 3 then
      && 0x800 <= u && !Surrogate(u)
      && 0xE0 <= bytes[0] < 0xF0 && 0x80 <= bytes[1] < 0xC0 && 0x80 <= bytes[2] < 0xC0
      && (Wide(bytes[0]) - 0xE0) * 0x1000 + (Wide(bytes[1]) - 0x80) * 0x40 + (Wide(bytes[2]) - 0x80) == u
    else
      false
  }

  /** The number of bytes used (0 for a first byte of zero) and the code unit; or a reason to refuse:
      -1 encoding error, -2 invalid sequence, -3 a character outside the basic plane. */
  function ConvertUtf8ToUtf16(sequence: seq<Byte>): (int, Unit) {
    if sequence == [] then (-2, 0)
    else
      var seqCh0 := sequence[0];
      if seqCh0 == 0 then (0, 0)
      else if seqCh0 / 8 == 0x1E then (-3, 0)
      else if seqCh0 / 16 == 0xE then
        if |sequence| < 3 then (-2, 0)
        else
          var seqCh1, seqCh2 := sequence[1], sequence[2];
          if seqCh1 / 64 != 2 || seqCh2 / 64 != 2 then (-2, 0)
          else
            var ch := Wide(seqCh0 % 16) * 0x1000 + Wide(seqCh1 % 64) * 0x40 + seqCh2 % 64;
            if Surrogate(ch) then (-1, 0) else (3, ch)
      else if seqCh0 / 32 == 6 then
        if |sequence| < 2 then (-2, 0)
        else
          var seqCh1 := sequence[1];
          if seqCh1 / 64 != 2 then (-2, 0)
          else (2, Wide(seqCh0 % 32) * 0x40 + seqCh1 % 64)
      else if seqCh0 / 128 == 0 then (1, seqCh0)
      else (-1, 0)
  }

  /** The number of bytes (0 for the unit 0, -1 for a surrogate), and the bytes followed by zeros. */
  function ConvertUtf16ToUtf8(ch16: Unit): (result: (int, seq<Byte>))
    ensures |result.1| == 4 && -1 <= result.0 <= 3
  {
    if ch16 == 0 then (0, [0, 0, 0, 0])
    else if ch16 < 0x80 then (1, [ch16, 0, 0, 0])
    else if ch16 < 0x800 then (2, [ch16 / 0x40 + 0xC0, ch16 % 0x40 + 0x80, 0, 0])
    else if Surrogate(ch16) then (-1, [0, 0, 0, 0])
    else (3, [ch16 / 0x1000 + 0xE0, ch16 / 0x40 % 0x40 + 0x80, ch16 % 0x40 + 0x80, 0])
  }

  /** The encoder gives the UTF-8 form of every unit but zero and surrogates, and refuses exactly
      the surrogates. */
  lemma EncoderIsUtf8(u: Unit)
    ensures var (rc, bytes) := ConvertUtf16ToUtf8(u);
      && (rc == -1 <==> Surrogate(u))
      && (rc == 0 <==> u == 0)
      && (u != 0 && !Surrogate(u) ==> IsUtf8Of(bytes[..rc], u))
  {
    assert u == u / 0x1000 * 0x1000 + u / 0x40 % 0x40 * 0x40 + u % 0x40;
  }

  /** The decoder inverts every UTF-8 form, whatever bytes follow it. */
  lemma DecoderInverts(bytes: seq<Byte>, u: Unit, rest: seq<Byte>)
    requires IsUtf8Of(bytes, u) && u != 0
    ensures ConvertUtf8ToUtf16(bytes + rest) == (|bytes|, u)
  {
    var all := bytes + rest;
    assert all[0] == bytes[0];
    if |bytes| == 2 {
      assert all[1] == bytes[1];
    } else if |bytes| == 3 {
      assert all[1] == bytes[1] && all[2] == bytes[2];
    }
  }

  lemma RoundTrip(u: Unit, rest: seq<Byte>)
    requires u != 0 && !Surrogate(u)
    ensures var (rc, bytes) := ConvertUtf16ToUtf8(u);
      0 < rc && ConvertUtf8ToUtf16(bytes[..rc] + rest) == (rc, u)
  {
    EncoderIsUtf8(u);
    var (rc, bytes) := ConvertUtf16ToUtf8(u);
    DecoderInverts(bytes[..rc], u, rest);
  }

  /** The octet can only continue a sequence. */
  predicate Continuation(b: Byte) {
    0x80 <= b < 0xC0
  }

  /** Everything that the decoder refuses, and why; a first octet of zero is used up by none. What it reads
      of two octets need not be in shortest form. */
  lemma DecoderRefuses(bytes: seq<Byte>)
    ensures var rc := ConvertUtf8ToUtf16(bytes).0;
      && (rc == 0 <==> bytes != [] && bytes[0] == 0)
      && (rc == -3 <==> bytes != [] && 0xF0 <= bytes[0] < 0xF8)
      && (rc == -2 <==> bytes == [] || Cut(bytes))
      && (rc == -1 <==> bytes != [] && (Continuation(bytes[0]) || bytes[0] >= 0xF8 || SurrogateForm(bytes)))
      && (rc <= 0 ==> ConvertUtf8ToUtf16(bytes).1 == 0)
  {
  }

  /** The first octet asks for continuations that are not there. */
  predicate Cut(bytes: seq<Byte>) {
    bytes != [] &&
    if 0xC0 <= bytes[0] < 0xE0 then |bytes| < 2 || !Continuation(bytes[1])
    else 0xE0 <= bytes[0] < 0xF0 && (|bytes| < 3 || !Continuation(bytes[1]) || !Continuation(bytes[2]))
  }

  /** Three octets of the form that a surrogate would have. */
  predicate SurrogateForm(bytes: seq<Byte>) {
    |bytes| >= 3 && bytes[0] == 0xED && 0xA0 <= bytes[1] < 0xC0 && Continuation(bytes[2])
  }

  /** What it reads of two and three octets. */
  lemma DecoderReads(bytes: seq<Byte>)
    requires bytes != [] && !Cut(bytes) && !SurrogateForm(bytes)
    ensures 0 < bytes[0] < 0x80 ==> ConvertUtf8ToUtf16(bytes) == (1, bytes[0])
    ensures 0xC0 <= bytes[0] < 0xE0 ==>
      ConvertUtf8ToUtf16(bytes) == (2, (Wide(bytes[0]) - 0xC0) * 0x40 + (Wide(bytes[1]) - 0x80))
    ensures 0xE0 <= bytes[0] < 0xF0 ==>
      ConvertUtf8ToUtf16(bytes) ==
        (3, (Wide(bytes[0]) - 0xE0) * 0x1000 + (Wide(bytes[1]) - 0x80) * 0x40 + (Wide(bytes[2]) - 0x80))
  {
  }

  /** Behind the form there are only zeros. */
  lemma EncoderPads(u: Unit)
    ensures var (rc, bytes) := ConvertUtf16ToUtf8(u);
      forall i :: (if rc > 0 then rc else 0) <= i < |bytes| ==> bytes[i] == 0
  {
  }
}
