/** The hex encoding step of `hashPassword` (worker.js:401-402): every byte of
    the digest is written with `toString(16)`, padded on the left with '0' to
    two characters, and the pieces are joined with the empty separator. */
module Hex {
  import opened Wrappers

  /** One element of the `Uint8Array` holding the digest. */
  newtype byte = x: int | 0 <= x < 256

  /** The digit `Number.prototype.toString(16)` writes for `d`: lower case. */
  function DigitChar(d: nat): char
    requires d < 16
  {
    if d < 10 then ('0' as int + d) as char else ('a' as int + d - 10) as char
  }

  predicate IsLowerHexDigit(c: char)
  {
    '0' <= c <= '9' || 'a' <= c <= 'f'
  }

  /** The value of a lower-case hex digit; the inverse of DigitChar. */
  function DigitValue(c: char): (r: Option<nat>)
    ensures r.Some? <==> IsLowerHexDigit(c)
    ensures r.Some? ==> r.value < 16 && DigitChar(r.value) == c
  {
    if '0' <= c <= '9' then Some(c as int - '0' as int)
    else if 'a' <= c <= 'f' then Some(c as int - 'a' as int + 10)
    else None
  }

  /** `n.toString(16)` for a non-negative integer: the shortest base-16
      numeral, most significant digit first. */
  function ToRadix16(n: nat): string
    decreases n
  {
    if n < 16 then [DigitChar(n)] else ToRadix16(n / 16) + [DigitChar(n % 16)]
  }

  /** `s.padStart(width, fill)` for a one-character fill string. */
  function PadStart(s: string, width: nat, fill: char): (r: string)
    ensures |r| == if |s| < width then width else |s|
    ensures r[|r| - |s|..] == s
    ensures forall k :: 0 <= k < |r| - |s| ==> r[k] == fill
  {
    if |s| < width then seq(width - |s|, _ => fill) + s else s
  }

  /** `b.toString(16).padStart(2, '0')`: two lower-case digits, the high
      nibble first. */
  function ByteToHex(b: byte): (r: string)
    ensures r == [DigitChar(b as int / 16), DigitChar(b as int % 16)]
  {
    var n := b as int;
    if n < 16 then
      assert ToRadix16(n) == [DigitChar(n)];
      PadStart(ToRadix16(n), 2, '0')
    else
      assert ToRadix16(n / 16) == [DigitChar(n / 16)];
      PadStart(ToRadix16(n), 2, '0')
  }

  /** `parts.join('')`. */
  function Concat(parts: seq<string>): string
  {
    if parts == [] then "" else parts[0] + Concat(parts[1..])
  }

  /** `Array.from(bytes).map(ByteToHex)`: one piece per byte, each two
      lower-case digits that read back as that byte. */
  function HexPieces(bytes: seq<byte>): (pieces: seq<string>)
    ensures |pieces| == |bytes|
    ensures forall i :: 0 <= i < |bytes| ==> pieces[i] == ByteToHex(bytes[i])
    ensures forall i :: 0 <= i < |pieces| ==>
      |pieces[i]| == 2 && IsLowerHexDigit(pieces[i][0]) && IsLowerHexDigit(pieces[i][1])
      && DecodePair(pieces[i][0], pieces[i][1]) == Some(bytes[i])
  {
    forall i | 0 <= i < |bytes|
      ensures |ByteToHex(bytes[i])| == 2
      ensures IsLowerHexDigit(ByteToHex(bytes[i])[0]) && IsLowerHexDigit(ByteToHex(bytes[i])[1])
      ensures DecodePair(ByteToHex(bytes[i])[0], ByteToHex(bytes[i])[1]) == Some(bytes[i])
    {
      ByteToHexDigits(bytes[i]);
      PairRoundTrip(bytes[i]);
    }
    seq(|bytes|, i requires 0 <= i < |bytes| => ByteToHex(bytes[i]))
  }

  /** The hex string of a digest, as `hashPassword` returns it. */
  function Encode(bytes: seq<byte>): (r: string)
    ensures |r| == 2 * |bytes|
    ensures forall k :: 0 <= k < |r| ==> IsLowerHexDigit(r[k])
  {
    EncodeShape(bytes);
    Concat(HexPieces(bytes))
  }

  /** Encoding a non-empty sequence writes the first byte, then the rest. */
  lemma EncodeCons(bytes: seq<byte>)
    requires bytes != []
    ensures Concat(HexPieces(bytes)) == ByteToHex(bytes[0]) + Concat(HexPieces(bytes[1..]))
  {
    assert HexPieces(bytes)[1..] == HexPieces(bytes[1..]);
  }

  lemma {:induction false} EncodeShape(bytes: seq<byte>)
    ensures |Concat(HexPieces(bytes))| == 2 * |bytes|
    ensures forall k :: 0 <= k < |Concat(HexPieces(bytes))| ==> IsLowerHexDigit(Concat(HexPieces(bytes))[k])
  {
    if bytes != [] {
      EncodeCons(bytes);
      EncodeShape(bytes[1..]);
      var head, tail := ByteToHex(bytes[0]), Concat(HexPieces(bytes[1..]));
      ByteToHexDigits(bytes[0]);
      AppendDigits(head, tail);
    }
  }

  lemma ByteToHexDigits(b: byte)
    ensures |ByteToHex(b)| == 2 && IsLowerHexDigit(ByteToHex(b)[0]) && IsLowerHexDigit(ByteToHex(b)[1])
  {
    DigitCharIsHex(b as int / 16);
    DigitCharIsHex(b as int % 16);
  }

  lemma DigitCharIsHex(d: nat)
    requires d < 16
    ensures IsLowerHexDigit(DigitChar(d))
  {
  }

  lemma AppendDigits(head: string, tail: string)
    requires forall k :: 0 <= k < |head| ==> IsLowerHexDigit(head[k])
    requires forall k :: 0 <= k < |tail| ==> IsLowerHexDigit(tail[k])
    ensures forall k :: 0 <= k < |head + tail| ==> IsLowerHexDigit((head + tail)[k])
  {
  }

  /** The byte written by two lower-case hex digits, high nibble first. */
  function DecodePair(hi: char, lo: char): Option<byte>
  {
    match (DigitValue(hi), DigitValue(lo))
    case (Some(h), Some(l)) => Some((h * 16 + l) as byte)
    case _ => None
  }

  /** Reads a string of lower-case hex digit pairs back into bytes. */
  function Decode(s: string): Option<seq<byte>>
    decreases |s|
  {
    if |s| < 2 then (if s == [] then Some([]) else None)
    else
      match (DecodePair(s[0], s[1]), Decode(s[2..]))
      case (Some(b), Some(rest)) => Some([b] + rest)
      case _ => None
  }

  /** Every digest can be read back from its hex string. */
  lemma {:induction false} DecodeEncode(bytes: seq<byte>)
    ensures Decode(Encode(bytes)) == Some(bytes)
  {
    if bytes != [] {
      EncodeCons(bytes);
      DecodeEncode(bytes[1..]);
      DecodeStep(bytes[0], Encode(bytes[1..]));
      assert [bytes[0]] + bytes[1..] == bytes;
    }
  }

  /** Decoding reads the two digits of one byte, then the rest. */
  lemma DecodeStep(b: byte, t: string)
    ensures Decode(ByteToHex(b) + t) == if Decode(t).Some? then Some([b] + Decode(t).value) else None
  {
    var s := ByteToHex(b) + t;
    assert s[0] == ByteToHex(b)[0] && s[1] == ByteToHex(b)[1];
    assert s[2..] == t;
    PairRoundTrip(b);
  }

  lemma PairRoundTrip(b: byte)
    ensures DecodePair(ByteToHex(b)[0], ByteToHex(b)[1]) == Some(b)
  {
    var n := b as int;
    DigitRoundTrip(n / 16);
    DigitRoundTrip(n % 16);
    assert (n / 16) * 16 + n % 16 == n;
  }

  lemma DigitRoundTrip(d: nat)
    requires d < 16
    ensures DigitValue(DigitChar(d)) == Some(d)
  {
  }

  /** Different digests never share a hex string. */
  lemma EncodeInjective(a: seq<byte>, b: seq<byte>)
    ensures Encode(a) == Encode(b) ==> a == b
  {
    DecodeEncode(a);
    DecodeEncode(b);
  }
}
