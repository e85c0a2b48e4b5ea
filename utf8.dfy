/** UTF-8 as section 3 of RFC 3629 defines it: each Unicode scalar value is
    written as one to four octets, the first of which announces the length,
    the others being continuation octets `10xxxxxx`. `Buffer.byteLength(s,
    "utf8")` and the hashing of a string both work on this encoding. */
module Utf8 {
  import opened Wrappers

  newtype byte = x: int | 0 <= x < 256

  /** Number of octets RFC 3629 uses for one scalar value. */
  function CodePointLength(c: char): (n: nat)
    ensures 1 <= n <= 4
    ensures n == 1 <==> c as int < 0x80
  {
    if c as int < 0x80 then 1
    else if c as int < 0x800 then 2
    else if c as int < 0x10000 then 3
    else 4
  }

  predicate IsContinuation(b: byte) {
    0x80 <= b < 0xC0
  }

  /** The length of the sequence a lead octet starts, `None` for a
      continuation octet or an octet that never occurs in UTF-8. */
  function SequenceLength(lead: byte): Option<nat> {
    if lead < 0x80 then Some(1)
    else if 0xC0 <= lead < 0xE0 then Some(2)
    else if 0xE0 <= lead < 0xF0 then Some(3)
    else if 0xF0 <= lead < 0xF8 then Some(4)
    else None
  }

  /** The octets of one scalar value: the lead octet announces the length of
      the sequence and every other octet is a continuation octet. */
  function EncodeChar(c: char): (bs: seq<byte>)
    ensures |bs| == CodePointLength(c)
    ensures SequenceLength(bs[0]) == Some(|bs|)
    ensures forall i :: 1 <= i < |bs| ==> IsContinuation(bs[i])
  {
    var n := c as int;
    if n < 0x80 then
      [n as byte]
    else if n < 0x800 then
      [(0xC0 + n / 64) as byte, (0x80 + n % 64) as byte]
    else if n < 0x10000 then
      [(0xE0 + n / 4096) as byte, (0x80 + (n / 64) % 64) as byte, (0x80 + n % 64) as byte]
    else
      [(0xF0 + n / 262144) as byte, (0x80 + (n / 4096) % 64) as byte,
       (0x80 + (n / 64) % 64) as byte, (0x80 + n % 64) as byte]
  }

  /** The scalar value one well-formed sequence carries: the payload bits of
      the lead octet followed by six bits from each continuation octet. */
  function DecodeChar(bs: seq<byte>): int
    requires 1 <= |bs| <= 4
  {
    if |bs| == 1 then bs[0] as int
    else if |bs| == 2 then (bs[0] as int - 0xC0) * 64 + (bs[1] as int - 0x80)
    else if |bs| == 3 then
      (bs[0] as int - 0xE0) * 4096 + (bs[1] as int - 0x80) * 64 + (bs[2] as int - 0x80)
    else
      (bs[0] as int - 0xF0) * 262144 + (bs[1] as int - 0x80) * 4096
      + (bs[2] as int - 0x80) * 64 + (bs[3] as int - 0x80)
  }

  /** Splitting a number into its low six bits and the rest. */
  lemma SixBits(n: nat)
    ensures n == (n / 64) * 64 + n % 64 && 0 <= n % 64 < 64
  {
  }

  lemma {:induction false} DecodeEncodeChar(c: char)
    ensures DecodeChar(EncodeChar(c)) == c as int
  {
    var n := c as int;
    var bs := EncodeChar(c);
    SixBits(n);
    if 0x80 <= n < 0x800 {
      assert bs[0] as int - 0xC0 == n / 64 && bs[1] as int - 0x80 == n % 64;
    } else if 0x800 <= n < 0x10000 {
      var q := n / 64;
      SixBits(q);
      assert q / 64 == n / 4096;
      assert bs[0] as int - 0xE0 == q / 64 && bs[1] as int - 0x80 == q % 64 && bs[2] as int - 0x80 == n % 64;
    } else if 0x10000 <= n {
      var q := n / 64;
      SixBits(q);
      var q2 := q / 64;
      SixBits(q2);
      assert q2 == n / 4096 && q2 / 64 == n / 262144;
      assert bs[0] as int - 0xF0 == q2 / 64 && bs[1] as int - 0x80 == q2 % 64;
      assert bs[2] as int - 0x80 == q % 64 && bs[3] as int - 0x80 == n % 64;
    }
  }

  /** The UTF-8 encoding of a string. */
  function Encode(s: string): (bs: seq<byte>)
    ensures |bs| == ByteLength(s)
  {
    if s == [] then [] else EncodeChar(s[0]) + Encode(s[1..])
  }

  predicate IsAscii(s: string) {
    forall i :: 0 <= i < |s| ==> s[i] as int < 0x80
  }

  /** `Buffer.byteLength(s, "utf8")`: at least one octet per scalar value and
      at most four. */
  function ByteLength(s: string): (n: nat)
    ensures |s| <= n <= 4 * |s|
  {
    if s == [] then 0 else CodePointLength(s[0]) + ByteLength(s[1..])
  }

  /** The byte length equals the number of scalar values exactly when all of
      them are ASCII. */
  lemma {:induction false} ByteLengthAscii(s: string)
    ensures ByteLength(s) == |s| <==> IsAscii(s)
  {
    if s != [] {
      ByteLengthAscii(s[1..]);
      if s[0] as int < 0x80 && IsAscii(s[1..]) {
        forall i | 0 <= i < |s| ensures s[i] as int < 0x80 {
          if i > 0 { assert s[i] == s[1..][i - 1]; }
        }
      }
      if IsAscii(s) {
        assert s[0] as int < 0x80;
        forall i | 0 <= i < |s| - 1 ensures s[1..][i] as int < 0x80 {
          assert s[1..][i] == s[i + 1];
        }
      }
    }
  }

  lemma {:induction false} EncodeConcat(a: string, b: string)
    ensures Encode(a + b) == Encode(a) + Encode(b)
  {
    if a != [] {
      assert (a + b)[1..] == a[1..] + b;
      EncodeConcat(a[1..], b);
    } else {
      assert a + b == b;
    }
  }

  /** The byte length of a concatenation is the sum of the byte lengths. */
  lemma ByteLengthConcat(a: string, b: string)
    ensures ByteLength(a + b) == ByteLength(a) + ByteLength(b)
  {
    EncodeConcat(a, b);
  }

  /** Reads sequences back by their lead octets; `None` when an octet cannot
      start a sequence or a sequence is cut short. */
  function Decode(bs: seq<byte>): Option<seq<int>>
    decreases |bs|
  {
    if bs == [] then Some([])
    else
      match SequenceLength(bs[0])
      case None => None
      case Some(n) =>
        if n > |bs| then None
        else
          match Decode(bs[n..])
          case None => None
          case Some(rest) => Some([DecodeChar(bs[..n])] + rest)
  }

  function ScalarValues(s: string): (cs: seq<int>)
    ensures |cs| == |s|
  {
    seq(|s|, i requires 0 <= i < |s| => s[i] as int)
  }

  /** Decoding the encoding of a string gives back its scalar values. */
  lemma {:induction false} DecodeEncode(s: string)
    ensures Decode(Encode(s)) == Some(ScalarValues(s))
  {
    if s != [] {
      var head, bs := EncodeChar(s[0]), Encode(s);
      var n := |head|;
      assert bs == head + Encode(s[1..]);
      assert bs[0] == head[0];
      assert bs[..n] == head;
      assert bs[n..] == Encode(s[1..]);
      DecodeEncode(s[1..]);
      DecodeEncodeChar(s[0]);
      assert ScalarValues(s) == [s[0] as int] + ScalarValues(s[1..]);
    }
  }
}
