/** Octets, byte orders and the primitive encodings of rw.h. */
module Bytes {

  type Byte = b: int | 0 <= b < 256

  /** 256 to the power of `width`: the number of patterns of `width` octets. */
  function Pow256(width: nat): (p: nat)
    ensures 0 < p
  {
    if width == 0 then 1 else 256 * Pow256(width - 1)
  }

  /** The low `width` octets of `n`, least significant first. */
  function LittleEndian(n: nat, width: nat): (s: seq<Byte>)
    ensures |s| == width
  {
    if width == 0 then [] else [n % 256] + LittleEndian(n / 256, width - 1)
  }

  function FromLittleEndian(s: seq<Byte>): nat {
    if s == [] then 0 else s[0] + 256 * FromLittleEndian(s[1..])
  }

  lemma {:induction false} LittleEndianDecodes(n: nat, width: nat)
    requires n < Pow256(width)
    ensures FromLittleEndian(LittleEndian(n, width)) == n
  {
    if width != 0 {
      LittleEndianDecodes(n / 256, width - 1);
      assert LittleEndian(n, width)[1..] == LittleEndian(n / 256, width - 1);
    }
  }

  lemma {:induction false} LittleEndianEncodes(s: seq<Byte>)
    ensures FromLittleEndian(s) < Pow256(|s|)
    ensures LittleEndian(FromLittleEndian(s), |s|) == s
  {
    if s != [] {
      LittleEndianEncodes(s[1..]);
    }
  }

  function Reversed<T>(s: seq<T>): (r: seq<T>)
    ensures |r| == |s|
    ensures forall i :: 0 <= i < |s| ==> r[i] == s[|s| - 1 - i]
  {
    if s == [] then [] else Reversed(s[1..]) + [s[0]]
  }

  lemma ReversedTwice<T>(s: seq<T>)
    ensures Reversed(Reversed(s)) == s
  {
  }

  /** How a host of the given byte order lays an unsigned pattern out in memory. */
  function Native(bigEndian: bool, n: nat, width: nat): (s: seq<Byte>)
    ensures |s| == width
  {
    if bigEndian then Reversed(LittleEndian(n, width)) else LittleEndian(n, width)
  }

  function FromNative(bigEndian: bool, s: seq<Byte>): nat {
    FromLittleEndian(if bigEndian then Reversed(s) else s)
  }

  lemma NativeDecodes(bigEndian: bool, n: nat, width: nat)
    requires n < Pow256(width)
    ensures FromNative(bigEndian, Native(bigEndian, n, width)) == n
  {
    LittleEndianDecodes(n, width);
    ReversedTwice(LittleEndian(n, width));
  }

  lemma FromNativeBounded(bigEndian: bool, s: seq<Byte>)
    ensures FromNative(bigEndian, s) < Pow256(|s|)
  {
    LittleEndianEncodes(if bigEndian then Reversed(s) else s);
  }

  /** The number whose octets are those of `n` in the opposite order (helpers::reverseEndianess). */
  function ReverseEndianness(n: nat, width: nat): nat {
    FromLittleEndian(Reversed(LittleEndian(n, width)))
  }

  /** Reversing the number is reversing its octets, and doing so twice changes nothing. */
  lemma ReverseEndiannessIsInvolution(n: nat, width: nat)
    requires n < Pow256(width)
    ensures ReverseEndianness(n, width) < Pow256(width)
    ensures LittleEndian(ReverseEndianness(n, width), width) == Reversed(LittleEndian(n, width))
    ensures ReverseEndianness(ReverseEndianness(n, width), width) == n
  {
    LittleEndianEncodes(Reversed(LittleEndian(n, width)));
    ReversedTwice(LittleEndian(n, width));
    LittleEndianDecodes(n, width);
  }

  /** The octets writePrimitive appends: the host swaps the value only when its order is not the message's. */
  function PrimitiveBytes(host: bool, format: bool, n: nat, width: nat): (s: seq<Byte>)
    ensures |s| == width
  {
    Native(host, if host != format && width > 1 then ReverseEndianness(n, width) else n, width)
  }

  /** The value readPrimitive hands out for the octets it fetched. */
  function PrimitiveValue(host: bool, format: bool, s: seq<Byte>): nat {
    var n := FromNative(host, s);
    if host != format && |s| > 1 then ReverseEndianness(n, |s|) else n
  }

  /** The octets of a primitive depend on the message's byte order only, not on the host that writes them. */
  lemma PrimitiveBytesHostIndependent(host: bool, format: bool, n: nat, width: nat)
    requires n < Pow256(width)
    ensures PrimitiveBytes(host, format, n, width) == Native(format, n, width)
  {
    ReverseEndiannessIsInvolution(n, width);
    ReversedTwice(LittleEndian(n, width));
  }

  lemma QuotientOf256(n: nat, b: nat)
    requires 0 < b
    ensures n / 256 / b == n / (256 * b)
  {
    var q, r := n / 256 / b, n / 256 % b;
    var p := b * q;
    assert n / 256 == p + r;
    assert (256 * b) * q == 256 * p;
    QuotientUnique(n, 256 * b, q, 256 * r + n % 256);
  }

  lemma QuotientUnique(n: nat, m: nat, q: nat, r: nat)
    requires r < m && n == m * q + r
    ensures n / m == q
  {
    var d := n / m - q;
    assert n == m * (n / m) + n % m;
    assert m * d == r - n % m;
    assert d >= 1 ==> m * d >= m;
    assert d <= -1 ==> m * d + m <= 0;
  }

  lemma {:induction false} LittleEndianDigit(n: nat, width: nat, k: nat)
    requires k < width
    ensures LittleEndian(n, width)[k] == n / Pow256(k) % 256
    decreases k
  {
    if k != 0 {
      LittleEndianDigit(n / 256, width - 1, k - 1);
      QuotientOf256(n, Pow256(k - 1));
    }
  }

  lemma NativeDigit(bigEndian: bool, n: nat, width: nat, k: nat)
    requires k < width
    ensures Native(bigEndian, n, width)[k] == n / Pow256(if bigEndian then width - 1 - k else k) % 256
  {
    if bigEndian {
      LittleEndianDigit(n, width, width - 1 - k);
    } else {
      LittleEndianDigit(n, width, k);
    }
  }

  lemma OneOctet(bigEndian: bool, n: Byte)
    ensures Native(bigEndian, n, 1) == [n]
  {
    NativeDigit(bigEndian, n, 1, 0);
  }

  /**
    * Octet number `k` of a primitive on the wire, whatever the host: counted from the least significant one, or from
    * the most significant one if the message is big-endian.
    */
  lemma PrimitiveDigit(host: bool, format: bool, n: nat, width: nat, k: nat)
    requires n < Pow256(width) && k < width
    ensures PrimitiveBytes(host, format, n, width)[k] == n / Pow256(if format then width - 1 - k else k) % 256
  {
    PrimitiveBytesHostIndependent(host, format, n, width);
    NativeDigit(format, n, width, k);
  }

  /** The octets of an unsigned number: least significant first, or the other way round. */
  ghost predicate Spells(s: seq<Byte>, bigEndian: bool, n: nat) {
    forall k | 0 <= k < |s| :: s[k] == n / Pow256(if bigEndian then |s| - 1 - k else k) % 256
  }

  lemma PrimitiveSpells(host: bool, format: bool, n: nat, width: nat)
    requires n < Pow256(width)
    ensures Spells(PrimitiveBytes(host, format, n, width), format, n)
  {
    forall k | 0 <= k < width {
      PrimitiveDigit(host, format, n, width, k);
    }
  }

  /** Likewise for reading: any host recovers the number that any host wrote. */
  lemma PrimitiveRoundTrip(writer: bool, reader: bool, format: bool, n: nat, width: nat)
    requires n < Pow256(width)
    ensures PrimitiveValue(reader, format, PrimitiveBytes(writer, format, n, width)) == n
  {
    PrimitiveBytesHostIndependent(writer, format, n, width);
    PrimitiveBytesHostIndependent(reader, format, n, width);
    var stored := if reader != format && width > 1 then ReverseEndianness(n, width) else n;
    ReverseEndiannessIsInvolution(n, width);
    NativeDecodes(reader, stored, width);
  }

  /** What octets spell is what any host reads. */
  lemma SpeltIsRead(host: bool, format: bool, s: seq<Byte>, n: nat)
    requires n < Pow256(|s|) && Spells(s, format, n)
    ensures PrimitiveValue(host, format, s) == n
  {
    PrimitiveSpells(host, format, n, |s|);
    SpelledOneWay(s, PrimitiveBytes(host, format, n, |s|), format, n);
    PrimitiveRoundTrip(host, host, format, n, |s|);
  }

  lemma SpelledOneWay(s: seq<Byte>, t: seq<Byte>, bigEndian: bool, n: nat)
    requires |s| == |t| && Spells(s, bigEndian, n) && Spells(t, bigEndian, n)
    ensures s == t
  {
    forall k | 0 <= k < |s| ensures s[k] == t[k] {
      var digit := n / Pow256(if bigEndian then |s| - 1 - k else k) % 256;
      assert s[k] == digit && t[k] == digit;
    }
  }
}
