/** The shift-and-mask byte reversals of helpers.h, on machine words. */
module Words {
  import opened Bytes

  function Reverse16(x: bv16): bv16 {
    (x >> 8) | (x << 8)
  }

  function Reverse32(x: bv32): bv32 {
    (x >> 24) | ((x >> 8) & 0x0000ff00) | ((x << 8) & 0x00ff0000) | (x << 24)
  }

  function Reverse64(x: bv64): bv64 {
    (x >> 56)
    | ((x >> 40) & 0x000000000000ff00)
    | ((x >> 24) & 0x0000000000ff0000)
    | ((x >>  8) & 0x00000000ff000000)
    | ((x <<  8) & 0x000000ff00000000)
    | ((x << 24) & 0x0000ff0000000000)
    | ((x << 40) & 0x00ff000000000000)
    | (x << 56)
  }

  /** The octets of a word, least significant first. */
  function Octets16(x: bv16): seq<bv8> {
    [(x & 0xff) as bv8, (x >> 8) as bv8]
  }

  function Octets32(x: bv32): seq<bv8> {
    [(x & 0xff) as bv8, ((x >> 8) & 0xff) as bv8, ((x >> 16) & 0xff) as bv8, (x >> 24) as bv8]
  }

  function Octets64(x: bv64): seq<bv8> {
    [(x & 0xff) as bv8, ((x >> 8) & 0xff) as bv8, ((x >> 16) & 0xff) as bv8, ((x >> 24) & 0xff) as bv8,
     ((x >> 32) & 0xff) as bv8, ((x >> 40) & 0xff) as bv8, ((x >> 48) & 0xff) as bv8, (x >> 56) as bv8]
  }

  function OctetValues(s: seq<bv8>): (r: seq<Byte>)
    ensures |r| == |s| && forall i :: 0 <= i < |s| ==> r[i] == s[i] as int
  {
    if s == [] then [] else [s[0] as int] + OctetValues(s[1..])
  }

  /** The number a word stands for. */
  function Number(octets: seq<bv8>): nat {
    FromLittleEndian(OctetValues(octets))
  }

  lemma Reverse16Octets(x: bv16)
    ensures Octets16(Reverse16(x)) == Reversed(Octets16(x))
    ensures Reverse16(Reverse16(x)) == x
  {
  }

  lemma Reverse32Octets(x: bv32)
    ensures Octets32(Reverse32(x)) == Reversed(Octets32(x))
    ensures Reverse32(Reverse32(x)) == x
  {
  }

  lemma Reverse64Octets(x: bv64)
    ensures Octets64(Reverse64(x)) == Reversed(Octets64(x))
    ensures Reverse64(Reverse64(x)) == x
  {
  }

  lemma ReversedNumber(s: seq<bv8>)
    ensures Number(Reversed(s)) == ReverseEndianness(Number(s), |s|)
  {
    var values := OctetValues(s);
    ReversedValues(s);
    LittleEndianEncodes(values);
    assert LittleEndian(FromLittleEndian(values), |s|) == values;
  }

  lemma ReversedValues(s: seq<bv8>)
    ensures OctetValues(Reversed(s)) == Reversed(OctetValues(s))
  {
    var values, other := OctetValues(s), OctetValues(Reversed(s));
    forall i | 0 <= i < |s| ensures other[i] == Reversed(values)[i] {
      assert other[i] == Reversed(s)[i] as int;
    }
  }

  /** What the word functions compute is the reversal of Bytes.ReverseEndianness, for each width. */
  lemma WordsReverse(x: bv16, y: bv32, z: bv64)
    ensures Number(Octets16(Reverse16(x))) == ReverseEndianness(Number(Octets16(x)), 2)
    ensures Number(Octets32(Reverse32(y))) == ReverseEndianness(Number(Octets32(y)), 4)
    ensures Number(Octets64(Reverse64(z))) == ReverseEndianness(Number(Octets64(z)), 8)
  {
    Reverse16Octets(x);
    Reverse32Octets(y);
    Reverse64Octets(z);
    ReversedNumber(Octets16(x));
    ReversedNumber(Octets32(y));
    ReversedNumber(Octets64(z));
  }
}
