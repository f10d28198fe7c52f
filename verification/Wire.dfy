/** Bytes, addresses and fixed-width encodings shared by every component. */
module Wire {

  type byte = bv8

  /** How many values a 64-bit word has. */
  const TWO_64: nat := 0x1_0000_0000_0000_0000

  datatype Option<+T> = None | Some(value: T)

  datatype Ipv4 = Ipv4(a: byte, b: byte, c: byte, d: byte) {
    function Octets(): (s: seq<byte>)
      ensures |s| == 4
    {
      [a, b, c, d]
    }
  }

  const UNSPECIFIED := Ipv4(0, 0, 0, 0)

  datatype IpAddr = V4(v4: Ipv4) | V6(v6: seq<byte>)

  datatype SocketAddr = SocketAddr(ip: IpAddr, port: bv16)

  lemma ByteIntByte(b: byte)
    ensures (b as int) as bv8 == b
  {
  }

  lemma NextByte(b: byte)
    requires b != 255
    ensures (b + 1) as int == b as int + 1
  {
  }

  lemma {:induction false} ByteWithValue(i: nat) returns (b: byte)
    requires i < 256
    ensures b as int == i
  {
    if i == 0 {
      b := 0;
    } else {
      var c := ByteWithValue(i - 1);
      NextByte(c);
      b := c + 1;
    }
  }

  lemma IntByteInt(i: nat)
    requires i < 256
    ensures (i as bv8) as int == i
  {
    var b := ByteWithValue(i);
    ByteIntByte(b);
  }

  /** A big-endian number. */
  function Number(s: seq<byte>): nat {
    if s == [] then 0 else 256 * Number(s[..|s| - 1]) + s[|s| - 1] as int
  }

  /** `u16::to_be_bytes`. */
  function BigEndian16(x: bv16): (s: seq<byte>)
    ensures |s| == 2
    ensures FromBigEndian16(s[0], s[1]) == x
  {
    [((x >> 8) & 0xff) as bv8, (x & 0xff) as bv8]
  }

  /** `u16::from_be_bytes`. */
  function FromBigEndian16(hi: byte, lo: byte): bv16 {
    ((hi as bv16) << 8) | (lo as bv16)
  }

  lemma FromBigEndian16Injective(h: byte, l: byte, x: bv16)
    requires FromBigEndian16(h, l) == x
    ensures BigEndian16(x) == [h, l]
  {
  }

  type EightBytes = s: seq<byte> | |s| == 8 witness seq(8, _ => 0)

  /** How a word is laid out in memory. */
  type ByteOrder = bv64 -> EightBytes

  function ByteAt(x: bv64, shift: bv64): byte
    requires shift <= 56
  {
    ((x >> shift) & 0xff) as bv8
  }

  /** `u64::to_be_bytes`. */
  function BigEndian64(x: bv64): EightBytes
  {
    [ByteAt(x, 56), ByteAt(x, 48), ByteAt(x, 40), ByteAt(x, 32),
     ByteAt(x, 24), ByteAt(x, 16), ByteAt(x, 8), ByteAt(x, 0)]
  }

  function LittleEndian64(x: bv64): EightBytes
  {
    [ByteAt(x, 0), ByteAt(x, 8), ByteAt(x, 16), ByteAt(x, 24),
     ByteAt(x, 32), ByteAt(x, 40), ByteAt(x, 48), ByteAt(x, 56)]
  }

  /** `u64::from_be_bytes`. */
  function FromBigEndian64(s: seq<byte>): bv64
    requires |s| == 8
  {
    ((s[0] as bv64) << 56) | ((s[1] as bv64) << 48) | ((s[2] as bv64) << 40) | ((s[3] as bv64) << 32)
    | ((s[4] as bv64) << 24) | ((s[5] as bv64) << 16) | ((s[6] as bv64) << 8) | (s[7] as bv64)
  }

  lemma BytesDetermineWord(x: bv64)
    ensures ((ByteAt(x, 56) as bv64) << 56) | ((ByteAt(x, 48) as bv64) << 48)
         | ((ByteAt(x, 40) as bv64) << 40) | ((ByteAt(x, 32) as bv64) << 32)
         | ((ByteAt(x, 24) as bv64) << 24) | ((ByteAt(x, 16) as bv64) << 16)
         | ((ByteAt(x, 8) as bv64) << 8) | (ByteAt(x, 0) as bv64) == x
  {
  }

  lemma BigEndian64RoundTrip(x: bv64)
    ensures FromBigEndian64(BigEndian64(x)) == x
  {
    BytesDetermineWord(x);
  }

  lemma LittleEndian64Injective(x: bv64, y: bv64)
    requires LittleEndian64(x) == LittleEndian64(y)
    ensures x == y
  {
    var s, t := LittleEndian64(x), LittleEndian64(y);
    assert s[0] == t[0] && s[1] == t[1] && s[2] == t[2] && s[3] == t[3];
    assert s[4] == t[4] && s[5] == t[5] && s[6] == t[6] && s[7] == t[7];
    BytesDetermineWord(x);
    BytesDetermineWord(y);
  }

  function Drop(x: bv64): bv64 { x >> 8 }
  function LowByte(x: bv64): byte { (x & 0xff) as bv8 }

  /** The highest `n` bytes of a word: all of it, less one byte from the right
      for every byte short of 8. */
  function Leading(x: bv64, n: nat): bv64
    decreases 8 - n
  {
    if n >= 8 then x else Drop(Leading(x, n + 1))
  }

  /** The recursion, as shifts. */
  lemma LeadingShifts(x: bv64)
    ensures Leading(x, 8) == x && Leading(x, 7) == x >> 8 && Leading(x, 6) == x >> 16
    ensures Leading(x, 5) == x >> 24 && Leading(x, 4) == x >> 32 && Leading(x, 3) == x >> 40
    ensures Leading(x, 2) == x >> 48 && Leading(x, 1) == x >> 56 && Leading(x, 0) == 0
  {
    assert Drop(x) == x >> 8 && Drop(x >> 8) == x >> 16 && Drop(x >> 16) == x >> 24;
    assert Drop(x >> 24) == x >> 32 && Drop(x >> 32) == x >> 40 && Drop(x >> 40) == x >> 48;
    assert Drop(x >> 48) == x >> 56 && Drop(x >> 56) == 0;
  }

  lemma LowBytes(x: bv64)
    ensures LowByte(x) == ByteAt(x, 0) && LowByte(x >> 8) == ByteAt(x, 8) && LowByte(x >> 16) == ByteAt(x, 16)
    ensures LowByte(x >> 24) == ByteAt(x, 24) && LowByte(x >> 32) == ByteAt(x, 32) && LowByte(x >> 40) == ByteAt(x, 40)
    ensures LowByte(x >> 48) == ByteAt(x, 48) && LowByte(x >> 56) == ByteAt(x, 56)
  {
  }

  /** Both byte orders, byte by byte. */
  lemma ByteOfNumber(x: bv64, n: nat)
    requires n < 8
    ensures BigEndian64(x)[n] == LowByte(Leading(x, n + 1))
  {
    LeadingShifts(x);
    LowBytes(x);
  }

  lemma ByteOfLittle(x: bv64, n: nat)
    requires n < 8
    ensures LittleEndian64(x)[n] == LowByte(Leading(x, 8 - n))
  {
    LeadingShifts(x);
    LowBytes(x);
  }

  /** `dst[at..at + |src|].copy_from_slice(src)`. */
  method CopyInto(dst: array<byte>, at: nat, src: seq<byte>)
    requires at + |src| <= dst.Length
    modifies dst
    ensures dst[..] == old(dst[..at]) + src + old(dst[at + |src|..])
  {
    for i := 0 to |src|
      invariant forall k :: 0 <= k < at || at + i <= k < dst.Length ==> dst[k] == old(dst[k])
      invariant forall k :: 0 <= k < i ==> dst[at + k] == src[k]
    {
      dst[at + i] := src[i];
    }
  }
}
