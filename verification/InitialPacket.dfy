/**
 An independent reader of Initial packets, after sections 16 and 17.2.2 of
 RFC 9000, and what it finds in every packet the blaster sends.
 */
module InitialPacket {
  import opened Wire
  import opened Auth
  import opened Header
  import opened SplitMix
  import opened Blaster

  datatype Varint = Varint(value: nat, width: nat)

  /** A variable-length integer at the head of `s`. */
  function ReadVarint(s: seq<byte>): Option<Varint> {
    if s == [] then None
    else
      var width := if s[0] & 0xc0 == 0 then 1 else if s[0] & 0xc0 == 0x40 then 2
                   else if s[0] & 0xc0 == 0x80 then 4 else 8;
      if |s| < width then None
      else Some(Varint(Number([s[0] & 0x3f] + s[1..width]), width))
  }

  datatype Initial = Initial(
    version: nat, dcid: seq<byte>, scid: seq<byte>, token: seq<byte>,
    length: nat, packetNumber: seq<byte>, payload: seq<byte>, trailing: seq<byte>)

  /** A length-prefixed field and what follows it. */
  function ReadCid(s: seq<byte>): Option<(seq<byte>, seq<byte>)> {
    if s == [] || s[0] > 20 || |s| < 1 + s[0] as int then None
    else Some((s[1..1 + s[0] as int], s[1 + s[0] as int..]))
  }

  function ReadInitial(d: seq<byte>): Option<Initial> {
    // Header form and fixed bit set, type 00.
    if |d| < 5 || d[0] & 0xf0 != 0xc0 then None
    else
      match ReadCid(d[5..])
      case None => None
      case Some((dcid, afterDcid)) =>
        match ReadCid(afterDcid)
        case None => None
        case Some((scid, afterScid)) =>
          match ReadVarint(afterScid)
          case None => None
          case Some(tokenLen) =>
            var afterTokenLen := afterScid[tokenLen.width..];
            if |afterTokenLen| < tokenLen.value then None
            else
              var afterToken := afterTokenLen[tokenLen.value..];
              match ReadVarint(afterToken)
              case None => None
              case Some(length) =>
                var body := afterToken[length.width..];
                var numberLen := (d[0] & 3) as int + 1;
                if |body| < length.value || length.value < numberLen then None
                else Some(Initial(Number(d[1..5]), dcid, scid, afterTokenLen[..tokenLen.value], length.value,
                                  body[..numberLen], body[numberLen..length.value], body[length.value..]))
  }

  lemma HighAndLow(w: bv16)
    ensures (((w >> 8) & 0xff) as bv8) as int * 256 + ((w & 0xff) as bv8) as int == w as int
  {
  }

  lemma BytesOfWord(h: byte, l: byte, w: bv16)
    requires w == ((h as bv16) << 8) | (l as bv16)
    ensures ((w >> 8) & 0xff) as bv8 == h && (w & 0xff) as bv8 == l
  {
  }

  lemma Int16RoundTrip(i: nat)
    requires i < 0x1_0000
    ensures (i as bv16) as int == i
  {
    var h := ByteWithValue(i / 256);
    var l := ByteWithValue(i % 256);
    var w := ((h as bv16) << 8) | (l as bv16);
    BytesOfWord(h, l, w);
    HighAndLow(w);
    WordIntWord(w);
  }

  lemma WordIntWord(w: bv16)
    ensures (w as int) as bv16 == w
  {
  }

  lemma TwoByteVarint(v: bv16)
    requires v as int < 0x4000
    ensures var s := BigEndian16(0x4000 | v);
            s[0] & 0xc0 == 0x40 && (s[0] & 0x3f) as int * 256 + s[1] as int == v as int
  {
  }

  lemma NumberSnoc(s: seq<byte>, b: byte)
    ensures Number(s + [b]) == 256 * Number(s) + b as int
  {
    assert (s + [b])[..|s|] == s;
  }

  lemma ReadTwoBytes(h: byte, l: byte, rest: seq<byte>)
    requires h & 0xc0 == 0x40
    ensures ReadVarint([h, l] + rest) == Some(Varint((h & 0x3f) as int * 256 + l as int, 2))
  {
    var s := [h, l] + rest;
    assert s[0] == h && s[1..2] == [l];
    NumberOfTwo(h & 0x3f, l);
  }

  /** The 2-byte length field decodes to the length it was built from. */
  lemma LengthFieldDecodes(n: nat, rest: seq<byte>)
    requires n < 0x4000
    ensures ReadVarint(LengthField(n) + rest) == Some(Varint(n, 2))
  {
    Int16RoundTrip(n);
    TwoByteVarint(n as bv16);
    var f := LengthField(n);
    assert f == [f[0], f[1]];
    ReadTwoBytes(f[0], f[1], rest);
  }

  lemma NumberOfTwo(a: byte, b: byte)
    ensures Number([a] + [b]) == a as int * 256 + b as int
  {
    NumberSnoc([a], b);
    NumberSnoc([], a);
    assert [] + [a] == [a];
  }

  lemma ReadFullCid(cid: seq<byte>, rest: seq<byte>)
    requires |cid| == TOKEN_LEN
    ensures ReadCid([20] + cid + rest) == Some((cid, rest))
  {
    var s := [20] + cid + rest;
    assert (20 as bv8) as int == 20;
    assert s[1..21] == cid && s[21..] == rest;
  }

  lemma VersionOne(s: seq<byte>)
    requires s == [0, 0, 0, 1]
    ensures Number(s) == 1
  {
    NumberSnoc([0, 0, 0], 1);
    NumberSnoc([0, 0], 0);
    NumberSnoc([0], 0);
    NumberSnoc([], 0);
    assert s == [0, 0, 0] + [1] && [0, 0, 0] == [0, 0] + [0] && [0, 0] == [0] + [0] && [0] == [] + [0];
  }

  lemma EmptyToken(rest: seq<byte>)
    ensures ReadVarint([0] + rest) == Some(Varint(0, 1))
  {
    assert ([0] + rest)[1..1] == [];
    var z: byte := 0;
    assert z & 0x3f == 0;
    assert Number([z] + []) == 0 by {
      assert [z] + [] == [z] && [z][..0] == [];
    }
  }

  /** Every packet of a legal size parses as a version 1 Initial whose length
      field covers exactly the rest of the datagram, and the authenticator's
      own locator finds the ID where the blaster writes it. */
  lemma PacketParses(size: nat, cid: seq<byte>)
    requires MIN_INITIAL_DATAGRAM <= size <= 16433 && |cid| == TOKEN_LEN
    ensures ReadInitial(Packet(size, cid)) == Some(Initial(
              1, cid, Repeat(0x5a, 20), [], size - 50, Repeat(0, 4), Repeat(0x42, size - 54), []))
    ensures DestinationCid(Packet(size, cid)) == Some(cid)
    ensures Packet(size, cid)[0] == 0xc3 && Packet(size, cid)[6..26] == cid
  {
    HeadParses(size, cid);
    SuffixParses(size);
    CidOfPacket(size, cid);
    CarriesIsDestination(Packet(size, cid), cid);
  }

  lemma HeadParses(size: nat, cid: seq<byte>)
    requires MIN_INITIAL_DATAGRAM <= size <= 16433 && |cid| == TOKEN_LEN
    ensures var d := Packet(size, cid);
            && d[0] == 0xc3 && d[0] & 0xf0 == 0xc0 && (d[0] & 3) as int == 3 && IsLong(d) && d[5] == 20
            && Number(d[1..5]) == 1
            && ReadCid(d[5..]) == Some((cid, Suffix(size)))
  {
    var d := Packet(size, cid);
    assert d[0] == 0xc3 && d[5] == 20 && d[1..5] == [0, 0, 0, 1] && d[5..] == [20] + cid + Suffix(size);
    FirstByte(d[0]);
    VersionOne(d[1..5]);
    ReadFullCid(cid, Suffix(size));
  }

  /** What follows the destination ID, read back in order. */
  lemma SuffixParses(size: nat)
    requires MIN_INITIAL_DATAGRAM <= size <= 16433
    ensures var body := Repeat(0, 4) + Repeat(0x42, size - 54);
            var afterToken := LengthField(size - 50) + body;
            var afterScid := [0] + afterToken;
            && ReadCid(Suffix(size)) == Some((Repeat(0x5a, 20), afterScid))
            && ReadVarint(afterScid) == Some(Varint(0, 1))
            && afterScid[1..] == afterToken && afterToken[0..] == afterToken && afterToken[..0] == []
            && ReadVarint(afterToken) == Some(Varint(size - 50, 2))
            && afterToken[2..] == body
            && body[..4] == Repeat(0, 4)
            && body[4..size - 50] == Repeat(0x42, size - 54)
            && body[size - 50..] == []
  {
    var body := Repeat(0, 4) + Repeat(0x42, size - 54);
    var afterToken := LengthField(size - 50) + body;
    var afterScid := [0] + afterToken;
    assert Suffix(size) == [20] + Repeat(0x5a, 20) + afterScid;
    ReadFullCid(Repeat(0x5a, 20), afterScid);
    EmptyToken(afterToken);
    LengthFieldDecodes(size - 50, body);
  }

  lemma FirstByte(b: byte)
    requires b == 0xc3
    ensures b & 0xf0 == 0xc0 && (b & 3) as int == 3 && b & 0x80 != 0
  {
  }

  lemma SentParses(e: Endian, size: nat, seed: bv64, i: nat)
    requires MIN_INITIAL_DATAGRAM <= size <= 16433
    ensures var p := Sent(e.Order(), Mix, size, seed, i);
            var cid := Cid(e.Order(), Mix, StateAt(seed, i));
            && |p| == size && DestinationCid(p) == Some(cid)
            && ReadInitial(p).Some? && ReadInitial(p).value.dcid == cid
  {
    PacketParses(size, Cid(e.Order(), Mix, StateAt(seed, i)));
  }

  /** Everything a thread hands to its socket: well-formed Initials whose IDs,
      found where the authenticator looks, repeat exactly every 2^64 packets. */
  lemma FloodIsDistinctInitials(e: Endian, size: nat, seed: bv64, n: nat, i: nat, j: nat)
    requires MIN_INITIAL_DATAGRAM <= size <= 16433 && i < n && j < n
    ensures var packets := AllSent(e.Order(), Mix, size, seed, n);
            && |packets| == n && |packets[i]| == size
            && ReadInitial(packets[i]).Some?
            && DestinationCid(packets[i]) == Some(ReadInitial(packets[i]).value.dcid)
            && (DestinationCid(packets[i]) == DestinationCid(packets[j]) <==> i % TWO_64 == j % TWO_64)
  {
    var sent := (k: nat) => Sent(e.Order(), Mix, size, seed, k);
    ListingAt(sent, n, i);
    ListingAt(sent, n, j);
    SentParses(e, size, seed, i);
    SentParses(e, size, seed, j);
    PacketsRepeat(e, size, seed, i, j);
  }
}
