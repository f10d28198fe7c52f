/**
 Finding the destination connection ID in a datagram and authenticating it.
 Header layouts are those of sections 17.2 and 17.3 of RFC 9000.
 */
module Header {
  import opened Wire
  import opened Auth

  predicate IsLong(datagram: seq<byte>)
    requires |datagram| > 0
  {
    datagram[0] & 0x80 != 0
  }

  function DestinationCid(datagram: seq<byte>): Option<seq<byte>> {
    if |datagram| == 0 then None
    else if IsLong(datagram) then
      if |datagram| <= 5 then None
      else
        var len := datagram[5] as int;
        if len > TOKEN_LEN then None
        else if |datagram| < 6 + len then None
        else Some(datagram[6..6 + len])
    else if |datagram| < 1 + TOKEN_LEN then None
    else Some(datagram[1..1 + TOKEN_LEN])
  }

  /** A long header packet: flags, version, connection ID length and ID. */
  function LongPacket(flags: byte, version: seq<byte>, cid: seq<byte>, rest: seq<byte>): seq<byte>
    requires |version| == 4 && |cid| < 256
  {
    [flags] + version + [|cid| as bv8] + cid + rest
  }

  /** A short header packet: flags, then an ID of implicit length. */
  function ShortPacket(flags: byte, cid: seq<byte>, rest: seq<byte>): seq<byte> {
    [flags] + cid + rest
  }

  /** Writing an ID into a long header and locating it again. */
  lemma LongRoundTrip(flags: byte, version: seq<byte>, cid: seq<byte>, rest: seq<byte>)
    requires |version| == 4 && |cid| < 256 && flags & 0x80 != 0
    ensures DestinationCid(LongPacket(flags, version, cid, rest)) == if |cid| <= TOKEN_LEN then Some(cid) else None
  {
    var p := LongPacket(flags, version, cid, rest);
    IntByteInt(|cid|);
    assert p[5] == |cid| as bv8;
    if |cid| <= TOKEN_LEN {
      assert p[6..6 + |cid|] == cid;
    }
  }

  lemma ShortRoundTrip(flags: byte, cid: seq<byte>, rest: seq<byte>)
    requires |cid| == TOKEN_LEN && flags & 0x80 == 0
    ensures DestinationCid(ShortPacket(flags, cid, rest)) == Some(cid)
  {
    assert ShortPacket(flags, cid, rest)[1..21] == cid;
  }

  ghost predicate LongWith(datagram: seq<byte>, cid: seq<byte>) {
    |cid| <= TOKEN_LEN && exists flags: byte, version: seq<byte>, rest: seq<byte> ::
      flags & 0x80 != 0 && |version| == 4 && datagram == LongPacket(flags, version, cid, rest)
  }

  ghost predicate ShortWith(datagram: seq<byte>, cid: seq<byte>) {
    |cid| == TOKEN_LEN && exists flags: byte, rest: seq<byte> ::
      flags & 0x80 == 0 && datagram == ShortPacket(flags, cid, rest)
  }

  lemma Split(s: seq<byte>, n: nat)
    requires |s| >= 6 + n
    ensures s == [s[0]] + s[1..5] + [s[5]] + s[6..6 + n] + s[6 + n..]
  {
  }

  lemma LongShape(flags: byte, version: seq<byte>, cid: seq<byte>, rest: seq<byte>)
    requires flags & 0x80 != 0 && |version| == 4 && |cid| <= TOKEN_LEN
    ensures LongWith(LongPacket(flags, version, cid, rest), cid)
  {
  }

  lemma ShortShape(flags: byte, cid: seq<byte>, rest: seq<byte>)
    requires flags & 0x80 == 0 && |cid| == TOKEN_LEN
    ensures ShortWith(ShortPacket(flags, cid, rest), cid)
  {
  }

  lemma LocatedShape(datagram: seq<byte>, cid: seq<byte>)
    requires DestinationCid(datagram) == Some(cid)
    ensures LongWith(datagram, cid) || ShortWith(datagram, cid)
  {
    if IsLong(datagram) {
      ByteIntByte(datagram[5]);
      Split(datagram, |cid|);
      LongShape(datagram[0], datagram[1..5], cid, datagram[6 + |cid|..]);
    } else {
      ShortShape(datagram[0], cid, datagram[21..]);
      assert datagram == ShortPacket(datagram[0], cid, datagram[21..]);
    }
  }

  /** An ID is located exactly in the packets one of the two writers builds. */
  lemma DestinationCidExact(datagram: seq<byte>, cid: seq<byte>)
    ensures DestinationCid(datagram) == Some(cid) <==> LongWith(datagram, cid) || ShortWith(datagram, cid)
  {
    if DestinationCid(datagram) == Some(cid) {
      LocatedShape(datagram, cid);
    }
    if LongWith(datagram, cid) {
      var flags: byte, version: seq<byte>, rest: seq<byte> :|
        flags & 0x80 != 0 && |version| == 4 && datagram == LongPacket(flags, version, cid, rest);
      LongRoundTrip(flags, version, cid, rest);
    }
    if ShortWith(datagram, cid) {
      var flags: byte, rest: seq<byte> :| flags & 0x80 == 0 && datagram == ShortPacket(flags, cid, rest);
      ShortRoundTrip(flags, cid, rest);
    }
  }

  // ---------------------------------------------------------- Authenticator

  datatype Authenticator = Authenticator(inbound: Direction, localIp: Ipv4) {
    function Check(prf: Prf, datagram: seq<byte>, src: IpAddr): Verdict {
      match src
      case V6(_) => Err(NotIpv4(src))
      case V4(ip) =>
        match DestinationCid(datagram)
        case None => Err(NotQuic)
        case Some(cid) => Verify(prf, cid, inbound, ip, localIp)
    }
  }

  /** The datagram carries `token` in a full-length long header ID or a short
      header one. */
  ghost predicate Carries(datagram: seq<byte>, token: seq<byte>)
    requires |token| == TOKEN_LEN
  {
    || (|datagram| >= 26 && IsLong(datagram) && datagram[5] == 20 && datagram[6..26] == token)
    || (|datagram| >= 21 && !IsLong(datagram) && datagram[1..21] == token)
  }

  lemma CarriesIsDestination(datagram: seq<byte>, token: seq<byte>)
    requires |token| == TOKEN_LEN
    ensures Carries(datagram, token) <==> DestinationCid(datagram) == Some(token)
  {
    if |datagram| > 5 {
      IntByteInt(20);
      ByteIntByte(datagram[5]);
    }
  }

  /** `check` accepts exactly the datagrams from an IPv4 source that carry a
      token assembled for that source, this receiver and its direction. */
  lemma CheckExact(prf: Prf, a: Authenticator, datagram: seq<byte>, src: IpAddr)
    ensures a.Check(prf, datagram, src) == Ok
       <==> src.V4? && exists nonce: Nonce :: Carries(datagram, Assemble(prf, a.inbound, nonce, src.v4, a.localIp))
  {
    if src.V4? {
      forall nonce: Nonce
        ensures var t := Assemble(prf, a.inbound, nonce, src.v4, a.localIp);
                Carries(datagram, t) <==> DestinationCid(datagram) == Some(t)
      {
        CarriesIsDestination(datagram, Assemble(prf, a.inbound, nonce, src.v4, a.localIp));
      }
      var cid := DestinationCid(datagram);
      if cid.Some? {
        VerifyExact(prf, cid.value, a.inbound, src.v4, a.localIp);
      }
    }
  }

  /** The refusals that are about the datagram rather than the token. */
  lemma CheckErrors(prf: Prf, a: Authenticator, datagram: seq<byte>, src: IpAddr)
    ensures a.Check(prf, datagram, src) == Err(NotIpv4(src)) <==> src.V6?
    ensures a.Check(prf, datagram, src) == Err(NotQuic)
       <==> && src.V4?
            && (|| |datagram| == 0
                || (IsLong(datagram) && (|datagram| < 6 || datagram[5] > 20 || |datagram| < 6 + datagram[5] as int))
                || (!IsLong(datagram) && |datagram| < 21))
    ensures forall n: nat ::
              a.Check(prf, datagram, src) == Err(BadLength(n))
              <==> && src.V4? && n < TOKEN_LEN
                   && |datagram| >= 6 + n && IsLong(datagram) && datagram[5] as int == n
  {
    if |datagram| > 5 {
      assert datagram[5] > 20 <==> datagram[5] as int > 20;
    }
  }

  /** The refusals of a token that was found, each exactly when. */
  lemma CheckTokenErrors(prf: Prf, a: Authenticator, datagram: seq<byte>, src: Ipv4, token: seq<byte>)
    requires |token| == TOKEN_LEN && Carries(datagram, token)
    ensures var v, own := a.Check(prf, datagram, V4(src)), Assemble(prf, a.inbound, NonceOf(token), src, a.localIp);
            && (v == Err(WrongDirection) <==> token[..2] == [0, if a.inbound.ClientToServer? then 2 else 1])
            && (v == Err(BadTag) <==> token[..2] == own[..2] && token[10..20] != own[10..20])
            && (forall x: bv16 :: v == Err(UnknownSelector(x)) <==> token[..2] == BigEndian16(x) && x != 1 && x != 2)
  {
    CarriesIsDestination(datagram, token);
    VerifyErrors(prf, token, a.inbound, src, a.localIp);
    AssembledFields(prf, a.inbound, NonceOf(token), src, a.localIp);
    SelectorBytes();
  }

  // ------------------------------------------------------------- Truncation

  function Truncate(datagram: seq<byte>, room: nat): (t: seq<byte>)
    ensures t <= datagram && |t| == if |datagram| < room then |datagram| else room
  {
    if |datagram| <= room then datagram else datagram[..room]
  }

  lemma DestinationCidReads26(datagram: seq<byte>, room: nat)
    requires room >= 26
    ensures DestinationCid(Truncate(datagram, room)) == DestinationCid(datagram)
  {
    var t := Truncate(datagram, room);
    if |datagram| > room {
      assert t[0] == datagram[0] && t[5] == datagram[5];
      var len := datagram[5] as int;
      if len <= TOKEN_LEN {
        assert t[6..6 + len] == datagram[6..6 + len];
      }
      assert t[1..21] == datagram[1..21];
    }
  }

  /** A receive buffer of 26 bytes or more never changes a verdict; a smaller
      one can turn an accepted datagram into a refused one, for every cipher,
      receiver and source. */
  lemma TruncationThreshold(prf: Prf, a: Authenticator, src: Ipv4, room: nat)
    ensures room >= 26
       <==> forall datagram: seq<byte> ::
              a.Check(prf, Truncate(datagram, room), V4(src)) == a.Check(prf, datagram, V4(src))
  {
    if room >= 26 {
      forall datagram: seq<byte>
        ensures a.Check(prf, Truncate(datagram, room), V4(src)) == a.Check(prf, datagram, V4(src))
      {
        DestinationCidReads26(datagram, room);
      }
    } else {
      var nonce: Nonce := seq(NONCE_LEN, _ => 0);
      var token := Assemble(prf, a.inbound, nonce, src, a.localIp);
      var p := LongPacket(0xc0, [0, 0, 0, 1], token, []);
      LongRoundTrip(0xc0, [0, 0, 0, 1], token, []);
      MintedElsewhere(prf, a.inbound, nonce, src, a.localIp, a.inbound, src, a.localIp);
      assert a.Check(prf, p, V4(src)) == Ok;
      IntByteInt(20);
      assert |p| == 26 && p[0] == 0xc0 && p[5] == 20;
      assert a.Check(prf, Truncate(p, room), V4(src)) == Err(NotQuic);
    }
  }

  lemma CarriesTruncated(datagram: seq<byte>, room: nat, token: seq<byte>)
    requires |token| == TOKEN_LEN && Carries(Truncate(datagram, room), token)
    ensures Carries(datagram, token)
  {
    var t := Truncate(datagram, room);
    assert t[0] == datagram[0];
    if IsLong(t) {
      assert t[5] == datagram[5] && t[6..26] == datagram[6..26];
    } else {
      assert t[1..21] == datagram[1..21];
    }
  }

  /** Truncation never lets anything in: whatever the buffer, a datagram accepted
      once truncated would have been accepted whole. */
  lemma TruncationNeverAdmits(prf: Prf, a: Authenticator, datagram: seq<byte>, src: IpAddr, room: nat)
    requires a.Check(prf, Truncate(datagram, room), src) == Ok
    ensures a.Check(prf, datagram, src) == Ok
  {
    CheckExact(prf, a, Truncate(datagram, room), src);
    var nonce: Nonce :| Carries(Truncate(datagram, room), Assemble(prf, a.inbound, nonce, src.v4, a.localIp));
    CarriesTruncated(datagram, room, Assemble(prf, a.inbound, nonce, src.v4, a.localIp));
    CheckExact(prf, a, datagram, src);
  }
}
