/**
 The token scheme: a 20-byte connection ID holding a key selector, a nonce and
 the first 80 bits of a keyed block cipher over nonce, source and destination.
 The cipher is a parameter: every result holds for every `Prf`.
 */
module Auth {
  import opened Wire

  const TOKEN_LEN := 20
  const SELECTOR_LEN := 2
  const NONCE_LEN := 8
  const TAG_LEN := 10
  const AES_BLOCK_LEN := 16

  type Block = b: seq<byte> | |b| == AES_BLOCK_LEN witness seq(AES_BLOCK_LEN, _ => 0)
  type Nonce = n: seq<byte> | |n| == NONCE_LEN witness seq(NONCE_LEN, _ => 0)

  /** A block cipher: key, then block. */
  type Prf = (Block, Block) -> Block

  const F_AB: Block := [
    0xa0, 0xb1, 0xc2, 0xd3, 0xe4, 0xf5, 0x06, 0x17, 0x28, 0x39, 0x4a, 0x5b, 0x6c, 0x7d, 0x8e, 0x9f]
  const F_BA: Block := [
    0x5f, 0x4e, 0x3d, 0x2c, 0x1b, 0x0a, 0xf9, 0xe8, 0xd7, 0xc6, 0xb5, 0xa4, 0x93, 0x82, 0x71, 0x60]

  datatype Peers = Peers(client: Ipv4, server: Ipv4)

  datatype Direction = ClientToServer | ServerToClient {
    function Selector(): bv16 {
      match this
      case ClientToServer => 0x0001
      case ServerToClient => 0x0002
    }

    function Key(): Block {
      match this
      case ClientToServer => F_AB
      case ServerToClient => F_BA
    }

    function Opposite(): Direction {
      match this
      case ClientToServer => ServerToClient
      case ServerToClient => ClientToServer
    }

    /** Source and destination of a packet travelling this direction. */
    function Path(peers: Peers): (Ipv4, Ipv4) {
      match this
      case ClientToServer => (peers.client, peers.server)
      case ServerToClient => (peers.server, peers.client)
    }
  }

  function FromSelector(selector: bv16): Option<Direction> {
    if selector == 0x0001 then Some(ClientToServer)
    else if selector == 0x0002 then Some(ServerToClient)
    else None
  }

  datatype AuthError =
    | BadLength(len: nat)
    | UnknownSelector(selector: bv16)
    | WrongDirection
    | BadTag
    | NotQuic
    | NotIpv4(addr: IpAddr)

  datatype Verdict = Ok | Err(error: AuthError)

  // ---------------------------------------------------------------- Minting

  /** The one authenticated block. */
  function Message(nonce: Nonce, src: Ipv4, dst: Ipv4): Block {
    nonce + src.Octets() + dst.Octets()
  }

  function Tag(prf: Prf, key: Block, nonce: Nonce, src: Ipv4, dst: Ipv4): (t: seq<byte>)
    ensures |t| == TAG_LEN
  {
    prf(key, Message(nonce, src, dst))[..TAG_LEN]
  }

  function Assemble(prf: Prf, direction: Direction, nonce: Nonce, src: Ipv4, dst: Ipv4): (token: seq<byte>)
    ensures |token| == TOKEN_LEN
  {
    BigEndian16(direction.Selector()) + nonce + Tag(prf, direction.Key(), nonce, src, dst)
  }

  /** The twenty bytes of a token, in either direction. */
  lemma TokenLayout(prf: Prf, nonce: Nonce, src: Ipv4, dst: Ipv4)
    ensures Assemble(prf, ClientToServer, nonce, src, dst)
         == [0, 1] + nonce + prf([0xa0, 0xb1, 0xc2, 0xd3, 0xe4, 0xf5, 0x06, 0x17,
                                  0x28, 0x39, 0x4a, 0x5b, 0x6c, 0x7d, 0x8e, 0x9f],
                                 nonce + [src.a, src.b, src.c, src.d, dst.a, dst.b, dst.c, dst.d])[..10]
    ensures Assemble(prf, ServerToClient, nonce, src, dst)
         == [0, 2] + nonce + prf([0x5f, 0x4e, 0x3d, 0x2c, 0x1b, 0x0a, 0xf9, 0xe8,
                                  0xd7, 0xc6, 0xb5, 0xa4, 0x93, 0x82, 0x71, 0x60],
                                 nonce + [src.a, src.b, src.c, src.d, dst.a, dst.b, dst.c, dst.d])[..10]
  {
    SelectorBytes();
    assert Message(nonce, src, dst) == nonce + [src.a, src.b, src.c, src.d, dst.a, dst.b, dst.c, dst.d];
  }

  lemma SelectorBytes()
    ensures BigEndian16(ClientToServer.Selector()) == [0, 1]
    ensures BigEndian16(ServerToClient.Selector()) == [0, 2]
  {
  }

  /** `mint`, with the random nonce as an input. */
  function Mint(prf: Prf, direction: Direction, peers: Peers, nonce: Nonce): (token: seq<byte>)
    ensures |token| == TOKEN_LEN
  {
    var (src, dst) := direction.Path(peers);
    Assemble(prf, direction, nonce, src, dst)
  }

  /** `tag`, filling the message block slice by slice. */
  method ComputeTag(prf: Prf, key: Block, nonce: Nonce, src: Ipv4, dst: Ipv4) returns (tag: array<byte>)
    ensures fresh(tag) && tag[..] == Tag(prf, key, nonce, src, dst)
  {
    var message := new byte[AES_BLOCK_LEN](_ => 0);
    CopyInto(message, 0, nonce);
    CopyInto(message, NONCE_LEN, src.Octets());
    CopyInto(message, NONCE_LEN + 4, dst.Octets());
    assert message[..] == Message(nonce, src, dst);
    var block := prf(key, message[..]);
    tag := new byte[TAG_LEN](_ => 0);
    CopyInto(tag, 0, block[..TAG_LEN]);
  }

  /** `assemble`, filling the token field by field. */
  method AssembleToken(prf: Prf, direction: Direction, nonce: Nonce, src: Ipv4, dst: Ipv4)
    returns (token: array<byte>)
    ensures fresh(token) && token[..] == Assemble(prf, direction, nonce, src, dst)
  {
    token := new byte[TOKEN_LEN](_ => 0);
    CopyInto(token, 0, BigEndian16(direction.Selector()));
    CopyInto(token, SELECTOR_LEN, nonce);
    var tag := ComputeTag(prf, direction.Key(), nonce, src, dst);
    CopyInto(token, SELECTOR_LEN + NONCE_LEN, tag[..]);
  }

  // -------------------------------------------------------------- Verifying

  /** The OR-of-XORs fold. */
  function FoldDifferences(acc: byte, a: seq<byte>, b: seq<byte>): byte
    requires |a| == |b|
    decreases |a|
  {
    if a == [] then acc else FoldDifferences(acc | (a[0] ^ b[0]), a[1..], b[1..])
  }

  predicate ConstantTimeEq(a: seq<byte>, b: seq<byte>) {
    |a| == |b| && FoldDifferences(0, a, b) == 0
  }

  lemma OrXorIsZero(acc: byte, x: byte, y: byte)
    ensures acc | (x ^ y) == 0 <==> acc == 0 && x == y
  {
  }

  lemma HeadAndTail(a: seq<byte>, b: seq<byte>)
    requires |a| == |b| > 0
    ensures a == b <==> a[0] == b[0] && a[1..] == b[1..]
  {
    assert a == [a[0]] + a[1..] && b == [b[0]] + b[1..];
  }

  lemma {:induction false} FoldIsZero(acc: byte, a: seq<byte>, b: seq<byte>)
    requires |a| == |b|
    ensures FoldDifferences(acc, a, b) == 0 <==> acc == 0 && a == b
    decreases |a|
  {
    if a == [] {
    } else {
      OrXorIsZero(acc, a[0], b[0]);
      FoldIsZero(acc | (a[0] ^ b[0]), a[1..], b[1..]);
      HeadAndTail(a, b);
    }
  }

  lemma ConstantTimeEqIsEquality(a: seq<byte>, b: seq<byte>)
    ensures ConstantTimeEq(a, b) <==> a == b
  {
    if |a| == |b| {
      FoldIsZero(0, a, b);
    }
  }

  function Verify(prf: Prf, token: seq<byte>, direction: Direction, src: Ipv4, dst: Ipv4): Verdict {
    if |token| != TOKEN_LEN then Err(BadLength(|token|))
    else
      var selector := FromBigEndian16(token[0], token[1]);
      match FromSelector(selector)
      case None => Err(UnknownSelector(selector))
      case Some(found) =>
        if found != direction then Err(WrongDirection)
        else if ConstantTimeEq(token[10..20], Tag(prf, direction.Key(), token[2..10], src, dst)) then Ok
        else Err(BadTag)
  }

  /** The nonce field of a token-sized string. */
  function NonceOf(token: seq<byte>): Nonce
    requires |token| == TOKEN_LEN
  {
    token[2..10]
  }

  lemma AssembledFields(prf: Prf, direction: Direction, nonce: Nonce, src: Ipv4, dst: Ipv4)
    ensures var token := Assemble(prf, direction, nonce, src, dst);
            && token[..2] == BigEndian16(direction.Selector())
            && NonceOf(token) == nonce
            && token[10..20] == Tag(prf, direction.Key(), nonce, src, dst)
  {
  }

  lemma AssembleInjective(prf: Prf, direction: Direction, n: Nonce, n': Nonce, src: Ipv4, dst: Ipv4)
    requires Assemble(prf, direction, n, src, dst) == Assemble(prf, direction, n', src, dst)
    ensures n == n'
  {
    AssembledFields(prf, direction, n, src, dst);
    AssembledFields(prf, direction, n', src, dst);
  }

  lemma SelectorField(token: seq<byte>, x: bv16)
    requires |token| == TOKEN_LEN
    ensures FromBigEndian16(token[0], token[1]) == x <==> token[..2] == BigEndian16(x)
  {
    if FromBigEndian16(token[0], token[1]) == x {
      FromBigEndian16Injective(token[0], token[1], x);
      assert token[..2] == [token[0], token[1]];
    }
    if token[..2] == BigEndian16(x) {
      assert token[0] == token[..2][0] && token[1] == token[..2][1];
    }
  }

  lemma VerifyOkIsAssembled(prf: Prf, token: seq<byte>, direction: Direction, src: Ipv4, dst: Ipv4)
    ensures Verify(prf, token, direction, src, dst) == Ok
       <==> |token| == TOKEN_LEN && token == Assemble(prf, direction, NonceOf(token), src, dst)
  {
    if |token| == TOKEN_LEN {
      ConstantTimeEqIsEquality(token[10..20], Tag(prf, direction.Key(), NonceOf(token), src, dst));
      SelectorField(token, direction.Selector());
      AssembledFields(prf, direction, NonceOf(token), src, dst);
      assert token == token[..2] + NonceOf(token) + token[10..20];
    }
  }

  /** `verify` accepts exactly the assembled tokens. */
  lemma VerifyExact(prf: Prf, token: seq<byte>, direction: Direction, src: Ipv4, dst: Ipv4)
    ensures Verify(prf, token, direction, src, dst) == Ok
       <==> exists nonce: Nonce :: token == Assemble(prf, direction, nonce, src, dst)
  {
    VerifyOkIsAssembled(prf, token, direction, src, dst);
    forall nonce: Nonce | token == Assemble(prf, direction, nonce, src, dst)
      ensures Verify(prf, token, direction, src, dst) == Ok
    {
      AssembledFields(prf, direction, nonce, src, dst);
    }
  }

  /** Which error a refused token gets, each one exactly when. */
  lemma VerifyErrors(prf: Prf, token: seq<byte>, direction: Direction, src: Ipv4, dst: Ipv4)
    ensures var v := Verify(prf, token, direction, src, dst);
            && (v == Err(BadLength(|token|)) <==> |token| != TOKEN_LEN)
            && (|token| == TOKEN_LEN ==>
                  var field := token[..2];
                  && (v == Err(WrongDirection) <==> field == BigEndian16(direction.Opposite().Selector()))
                  && (v == Err(BadTag) <==>
                        && field == BigEndian16(direction.Selector())
                        && token[10..20] != Tag(prf, direction.Key(), NonceOf(token), src, dst))
                  && (forall x: bv16 :: v == Err(UnknownSelector(x)) <==>
                        && field == BigEndian16(x) && x != 1 && x != 2))
  {
    if |token| == TOKEN_LEN {
      ConstantTimeEqIsEquality(token[10..20], Tag(prf, direction.Key(), NonceOf(token), src, dst));
      forall x: bv16
        ensures FromBigEndian16(token[0], token[1]) == x <==> token[..2] == BigEndian16(x)
      {
        SelectorField(token, x);
      }
    }
  }

  // ---------------------------------------------------------- Path binding

  /** The block layout loses nothing: distinct inputs give distinct blocks. */
  lemma MessageInjective(n: Nonce, s: Ipv4, d: Ipv4, n': Nonce, s': Ipv4, d': Ipv4)
    requires Message(n, s, d) == Message(n', s', d')
    ensures n == n' && s == s' && d == d'
  {
    var m, m' := Message(n, s, d), Message(n', s', d');
    assert n == m[..8] && n' == m'[..8];
    assert m[8] == s.a && m[9] == s.b && m[10] == s.c && m[11] == s.d;
    assert m[12] == d.a && m[13] == d.b && m[14] == d.c && m[15] == d.d;
    assert m'[8] == s'.a && m'[9] == s'.b && m'[10] == s'.c && m'[11] == s'.d;
    assert m'[12] == d'.a && m'[13] == d'.b && m'[14] == d'.c && m'[15] == d'.d;
  }

  /** ... and every block is the message of some nonce and path. */
  lemma MessageSurjective(m: Block)
    ensures Message(m[..8], Ipv4(m[8], m[9], m[10], m[11]), Ipv4(m[12], m[13], m[14], m[15])) == m
  {
  }

  /** What any minted token does on any path, in either direction. */
  lemma MintedElsewhere(prf: Prf, direction: Direction, nonce: Nonce, src: Ipv4, dst: Ipv4,
                        inbound: Direction, src': Ipv4, dst': Ipv4)
    ensures Verify(prf, Assemble(prf, direction, nonce, src, dst), inbound, src', dst')
         == if inbound != direction then Err(WrongDirection)
            else if Tag(prf, direction.Key(), nonce, src, dst) == Tag(prf, direction.Key(), nonce, src', dst') then Ok
            else Err(BadTag)
  {
    var token := Assemble(prf, direction, nonce, src, dst);
    AssembledFields(prf, direction, nonce, src, dst);
    SelectorField(token, direction.Selector());
    ConstantTimeEqIsEquality(token[10..20], Tag(prf, direction.Key(), nonce, src', dst'));
  }

  /** Minting then verifying always succeeds, from the client to the server and
      back. */
  lemma MintedVerifies(prf: Prf, client: Ipv4, server: Ipv4, nonce: Nonce)
    ensures Verify(prf, Mint(prf, ClientToServer, Peers(client, server), nonce), ClientToServer, client, server) == Ok
    ensures Verify(prf, Mint(prf, ServerToClient, Peers(client, server), nonce), ServerToClient, server, client) == Ok
  {
    MintedElsewhere(prf, ClientToServer, nonce, client, server, ClientToServer, client, server);
    MintedElsewhere(prf, ServerToClient, nonce, server, client, ServerToClient, server, client);
  }

  /** The other direction's selector does not make a token the other
      direction's: relabelled, it verifies exactly when the two keys give the
      same 80 bits. */
  lemma RelabelledToken(prf: Prf, nonce: Nonce, src: Ipv4, dst: Ipv4)
    ensures var m := Message(nonce, src, dst);
            var there := Assemble(prf, ClientToServer, nonce, src, dst);
            var back := Assemble(prf, ServerToClient, nonce, src, dst);
            && (Verify(prf, [0, 2] + there[2..], ServerToClient, src, dst) == Ok
                <==> prf(F_AB, m)[..10] == prf(F_BA, m)[..10])
            && (Verify(prf, [0, 1] + back[2..], ClientToServer, src, dst) == Ok
                <==> prf(F_AB, m)[..10] == prf(F_BA, m)[..10])
  {
    var there, back := Assemble(prf, ClientToServer, nonce, src, dst), Assemble(prf, ServerToClient, nonce, src, dst);
    TokenLayout(prf, nonce, src, dst);
    AssembledFields(prf, ClientToServer, nonce, src, dst);
    AssembledFields(prf, ServerToClient, nonce, src, dst);
    RelabelledFields([0, 2], there);
    RelabelledFields([0, 1], back);
    VerifyOkIsAssembled(prf, [0, 2] + there[2..], ServerToClient, src, dst);
    VerifyOkIsAssembled(prf, [0, 1] + back[2..], ClientToServer, src, dst);
  }

  lemma RelabelledFields(selector: seq<byte>, token: seq<byte>)
    requires |selector| == 2 && |token| == TOKEN_LEN
    ensures var t := selector + token[2..];
            t[..2] == selector && NonceOf(t) == NonceOf(token) && t[10..20] == token[10..20]
  {
  }

  ghost predicate InjectivePerKey(prf: Prf) {
    forall k: Block, m: Block, m': Block :: prf(k, m) == prf(k, m') ==> m == m'
  }

  /** With an injective cipher, acceptance off the minted path is a truncation
      collision: the two cipher blocks share their first 80 bits and differ in
      the 48 that were cut. */
  lemma OffPathIsTruncationCollision(prf: Prf, direction: Direction, nonce: Nonce,
                                     src: Ipv4, dst: Ipv4, src': Ipv4, dst': Ipv4)
    requires InjectivePerKey(prf) && (src, dst) != (src', dst')
    ensures var b, b' := prf(direction.Key(), Message(nonce, src, dst)), prf(direction.Key(), Message(nonce, src', dst'));
            Verify(prf, Assemble(prf, direction, nonce, src, dst), direction, src', dst') == Ok
            <==> b[..TAG_LEN] == b'[..TAG_LEN] && b[TAG_LEN..] != b'[TAG_LEN..]
  {
    MintedElsewhere(prf, direction, nonce, src, dst, direction, src', dst');
    var b, b' := prf(direction.Key(), Message(nonce, src, dst)), prf(direction.Key(), Message(nonce, src', dst'));
    assert b == b[..TAG_LEN] + b[TAG_LEN..] && b' == b'[..TAG_LEN] + b'[TAG_LEN..];
    if b == b' {
      MessageInjective(nonce, src, dst, nonce, src', dst');
    }
  }

  /** Injectivity alone does not bind the path: under the identity cipher, a
      token for one source verifies for another that shares two octets. */
  lemma PathBindingNotUnconditional(nonce: Nonce, dst: Ipv4)
    ensures var prf: Prf := (k: Block, m: Block) => m;
            && InjectivePerKey(prf)
            && Verify(prf, Assemble(prf, ClientToServer, nonce, Ipv4(10, 0, 0, 1), dst),
                      ClientToServer, Ipv4(10, 0, 9, 9), dst) == Ok
  {
    var prf: Prf := (k: Block, m: Block) => m;
    var s, s' := Ipv4(10, 0, 0, 1), Ipv4(10, 0, 9, 9);
    MintedElsewhere(prf, ClientToServer, nonce, s, dst, ClientToServer, s', dst);
    assert Message(nonce, s, dst)[..TAG_LEN] == nonce + [10, 0] == Message(nonce, s', dst)[..TAG_LEN];
  }

  /** Overwriting one byte of a valid token: always caught in the selector and
      the tag, and caught in the nonce unless the two truncated tags collide. */
  lemma CorruptedByte(prf: Prf, token: seq<byte>, direction: Direction, src: Ipv4, dst: Ipv4, i: nat, x: byte)
    requires Verify(prf, token, direction, src, dst) == Ok
    requires i < TOKEN_LEN && |token| == TOKEN_LEN && x != token[i]
    ensures Verify(prf, token[i := x], direction, src, dst) == Ok
       <==> && 2 <= i < 10
            && Tag(prf, direction.Key(), NonceOf(token[i := x]), src, dst)
               == Tag(prf, direction.Key(), NonceOf(token), src, dst)
  {
    var bad := token[i := x];
    VerifyOkIsAssembled(prf, token, direction, src, dst);
    VerifyOkIsAssembled(prf, bad, direction, src, dst);
    AssembledFields(prf, direction, NonceOf(token), src, dst);
    AssembledFields(prf, direction, NonceOf(bad), src, dst);
    if i < 2 {
      assert bad[..2][i] != token[..2][i];
    } else if i < 10 {
      assert bad[..2] == token[..2] && bad[10..20] == token[10..20];
      assert bad == bad[..2] + NonceOf(bad) + bad[10..20];
    } else {
      assert NonceOf(bad) == NonceOf(token);
      assert bad[10..20][i - 10] != token[10..20][i - 10];
    }
  }

  /** An injective cipher whose first ten output bytes hold only two bytes of
      the nonce. */
  function SwapHalves(k: Block, m: Block): Block {
    m[8..] + m[..8]
  }

  lemma SwapHalvesInjective()
    ensures InjectivePerKey(SwapHalves)
  {
    forall k: Block, m: Block, m': Block | SwapHalves(k, m) == SwapHalves(k, m') ensures m == m' {
      var b, b' := SwapHalves(k, m), SwapHalves(k, m');
      assert m == b[8..] + b[..8] && m' == b'[8..] + b'[..8];
    }
  }

  lemma SwappedTag(key: Block, nonce: Nonce, src: Ipv4, dst: Ipv4)
    ensures Tag(SwapHalves, key, nonce, src, dst) == src.Octets() + dst.Octets() + nonce[..2]
  {
    var m := Message(nonce, src, dst);
    assert m[..8] == nonce && m[8..] == src.Octets() + dst.Octets();
  }

  /** So not every corrupted byte is caught: under that cipher any change to the
      last six bytes of any nonce goes unnoticed. */
  lemma CorruptedNonceUnnoticed(direction: Direction, nonce: Nonce, src: Ipv4, dst: Ipv4, i: nat, x: byte)
    requires 4 <= i < 10 && x != nonce[i - 2]
    ensures var token := Assemble(SwapHalves, direction, nonce, src, dst);
            && InjectivePerKey(SwapHalves)
            && token[i] != x
            && Verify(SwapHalves, token, direction, src, dst) == Ok
            && Verify(SwapHalves, token[i := x], direction, src, dst) == Ok
  {
    SwapHalvesInjective();
    var token := Assemble(SwapHalves, direction, nonce, src, dst);
    MintedElsewhere(SwapHalves, direction, nonce, src, dst, direction, src, dst);
    AssembledFields(SwapHalves, direction, nonce, src, dst);
    assert NonceOf(token)[i - 2] == token[i];
    CorruptedByte(SwapHalves, token, direction, src, dst, i, x);
    var bad := NonceOf(token[i := x]);
    assert bad[..2] == nonce[..2];
    SwappedTag(direction.Key(), nonce, src, dst);
    SwappedTag(direction.Key(), bad, src, dst);
  }

  // ------------------------------------------------------------ CID issuing

  /** `AuthCidGenerator`, the nonce again an input. */
  datatype CidGenerator = CidGenerator(direction: Direction, localIp: Ipv4) {
    function GenerateCid(prf: Prf, nonce: Nonce): seq<byte> {
      Assemble(prf, direction, nonce, UNSPECIFIED, localIp)
    }

    function GenerateCidFor(prf: Prf, remote: SocketAddr, nonce: Nonce): (cid: seq<byte>)
      ensures |cid| == TOKEN_LEN
    {
      match remote.ip
      case V4(peer) => Assemble(prf, direction, nonce, peer, localIp)
      case V6(_) => Assemble(prf, direction, nonce, UNSPECIFIED, localIp)
    }
  }

  /** A CID issued for a peer authenticates that peer's packets, and another
      source only on a tag collision. */
  lemma IssuedCid(prf: Prf, g: CidGenerator, remote: SocketAddr, nonce: Nonce, src: Ipv4)
    requires remote.ip.V4?
    ensures Verify(prf, g.GenerateCidFor(prf, remote, nonce), g.direction, src, g.localIp) == Ok
       <==> || src == remote.ip.v4
            || Tag(prf, g.direction.Key(), nonce, src, g.localIp)
               == Tag(prf, g.direction.Key(), nonce, remote.ip.v4, g.localIp)
  {
    MintedElsewhere(prf, g.direction, nonce, remote.ip.v4, g.localIp, g.direction, src, g.localIp);
  }

  /** The fallback CIDs, issued when the peer is unknown or IPv6, authenticate
      a source exactly when it is 0.0.0.0 or its tag collides with 0.0.0.0's. */
  lemma FallbackCid(prf: Prf, g: CidGenerator, remote: SocketAddr, nonce: Nonce, src: Ipv4)
    requires remote.ip.V6?
    ensures g.GenerateCid(prf, nonce) == g.GenerateCidFor(prf, remote, nonce)
    ensures Verify(prf, g.GenerateCid(prf, nonce), g.direction, src, g.localIp) == Ok
       <==> || src == Ipv4(0, 0, 0, 0)
            || Tag(prf, g.direction.Key(), nonce, src, g.localIp)
               == Tag(prf, g.direction.Key(), nonce, Ipv4(0, 0, 0, 0), g.localIp)
  {
    MintedElsewhere(prf, g.direction, nonce, UNSPECIFIED, g.localIp, g.direction, src, g.localIp);
  }
}
