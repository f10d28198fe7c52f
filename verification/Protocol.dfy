/**
 One server and any number of clients at fixed IPv4 addresses, issuing each
 other connection IDs and exchanging packets over a network that loses,
 duplicates, reorders and lets anyone inject anything. Connection IDs are used
 as in sections 5.1.1 and 7.2 of RFC 9000.
 */
module Protocol {
  import opened Wire
  import opened Auth
  import opened Header

  datatype Party = Server | Client(id: nat)

  datatype Config = Config(prf: Prf, server: Ipv4, clients: seq<Ipv4>)

  predicate Member(cfg: Config, p: Party) {
    p.Client? ==> p.id < |cfg.clients|
  }

  function Ip(cfg: Config, p: Party): Ipv4
    requires Member(cfg, p)
  {
    match p
    case Server => cfg.server
    case Client(i) => cfg.clients[i]
  }

  /** The direction of the packets a party receives. */
  function Inbound(p: Party): Direction {
    if p.Server? then ClientToServer else ServerToClient
  }

  /** The wiring of the endpoints: each issues and checks tokens for the
      packets it receives, at its own address. */
  function GeneratorOf(cfg: Config, p: Party): CidGenerator
    requires Member(cfg, p)
  {
    CidGenerator(Inbound(p), Ip(cfg, p))
  }

  function AuthenticatorOf(cfg: Config, p: Party): Authenticator
    requires Member(cfg, p)
  {
    Authenticator(Inbound(p), Ip(cfg, p))
  }

  /** Packets travel between the server and a client. */
  predicate Linked(cfg: Config, a: Party, b: Party) {
    Member(cfg, a) && Member(cfg, b) && a.Server? != b.Server?
  }

  // ------------------------------------------------------------ The machine

  /** `sender` may put `cid` on packets to `receiver`. */
  datatype Grant = Grant(sender: Party, receiver: Party, cid: seq<byte>)

  datatype Packet = Packet(src: SocketAddr, to: Party, bytes: seq<byte>, honest: bool)

  datatype Delivery = Delivery(packet: Packet, verdict: Verdict)

  datatype State = State(grants: set<Grant>, network: multiset<Packet>, log: seq<Delivery>)

  datatype Form = Long(flags: byte, version: seq<byte>) | Short(flags: byte)

  predicate WellFormed(h: Form) {
    match h
    case Long(flags, version) => flags & 0x80 != 0 && |version| == 4
    case Short(flags) => flags & 0x80 == 0
  }

  function Encode(h: Form, cid: seq<byte>, rest: seq<byte>): seq<byte>
    requires WellFormed(h) && |cid| == TOKEN_LEN
  {
    match h
    case Long(flags, version) => LongPacket(flags, version, cid, rest)
    case Short(flags) => ShortPacket(flags, cid, rest)
  }

  datatype Step =
    | Issue(issuer: Party, peer: Party, port: bv16, nonce: Nonce)
    | Connect(client: Party, nonce: Nonce)
    | Send(grant: Grant, port: bv16, form: Form, rest: seq<byte>)
    | Inject(packet: Packet)
    | Duplicate(packet: Packet)
    | Drop(packet: Packet)
    | Deliver(packet: Packet)

  ghost predicate Enabled(cfg: Config, s: State, step: Step) {
    match step
    case Issue(issuer, peer, _, _) => Linked(cfg, issuer, peer)
    case Connect(client, _) => client.Client? && Member(cfg, client)
    case Send(g, _, h, _) => g in s.grants && |g.cid| == TOKEN_LEN && Linked(cfg, g.sender, g.receiver) && WellFormed(h)
    case Inject(p) => !p.honest && Member(cfg, p.to)
    case Duplicate(p) => p in s.network
    case Drop(p) => p in s.network
    case Deliver(p) => p in s.network && Member(cfg, p.to)
  }

  ghost function Apply(cfg: Config, s: State, step: Step): State
    requires Enabled(cfg, s, step)
  {
    match step
    case Issue(issuer, peer, port, nonce) =>
      var remote := SocketAddr(V4(Ip(cfg, peer)), port);
      s.(grants := s.grants + {Grant(peer, issuer, GeneratorOf(cfg, issuer).GenerateCidFor(cfg.prf, remote, nonce))})
    case Connect(client, nonce) =>
      var peers := Peers(Ip(cfg, client), cfg.server);
      s.(grants := s.grants + {Grant(client, Server, Mint(cfg.prf, ClientToServer, peers, nonce))})
    case Send(g, port, h, rest) =>
      s.(network := s.network
                    + multiset{Packet(SocketAddr(V4(Ip(cfg, g.sender)), port), g.receiver, Encode(h, g.cid, rest), true)})
    case Inject(p) => s.(network := s.network + multiset{p})
    case Duplicate(p) => s.(network := s.network + multiset{p})
    case Drop(p) => s.(network := s.network - multiset{p})
    case Deliver(p) =>
      s.(network := s.network - multiset{p},
         log := s.log + [Delivery(p, AuthenticatorOf(cfg, p.to).Check(cfg.prf, p.bytes, p.src.ip))])
  }

  const START := State({}, multiset{}, [])

  ghost predicate Reaches(cfg: Config, steps: seq<Step>, t: State) {
    if steps == [] then t == START
    else
      var init, last := steps[..|steps| - 1], steps[|steps| - 1];
      exists m: State :: Reaches(cfg, init, m) && Enabled(cfg, m, last) && t == Apply(cfg, m, last)
  }

  // ---------------------------------------------------------- The invariant

  /** A granted ID is the token of the path from its sender to its receiver. */
  ghost predicate OnPath(cfg: Config, g: Grant) {
    && Linked(cfg, g.sender, g.receiver) && |g.cid| == TOKEN_LEN
    && g.cid == Assemble(cfg.prf, Inbound(g.receiver), NonceOf(g.cid), Ip(cfg, g.sender), Ip(cfg, g.receiver))
  }

  ghost predicate Authentic(cfg: Config, p: Packet) {
    Member(cfg, p.to) && AuthenticatorOf(cfg, p.to).Check(cfg.prf, p.bytes, p.src.ip) == Ok
  }

  ghost predicate Inv(cfg: Config, s: State) {
    && (forall g :: g in s.grants ==> OnPath(cfg, g))
    && (forall p :: p in s.network && p.honest ==> Authentic(cfg, p))
    && (forall i :: 0 <= i < |s.log| ==>
          && Member(cfg, s.log[i].packet.to)
          && s.log[i].verdict == AuthenticatorOf(cfg, s.log[i].packet.to).Check(
               cfg.prf, s.log[i].packet.bytes, s.log[i].packet.src.ip)
          && (s.log[i].packet.honest ==> s.log[i].verdict == Ok))
  }

  lemma AssembledOnPath(cfg: Config, g: Grant, nonce: Nonce)
    requires Linked(cfg, g.sender, g.receiver)
    requires g.cid == Assemble(cfg.prf, Inbound(g.receiver), nonce, Ip(cfg, g.sender), Ip(cfg, g.receiver))
    ensures OnPath(cfg, g)
  {
    AssembledFields(cfg.prf, Inbound(g.receiver), nonce, Ip(cfg, g.sender), Ip(cfg, g.receiver));
  }

  /** Locating the ID of a packet an honest party encodes. */
  lemma EncodedCid(h: Form, cid: seq<byte>, rest: seq<byte>)
    requires WellFormed(h) && |cid| == TOKEN_LEN
    ensures DestinationCid(Encode(h, cid, rest)) == Some(cid)
  {
    match h
    case Long(flags, version) => LongRoundTrip(flags, version, cid, rest);
    case Short(flags) => ShortRoundTrip(flags, cid, rest);
  }

  lemma SentIsAuthentic(cfg: Config, g: Grant, port: bv16, h: Form, rest: seq<byte>)
    requires OnPath(cfg, g) && WellFormed(h)
    ensures Authentic(cfg, Packet(SocketAddr(V4(Ip(cfg, g.sender)), port), g.receiver, Encode(h, g.cid, rest), true))
  {
    EncodedCid(h, g.cid, rest);
    VerifyOkIsAssembled(cfg.prf, g.cid, Inbound(g.receiver), Ip(cfg, g.sender), Ip(cfg, g.receiver));
  }

  lemma InvGrant(cfg: Config, s: State, g: Grant)
    requires Inv(cfg, s) && OnPath(cfg, g)
    ensures Inv(cfg, s.(grants := s.grants + {g}))
  {
  }

  lemma InvPacket(cfg: Config, s: State, p: Packet)
    requires Inv(cfg, s) && (p.honest ==> Authentic(cfg, p))
    ensures Inv(cfg, s.(network := s.network + multiset{p}))
  {
  }

  lemma InvDeliver(cfg: Config, s: State, p: Packet)
    requires Inv(cfg, s) && Enabled(cfg, s, Deliver(p))
    ensures Inv(cfg, Apply(cfg, s, Deliver(p)))
  {
  }

  lemma InvStep(cfg: Config, s: State, step: Step)
    requires Inv(cfg, s) && Enabled(cfg, s, step)
    ensures Inv(cfg, Apply(cfg, s, step))
  {
    match step
    case Issue(issuer, peer, port, nonce) =>
      var cid := GeneratorOf(cfg, issuer).GenerateCidFor(cfg.prf, SocketAddr(V4(Ip(cfg, peer)), port), nonce);
      AssembledOnPath(cfg, Grant(peer, issuer, cid), nonce);
      InvGrant(cfg, s, Grant(peer, issuer, cid));
    case Connect(client, nonce) =>
      var cid := Mint(cfg.prf, ClientToServer, Peers(Ip(cfg, client), cfg.server), nonce);
      AssembledOnPath(cfg, Grant(client, Server, cid), nonce);
      InvGrant(cfg, s, Grant(client, Server, cid));
    case Send(g, port, h, rest) =>
      SentIsAuthentic(cfg, g, port, h, rest);
      InvPacket(cfg, s, Packet(SocketAddr(V4(Ip(cfg, g.sender)), port), g.receiver, Encode(h, g.cid, rest), true));
    case Inject(p) => InvPacket(cfg, s, p);
    case Duplicate(p) => InvPacket(cfg, s, p);
    case Drop(p) =>
    case Deliver(p) => InvDeliver(cfg, s, p);
  }

  lemma {:induction false} InvAlways(cfg: Config, steps: seq<Step>, t: State)
    requires Reaches(cfg, steps, t)
    ensures Inv(cfg, t)
  {
    if steps == [] {
    } else {
      var init, last := steps[..|steps| - 1], steps[|steps| - 1];
      var m: State :| Reaches(cfg, init, m) && Enabled(cfg, m, last) && t == Apply(cfg, m, last);
      InvAlways(cfg, init, m);
      InvStep(cfg, m, last);
    }
  }

  // --------------------------------------------------------------- Theorems

  /** In every run, honest packets in flight authenticate at their receiver,
      and no delivery of one was ever refused. */
  lemma HonestPacketsAuthenticate(cfg: Config, steps: seq<Step>, t: State)
    requires Reaches(cfg, steps, t)
    ensures forall p :: p in t.network && p.honest ==> Authentic(cfg, p)
    ensures forall i :: 0 <= i < |t.log| && t.log[i].packet.honest ==> t.log[i].verdict == Ok
  {
    InvAlways(cfg, steps, t);
  }

  /** In every run, whatever was accepted came from an IPv4 source and carries
      a token assembled for exactly that source, that receiver and the
      receiver's direction. */
  lemma AcceptedIsAssembled(cfg: Config, steps: seq<Step>, t: State, i: nat)
    requires Reaches(cfg, steps, t) && i < |t.log| && t.log[i].verdict == Ok
    ensures var p := t.log[i].packet;
            && Member(cfg, p.to) && p.src.ip.V4?
            && exists nonce: Nonce ::
                 Carries(p.bytes, Assemble(cfg.prf, Inbound(p.to), nonce, p.src.ip.v4, Ip(cfg, p.to)))
  {
    InvAlways(cfg, steps, t);
    var p := t.log[i].packet;
    CheckExact(cfg.prf, AuthenticatorOf(cfg, p.to), p.bytes, p.src.ip);
  }

  /** In every run, an ID granted on one path and replayed in any packet from
      any source to any party is accepted exactly when the direction is its own
      and the truncated tags of the two paths coincide. */
  lemma ReplayExact(cfg: Config, steps: seq<Step>, t: State, g: Grant,
                    to: Party, src: Ipv4, h: Form, rest: seq<byte>)
    requires Reaches(cfg, steps, t) && g in t.grants && Member(cfg, to) && WellFormed(h)
    ensures OnPath(cfg, g)
    ensures AuthenticatorOf(cfg, to).Check(cfg.prf, Encode(h, g.cid, rest), V4(src)) == Ok
       <==> && Inbound(to) == Inbound(g.receiver)
            && Tag(cfg.prf, Inbound(to).Key(), NonceOf(g.cid), src, Ip(cfg, to))
               == Tag(cfg.prf, Inbound(to).Key(), NonceOf(g.cid), Ip(cfg, g.sender), Ip(cfg, g.receiver))
  {
    InvAlways(cfg, steps, t);
    EncodedCid(h, g.cid, rest);
    MintedElsewhere(cfg.prf, Inbound(g.receiver), NonceOf(g.cid), Ip(cfg, g.sender), Ip(cfg, g.receiver),
                    Inbound(to), src, Ip(cfg, to));
  }

  /** In every run, what an ID granted to a party looks like: from a client to
      the server or from the server to a client, at their own addresses. */
  lemma {:induction false} GrantedIds(cfg: Config, steps: seq<Step>, t: State, g: Grant)
    requires Reaches(cfg, steps, t) && g in t.grants
    ensures |g.cid| == TOKEN_LEN
    ensures match g.receiver
            case Server =>
              && g.sender.Client? && g.sender.id < |cfg.clients|
              && g.cid == Assemble(cfg.prf, ClientToServer, NonceOf(g.cid), cfg.clients[g.sender.id], cfg.server)
            case Client(i) =>
              && g.sender == Server && i < |cfg.clients|
              && g.cid == Assemble(cfg.prf, ServerToClient, NonceOf(g.cid), cfg.server, cfg.clients[i])
  {
    InvAlways(cfg, steps, t);
  }

  /** In every run, the directions stay apart: an ID granted for packets to a
      client is refused by the server as the wrong direction, whatever packet
      carries it from wherever, and one for packets to the server by every
      client. */
  lemma DirectionsSeparate(cfg: Config, steps: seq<Step>, t: State, g: Grant,
                           to: Party, src: Ipv4, h: Form, rest: seq<byte>)
    requires Reaches(cfg, steps, t) && g in t.grants && Member(cfg, to) && WellFormed(h)
    requires g.receiver.Client? != to.Client?
    ensures |g.cid| == TOKEN_LEN
    ensures AuthenticatorOf(cfg, to).Check(cfg.prf, Encode(h, g.cid, rest), V4(src)) == Err(WrongDirection)
  {
    InvAlways(cfg, steps, t);
    EncodedCid(h, g.cid, rest);
    MintedElsewhere(cfg.prf, Inbound(g.receiver), NonceOf(g.cid), Ip(cfg, g.sender), Ip(cfg, g.receiver),
                    Inbound(to), src, Ip(cfg, to));
  }

  // ------------------------------------------------------- Runs that exist

  lemma OneMoreStep(cfg: Config, steps: seq<Step>, m: State, step: Step)
    requires Reaches(cfg, steps, m) && Enabled(cfg, m, step)
    ensures Reaches(cfg, steps + [step], Apply(cfg, m, step))
  {
    assert (steps + [step])[..|steps|] == steps;
  }

  /** Whoever holds a grant can send under it and is accepted. */
  lemma SendAndDeliver(cfg: Config, steps: seq<Step>, m: State, g: Grant, port: bv16, h: Form, rest: seq<byte>)
    returns (more: seq<Step>, t: State)
    requires Reaches(cfg, steps, m) && m == State({g}, multiset{}, []) && OnPath(cfg, g) && WellFormed(h)
    ensures Reaches(cfg, more, t)
    ensures var src := SocketAddr(V4(Ip(cfg, g.sender)), port);
            t.log == [Delivery(Packet(src, g.receiver, Encode(h, g.cid, rest), true), Ok)]
  {
    var p := Packet(SocketAddr(V4(Ip(cfg, g.sender)), port), g.receiver, Encode(h, g.cid, rest), true);
    SentIsAuthentic(cfg, g, port, h, rest);
    var send := Send(g, port, h, rest);
    var sent := Apply(cfg, m, send);
    OneMoreStep(cfg, steps, m, send);
    assert p in sent.network;
    OneMoreStep(cfg, steps + [send], sent, Deliver(p));
    more, t := steps + [send] + [Deliver(p)], Apply(cfg, sent, Deliver(p));
  }

  /** A client's first packet, under the ID it picks for its Initial, and any
      later one under an ID the server issued it, can be accepted by the
      server; likewise a server's packet by the client. */
  lemma ExchangesHappen(cfg: Config, i: nat, port: bv16, nonce: Nonce, h: Form, rest: seq<byte>)
    returns (connected: State, issued: State, answered: State, runs: seq<seq<Step>>)
    requires i < |cfg.clients| && WellFormed(h)
    ensures |runs| == 3
    ensures Reaches(cfg, runs[0], connected) && Reaches(cfg, runs[1], issued) && Reaches(cfg, runs[2], answered)
    ensures var there := Assemble(cfg.prf, ClientToServer, nonce, cfg.clients[i], cfg.server);
            var back := Assemble(cfg.prf, ServerToClient, nonce, cfg.server, cfg.clients[i]);
            var fromClient := Packet(SocketAddr(V4(cfg.clients[i]), port), Server, Encode(h, there, rest), true);
            var fromServer := Packet(SocketAddr(V4(cfg.server), port), Client(i), Encode(h, back, rest), true);
            && connected.log == issued.log == [Delivery(fromClient, Ok)]
            && answered.log == [Delivery(fromServer, Ok)]
  {
    var there := Assemble(cfg.prf, ClientToServer, nonce, cfg.clients[i], cfg.server);
    var back := Assemble(cfg.prf, ServerToClient, nonce, cfg.server, cfg.clients[i]);
    var up, down := Grant(Client(i), Server, there), Grant(Server, Client(i), back);
    AssembledOnPath(cfg, up, nonce);
    AssembledOnPath(cfg, down, nonce);
    var connect, issue := Connect(Client(i), nonce), Issue(Server, Client(i), port, nonce);
    var answer := Issue(Client(i), Server, port, nonce);
    OneMoreStep(cfg, [], START, connect);
    OneMoreStep(cfg, [], START, issue);
    OneMoreStep(cfg, [], START, answer);
    var a, b, c;
    a, connected := SendAndDeliver(cfg, [] + [connect], State({up}, multiset{}, []), up, port, h, rest);
    b, issued := SendAndDeliver(cfg, [] + [issue], State({up}, multiset{}, []), up, port, h, rest);
    c, answered := SendAndDeliver(cfg, [] + [answer], State({down}, multiset{}, []), down, port, h, rest);
    runs := [a, b, c];
  }

  /** Nothing restrains the network. From any reachable state anyone can have
      any bytes from any address checked by any party; any packet in flight can
      be delivered and stay in flight, as often as one likes; and any can
      vanish. */
  lemma NetworkIsHostile(cfg: Config, steps: seq<Step>, m: State, src: SocketAddr, to: Party, bytes: seq<byte>)
    requires Reaches(cfg, steps, m) && Member(cfg, to)
    ensures var p := Packet(src, to, bytes, false);
            var verdict := AuthenticatorOf(cfg, to).Check(cfg.prf, bytes, src.ip);
            Reaches(cfg, steps + [Inject(p)] + [Deliver(p)], m.(log := m.log + [Delivery(p, verdict)]))
    ensures forall p :: p in m.network && Member(cfg, p.to) ==>
              var verdict := AuthenticatorOf(cfg, p.to).Check(cfg.prf, p.bytes, p.src.ip);
              && Reaches(cfg, steps + [Duplicate(p)] + [Deliver(p)], m.(log := m.log + [Delivery(p, verdict)]))
              && Reaches(cfg, steps + [Drop(p)], m.(network := m.network - multiset{p}))
  {
    var p := Packet(src, to, bytes, false);
    PutAndDeliver(cfg, steps, m, Inject(p), p);
    forall q | q in m.network && Member(cfg, q.to)
      ensures var verdict := AuthenticatorOf(cfg, q.to).Check(cfg.prf, q.bytes, q.src.ip);
              && Reaches(cfg, steps + [Duplicate(q)] + [Deliver(q)], m.(log := m.log + [Delivery(q, verdict)]))
              && Reaches(cfg, steps + [Drop(q)], m.(network := m.network - multiset{q}))
    {
      PutAndDeliver(cfg, steps, m, Duplicate(q), q);
      OneMoreStep(cfg, steps, m, Drop(q));
    }
  }

  lemma PutAndDeliver(cfg: Config, steps: seq<Step>, m: State, put: Step, p: Packet)
    requires Reaches(cfg, steps, m) && Enabled(cfg, m, put) && Member(cfg, p.to)
    requires put == Inject(p) || put == Duplicate(p)
    ensures var verdict := AuthenticatorOf(cfg, p.to).Check(cfg.prf, p.bytes, p.src.ip);
            Reaches(cfg, steps + [put] + [Deliver(p)], m.(log := m.log + [Delivery(p, verdict)]))
  {
    var x := Apply(cfg, m, put);
    OneMoreStep(cfg, steps, m, put);
    assert p in x.network && x.network - multiset{p} == m.network;
    OneMoreStep(cfg, steps + [put], x, Deliver(p));
  }

  // ----------------------------------------------------------- Conservation

  /** How many packets the steps put into the network, and how many they drop. */
  function Entering(steps: seq<Step>): nat {
    if steps == [] then 0
    else
      var last := steps[|steps| - 1];
      Entering(steps[..|steps| - 1]) + (if last.Send? || last.Inject? || last.Duplicate? then 1 else 0)
  }

  function Dropped(steps: seq<Step>): nat {
    if steps == [] then 0
    else Dropped(steps[..|steps| - 1]) + (if steps[|steps| - 1].Drop? then 1 else 0)
  }

  /** In every run, each packet that entered the network is still there, was
      dropped, or was checked once. */
  lemma {:induction false} PacketsConserved(cfg: Config, steps: seq<Step>, t: State)
    requires Reaches(cfg, steps, t)
    ensures |t.network| + |t.log| + Dropped(steps) == Entering(steps)
  {
    if steps == [] {
    } else {
      var init, last := steps[..|steps| - 1], steps[|steps| - 1];
      var m: State :| Reaches(cfg, init, m) && Enabled(cfg, m, last) && t == Apply(cfg, m, last);
      PacketsConserved(cfg, init, m);
    }
  }
}
