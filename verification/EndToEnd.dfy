/**
 The protocol and the receive loop together: honest traffic reaches Quinn in
 order through any flood, cut at worst to the buffer it lands in, and nothing
 unauthenticated does.
 */
module EndToEnd {
  import opened Wire
  import opened Auth
  import opened Header
  import opened Io
  import opened Receive
  import opened ReceiveRuns
  import Protocol

  /** `d` is a packet some honest party sent to `to` in some run. */
  ghost predicate Honest(cfg: Protocol.Config, to: Protocol.Party, d: Datagram) {
    exists steps: seq<Protocol.Step>, t: Protocol.State, p: Protocol.Packet ::
      Protocol.Reaches(cfg, steps, t) && p in t.network && p.honest && p.to == to && d == Datagram(p.bytes, p.src)
  }

  /** The gate a party binds its socket with. */
  function GateOf(cfg: Protocol.Config, p: Protocol.Party): Filter
    requires Protocol.Member(cfg, p)
  {
    Gate(cfg.prf, Some(Protocol.AuthenticatorOf(cfg, p)))
  }

  /** `d` has an IPv4 source and carries a token from it to `to`. */
  ghost predicate CarriesToken(cfg: Protocol.Config, to: Protocol.Party, d: Datagram)
    requires Protocol.Member(cfg, to)
  {
    d.peer.ip.V4? && exists nonce: Nonce ::
      Carries(d.bytes, Assemble(cfg.prf, Protocol.Inbound(to), nonce, d.peer.ip.v4, Protocol.Ip(cfg, to)))
  }

  lemma HonestPasses(cfg: Protocol.Config, to: Protocol.Party, d: Datagram)
    requires Protocol.Member(cfg, to) && Honest(cfg, to, d)
    ensures GateOf(cfg, to)(d)
  {
    var steps: seq<Protocol.Step>, t: Protocol.State, p: Protocol.Packet :|
      Protocol.Reaches(cfg, steps, t) && p in t.network && p.honest && p.to == to && d == Datagram(p.bytes, p.src);
    Protocol.HonestPacketsAuthenticate(cfg, steps, t);
  }

  /** Filtering by a weaker condition first changes nothing. */
  lemma {:induction false} FilterTwice(f: Filter, g: Filter, ds: seq<Datagram>)
    requires forall d: Datagram :: g(d) ==> f(d)
    ensures Survivors(g, Survivors(f, ds)) == Survivors(g, ds)
  {
    if ds == [] {
    } else {
      var init, last := ds[..|ds| - 1], ds[|ds| - 1];
      FilterTwice(f, g, init);
      if f(last) {
        SurvivorsSnoc(g, Survivors(f, init), last);
      } else {
        assert Survivors(f, init) + [] == Survivors(f, init) && Survivors(g, init) + [] == Survivors(g, init);
      }
    }
  }

  lemma {:induction false} SurvivorsPass(f: Filter, ds: seq<Datagram>)
    ensures forall i :: 0 <= i < |Survivors(f, ds)| ==> f(Survivors(f, ds)[i])
  {
    if ds == [] {
    } else {
      SurvivorsPass(f, ds[..|ds| - 1]);
    }
  }

  /** Take any run of receive calls of any party, on any script: datagrams from
      the protocol in any order and number, mixed with anything else. Quinn is
      handed the consumed arrivals that pass, in order and at worst cut to the
      buffer; among them is every honest one; and what it is handed carries a
      token assembled for its own source and this receiver. */
  lemma HonestTrafficDelivered(cfg: Protocol.Config, to: Protocol.Party, honest: Filter,
                               signals: nat -> Readiness, inbox: seq<Incoming>, shapes: seq<Shape>, least: nat)
    requires Protocol.Member(cfg, to)
    requires forall d: Datagram :: honest(d) ==> Honest(cfg, to, d)
    requires Callable(shapes) && EnoughMetas(shapes) && Roomy(shapes, least) && least >= 26
    ensures var r := RunOf(GateOf(cfg, to), signals, inbox, shapes);
            var consumed := Consumed(inbox, r.inbox);
            var passed := Survivors(GateOf(cfg, to), consumed);
            && CutTo(r.delivered, passed, r.slots)
            && Survivors(honest, passed) == Survivors(honest, consumed)
            && forall i :: 0 <= i < |r.delivered| ==> CarriesToken(cfg, to, r.delivered[i])
  {
    var f := GateOf(cfg, to);
    var r := RunOf(f, signals, inbox, shapes);
    RunFiltersArrivals(cfg.prf, Some(Protocol.AuthenticatorOf(cfg, to)), signals, inbox, shapes, least);
    forall d: Datagram | honest(d) ensures f(d) {
      HonestPasses(cfg, to, d);
    }
    FilterTwice(f, honest, Consumed(inbox, r.inbox));
    RunDeliversSurvivors(f, signals, inbox, shapes);
    SurvivorsPass(f, r.taken);
    forall i | 0 <= i < |r.delivered| ensures CarriesToken(cfg, to, r.delivered[i]) {
      assert f(r.delivered[i]);
      CheckExact(cfg.prf, Protocol.AuthenticatorOf(cfg, to), r.delivered[i].bytes, r.delivered[i].peer.ip);
    }
  }
}
