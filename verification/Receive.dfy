/**
 `poll_recv`: the nested receive loop. The kernel is an arbitrary script: what
 each readiness poll answers, and what each `recv_from` returns.
 */
module Receive {
  import opened Wire
  import opened Auth
  import opened Header
  import opened Io

  // --------------------------------------------------------- The environment

  datatype Readiness = NotReady | Readable | Broken(kind: ErrorKind)

  datatype Incoming = Arrival(datagram: Datagram) | Failure(kind: ErrorKind)

  /** What a datagram must satisfy to be handed to Quinn. */
  type Filter = Datagram -> bool

  /** The filter of a socket bound with or without an authenticator. */
  function Gate(prf: Prf, authenticator: Option<Authenticator>): Filter {
    (d: Datagram) => authenticator.None? || authenticator.value.Check(prf, d.bytes, d.peer.ip) == Ok
  }

  /** What Quinn is told about one filled buffer. */
  datatype RecvMeta = RecvMeta(addr: SocketAddr, len: nat, stride: nat, ecn: Option<nat>, dstIp: Option<IpAddr>,
                               interfaceIndex: Option<nat>, timestamp: Option<nat>)

  function MetaFor(d: Datagram): RecvMeta {
    RecvMeta(d.peer, |d.bytes|, |d.bytes|, None, None, None, None)
  }

  datatype PollResult = Pending | Ready(filled: nat) | Error(kind: ErrorKind)

  // ------------------------------------------------------ The specification

  /** Why the inner loop stopped. */
  datatype Stop = Full | Drained | NoMeta | Fatal(kind: ErrorKind)

  /** One run of the inner loop: what it read, what it kept, what it read,
      accepted and then dropped for want of a meta slot, and what is left. */
  datatype Batch = Batch(kept: seq<Datagram>, taken: seq<Datagram>, lost: seq<Datagram>,
                         rest: seq<Incoming>, stop: Stop)

  function Shorten(d: Datagram, room: nat): Datagram {
    Datagram(Truncate(d.bytes, room), d.peer)
  }

  function FillFrom(f: Filter, rooms: seq<nat>, metas: nat, inbox: seq<Incoming>,
                    kept: seq<Datagram>, taken: seq<Datagram>): Batch
    decreases |inbox|
  {
    if |kept| >= |rooms| then Batch(kept, taken, [], inbox, Full)
    else if inbox == [] then Batch(kept, taken, [], inbox, Drained)
    else
      match inbox[0]
      case Arrival(d) =>
        var seen := Shorten(d, rooms[|kept|]);
        if !f(seen) then FillFrom(f, rooms, metas, inbox[1..], kept, taken + [seen])
        else if |kept| >= metas then Batch(kept, taken + [seen], [seen], inbox[1..], NoMeta)
        else FillFrom(f, rooms, metas, inbox[1..], kept + [seen], taken + [seen])
      case Failure(k) =>
        if k.WouldBlock? || IsTransient(k) then Batch(kept, taken, [], inbox[1..], Drained)
        else Batch(kept, taken, [], inbox[1..], Fatal(k))
  }

  /** One call: its result, the datagrams handed over, everything read and
      lost on the way, and the script left behind. */
  datatype Call = Call(result: PollResult, delivered: seq<Datagram>, taken: seq<Datagram>, lost: seq<Datagram>,
                       tick: nat, inbox: seq<Incoming>)

  /** What the readiness poll answers. A script with nothing left to read never
      reports readable; a drained socket is written as an explicit WouldBlock. */
  function Poll(signals: nat -> Readiness, tick: nat, inbox: seq<Incoming>): Readiness {
    if inbox == [] && signals(tick) == Readable then NotReady else signals(tick)
  }

  function PollFrom(f: Filter, rooms: seq<nat>, metas: nat, signals: nat -> Readiness, tick: nat,
                    inbox: seq<Incoming>, taken: seq<Datagram>, lost: seq<Datagram>): Call
    requires rooms != []
    decreases |inbox|
  {
    match Poll(signals, tick, inbox)
    case NotReady => Call(Pending, [], taken, lost, tick + 1, inbox)
    case Broken(k) => Call(Error(k), [], taken, lost, tick + 1, inbox)
    case Readable =>
      var b := FillFrom(f, rooms, metas, inbox, [], []);
      if b.kept != [] then Call(Ready(|b.kept|), b.kept, taken + b.taken, lost + b.lost, tick + 1, b.rest)
      else if b.stop.Fatal? then Call(Error(b.stop.kind), [], taken + b.taken, lost + b.lost, tick + 1, b.rest)
      else
        FillConsumes(f, rooms, metas, inbox, [], []);
        PollFrom(f, rooms, metas, signals, tick + 1, b.rest, taken + b.taken, lost + b.lost)
  }

  /** One iteration of the outer loop: what its inner loop did, if it ran... */
  function RoundOf(f: Filter, rooms: seq<nat>, metas: nat, signals: nat -> Readiness, tick: nat,
                   inbox: seq<Incoming>): Batch
  {
    if Poll(signals, tick, inbox) == Readable then FillFrom(f, rooms, metas, inbox, [], [])
    else Batch([], [], [], inbox, Full)
  }

  /** ... and the result it returns, if it does not go round again. */
  function RoundResult(ready: Readiness, b: Batch): Option<PollResult> {
    match ready
    case NotReady => Some(Pending)
    case Broken(k) => Some(Error(k))
    case Readable =>
      if b.kept != [] then Some(Ready(|b.kept|))
      else if b.stop.Fatal? then Some(Error(b.stop.kind)) else None
  }

  lemma PollByRounds(f: Filter, rooms: seq<nat>, metas: nat, signals: nat -> Readiness, tick: nat,
                     inbox: seq<Incoming>, taken: seq<Datagram>, lost: seq<Datagram>)
    requires rooms != []
    ensures var b := RoundOf(f, rooms, metas, signals, tick, inbox);
            PollFrom(f, rooms, metas, signals, tick, inbox, taken, lost)
            == match RoundResult(Poll(signals, tick, inbox), b)
               case Some(r) => Call(r, b.kept, taken + b.taken, lost + b.lost, tick + 1, b.rest)
               case None => PollFrom(f, rooms, metas, signals, tick + 1, b.rest, taken + b.taken, lost + b.lost)
  {
    assert taken + [] == taken && lost + [] == lost;
  }

  /** Some later readiness poll finds the socket not readable. */
  ghost predicate Settles(signals: nat -> Readiness, tick: nat, inbox: seq<Incoming>) {
    exists t: nat :: t >= tick && Poll(signals, t, inbox) != Readable
  }

  ghost predicate FirstAt(signals: nat -> Readiness, tick: nat, inbox: seq<Incoming>, t: nat) {
    && t >= tick && Poll(signals, t, inbox) != Readable
    && forall u: nat :: tick <= u < t ==> Poll(signals, u, inbox) == Readable
  }

  lemma {:induction false} FirstExists(signals: nat -> Readiness, tick: nat, inbox: seq<Incoming>, w: nat)
    requires tick <= w && Poll(signals, w, inbox) != Readable
    ensures exists t: nat :: FirstAt(signals, tick, inbox, t)
    decreases w - tick
  {
    if Poll(signals, tick, inbox) != Readable {
      assert FirstAt(signals, tick, inbox, tick);
    } else {
      FirstExists(signals, tick + 1, inbox, w);
      var t: nat :| FirstAt(signals, tick + 1, inbox, t);
      assert FirstAt(signals, tick, inbox, t);
    }
  }

  /** The first poll that finds the socket not readable. */
  ghost function FirstUnready(signals: nat -> Readiness, tick: nat, inbox: seq<Incoming>): (t: nat)
    requires Settles(signals, tick, inbox)
    ensures FirstAt(signals, tick, inbox, t)
  {
    var w: nat :| w >= tick && Poll(signals, w, inbox) != Readable;
    FirstExists(signals, tick, inbox, w);
    var t: nat :| FirstAt(signals, tick, inbox, t);
    t
  }

  /** A call that ends without reading, at a poll that finds nothing to read. */
  function Unreadable(signals: nat -> Readiness, t: nat, inbox: seq<Incoming>): Call {
    var result := match Poll(signals, t, inbox) case Broken(k) => Error(k) case _ => Pending;
    Call(result, [], [], [], t + 1, inbox)
  }

  /** One call. With no buffers the code reads nothing and polls again while
      the socket is readable, so it returns exactly if that ends. */
  ghost function Polled(f: Filter, rooms: seq<nat>, metas: nat, signals: nat -> Readiness, tick: nat,
                        inbox: seq<Incoming>): Call
    requires rooms != [] || Settles(signals, tick, inbox)
  {
    if rooms != [] then PollFrom(f, rooms, metas, signals, tick, inbox, [], [])
    else Unreadable(signals, FirstUnready(signals, tick, inbox), inbox)
  }

  /** A call in progress that will end as `call`. Without buffers it ends at
      the poll `until`. */
  ghost predicate Midway(call: Call, f: Filter, rooms: seq<nat>, metas: nat, signals: nat -> Readiness, tick: nat,
                         inbox: seq<Incoming>, taken: seq<Datagram>, lost: seq<Datagram>, until: nat)
  {
    if rooms != [] then call == PollFrom(f, rooms, metas, signals, tick, inbox, taken, lost)
    else
      && taken == [] && lost == [] && FirstAt(signals, tick, inbox, until)
      && call == Unreadable(signals, until, inbox)
  }

  /** One more iteration either ends the call or comes closer to its end. */
  lemma MidwayRound(call: Call, f: Filter, rooms: seq<nat>, metas: nat, signals: nat -> Readiness, tick: nat,
                    inbox: seq<Incoming>, taken: seq<Datagram>, lost: seq<Datagram>, until: nat)
    requires Midway(call, f, rooms, metas, signals, tick, inbox, taken, lost, until)
    ensures var b := RoundOf(f, rooms, metas, signals, tick, inbox);
            match RoundResult(Poll(signals, tick, inbox), b)
            case Some(r) => call == Call(r, b.kept, taken + b.taken, lost + b.lost, tick + 1, b.rest)
            case None =>
              && Midway(call, f, rooms, metas, signals, tick + 1, b.rest, taken + b.taken, lost + b.lost, until)
              && (|b.rest| < |inbox| || (|b.rest| == |inbox| && tick < until))
  {
    if rooms != [] {
      PollByRounds(f, rooms, metas, signals, tick, inbox, taken, lost);
      FillConsumes(f, rooms, metas, inbox, [], []);
    }
  }

  /** The inner loop always consumes the script when it can, which is what
      makes the outer loop terminate. */
  lemma {:induction false} FillConsumes(f: Filter, rooms: seq<nat>, metas: nat, inbox: seq<Incoming>,
                                        kept: seq<Datagram>, taken: seq<Datagram>)
    ensures var b := FillFrom(f, rooms, metas, inbox, kept, taken);
            && Leaves(inbox, b.rest)
            && (inbox != [] && |kept| < |rooms| ==> |b.rest| < |inbox|)
    decreases |inbox|
  {
    if |kept| >= |rooms| || inbox == [] || inbox[0].Failure? {
    } else {
      var seen := Shorten(inbox[0].datagram, rooms[|kept|]);
      if !f(seen) {
        FillConsumes(f, rooms, metas, inbox[1..], kept, taken + [seen]);
      } else if |kept| < metas {
        FillConsumes(f, rooms, metas, inbox[1..], kept + [seen], taken + [seen]);
      }
    }
  }

  // ---------------------------------------------------------------- The code

  /** No two of the caller's buffers are the same memory. */
  ghost predicate Separate(bufs: seq<array<byte>>, metas: array<RecvMeta>) {
    && (forall i, j :: 0 <= i < j < |bufs| ==> bufs[i] != bufs[j])
    && (forall i :: 0 <= i < |bufs| ==> bufs[i] as object != metas)
  }

  /** The lengths of the receive buffers. */
  ghost function Rooms(bufs: seq<array<byte>>): (r: seq<nat>)
    ensures |r| == |bufs|
  {
    seq(|bufs|, i requires 0 <= i < |bufs| => bufs[i].Length)
  }

  ghost predicate Slot(buf: array<byte>, meta: RecvMeta, d: Datagram)
    reads buf
  {
    meta == MetaFor(d) && |d.bytes| <= buf.Length && buf[..|d.bytes|] == d.bytes
  }

  /** Slot `i` holds exactly datagram `i`, for every datagram of `ds`. */
  ghost predicate Holds(bufs: seq<array<byte>>, metas: array<RecvMeta>, ds: seq<Datagram>)
    reads bufs, metas
  {
    && |ds| <= |bufs| && |ds| <= metas.Length
    && forall i :: 0 <= i < |ds| ==> Slot(bufs[i], metas[i], ds[i])
  }

  lemma HoldsNext(bufs: seq<array<byte>>, metas: array<RecvMeta>, ds: seq<Datagram>, d: Datagram)
    requires Holds(bufs, metas, ds) && |ds| < |bufs| && |ds| < metas.Length
    requires Slot(bufs[|ds|], metas[|ds|], d)
    ensures Holds(bufs, metas, ds + [d])
  {
  }

  /** What Quinn reads off a filled slot: where it came from, its length, and a
      stride that covers all of it; nothing the plain read cannot tell. */
  lemma FilledMeta(bufs: seq<array<byte>>, metas: array<RecvMeta>, ds: seq<Datagram>, i: nat)
    requires Holds(bufs, metas, ds) && i < |ds|
    ensures metas[i].addr == ds[i].peer
    ensures metas[i].len == metas[i].stride == |ds[i].bytes| <= bufs[i].Length
    ensures metas[i].ecn == None && metas[i].dstIp == None && metas[i].interfaceIndex == None
    ensures metas[i].timestamp == None
    ensures bufs[i][..metas[i].len] == ds[i].bytes
  {
    assert Slot(bufs[i], metas[i], ds[i]);
  }

  datatype RecvFrom = Got(len: nat, addr: SocketAddr) | Failed(kind: ErrorKind)

  class PacketSocket {
    const filter: Filter
    const signals: nat -> Readiness
    const counters: Counters
    var tick: nat
    var inbox: seq<Incoming>

    constructor (filter: Filter, signals: nat -> Readiness, inbox: seq<Incoming>)
      ensures this.filter == filter && this.signals == signals && this.inbox == inbox && tick == 0
      ensures fresh(counters)
      ensures counters.received == counters.receivedBytes == counters.rejected == 0
    {
      this.filter, this.signals, this.inbox, tick := filter, signals, inbox, 0;
      counters := new Counters();
    }

    /** `poll_recv_ready`. */
    method PollReady() returns (r: Readiness)
      modifies this`tick
      ensures tick == old(tick) + 1
      ensures r == Poll(signals, old(tick), inbox)
    {
      r := Poll(signals, tick, inbox);
      tick := tick + 1;
    }

    /** `try_recv_from`: at most a buffer's worth of the next datagram. */
    method TryRecvFrom(buf: array<byte>) returns (r: RecvFrom)
      modifies this`inbox, buf
      ensures old(inbox) == [] ==> r == Failed(WouldBlock) && inbox == [] && buf[..] == old(buf[..])
      ensures old(inbox) != [] ==> inbox == old(inbox)[1..]
      ensures old(inbox) != [] && old(inbox)[0].Failure? ==>
                r == Failed(old(inbox)[0].kind) && buf[..] == old(buf[..])
      ensures old(inbox) != [] && old(inbox)[0].Arrival? ==>
                && r == Got(|Shorten(old(inbox)[0].datagram, buf.Length).bytes|, old(inbox)[0].datagram.peer)
                && r.len <= buf.Length
                && Datagram(buf[..r.len], r.addr) == Shorten(old(inbox)[0].datagram, buf.Length)
    {
      if inbox == [] {
        return Failed(WouldBlock);
      }
      var next := inbox[0];
      inbox := inbox[1..];
      match next
      case Failure(k) => r := Failed(k);
      case Arrival(d) =>
        var seen := Shorten(d, buf.Length);
        CopyInto(buf, 0, seen.bytes);
        r := Got(|seen.bytes|, d.peer);
    }

    /** One read: counted, and checked before anyone parses it. */
    method ReadChecked(buf: array<byte>) returns (o: Outcome)
      modifies this`inbox, counters, buf
      ensures old(inbox) == [] ==> o == Stopped(Drained) && inbox == []
      ensures old(inbox) != [] ==> inbox == old(inbox)[1..]
      ensures old(inbox) != [] && old(inbox)[0].Failure? ==> o == Stopped(StopFor(old(inbox)[0].kind))
      ensures o.Stopped? ==> counters.View() == old(counters.View())
      ensures old(inbox) != [] && old(inbox)[0].Arrival? ==>
                && !o.Stopped? && o.datagram == Shorten(old(inbox)[0].datagram, buf.Length)
                && o.Accepted? == filter(o.datagram)
                && |o.datagram.bytes| <= buf.Length && buf[..|o.datagram.bytes|] == o.datagram.bytes
                && counters.View() == Counting(filter)(old(counters.View()), o.datagram)
    {
      var r := TryRecvFrom(buf);
      match r
      case Failed(k) => o := Stopped(StopFor(k));
      case Got(len, addr) =>
        counters.received := Wrap(counters.received + 1);
        counters.receivedBytes := Wrap(counters.receivedBytes + len);
        var datagram := Datagram(buf[..len], addr);
        if !filter(datagram) {
          counters.rejected := Wrap(counters.rejected + 1);
          return Rejected(datagram);
        }
        o := Accepted(datagram);
    }

    /** One read into the next slot: the slots already filled keep what they
        hold, and a datagram read is counted. */
    method ReadSlot(bufs: seq<array<byte>>, metas: array<RecvMeta>, ghost kept: seq<Datagram>, filled: nat,
                    ghost c: Counts, ghost taken: seq<Datagram>)
      returns (o: Outcome)
      requires Separate(bufs, metas) && Holds(bufs, metas, kept) && filled == |kept| < |bufs|
      requires counters.View() == Tally(Counting(filter), c, taken)
      modifies this`inbox, counters, bufs[filled]
      ensures old(inbox) == [] ==> o == Stopped(Drained) && inbox == []
      ensures old(inbox) != [] ==> inbox == old(inbox)[1..]
      ensures old(inbox) != [] && old(inbox)[0].Failure? ==> o == Stopped(StopFor(old(inbox)[0].kind))
      ensures old(inbox) != [] && old(inbox)[0].Arrival? ==>
                && !o.Stopped? && o.datagram == Shorten(old(inbox)[0].datagram, bufs[filled].Length)
                && o.Accepted? == filter(o.datagram)
      ensures Holds(bufs, metas, kept)
      ensures o.Accepted? ==> Slot(bufs[filled], MetaFor(o.datagram), o.datagram)
      ensures counters.View() == Tally(Counting(filter), c, if o.Stopped? then taken else taken + [o.datagram])
    {
      o := ReadChecked(bufs[filled]);
      if !o.Stopped? {
        TallySnoc(Counting(filter), c, taken, o.datagram);
      }
    }

    /** The inner loop. */
    method Fill(bufs: seq<array<byte>>, metas: array<RecvMeta>) returns (filled: nat, stop: Stop, ghost b: Batch)
      requires Separate(bufs, metas)
      modifies this`inbox, counters, bufs, metas
      ensures b == FillFrom(filter, Rooms(bufs), metas.Length, old(inbox), [], [])
      ensures filled == |b.kept| && stop == b.stop && inbox == b.rest
      ensures Holds(bufs, metas, b.kept)
      ensures counters.View() == Tally(Counting(filter), old(counters.View()), b.taken)
    {
      ghost var rooms, c := Rooms(bufs), counters.View();
      ghost var kept: seq<Datagram>, taken: seq<Datagram> := [], [];
      b := FillFrom(filter, rooms, metas.Length, inbox, [], []);
      filled := 0;
      while filled < |bufs|
        invariant filled == |kept| <= |bufs|
        invariant Holds(bufs, metas, kept)
        invariant b == FillFrom(filter, rooms, metas.Length, inbox, kept, taken)
        invariant counters.View() == Tally(Counting(filter), c, taken)
        decreases |inbox|, |bufs| - filled
      {
        var o := ReadSlot(bufs, metas, kept, filled, c, taken);
        if o.Stopped? {
          return filled, o.stop, b;
        }
        taken := taken + [o.datagram];
        if o.Rejected? {
          continue;
        }
        if filled >= metas.Length {
          return filled, NoMeta, b;
        }
        metas[filled] := MetaFor(o.datagram);
        HoldsNext(bufs, metas, kept, o.datagram);
        kept := kept + [o.datagram];
        filled := filled + 1;
      }
      stop := Full;
    }

    /** One iteration of the outer loop. No result means going round again. */
    method Round(bufs: seq<array<byte>>, metas: array<RecvMeta>, ghost c: Counts, ghost taken: seq<Datagram>)
      returns (r: Option<PollResult>, ghost b: Batch)
      requires Separate(bufs, metas) && counters.View() == Tally(Counting(filter), c, taken)
      modifies this`tick, this`inbox, counters, bufs, metas
      ensures tick == old(tick) + 1 && inbox == b.rest && Holds(bufs, metas, b.kept)
      ensures counters.View() == Tally(Counting(filter), c, taken + b.taken)
      ensures b == RoundOf(filter, Rooms(bufs), metas.Length, signals, old(tick), old(inbox))
      ensures r == RoundResult(Poll(signals, old(tick), old(inbox)), b)
    {
      var ready := PollReady();
      b := Batch([], [], [], inbox, Full);
      assert taken + b.taken == taken;
      match ready
      case NotReady => r := Some(Pending);
      case Broken(k) => r := Some(Error(k));
      case Readable =>
        var filled, stop: Stop;
        filled, stop, b := Fill(bufs, metas);
        TallyConcat(Counting(filter), c, taken, b.taken);
        if filled > 0 {
          r := Some(Ready(filled));
        } else if stop.Fatal? {
          r := Some(Error(stop.kind));
        } else {
          r := None;
        }
    }

    /** `poll_recv`. */
    method PollRecv(bufs: seq<array<byte>>, metas: array<RecvMeta>) returns (r: PollResult, ghost call: Call)
      requires Separate(bufs, metas)
      requires bufs != [] || Settles(signals, tick, inbox)
      modifies this`tick, this`inbox, counters, bufs, metas
      ensures call == Polled(filter, Rooms(bufs), metas.Length, signals, old(tick), old(inbox))
      ensures r == call.result && tick == call.tick && inbox == call.inbox
      ensures Holds(bufs, metas, call.delivered)
      ensures counters.View() == Tally(Counting(filter), old(counters.View()), call.taken)
    {
      ghost var rooms, c := Rooms(bufs), counters.View();
      ghost var taken: seq<Datagram>, lost: seq<Datagram> := [], [];
      ghost var until := if bufs == [] then FirstUnready(signals, tick, inbox) else 0;
      call := Polled(filter, rooms, metas.Length, signals, tick, inbox);
      while true
        invariant Midway(call, filter, rooms, metas.Length, signals, tick, inbox, taken, lost, until)
        invariant counters.View() == Tally(Counting(filter), c, taken)
        decreases |inbox|, until - tick
      {
        MidwayRound(call, filter, rooms, metas.Length, signals, tick, inbox, taken, lost, until);
        var done, b := Round(bufs, metas, c, taken);
        taken, lost := taken + b.taken, lost + b.lost;
        if done.Some? {
          return done.value, call;
        }
      }
    }
  }

  datatype Outcome = Stopped(stop: Stop) | Rejected(datagram: Datagram) | Accepted(datagram: Datagram)

  function StopFor(k: ErrorKind): Stop {
    if k.WouldBlock? || IsTransient(k) then Drained else Fatal(k)
  }

  /** What reading one datagram does to the counters. */
  function Counting(f: Filter): Counter {
    (c: Counts, d: Datagram) =>
      Counts(c.sent, c.sentBytes, Wrap(c.received + 1), Wrap(c.receivedBytes + |d.bytes|),
             if f(d) then c.rejected else Wrap(c.rejected + 1))
  }

  /** Counters advanced by so many reads, bytes and rejections. */
  function Advanced(c: Counts, n: nat, bytes: nat, rejects: nat): Counts {
    Counts(c.sent, c.sentBytes, Wrap(c.received + n), Wrap(c.receivedBytes + bytes), Wrap(c.rejected + rejects))
  }

  lemma AdvancedNext(f: Filter, c: Counts, n: nat, bytes: nat, rejects: nat, d: Datagram)
    ensures Counting(f)(Advanced(c, n, bytes, rejects), d)
         == Advanced(c, n + 1, bytes + |d.bytes|, if f(d) then rejects else rejects + 1)
  {
    WrapAdds(c.received + n, 1);
    WrapAdds(c.receivedBytes + bytes, |d.bytes|);
    WrapAdds(c.rejected + rejects, 1);
  }

  /** The counters as sums, modulo 2^64: every read is counted with its
      length, and the reads that were not rejected are the survivors. */
  lemma {:induction false} CountingSums(c: Counts, f: Filter, ds: seq<Datagram>)
    ensures |Survivors(f, ds)| <= |ds|
    ensures Tally(Counting(f), c, ds) == Advanced(c, |ds|, TotalBytes(ds), |ds| - |Survivors(f, ds)|)
  {
    if ds == [] {
    } else {
      var init, last := ds[..|ds| - 1], ds[|ds| - 1];
      CountingSums(c, f, init);
      AdvancedNext(f, c, |init|, TotalBytes(init), |init| - |Survivors(f, init)|, last);
    }
  }

  // -------------------------------------------------------- What it delivers

  /** The datagrams that pass, in order. */
  function Survivors(f: Filter, ds: seq<Datagram>): seq<Datagram> {
    if ds == [] then []
    else
      var last := ds[|ds| - 1];
      Survivors(f, ds[..|ds| - 1]) + (if f(last) then [last] else [])
  }

  lemma SurvivorsSnoc(f: Filter, ds: seq<Datagram>, d: Datagram)
    ensures Survivors(f, ds + [d]) == Survivors(f, ds) + (if f(d) then [d] else [])
  {
    assert (ds + [d])[..|ds|] == ds;
  }
}
