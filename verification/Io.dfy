/** What the socket layer exchanges with the kernel, and its shared counters. */
module Io {
  import opened Wire

  datatype ErrorKind =
    | WouldBlock
    | ConnectionRefused
    | ConnectionReset
    | HostUnreachable
    | NetworkUnreachable
    | OtherError(code: int)

  /** `is_transient`. */
  predicate IsTransient(k: ErrorKind) {
    k.ConnectionRefused? || k.ConnectionReset? || k.HostUnreachable? || k.NetworkUnreachable?
  }

  type u64 = x: int | 0 <= x < TWO_64

  /** `fetch_add` on an `AtomicU64`. */
  function Wrap(x: nat): u64 {
    x % TWO_64
  }

  /** A counter past its width starts again from zero. */
  lemma WrapsAround(turns: nat, x: nat)
    requires x < TWO_64
    ensures Wrap(turns * TWO_64 + x) == x
  {
  }

  lemma WrapAdds(x: nat, y: nat)
    ensures Wrap(Wrap(x) + y) == Wrap(x + y)
  {
  }

  // ------------------------------------------------------- Consuming a script

  /** `rest` is what remains of a script once a prefix is used. */
  ghost predicate Leaves<T>(script: seq<T>, rest: seq<T>) {
    |rest| <= |script| && rest == script[|script| - |rest|..]
  }

  /** The prefix that was used. */
  ghost function Used<T>(script: seq<T>, rest: seq<T>): seq<T> {
    if Leaves(script, rest) then script[..|script| - |rest|] else []
  }

  lemma UsedNothing<T>(script: seq<T>)
    ensures Leaves(script, script) && Used(script, script) == []
  {
  }

  lemma UsedOne<T>(script: seq<T>)
    requires script != []
    ensures Leaves(script, script[1..]) && Used(script, script[1..]) == [script[0]]
  {
  }

  lemma UsedConcat<T>(script: seq<T>, mid: seq<T>, rest: seq<T>)
    requires Leaves(script, mid) && Leaves(mid, rest)
    ensures Leaves(script, rest) && Used(script, rest) == Used(script, mid) + Used(mid, rest)
  {
    assert script == Used(script, mid) + mid;
  }

  // ------------------------------------------------- Datagrams and counters

  /** One datagram, as read off or put on the wire. */
  datatype Datagram = Datagram(bytes: seq<byte>, peer: SocketAddr)

  lemma AppendAssociates(a: seq<Datagram>, b: seq<Datagram>, c: seq<Datagram>)
    ensures (a + b) + c == a + (b + c)
  {
  }

  function TotalBytes(ds: seq<Datagram>): nat {
    if ds == [] then 0 else TotalBytes(ds[..|ds| - 1]) + |ds[|ds| - 1].bytes|
  }

  /** `PacketCounts`: one reading of all the counters. */
  datatype Counts = Counts(sent: u64, sentBytes: u64, received: u64, receivedBytes: u64, rejected: u64)

  /** What one datagram does to the counters, and what several do. */
  type Counter = (Counts, Datagram) -> Counts

  function Tally(count: Counter, c: Counts, ds: seq<Datagram>): Counts {
    if ds == [] then c else count(Tally(count, c, ds[..|ds| - 1]), ds[|ds| - 1])
  }

  lemma TallySnoc(count: Counter, c: Counts, ds: seq<Datagram>, d: Datagram)
    ensures Tally(count, c, ds + [d]) == count(Tally(count, c, ds), d)
  {
    assert (ds + [d])[..|ds|] == ds;
  }

  lemma {:induction false} TallyConcat(count: Counter, c: Counts, a: seq<Datagram>, b: seq<Datagram>)
    ensures Tally(count, c, a + b) == Tally(count, Tally(count, c, a), b)
  {
    if b == [] {
      assert a + b == a;
    } else {
      var init, last := b[..|b| - 1], b[|b| - 1];
      TallyConcat(count, c, a, init);
      assert a + b == (a + init) + [last];
      TallySnoc(count, c, a + init, last);
    }
  }

  /** The socket's counters, shared by its receiver and all its senders. */
  class Counters {
    var sent: u64
    var sentBytes: u64
    var received: u64
    var receivedBytes: u64
    var rejected: u64

    constructor ()
      ensures View() == Counts(0, 0, 0, 0, 0)
    {
      sent, sentBytes, received, receivedBytes, rejected := 0, 0, 0, 0, 0;
    }

    /** One datagram of `len` bytes put on the wire. */
    method CountSent(len: nat)
      modifies this
      ensures View() == old(View()).(sent := Wrap(old(sent) + 1), sentBytes := Wrap(old(sentBytes) + len))
    {
      sent := Wrap(sent + 1);
      sentBytes := Wrap(sentBytes + len);
    }

    function View(): Counts
      reads this
    {
      Counts(sent, sentBytes, received, receivedBytes, rejected)
    }
  }
}
