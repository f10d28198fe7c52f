/**
 `poll_send`: one transmit, split into segments and retried through a one-shot
 writability future. The kernel is an arbitrary script: what each poll of a
 future answers, and what each `send_to` returns.
 */
module Send {
  import opened Wire
  import opened Io

  /** What polling the writability future yields. */
  datatype Wake = Unready | Writable | Broken(kind: ErrorKind)

  /** One batch Quinn hands over, possibly to be split into segments. */
  datatype Transmit = Transmit(destination: SocketAddr, contents: seq<byte>, segmentSize: Option<nat>)

  datatype SendResult = SendPending | SendReady | SendError(kind: ErrorKind)

  // ---------------------------------------------------------------- Segments

  /** `contents.chunks(size)`, each addressed. */
  function Chunks(contents: seq<byte>, size: nat, to: SocketAddr): seq<Datagram>
    requires size > 0
    decreases |contents|
  {
    if contents == [] then []
    else if |contents| <= size then [Datagram(contents, to)]
    else [Datagram(contents[..size], to)] + Chunks(contents[size..], size, to)
  }

  /** A segment size of zero makes `chunks` panic. */
  predicate Splittable(t: Transmit) {
    t.segmentSize != Some(0)
  }

  function Segments(t: Transmit): seq<Datagram>
    requires Splittable(t)
  {
    match t.segmentSize
    case None => [Datagram(t.contents, t.destination)]
    case Some(size) => Chunks(t.contents, size, t.destination)
  }

  function Joined(ds: seq<Datagram>): seq<byte> {
    if ds == [] then [] else ds[0].bytes + Joined(ds[1..])
  }

  /** The segments are the contents, cut every `size` bytes. */
  lemma {:induction false} ChunksExact(contents: seq<byte>, size: nat, to: SocketAddr)
    requires size > 0
    ensures var ds := Chunks(contents, size, to);
            && Joined(ds) == contents
            && (forall i :: 0 <= i < |ds| ==> ds[i].peer == to && 0 < |ds[i].bytes| <= size)
            && (forall i :: 0 <= i < |ds| - 1 ==> |ds[i].bytes| == size)
            && (|ds| <= 1 <==> |contents| <= size)
    decreases |contents|
  {
    var ds := Chunks(contents, size, to);
    if contents == [] {
    } else if |contents| <= size {
      assert ds[1..] == [] && Joined(ds[1..]) == [];
    } else {
      var tail := contents[size..];
      ChunksExact(tail, size, to);
      assert ds[1..] == Chunks(tail, size, to) && ds[0].bytes == contents[..size];
      assert contents == contents[..size] + tail;
    }
  }

  /** What a transmit is split into: one datagram when there is no segment size,
      and in any case all of the contents, in order, to its destination. */
  lemma SegmentsExact(t: Transmit)
    requires t.segmentSize.None? || t.segmentSize.value > 0
    ensures var ds := Segments(t);
            && Joined(ds) == t.contents
            && (forall i :: 0 <= i < |ds| ==> ds[i].peer == t.destination)
            && (t.segmentSize.None? ==> ds == [Datagram(t.contents, t.destination)])
            && (t.segmentSize.Some? ==>
                  && (forall i :: 0 <= i < |ds| ==> 0 < |ds[i].bytes| <= t.segmentSize.value)
                  && (forall i :: 0 <= i < |ds| - 1 ==> |ds[i].bytes| == t.segmentSize.value))
  {
    match t.segmentSize
    case Some(size) => ChunksExact(t.contents, size, t.destination);
    case None => assert Segments(t)[1..] == [] && Joined([]) == [];
  }

  // ------------------------------------------------------ The specification

  /** One pass over the segments, stopping at the first error: what it put on
      the wire, and why it stopped. An exhausted script would block. */
  datatype Pass = Pass(put: seq<Datagram>, error: Option<ErrorKind>, rest: seq<Option<ErrorKind>>)

  function PassFrom(segments: seq<Datagram>, answers: seq<Option<ErrorKind>>, put: seq<Datagram>): Pass
    decreases |segments|
  {
    if segments == [] then Pass(put, None, answers)
    else if answers == [] then Pass(put, Some(WouldBlock), answers)
    else if answers[0].Some? then Pass(put, answers[0], answers[1..])
    else PassFrom(segments[1..], answers[1..], put + [segments[0]])
  }

  /** A pass puts a prefix of the segments on the wire, all of them exactly
      when it meets no error. */
  lemma {:induction false} PassIsPrefix(segments: seq<Datagram>, answers: seq<Option<ErrorKind>>, put: seq<Datagram>)
    ensures var p := PassFrom(segments, answers, put);
            && put <= p.put <= put + segments
            && (p.error == None <==> p.put == put + segments)
            && (p.error == None <==> |p.put| == |put| + |segments|)
            && |p.rest| <= |answers|
            && (p.error != None && answers != [] ==> |p.rest| < |answers|)
    decreases |segments|
  {
    if segments == [] {
      assert put + segments == put;
    } else if answers != [] && answers[0].None? {
      PassIsPrefix(segments[1..], answers[1..], put + [segments[0]]);
      assert put + [segments[0]] + segments[1..] == put + segments;
    }
  }

  /** The first segment the kernel does not accept. */
  ghost predicate FirstRefusal(segments: seq<Datagram>, answers: seq<Option<ErrorKind>>, n: nat) {
    && n <= |segments| && n <= |answers| && (forall i :: 0 <= i < n ==> answers[i] == None)
    && (n == |segments| || n == |answers| || answers[n] != None)
  }

  /** Exactly what a pass does, from where the first refusal is. */
  lemma {:induction false} PassExact(segments: seq<Datagram>, answers: seq<Option<ErrorKind>>, put: seq<Datagram>, n: nat)
    requires FirstRefusal(segments, answers, n)
    ensures PassFrom(segments, answers, put)
         == if n == |segments| then Pass(put + segments, None, answers[n..])
            else if n == |answers| then Pass(put + segments[..n], Some(WouldBlock), [])
            else Pass(put + segments[..n], answers[n], answers[n + 1..])
    decreases |segments|
  {
    if n == 0 {
      assert put + segments[..0] == put && (segments == [] ==> put + segments == put);
    } else {
      var first := segments[0];
      PassExact(segments[1..], answers[1..], put + [first], n - 1);
      assert put + [first] + segments[1..] == put + segments;
      assert put + [first] + segments[1..][..n - 1] == put + segments[..n];
      assert answers[1..][n - 1..] == answers[n..];
    }
  }

  /** One call: its result, how many segments each blocked pass had put on the
      wire, how many the concluding pass did, all it put there, and the script
      left behind. */
  datatype Call = Call(result: SendResult, blocked: seq<nat>, last: Option<nat>, wire: seq<Datagram>, tick: nat,
                       answers: seq<Option<ErrorKind>>)

  /** What a poll of the future answers; a finished script is never writable. */
  function PollWake(wakes: nat -> Wake, tick: nat, answers: seq<Option<ErrorKind>>): Wake {
    if answers == [] && wakes(tick) == Writable then Unready else wakes(tick)
  }

  function SendFrom(segments: seq<Datagram>, wakes: nat -> Wake, tick: nat, answers: seq<Option<ErrorKind>>,
                    blocked: seq<nat>, wire: seq<Datagram>): Call
    decreases |answers|
  {
    match PollWake(wakes, tick, answers)
    case Unready => Call(SendPending, blocked, None, wire, tick + 1, answers)
    case Broken(k) => Call(SendError(k), blocked, None, wire, tick + 1, answers)
    case Writable =>
      var p := PassFrom(segments, answers, []);
      if p.error == Some(WouldBlock) then
        PassIsPrefix(segments, answers, []);
        SendFrom(segments, wakes, tick + 1, p.rest, blocked + [|p.put|], wire + p.put)
      else Call(SendReady, blocked, Some(|p.put|), wire + p.put, tick + 1, p.rest)
  }

  // ---------------------------------------------------------------- The code

  /** What putting one datagram on the wire does to the counters. */
  function Counting(c: Counts, d: Datagram): Counts {
    Counts(Wrap(c.sent + 1), Wrap(c.sentBytes + |d.bytes|), c.received, c.receivedBytes, c.rejected)
  }

  /** Modulo 2^64, `sent` counts the datagrams put on the wire and `sentBytes`
      their lengths. */
  lemma {:induction false} CountingSums(c: Counts, ds: seq<Datagram>)
    ensures Tally(Counting, c, ds)
         == Counts(Wrap(c.sent + |ds|), Wrap(c.sentBytes + TotalBytes(ds)), c.received, c.receivedBytes, c.rejected)
  {
    if ds == [] {
    } else {
      var init, last := ds[..|ds| - 1], ds[|ds| - 1];
      CountingSums(c, init);
      WrapAdds(c.sent + |init|, 1);
      WrapAdds(c.sentBytes + TotalBytes(init), |last.bytes|);
    }
  }

  /** The sending half of the socket. */
  class SendSocket {
    const wakes: nat -> Wake
    const counters: Counters
    var tick: nat
    var answers: seq<Option<ErrorKind>>
    var wire: seq<Datagram>

    constructor (wakes: nat -> Wake, answers: seq<Option<ErrorKind>>, counters: Counters)
      ensures this.wakes == wakes && this.counters == counters
      ensures this.answers == answers && tick == 0 && wire == []
    {
      this.wakes, this.counters, this.answers, tick, wire := wakes, counters, answers, 0, [];
    }

    /** From a wire and counters of `w` and `c`, exactly `ds` was put on the
        wire and counted. */
    ghost predicate Emitted(w: seq<Datagram>, c: Counts, ds: seq<Datagram>)
      reads this, counters
    {
      wire == w + ds && counters.View() == Tally(Counting, c, ds)
    }

    /** `send_datagram`. */
    method SendDatagram(d: Datagram, ghost w: seq<Datagram>, ghost c: Counts, ghost put: seq<Datagram>)
      returns (error: Option<ErrorKind>)
      requires Emitted(w, c, put)
      modifies this`answers, this`wire, counters
      ensures error == if old(answers) == [] then Some(WouldBlock) else old(answers)[0]
      ensures answers == if old(answers) == [] then [] else old(answers)[1..]
      ensures Emitted(w, c, if error.None? then put + [d] else put)
    {
      error := Some(WouldBlock);
      if answers != [] {
        error := answers[0];
        answers := answers[1..];
      }
      if error.None? {
        wire := wire + [d];
        counters.CountSent(|d.bytes|);
        AppendAssociates(w, put, [d]);
        TallySnoc(Counting, c, put, d);
      }
    }

    /** `try_send`: the segments in order, up to the first error. */
    method TrySend(t: Transmit) returns (error: Option<ErrorKind>, ghost p: Pass)
      requires Splittable(t)
      modifies this`answers, this`wire, counters
      ensures p == PassFrom(Segments(t), old(answers), [])
      ensures error == p.error && answers == p.rest
      ensures Emitted(old(wire), old(counters.View()), p.put)
    {
      ghost var w, c, put: seq<Datagram> := wire, counters.View(), [];
      assert w + put == w;
      p := PassFrom(Segments(t), answers, []);
      if t.segmentSize.None? {
        assert Segments(t)[1..] == [];
        error := SendDatagram(Datagram(t.contents, t.destination), w, c, put);
        return;
      }
      var size := t.segmentSize.value;
      var rest := t.contents;
      error := None;
      while rest != []
        invariant error.None? && Emitted(w, c, put)
        invariant p == PassFrom(Chunks(rest, size, t.destination), answers, put)
        decreases |rest|
      {
        var len := if |rest| <= size then |rest| else size;
        var chunk := Datagram(rest[..len], t.destination);
        ChunksNext(rest, size, t.destination, len);
        error := SendDatagram(chunk, w, c, put);
        if error.Some? {
          return;
        }
        put := put + [chunk];
        rest := rest[len..];
      }
    }
  }

  lemma ChunksNext(rest: seq<byte>, size: nat, to: SocketAddr, len: nat)
    requires size > 0 && rest != [] && len == if |rest| <= size then |rest| else size
    ensures var ds := Chunks(rest, size, to);
            ds != [] && ds[0] == Datagram(rest[..len], to) && ds[1..] == Chunks(rest[len..], size, to)
  {
    if |rest| <= size {
      assert rest[..len] == rest && rest[len..] == [];
    }
  }

  /** A `writable()` future: polling it once it has completed is an error. */
  class WritableFuture {
    const socket: SendSocket
    var done: bool

    constructor (socket: SendSocket)
      ensures this.socket == socket && !done
    {
      this.socket, done := socket, false;
    }

    method Poll() returns (w: Wake)
      requires !done
      modifies this, socket`tick
      ensures w == PollWake(socket.wakes, old(socket.tick), socket.answers)
      ensures socket.tick == old(socket.tick) + 1
      ensures done <==> w != Unready
    {
      w := PollWake(socket.wakes, socket.tick, socket.answers);
      socket.tick := socket.tick + 1;
      done := w != Unready;
    }
  }

  class PacketSender {
    const socket: SendSocket
    var writable: WritableFuture?

    /** Whatever future is installed has not completed. */
    ghost predicate Valid()
      reads this, writable
    {
      writable != null ==> writable.socket == socket && !writable.done
    }

    constructor (socket: SendSocket)
      ensures Valid() && this.socket == socket && writable == null
    {
      this.socket, writable := socket, null;
    }

    /** Installs a future if there is none, polls it, and drops it once it has
        completed. */
    method PollWritable() returns (w: Wake)
      requires Valid()
      modifies this, (if writable == null then {} else {writable}), socket`tick
      ensures Valid()
      ensures writable != null <==> w == Unready
      ensures writable != null ==> writable == old(writable) || fresh(writable)
      ensures w == PollWake(socket.wakes, old(socket.tick), socket.answers)
      ensures socket.tick == old(socket.tick) + 1
    {
      if writable == null {
        writable := new WritableFuture(socket);
      }
      w := writable.Poll();
      if w != Unready {
        writable := null;
      }
    }

    /** One iteration: wait for writability, then make a pass. No result means
        going round again. */
    method Round(t: Transmit, ghost w: seq<Datagram>, ghost c: Counts, ghost wire: seq<Datagram>)
      returns (r: Option<SendResult>, ghost put: seq<Datagram>)
      requires Valid() && Splittable(t) && socket.Emitted(w, c, wire)
      modifies this, (if writable == null then {} else {writable}), socket, socket.counters
      ensures Valid() && socket.Emitted(w, c, wire + put)
      ensures writable != null <==> r == Some(SendPending)
      ensures writable != null ==> writable == old(writable) || fresh(writable)
      ensures socket.tick == old(socket.tick) + 1
      ensures var wake := PollWake(socket.wakes, old(socket.tick), old(socket.answers));
              var p := PassFrom(Segments(t), old(socket.answers), []);
              if wake == Writable then
                && put == p.put && socket.answers == p.rest
                && r == if p.error == Some(WouldBlock) then None else Some(SendReady)
              else
                && put == [] && socket.answers == old(socket.answers)
                && r == Some(if wake == Unready then SendPending else SendError(wake.kind))
    {
      var ready := PollWritable();
      put := [];
      assert wire + put == wire;
      match ready
      case Unready => r := Some(SendPending);
      case Broken(k) => r := Some(SendError(k));
      case Writable =>
        var error, p := socket.TrySend(t);
        r, put := if error == Some(WouldBlock) then None else Some(SendReady), p.put;
        AppendAssociates(w, wire, put);
        TallyConcat(Counting, c, wire, put);
    }

    /** `poll_send`. Pending leaves an incomplete future installed, anything
        else leaves none, so no call ever polls a completed one. */
    method PollSend(t: Transmit) returns (r: SendResult, ghost call: Call)
      requires Valid() && Splittable(t)
      modifies this, (if writable == null then {} else {writable}), socket, socket.counters
      ensures Valid()
      ensures writable != null <==> r == SendPending
      ensures writable != null ==> writable == old(writable) || fresh(writable)
      ensures call == SendFrom(Segments(t), socket.wakes, old(socket.tick), old(socket.answers), [], [])
      ensures r == call.result && socket.tick == call.tick && socket.answers == call.answers
      ensures socket.Emitted(old(socket.wire), old(socket.counters.View()), call.wire)
    {
      ghost var blocked: seq<nat>, wire: seq<Datagram>, w, c := [], [], socket.wire, socket.counters.View();
      assert w + wire == w;
      call := SendFrom(Segments(t), socket.wakes, socket.tick, socket.answers, [], []);
      while true
        invariant Valid() && (writable != null ==> writable == old(writable) || fresh(writable))
        invariant call == SendFrom(Segments(t), socket.wakes, socket.tick, socket.answers, blocked, wire)
        invariant socket.Emitted(w, c, wire)
        decreases |socket.answers|
      {
        PassIsPrefix(Segments(t), socket.answers, []);
        var done, put := Round(t, w, c, wire);
        if done.Some? {
          assert wire + [] == wire;
          return done.value, call;
        }
        blocked, wire := blocked + [|put|], wire + put;
      }
    }
  }
}
