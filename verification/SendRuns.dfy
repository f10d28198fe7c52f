/**
 One transmit over any number of `poll_send` calls: what reaches the wire.
 */
module SendRuns {
  import opened Wire
  import opened Io
  import opened Send

  function Take(s: seq<Datagram>, n: nat): seq<Datagram> {
    if n <= |s| then s[..n] else s
  }

  /** The prefixes the blocked passes put on the wire, one after another. */
  ghost function Sweeps(segments: seq<Datagram>, blocked: seq<nat>): seq<Datagram> {
    if blocked == [] then []
    else Sweeps(segments, blocked[..|blocked| - 1]) + Take(segments, blocked[|blocked| - 1])
  }

  /** The whole trace: the blocked prefixes, then the concluding one. */
  ghost function Trace(segments: seq<Datagram>, blocked: seq<nat>, last: Option<nat>): seq<Datagram> {
    Sweeps(segments, blocked) + (if last.Some? then Take(segments, last.value) else [])
  }

  ghost predicate AllProper(blocked: seq<nat>, n: nat) {
    forall i :: 0 <= i < |blocked| ==> blocked[i] < n
  }

  lemma SweepsSnoc(segments: seq<Datagram>, blocked: seq<nat>, p: nat)
    ensures Sweeps(segments, blocked + [p]) == Sweeps(segments, blocked) + Take(segments, p)
  {
    assert (blocked + [p])[..|blocked|] == blocked;
  }

  lemma {:induction false} SweepsConcat(segments: seq<Datagram>, a: seq<nat>, b: seq<nat>)
    ensures Sweeps(segments, a + b) == Sweeps(segments, a) + Sweeps(segments, b)
  {
    if b == [] {
      assert a + b == a;
    } else {
      var init, last := b[..|b| - 1], b[|b| - 1];
      SweepsConcat(segments, a, init);
      assert (a + b)[..|a + b| - 1] == a + init && (a + b)[|a + b| - 1] == last;
      SweepsUnfold(segments, a + b);
      SweepsUnfold(segments, b);
      AppendAssociates(Sweeps(segments, a), Sweeps(segments, init), Take(segments, last));
    }
  }

  lemma SweepsUnfold(segments: seq<Datagram>, b: seq<nat>)
    requires b != []
    ensures Sweeps(segments, b) == Sweeps(segments, b[..|b| - 1]) + Take(segments, b[|b| - 1])
  {
  }

  lemma PassPut(segments: seq<Datagram>, answers: Answers)
    ensures var p := PassFrom(segments, answers, []);
            && |p.put| <= |segments| && p.put == Take(segments, |p.put|)
            && (p.error == None <==> |p.put| == |segments|)
  {
    PassIsPrefix(segments, answers, []);
    assert [] + segments == segments;
  }

  // ---------------------------------------------------- Counting WouldBlocks

  type Answers = seq<Option<ErrorKind>>

  /** How many of the answers are WouldBlock. */
  ghost function WouldBlocks(used: Answers): nat {
    multiset(used)[Some(WouldBlock)]
  }

  /** The script ran out in the middle of a pass, which blocks as well. */
  ghost predicate RanDry(used: Answers, last: Option<nat>) {
    last.None? && used != [] && used[|used| - 1].None?
  }

  /** How many passes block over the answers used: one for every WouldBlock, and
      one more when the script ran dry. */
  ghost function Blocks(used: Answers, last: Option<nat>): nat {
    WouldBlocks(used) + (if RanDry(used, last) then 1 else 0)
  }

  ghost predicate BlocksMatch(blocks: nat, answers: Answers, last: Option<nat>, rest: Answers) {
    && Leaves(answers, rest) && blocks == Blocks(Used(answers, rest), last)
    && (RanDry(Used(answers, rest), last) ==> rest == [])
  }

  lemma BlocksConcat(u: Answers, v: Answers, last: Option<nat>)
    requires RanDry(u, None) ==> v == [] && last.None?
    ensures Blocks(u + v, last) == Blocks(u, None) + Blocks(v, last)
    ensures RanDry(u + v, last) ==> RanDry(u, None) || RanDry(v, last)
  {
    if v == [] {
      assert u + v == u;
    } else {
      assert (u + v)[|u + v| - 1] == v[|v| - 1];
    }
  }

  lemma BlocksThrough(a: nat, answers: Answers, mid: Answers, b: nat, last: Option<nat>, rest: Answers)
    requires BlocksMatch(a, answers, None, mid) && BlocksMatch(b, mid, last, rest)
    requires mid == [] ==> last.None?
    ensures BlocksMatch(a + b, answers, last, rest)
  {
    UsedConcat(answers, mid, rest);
    BlocksConcat(Used(answers, mid), Used(mid, rest), last);
  }

  /** A pass that is answered at all blocks on a WouldBlock or on a script that
      runs dry; any other uses no WouldBlock. */
  ghost predicate PassBlocks(used: Answers, error: Option<ErrorKind>, rest: Answers) {
    if error != Some(WouldBlock) then WouldBlocks(used) == 0
    else if used == [] then rest == []
    else Blocks(used, None) == 1 && (RanDry(used, None) ==> rest == [])
  }

  lemma PassBlocksFirst(used: Answers, error: Option<ErrorKind>, rest: Answers)
    requires PassBlocks(used, error, rest)
    ensures PassBlocks([None] + used, error, rest)
  {
    var all := [None] + used;
    assert WouldBlocks(all) == WouldBlocks(used);
    assert used != [] ==> all[|all| - 1] == used[|used| - 1];
  }

  lemma {:induction false} PassUses(segments: seq<Datagram>, answers: Answers, put: seq<Datagram>)
    ensures var p := PassFrom(segments, answers, put);
            && Leaves(answers, p.rest) && PassBlocks(Used(answers, p.rest), p.error, p.rest)
            && (segments != [] && answers != [] ==> Used(answers, p.rest) != [])
    decreases |segments|
  {
    var p := PassFrom(segments, answers, put);
    if segments == [] || answers == [] {
      UsedNothing(answers);
    } else {
      UsedOne(answers);
      if answers[0].None? {
        PassUses(segments[1..], answers[1..], put + [segments[0]]);
        UsedConcat(answers, answers[1..], p.rest);
        PassBlocksFirst(Used(answers[1..], p.rest), p.error, p.rest);
      }
    }
  }

  // ----------------------------------------------------------------- One call

  /** The wire of a call is its trace; every blocked pass stopped short of the
      whole; and the call is ready exactly when a pass concluded it. */
  lemma {:induction false} CallTrace(segments: seq<Datagram>, wakes: nat -> Wake, tick: nat,
                                     answers: Answers, blocked: seq<nat>, wire: seq<Datagram>)
    requires wire == Sweeps(segments, blocked) && AllProper(blocked, |segments|)
    ensures var c := SendFrom(segments, wakes, tick, answers, blocked, wire);
            && c.wire == Trace(segments, c.blocked, c.last)
            && AllProper(c.blocked, |segments|)
            && (c.result == SendReady <==> c.last.Some?)
            && (c.last.Some? ==> c.last.value <= |segments|)
    decreases |answers|
  {
    assert Sweeps(segments, blocked) + [] == Sweeps(segments, blocked);
    if PollWake(wakes, tick, answers) != Writable {
    } else {
      var p := PassFrom(segments, answers, []);
      PassIsPrefix(segments, answers, []);
      PassPut(segments, answers);
      if p.error == Some(WouldBlock) {
        SweepsSnoc(segments, blocked, |p.put|);
        CallTrace(segments, wakes, tick + 1, p.rest, blocked + [|p.put|], wire + p.put);
      }
    }
  }

  /** And it blocked once for every WouldBlock it was answered. */
  lemma {:induction false} CallBlocks(segments: seq<Datagram>, wakes: nat -> Wake, tick: nat,
                                      answers: Answers, blocked: seq<nat>, wire: seq<Datagram>)
    ensures var c := SendFrom(segments, wakes, tick, answers, blocked, wire);
            && |blocked| <= |c.blocked|
            && BlocksMatch(|c.blocked| - |blocked|, answers, c.last, c.answers)
            && (answers == [] || c.result == SendPending ==> c.last.None?)
    decreases |answers|
  {
    if PollWake(wakes, tick, answers) != Writable {
      UsedNothing(answers);
    } else {
      var p := PassFrom(segments, answers, []);
      PassIsPrefix(segments, answers, []);
      PassUses(segments, answers, []);
      if p.error == Some(WouldBlock) {
        CallBlocks(segments, wakes, tick + 1, p.rest, blocked + [|p.put|], wire + p.put);
        var c := SendFrom(segments, wakes, tick + 1, p.rest, blocked + [|p.put|], wire + p.put);
        BlocksThrough(1, answers, p.rest, |c.blocked| - |blocked| - 1, c.last, c.answers);
      }
    }
  }

  /** Whatever a datagram meets on the way out, only a failed writability
      future is reported; every other send error drops the datagram. */
  lemma {:induction false} OnlyFutureErrors(segments: seq<Datagram>, wakes: nat -> Wake, tick: nat,
                                            answers: Answers, blocked: seq<nat>, wire: seq<Datagram>)
    ensures var c := SendFrom(segments, wakes, tick, answers, blocked, wire);
            && c.tick > tick
            && (c.result.SendError? <==> wakes(c.tick - 1).Broken?)
            && (c.result.SendError? ==> wakes(c.tick - 1) == Broken(c.result.kind))
    decreases |answers|
  {
    if PollWake(wakes, tick, answers) != Writable {
    } else {
      var p := PassFrom(segments, answers, []);
      PassIsPrefix(segments, answers, []);
      if p.error == Some(WouldBlock) {
        OnlyFutureErrors(segments, wakes, tick + 1, p.rest, blocked + [|p.put|], wire + p.put);
      }
    }
  }

  // -------------------------------------------------------- A whole transmit

  /** Up to `calls` calls for one transmit, made while the last was pending. */
  ghost function Retry(segments: seq<Datagram>, wakes: nat -> Wake, tick: nat, answers: Answers,
                       calls: nat): Call
  {
    if calls == 0 then Call(SendPending, [], None, [], tick, answers)
    else
      var p := Retry(segments, wakes, tick, answers, calls - 1);
      if p.result != SendPending then p
      else
        var c := SendFrom(segments, wakes, p.tick, p.answers, [], []);
        c.(blocked := p.blocked + c.blocked, wire := p.wire + c.wire)
  }

  lemma {:induction false} RetryBlocks(segments: seq<Datagram>, wakes: nat -> Wake, tick: nat, answers: Answers,
                                       calls: nat)
    ensures var r := Retry(segments, wakes, tick, answers, calls);
            BlocksMatch(|r.blocked|, answers, r.last, r.answers) && (r.result == SendPending ==> r.last.None?)
  {
    if calls == 0 {
      UsedNothing(answers);
    } else {
      RetryBlocks(segments, wakes, tick, answers, calls - 1);
      var p := Retry(segments, wakes, tick, answers, calls - 1);
      if p.result == SendPending {
        var c := SendFrom(segments, wakes, p.tick, p.answers, [], []);
        CallBlocks(segments, wakes, p.tick, p.answers, [], []);
        BlocksThrough(|p.blocked|, answers, p.answers, |c.blocked|, c.last, c.answers);
        RetryPending(segments, wakes, tick, answers, calls);
      }
    }
  }

  lemma {:induction false} RetryTrace(segments: seq<Datagram>, wakes: nat -> Wake, tick: nat, answers: Answers,
                                      calls: nat)
    ensures var r := Retry(segments, wakes, tick, answers, calls);
            && r.wire == Trace(segments, r.blocked, r.last)
            && AllProper(r.blocked, |segments|)
            && (r.result == SendReady <==> r.last.Some?)
            && (r.last.Some? ==> r.last.value <= |segments|)
  {
    if calls == 0 {
    } else {
      RetryTrace(segments, wakes, tick, answers, calls - 1);
      var p := Retry(segments, wakes, tick, answers, calls - 1);
      if p.result == SendPending {
        var c := SendFrom(segments, wakes, p.tick, p.answers, [], []);
        CallTrace(segments, wakes, p.tick, p.answers, [], []);
        TraceConcat(segments, p.blocked, c.blocked, c.last);
        AllProperConcat(p.blocked, c.blocked, |segments|);
        RetryPending(segments, wakes, tick, answers, calls);
      }
    }
  }

  /** What one transmit puts on the wire, however many calls it takes: a proper
      prefix of its segments for every WouldBlock answered, then one concluding
      prefix once a call is ready. */
  lemma TransmitTrace(segments: seq<Datagram>, wakes: nat -> Wake, tick: nat, answers: Answers, calls: nat)
    ensures var r := Retry(segments, wakes, tick, answers, calls);
            && r.wire == Trace(segments, r.blocked, r.last)
            && AllProper(r.blocked, |segments|)
            && (r.result == SendReady <==> r.last.Some?)
            && (r.last.Some? ==> r.last.value <= |segments|)
            && BlocksMatch(|r.blocked|, answers, r.last, r.answers)
  {
    RetryTrace(segments, wakes, tick, answers, calls);
    RetryBlocks(segments, wakes, tick, answers, calls);
  }

  lemma AllProperConcat(a: seq<nat>, b: seq<nat>, n: nat)
    requires AllProper(a, n) && AllProper(b, n)
    ensures AllProper(a + b, n)
  {
  }

  lemma RetryPending(segments: seq<Datagram>, wakes: nat -> Wake, tick: nat, answers: Answers,
                     calls: nat)
    requires calls > 0 && Retry(segments, wakes, tick, answers, calls - 1).result == SendPending
    ensures var p := Retry(segments, wakes, tick, answers, calls - 1);
            var c := SendFrom(segments, wakes, p.tick, p.answers, [], []);
            Retry(segments, wakes, tick, answers, calls)
            == Call(c.result, p.blocked + c.blocked, c.last, p.wire + c.wire, c.tick, c.answers)
  {
  }

  lemma TraceConcat(segments: seq<Datagram>, a: seq<nat>, b: seq<nat>, last: Option<nat>)
    ensures Trace(segments, a, None) + Trace(segments, b, last) == Trace(segments, a + b, last)
  {
    SweepsConcat(segments, a, b);
    assert Sweeps(segments, a) + [] == Sweeps(segments, a);
    AppendAssociates(Sweeps(segments, a), Sweeps(segments, b), if last.Some? then Take(segments, last.value) else []);
  }

  /** A kernel that is writable at once and accepts every segment. */
  ghost predicate Accepting(segments: seq<Datagram>, wakes: nat -> Wake, tick: nat, answers: Answers) {
    && wakes(tick) == Writable && answers != [] && |segments| <= |answers|
    && forall i :: 0 <= i < |segments| ==> answers[i] == None
  }

  /** `wire` is all of the transmit and nothing else, whole when it is not to be
      split. */
  ghost predicate Delivered(t: Transmit, wire: seq<Datagram>) {
    && Joined(wire) == t.contents && (forall i :: 0 <= i < |wire| ==> wire[i].peer == t.destination)
    && (t.segmentSize.None? ==> wire == [Datagram(t.contents, t.destination)])
  }

  lemma {:induction false} RetryAccepted(segments: seq<Datagram>, wakes: nat -> Wake, tick: nat, answers: Answers,
                                         calls: nat)
    requires Accepting(segments, wakes, tick, answers) && calls > 0
    ensures var r := Retry(segments, wakes, tick, answers, calls);
            r.result == SendReady && r.wire == segments
  {
    if calls == 1 {
      PassExact(segments, answers, [], |segments|);
      assert [] + segments == segments;
      RetryPending(segments, wakes, tick, answers, 1);
    } else {
      RetryAccepted(segments, wakes, tick, answers, calls - 1);
    }
  }

  /** What an accepting kernel gets: the contents, once, to their destination. */
  lemma TransmitDelivered(t: Transmit, wakes: nat -> Wake, tick: nat, answers: Answers, calls: nat)
    requires t.segmentSize.None? || t.segmentSize.value > 0
    requires Accepting(Segments(t), wakes, tick, answers) && calls > 0
    ensures var r := Retry(Segments(t), wakes, tick, answers, calls);
            r.result == SendReady && Delivered(t, r.wire)
  {
    RetryAccepted(Segments(t), wakes, tick, answers, calls);
    SegmentsExact(t);
  }

  /** The code: one transmit polled until it is no longer pending, up to
      `calls` times. */
  method SendAll(sender: PacketSender, t: Transmit, calls: nat) returns (r: SendResult, ghost run: Call)
    requires sender.Valid() && Splittable(t)
    modifies sender, (if sender.writable == null then {} else {sender.writable}), sender.socket, sender.socket.counters
    ensures sender.Valid()
    ensures run == Retry(Segments(t), sender.socket.wakes, old(sender.socket.tick), old(sender.socket.answers), calls)
    ensures r == run.result && sender.socket.tick == run.tick && sender.socket.answers == run.answers
    ensures sender.socket.Emitted(old(sender.socket.wire), old(sender.socket.counters.View()), run.wire)
    ensures calls > 0 && Accepting(Segments(t), sender.socket.wakes, old(sender.socket.tick), old(sender.socket.answers))
            ==> r == SendReady && Delivered(t, run.wire)
  {
    var socket := sender.socket;
    ghost var w, c, tick, answers := socket.wire, socket.counters.View(), socket.tick, socket.answers;
    r, run := SendPending, Retry(Segments(t), socket.wakes, tick, answers, 0);
    assert w + [] == w;
    for i := 0 to calls
      invariant sender.Valid()
      invariant sender.writable != null ==> sender.writable == old(sender.writable) || fresh(sender.writable)
      invariant run == Retry(Segments(t), socket.wakes, tick, answers, i)
      invariant r == run.result && socket.tick == run.tick && socket.answers == run.answers
      invariant socket.Emitted(w, c, run.wire)
    {
      if r == SendPending {
        ghost var before := run.wire;
        ghost var call;
        r, call := sender.PollSend(t);
        AppendAssociates(w, before, call.wire);
        TallyConcat(Counting, c, before, call.wire);
      }
      run := Retry(Segments(t), socket.wakes, tick, answers, i + 1);
    }
    if calls > 0 && Accepting(Segments(t), socket.wakes, tick, answers) {
      TransmitDelivered(t, socket.wakes, tick, answers, calls);
    }
  }

  /** Passes that put nothing leave no trace. */
  lemma {:induction false} EmptySweeps(segments: seq<Datagram>, blocked: seq<nat>)
    requires AllProper(blocked, 1)
    ensures Sweeps(segments, blocked) == []
  {
    if blocked == [] {
    } else {
      EmptySweeps(segments, blocked[..|blocked| - 1]);
      assert Take(segments, 0) == [];
    }
  }

  lemma SingleSegmentOnce(segments: seq<Datagram>, wakes: nat -> Wake, tick: nat,
                          answers: Answers, calls: nat)
    requires |segments| <= 1
    ensures var r := Retry(segments, wakes, tick, answers, calls);
            r.wire <= segments && (r.wire == if r.last.Some? then segments[..|r.wire|] else [])
  {
    TransmitTrace(segments, wakes, tick, answers, calls);
    var r := Retry(segments, wakes, tick, answers, calls);
    EmptySweeps(segments, r.blocked);
    assert r.wire == if r.last.Some? then Take(segments, r.last.value) else [];
  }

  // ------------------------------------------------------- Duplicated segments

  ghost function Yes(n: nat): (s: seq<Option<ErrorKind>>)
    ensures |s| == n
  {
    seq(n, _ => None)
  }

  lemma {:induction false} PassAccepted(segments: seq<Datagram>, n: nat, put: seq<Datagram>)
    requires n >= |segments|
    ensures PassFrom(segments, Yes(n), put).put == put + segments
    ensures PassFrom(segments, Yes(n), put).error == None
    decreases |segments|
  {
    if segments == [] {
      assert put + segments == put;
    } else {
      assert Yes(n)[1..] == Yes(n - 1);
      PassAccepted(segments[1..], n - 1, put + [segments[0]]);
      assert put + [segments[0]] + segments[1..] == put + segments;
    }
  }

  /** A socket that blocks after the first segment and then accepts everything
      gets the first segment twice. */
  lemma BatchResends(segments: seq<Datagram>)
    requires |segments| >= 2
    ensures var answers := [None, Some(WouldBlock)] + Yes(|segments|);
            Retry(segments, _ => Writable, 0, answers, 1).wire == [segments[0]] + segments
  {
    var wakes: nat -> Wake := _ => Writable;
    var n := |segments|;
    var answers := [None, Some(WouldBlock)] + Yes(n);
    var p := PassFrom(segments, answers, []);
    assert answers[1..][0] == Some(WouldBlock) && answers[1..][1..] == Yes(n);
    assert p == PassFrom(segments[1..], answers[1..], [] + [segments[0]]);
    assert p == Pass([segments[0]], Some(WouldBlock), Yes(n));
    PassAccepted(segments, n, []);
    PassIsPrefix(segments, answers, []);
    var c := SendFrom(segments, wakes, 0, answers, [], []);
    assert c == SendFrom(segments, wakes, 1, Yes(n), [] + [1], [] + [segments[0]]);
    assert [] + segments == segments && [] + [segments[0]] == [segments[0]];
    assert c.wire == [segments[0]] + segments;
    assert Retry(segments, wakes, 0, answers, 0) == Call(SendPending, [], None, [], 0, answers);
    assert [] + c.wire == c.wire;
  }

  /** No script duplicates a segment exactly when there is at most one. */
  lemma AtMostOnceIff(segments: seq<Datagram>)
    ensures |segments| <= 1
       <==> forall wakes: nat -> Wake, tick: nat, answers: Answers, calls: nat ::
              Retry(segments, wakes, tick, answers, calls).wire <= segments
  {
    if |segments| <= 1 {
      forall wakes: nat -> Wake, tick: nat, answers: Answers, calls: nat
        ensures Retry(segments, wakes, tick, answers, calls).wire <= segments
      {
        SingleSegmentOnce(segments, wakes, tick, answers, calls);
      }
    } else {
      BatchResends(segments);
      assert |[segments[0]] + segments| > |segments|;
    }
  }

  /** Said of what the caller hands over: a transmit is safe from duplication
      exactly when it is not to be split, or fits one segment. */
  lemma TransmitOnceIff(t: Transmit)
    requires Splittable(t)
    ensures (t.segmentSize.None? || |t.contents| <= t.segmentSize.value)
       <==> forall wakes: nat -> Wake, tick: nat, answers: Answers, calls: nat ::
              Retry(Segments(t), wakes, tick, answers, calls).wire <= Segments(t)
  {
    if t.segmentSize.Some? {
      ChunksExact(t.contents, t.segmentSize.value, t.destination);
    }
    AtMostOnceIff(Segments(t));
  }
}
