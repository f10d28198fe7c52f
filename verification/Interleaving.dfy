/**
 The shared counters under every interleaving of one receiver, any number of
 senders and any number of `counts` readers. Each step is one atomic access.
 */
module Interleaving {
  import opened Wire
  import opened Io
  import Receive
  import Send

  // ------------------------------------------------------------ The machine

  /** Where the receiver is with the datagram it is handling. */
  datatype Receiver =
    | Waiting
    | Read(len: nat, passes: bool)
    | Counted(len: nat, passes: bool)
    | Sized(passes: bool)

  /** Where a sender is with the datagram it put on the wire. */
  datatype Sender = Idle | Put(len: nat) | Tallied(len: nat)

  /** A `counts` call: the fields loaded so far, in the order they are loaded,
      and what the counters were when it began. */
  datatype Reader = NotReading | Reading(loaded: seq<u64>, start: Counts)

  /** What has really happened, uncounted by the program. */
  datatype History = History(
    wired: nat, wiredBytes: nat, arrived: nat, arrivedBytes: nat, refused: nat, delivered: nat, lost: nat)

  datatype State = State(counts: Counts, receiver: Receiver, senders: seq<Sender>, readers: seq<Reader>,
                         history: History)

  datatype Step =
    | Arrive(len: nat, passes: bool)
    | IncReceived
    | IncReceivedBytes
    | Refuse
    | Deliver
    | Lose
    | PutOnWire(sender: nat, len: nat)
    | IncSent(sender: nat)
    | IncSentBytes(sender: nat)
    | BeginCounts(reader: nat)
    | LoadNext(reader: nat)

  /** The fields in the order `counts` loads them. */
  function Field(c: Counts, i: nat): u64
    requires i < 5
  {
    if i == 0 then c.sent else if i == 1 then c.sentBytes else if i == 2 then c.received
    else if i == 3 then c.receivedBytes else c.rejected
  }

  predicate Enabled(s: State, step: Step) {
    match step
    case Arrive(_, _) => s.receiver.Waiting?
    case IncReceived => s.receiver.Read?
    case IncReceivedBytes => s.receiver.Counted?
    case Refuse => s.receiver.Sized? && !s.receiver.passes
    case Deliver => s.receiver.Sized? && s.receiver.passes
    case Lose => s.receiver.Sized? && s.receiver.passes
    case PutOnWire(i, _) => i < |s.senders| && s.senders[i].Idle?
    case IncSent(i) => i < |s.senders| && s.senders[i].Put?
    case IncSentBytes(i) => i < |s.senders| && s.senders[i].Tallied?
    case BeginCounts(r) => r < |s.readers|
    case LoadNext(r) => r < |s.readers| && s.readers[r].Reading? && |s.readers[r].loaded| < 5
  }

  function Apply(s: State, step: Step): State
    requires Enabled(s, step)
  {
    var h, c := s.history, s.counts;
    match step
    case Arrive(len, passes) =>
      s.(receiver := Read(len, passes), history := h.(arrived := h.arrived + 1, arrivedBytes := h.arrivedBytes + len))
    case IncReceived =>
      s.(receiver := Counted(s.receiver.len, s.receiver.passes), counts := c.(received := Wrap(c.received + 1)))
    case IncReceivedBytes =>
      s.(receiver := Sized(s.receiver.passes), counts := c.(receivedBytes := Wrap(c.receivedBytes + s.receiver.len)))
    case Refuse =>
      s.(receiver := Waiting, counts := c.(rejected := Wrap(c.rejected + 1)), history := h.(refused := h.refused + 1))
    case Deliver => s.(receiver := Waiting, history := h.(delivered := h.delivered + 1))
    case Lose => s.(receiver := Waiting, history := h.(lost := h.lost + 1))
    case PutOnWire(i, len) =>
      s.(senders := s.senders[i := Put(len)], history := h.(wired := h.wired + 1, wiredBytes := h.wiredBytes + len))
    case IncSent(i) =>
      s.(senders := s.senders[i := Tallied(s.senders[i].len)], counts := c.(sent := Wrap(c.sent + 1)))
    case IncSentBytes(i) =>
      s.(senders := s.senders[i := Idle], counts := c.(sentBytes := Wrap(c.sentBytes + s.senders[i].len)))
    case BeginCounts(r) => s.(readers := s.readers[r := Reading([], c)])
    case LoadNext(r) =>
      var reader := s.readers[r];
      s.(readers := s.readers[r := reader.(loaded := reader.loaded + [Field(c, |reader.loaded|)])])
  }

  ghost predicate Initial(s: State) {
    && s.counts == Counts(0, 0, 0, 0, 0) && s.history == History(0, 0, 0, 0, 0, 0, 0)
    && s.receiver == Waiting
    && (forall i :: 0 <= i < |s.senders| ==> s.senders[i] == Idle)
    && (forall r :: 0 <= r < |s.readers| ==> s.readers[r] == NotReading)
  }

  /** `t` is reached from `s` by the given steps. */
  ghost predicate Reaches(s: State, steps: seq<Step>, t: State) {
    if steps == [] then s == t
    else
      var init, last := steps[..|steps| - 1], steps[|steps| - 1];
      exists m: State :: Reaches(s, init, m) && Enabled(m, last) && t == Apply(m, last)
  }

  // ------------------------------------------------- The steps and the code

  /** The steps the receiver takes for one datagram, run on their own, with or
      without a meta slot for it. */
  function HandleDatagram(s: State, f: Receive.Filter, d: Datagram, slot: bool): State
    requires s.receiver == Waiting
  {
    var s3 := Apply(Apply(Apply(s, Arrive(|d.bytes|, f(d))), IncReceived), IncReceivedBytes);
    Apply(s3, if !f(d) then Refuse else if slot then Deliver else Lose)
  }

  /** Run together they count what the receive loop counts. */
  lemma ReceiverMatchesCode(s: State, f: Receive.Filter, d: Datagram, slot: bool)
    requires s.receiver == Waiting
    ensures HandleDatagram(s, f, d, slot).counts == Receive.Counting(f)(s.counts, d)
    ensures HandleDatagram(s, f, d, slot).receiver == Waiting
    ensures var h, now := s.history, HandleDatagram(s, f, d, slot).history;
            now == History(h.wired, h.wiredBytes, h.arrived + 1, h.arrivedBytes + |d.bytes|,
                           if f(d) then h.refused else h.refused + 1,
                           if f(d) && slot then h.delivered + 1 else h.delivered,
                           if f(d) && !slot then h.lost + 1 else h.lost)
  {
    var s1 := Apply(s, Arrive(|d.bytes|, f(d)));
    var s2 := Apply(s1, IncReceived);
    assert Apply(s2, IncReceivedBytes).receiver == Sized(f(d));
  }

  function SendDatagram(s: State, i: nat, d: Datagram): State
    requires i < |s.senders| && s.senders[i] == Idle
  {
    Apply(Apply(Apply(s, PutOnWire(i, |d.bytes|)), IncSent(i)), IncSentBytes(i))
  }

  lemma SenderMatchesCode(s: State, i: nat, d: Datagram)
    requires i < |s.senders| && s.senders[i] == Idle
    ensures SendDatagram(s, i, d).counts == Send.Counting(s.counts, d)
    ensures SendDatagram(s, i, d).senders == s.senders
    ensures var h := s.history;
            SendDatagram(s, i, d).history == h.(wired := h.wired + 1, wiredBytes := h.wiredBytes + |d.bytes|)
  {
    var s1 := Apply(s, PutOnWire(i, |d.bytes|));
    assert Apply(s1, IncSent(i)).senders[i] == Tallied(|d.bytes|);
    assert s.senders[i := Put(|d.bytes|)][i := Tallied(|d.bytes|)][i := Idle] == s.senders;
  }

  // ---------------------------------------------------------- The invariant

  function Uncounted(x: Sender): nat { if x.Put? then 1 else 0 }
  function Unsized(x: Sender): nat { if x.Idle? then 0 else x.len }

  function TotalUncounted(xs: seq<Sender>): nat {
    if xs == [] then 0 else TotalUncounted(xs[..|xs| - 1]) + Uncounted(xs[|xs| - 1])
  }

  function TotalUnsized(xs: seq<Sender>): nat {
    if xs == [] then 0 else TotalUnsized(xs[..|xs| - 1]) + Unsized(xs[|xs| - 1])
  }

  lemma {:induction false} TotalsUpdate(xs: seq<Sender>, i: nat, x: Sender)
    requires i < |xs|
    ensures TotalUncounted(xs[i := x]) == TotalUncounted(xs) - Uncounted(xs[i]) + Uncounted(x)
    ensures TotalUnsized(xs[i := x]) == TotalUnsized(xs) - Unsized(xs[i]) + Unsized(x)
  {
    var n := |xs| - 1;
    var ys := xs[i := x];
    if i == n {
      assert ys[..n] == xs[..n];
    } else {
      TotalsUpdate(xs[..n], i, x);
      assert ys[..n] == xs[..n][i := x];
    }
  }

  lemma {:induction false} IdleTotals(xs: seq<Sender>)
    requires forall i :: 0 <= i < |xs| ==> xs[i] == Idle
    ensures TotalUncounted(xs) == 0 && TotalUnsized(xs) == 0
  {
    if xs == [] {
    } else {
      IdleTotals(xs[..|xs| - 1]);
    }
  }

  /** The exact values the counters would have without wrapping around. */
  datatype Exact = Exact(sent: int, sentBytes: int, received: int, receivedBytes: int, rejected: int)

  function ExactOf(s: State): Exact {
    var h, r := s.history, s.receiver;
    Exact(h.wired - TotalUncounted(s.senders), h.wiredBytes - TotalUnsized(s.senders),
          h.arrived - (if r.Read? then 1 else 0),
          h.arrivedBytes - (if r.Read? || r.Counted? then r.len else 0),
          h.refused)
  }

  /** Each stored counter is its exact value modulo 2^64. */
  ghost predicate Matches(c: Counts, e: Exact) {
    && e.sent >= 0 && e.sentBytes >= 0 && e.received >= 0 && e.receivedBytes >= 0 && e.rejected >= 0
    && c.sent == Wrap(e.sent) && c.sentBytes == Wrap(e.sentBytes)
    && c.received == Wrap(e.received) && c.receivedBytes == Wrap(e.receivedBytes)
    && c.rejected == Wrap(e.rejected)
  }

  ghost predicate Balanced(s: State) {
    && s.history.arrived == s.history.refused + s.history.delivered + s.history.lost
                            + (if s.receiver.Waiting? then 0 else 1)
    && Matches(s.counts, ExactOf(s))
  }

  predicate IsSenderStep(step: Step) {
    step.PutOnWire? || step.IncSent? || step.IncSentBytes?
  }

  // Adding to a counter and to its exact value keeps them matched.

  lemma AddSent(c: Counts, e: Exact, n: nat)
    requires Matches(c, e)
    ensures Matches(c.(sent := Wrap(c.sent + n)), e.(sent := e.sent + n))
  {
    WrapAdds(e.sent, n);
  }

  lemma AddSentBytes(c: Counts, e: Exact, n: nat)
    requires Matches(c, e)
    ensures Matches(c.(sentBytes := Wrap(c.sentBytes + n)), e.(sentBytes := e.sentBytes + n))
  {
    WrapAdds(e.sentBytes, n);
  }

  lemma AddReceived(c: Counts, e: Exact, n: nat)
    requires Matches(c, e)
    ensures Matches(c.(received := Wrap(c.received + n)), e.(received := e.received + n))
  {
    WrapAdds(e.received, n);
  }

  lemma AddReceivedBytes(c: Counts, e: Exact, n: nat)
    requires Matches(c, e)
    ensures Matches(c.(receivedBytes := Wrap(c.receivedBytes + n)), e.(receivedBytes := e.receivedBytes + n))
  {
    WrapAdds(e.receivedBytes, n);
  }

  lemma AddRejected(c: Counts, e: Exact, n: nat)
    requires Matches(c, e)
    ensures Matches(c.(rejected := Wrap(c.rejected + n)), e.(rejected := e.rejected + n))
  {
    WrapAdds(e.rejected, n);
  }

  lemma BalancedSenderStep(s: State, step: Step)
    requires Balanced(s) && Enabled(s, step) && IsSenderStep(step)
    ensures Balanced(Apply(s, step))
  {
    var e, t := ExactOf(s), Apply(s, step);
    match step
    case PutOnWire(i, len) =>
      TotalsUpdate(s.senders, i, Put(len));
      assert ExactOf(t) == e;
    case IncSent(i) =>
      TotalsUpdate(s.senders, i, Tallied(s.senders[i].len));
      assert ExactOf(t) == e.(sent := e.sent + 1);
      AddSent(s.counts, e, 1);
    case IncSentBytes(i) =>
      TotalsUpdate(s.senders, i, Idle);
      assert ExactOf(t) == e.(sentBytes := e.sentBytes + s.senders[i].len);
      AddSentBytes(s.counts, e, s.senders[i].len);
  }

  lemma BalancedOtherStep(s: State, step: Step)
    requires Balanced(s) && Enabled(s, step) && !IsSenderStep(step)
    ensures Balanced(Apply(s, step))
  {
    var e, t := ExactOf(s), Apply(s, step);
    match step
    case IncReceived =>
      assert ExactOf(t) == e.(received := e.received + 1);
      AddReceived(s.counts, e, 1);
    case IncReceivedBytes =>
      assert ExactOf(t) == e.(receivedBytes := e.receivedBytes + s.receiver.len);
      AddReceivedBytes(s.counts, e, s.receiver.len);
    case Refuse =>
      assert ExactOf(t) == e.(rejected := e.rejected + 1);
      AddRejected(s.counts, e, 1);
    case _ =>
  }

  lemma BalancedStep(s: State, step: Step)
    requires Balanced(s) && Enabled(s, step)
    ensures Balanced(Apply(s, step))
  {
    if IsSenderStep(step) {
      BalancedSenderStep(s, step);
    } else {
      BalancedOtherStep(s, step);
    }
  }

  lemma {:induction false} BalancedAlways(s: State, steps: seq<Step>, t: State)
    requires Initial(s) && Reaches(s, steps, t)
    ensures Balanced(t)
  {
    if steps == [] {
      IdleTotals(s.senders);
    } else {
      var init, last := steps[..|steps| - 1], steps[|steps| - 1];
      var m: State :| Reaches(s, init, m) && Enabled(m, last) && t == Apply(m, last);
      BalancedAlways(s, init, m);
      BalancedStep(m, last);
    }
  }

  ghost predicate Quiescent(s: State) {
    s.receiver == Waiting && forall i :: 0 <= i < |s.senders| ==> s.senders[i] == Idle
  }

  lemma SettledCounts(c: Counts, e: Exact, passed: nat)
    requires Matches(c, e) && e.received == e.rejected + passed
    ensures c.received == Wrap(c.rejected + passed)
  {
    WrapAdds(e.rejected, passed);
  }

  lemma ExactAtRest(t: State)
    requires Quiescent(t)
    ensures var h := t.history;
            ExactOf(t) == Exact(h.wired, h.wiredBytes, h.arrived, h.arrivedBytes, h.refused)
  {
    IdleTotals(t.senders);
  }

  /** At every quiescent point of every interleaving, modulo 2^64: received is
      rejected plus delivered plus lost, sent is the datagrams put on the wire,
      and both byte counters are the matching sums. */
  lemma QuiescentCounts(s: State, steps: seq<Step>, t: State)
    requires Initial(s) && Reaches(s, steps, t) && Quiescent(t)
    ensures var c, h := t.counts, t.history;
            && c.sent == Wrap(h.wired) && c.sentBytes == Wrap(h.wiredBytes)
            && c.received == Wrap(c.rejected + h.delivered + h.lost)
            && c.receivedBytes == Wrap(h.arrivedBytes)
            && c.rejected == Wrap(h.refused)
  {
    BalancedAlways(s, steps, t);
    ExactAtRest(t);
    SettledCounts(t.counts, ExactOf(t), t.history.delivered + t.history.lost);
  }

  // -------------------------------------------------- Without wraparound

  ghost predicate NoWrap(s: State) {
    var h := s.history;
    h.wired < TWO_64 && h.wiredBytes < TWO_64 && h.arrived < TWO_64 && h.arrivedBytes < TWO_64
  }

  /** In every state, mid-update ones included, rejected never exceeds
      received. */
  lemma RejectedWithinReceived(s: State, steps: seq<Step>, t: State)
    requires Initial(s) && Reaches(s, steps, t) && NoWrap(t)
    ensures t.counts.rejected <= t.counts.received
  {
    BalancedAlways(s, steps, t);
    ExactWithoutWrap(t);
  }

  lemma ExactWithoutWrap(s: State)
    requires Balanced(s) && NoWrap(s)
    ensures var c, e := s.counts, ExactOf(s);
            && c.sent == e.sent && c.sentBytes == e.sentBytes && c.received == e.received
            && c.receivedBytes == e.receivedBytes && c.rejected == e.rejected
  {
  }

  ghost predicate AtMost(a: Counts, b: Counts) {
    && a.sent <= b.sent && a.sentBytes <= b.sentBytes && a.received <= b.received
    && a.receivedBytes <= b.receivedBytes && a.rejected <= b.rejected
  }

  /** A reading in progress: nothing below the start, nothing above now. */
  ghost predicate Bracketed(r: Reader, now: Counts) {
    r.Reading? ==>
      && |r.loaded| <= 5 && AtMost(r.start, now)
      && forall i :: 0 <= i < |r.loaded| ==> Field(r.start, i) <= r.loaded[i] <= Field(now, i)
  }

  ghost predicate AllBracketed(s: State) {
    forall r :: 0 <= r < |s.readers| ==> Bracketed(s.readers[r], s.counts)
  }

  ghost predicate ExactAtMost(a: Exact, b: Exact) {
    && a.sent <= b.sent && a.sentBytes <= b.sentBytes && a.received <= b.received
    && a.receivedBytes <= b.receivedBytes && a.rejected <= b.rejected
  }

  lemma ExactGrows(s: State, step: Step)
    requires Enabled(s, step)
    ensures ExactAtMost(ExactOf(s), ExactOf(Apply(s, step)))
  {
    match step
    case PutOnWire(i, len) => TotalsUpdate(s.senders, i, Put(len));
    case IncSent(i) => TotalsUpdate(s.senders, i, Tallied(s.senders[i].len));
    case IncSentBytes(i) => TotalsUpdate(s.senders, i, Idle);
    case _ =>
  }

  lemma CountsGrow(s: State, step: Step)
    requires Balanced(s) && Enabled(s, step) && NoWrap(Apply(s, step))
    ensures NoWrap(s) && AtMost(s.counts, Apply(s, step).counts)
  {
    BalancedStep(s, step);
    ExactGrows(s, step);
    ExactWithoutWrap(s);
    ExactWithoutWrap(Apply(s, step));
  }

  lemma BracketedStep(s: State, step: Step)
    requires Balanced(s) && Enabled(s, step) && NoWrap(Apply(s, step)) && AllBracketed(s)
    ensures AllBracketed(Apply(s, step))
  {
    var t := Apply(s, step);
    CountsGrow(s, step);
    forall r | 0 <= r < |t.readers| ensures Bracketed(t.readers[r], t.counts) {
      assert Bracketed(s.readers[r], s.counts);
      assert AtMost(s.counts, t.counts);
    }
  }

  /** Each field of a `counts` result lies between that counter's value when
      the call began and its value now, in every interleaving. */
  lemma {:induction false} SnapshotBracketed(s: State, steps: seq<Step>, t: State)
    requires Initial(s) && Reaches(s, steps, t) && NoWrap(t)
    ensures AllBracketed(t)
  {
    if steps == [] {
    } else {
      var init, last := steps[..|steps| - 1], steps[|steps| - 1];
      var m: State :| Reaches(s, init, m) && Enabled(m, last) && t == Apply(m, last);
      BalancedAlways(s, init, m);
      CountsGrow(m, last);
      SnapshotBracketed(s, init, m);
      BracketedStep(m, last);
    }
  }

  // ------------------------------------------------ When a reading is consistent

  lemma ReachesMore(s: State, steps: seq<Step>, m: State, last: Step, t: State) returns (more: seq<Step>)
    requires Reaches(s, steps, m) && Enabled(m, last) && t == Apply(m, last)
    ensures Reaches(s, more, t)
  {
    more := steps + [last];
    assert more[..|more| - 1] == steps;
  }

  lemma {:induction false} ReachesThrough(s: State, p: seq<Step>, m: State, q: seq<Step>, t: State)
    requires Reaches(s, p, m) && Reaches(m, q, t)
    ensures Reaches(s, p + q, t)
  {
    if q == [] {
      assert p + q == p;
    } else {
      var init, last := q[..|q| - 1], q[|q| - 1];
      var n: State :| Reaches(m, init, n) && Enabled(n, last) && t == Apply(n, last);
      ReachesThrough(s, p, m, init, n);
      assert (p + q)[..|p + q| - 1] == p + init;
    }
  }

  /** How many datagrams the steps refuse. */
  function Refusals(steps: seq<Step>): nat {
    if steps == [] then 0
    else Refusals(steps[..|steps| - 1]) + (if steps[|steps| - 1].Refuse? then 1 else 0)
  }

  /** Whether the datagram in hand is going to be refused. */
  function Underway(x: Receiver): nat {
    if x.Waiting? || x.passes then 0 else 1
  }

  /** Reader `r` is not restarted. */
  ghost predicate Quiet(r: nat, steps: seq<Step>) {
    steps == [] || (steps[|steps| - 1] != BeginCounts(r) && Quiet(r, steps[..|steps| - 1]))
  }

  /** `counts` called by reader `r` in state `m`, with everything the others do
      until its fifth and last load. */
  ghost predicate Window(m: State, r: nat, steps: seq<Step>, t: State) {
    && r < |m.readers| && Reaches(Apply(m, BeginCounts(r)), steps, t) && Quiet(r, steps)
    && steps != [] && steps[|steps| - 1] == LoadNext(r)
    && r < |t.readers| && t.readers[r].Reading? && |t.readers[r].loaded| == 5
  }

  /** A finished reading shows no more rejected than received. */
  ghost predicate Consistent(t: State, r: nat)
    requires r < |t.readers| && t.readers[r].Reading? && |t.readers[r].loaded| == 5
  {
    t.readers[r].loaded[4] <= t.readers[r].loaded[2]
  }

  /** How far rejected is behind received. */
  ghost function Gap(m: State): int {
    m.counts.received - m.counts.rejected
  }

  /** How many datagrams can still be refused before a counter wraps. */
  ghost function Room(m: State): int {
    TWO_64 - 1 - m.history.arrived + Underway(m.receiver)
  }

  /** Along a window the reading keeps its start, rejected grows by the
      refusals, and refusals need arrivals. */
  lemma {:induction false} WindowGrowth(m: State, r: nat, steps: seq<Step>, t: State)
    requires r < |m.readers| && Reaches(Apply(m, BeginCounts(r)), steps, t) && Quiet(r, steps)
    ensures |t.readers| == |m.readers| && t.readers[r].Reading? && t.readers[r].start == m.counts
    ensures t.history.refused == m.history.refused + Refusals(steps)
    ensures Refusals(steps) + Underway(t.receiver) + m.history.arrived <= Underway(m.receiver) + t.history.arrived
  {
    if steps == [] {
    } else {
      var init, last := steps[..|steps| - 1], steps[|steps| - 1];
      var n: State :| Reaches(Apply(m, BeginCounts(r)), init, n) && Enabled(n, last) && t == Apply(n, last);
      WindowGrowth(m, r, init, n);
    }
  }

  lemma WindowConsistent(s: State, p: seq<Step>, m: State, r: nat, steps: seq<Step>, t: State)
    requires Initial(s) && Reaches(s, p, m) && NoWrap(m) && Window(m, r, steps, t) && NoWrap(t)
    requires Refusals(steps) <= Gap(m) || Room(m) <= Gap(m)
    ensures Consistent(t, r)
  {
    var begun := ReachesMore(s, p, m, BeginCounts(r), Apply(m, BeginCounts(r)));
    ReachesThrough(s, begun, Apply(m, BeginCounts(r)), steps, t);
    SnapshotBracketed(s, begun + steps, t);
    assert Bracketed(t.readers[r], t.counts);
    WindowGrowth(m, r, steps, t);
    BalancedAlways(s, p, m);
    BalancedAlways(s, begun + steps, t);
    ExactWithoutWrap(m);
    ExactWithoutWrap(t);
    var reading := t.readers[r];
    assert Field(reading.start, 2) <= reading.loaded[2] && reading.loaded[4] <= Field(t.counts, 4);
  }

  /** Reader `r` undisturbed, after `steps` that refuse `n` datagrams. */
  ghost predicate Onward(a: State, r: nat, steps: seq<Step>, n: nat, t: State) {
    Reaches(a, steps, t) && Quiet(r, steps) && Refusals(steps) == n
  }

  lemma OnwardStep(a: State, r: nat, steps: seq<Step>, n: nat, m: State, step: Step)
    returns (more: seq<Step>)
    requires Onward(a, r, steps, n, m) && Enabled(m, step) && step != BeginCounts(r)
    ensures more == steps + [step]
    ensures Onward(a, r, more, n + (if step.Refuse? then 1 else 0), Apply(m, step))
  {
    more := steps + [step];
    assert more[..|more| - 1] == steps;
  }

  /** The first `n` fields of `c`, as `counts` loads them. */
  function Fields(c: Counts, n: nat): (s: seq<u64>)
    requires n <= 5
    ensures |s| == n
  {
    if n == 0 then [] else Fields(c, n - 1) + [Field(c, n - 1)]
  }

  function LoadedSoFar(m: State, r: nat, n: nat): State
    requires r < |m.readers| && n <= 5
  {
    m.(readers := m.readers[r := Reading(Fields(m.counts, n), m.counts)])
  }

  lemma {:induction false} LoadFirst(m: State, r: nat, n: nat) returns (steps: seq<Step>)
    requires r < |m.readers| && n <= 5
    ensures Onward(Apply(m, BeginCounts(r)), r, steps, 0, LoadedSoFar(m, r, n))
  {
    if n == 0 {
      steps := [];
    } else {
      var before := LoadFirst(m, r, n - 1);
      var x := LoadedSoFar(m, r, n - 1);
      steps := OnwardStep(Apply(m, BeginCounts(r)), r, before, 0, x, LoadNext(r));
      assert x.readers[r := Reading(Fields(m.counts, n), m.counts)] == LoadedSoFar(m, r, n).readers;
    }
  }

  /** A reading nothing interferes with: the five counters, each in its place. */
  lemma UndisturbedReading(m: State, r: nat) returns (steps: seq<Step>, t: State)
    requires r < |m.readers|
    ensures Window(m, r, steps, t) && t.counts == m.counts
    ensures t.readers[r].loaded == [m.counts.sent, m.counts.sentBytes, m.counts.received, m.counts.receivedBytes,
                                    m.counts.rejected]
  {
    var x := LoadedSoFar(m, r, 4);
    steps := LoadFirst(m, r, 4);
    t := Apply(x, LoadNext(r));
    steps := OnwardStep(Apply(m, BeginCounts(r)), r, steps, 0, x, LoadNext(r));
    var c := m.counts;
    assert Fields(c, 0) == [] && Fields(c, 1) == [c.sent] && Fields(c, 2) == [c.sent, c.sentBytes];
    assert Fields(c, 3) == [c.sent, c.sentBytes, c.received];
    assert Fields(c, 4) == [c.sent, c.sentBytes, c.received, c.receivedBytes];
  }

  /** Only the receiver moved: it refused `n` datagrams, and as many as
      `arrivals` empty ones arrived. */
  ghost predicate ReceiverRan(m: State, t: State, n: nat, arrivals: nat) {
    && t.receiver == Waiting && t.readers == m.readers
    && t.history == m.history.(arrived := m.history.arrived + arrivals, refused := m.history.refused + n,
                               delivered := t.history.delivered)
  }

  function NextStep(x: Receiver): Step
    requires !x.Waiting?
  {
    match x
    case Read(_, _) => IncReceived
    case Counted(_, _) => IncReceivedBytes
    case Sized(passes) => if passes then Deliver else Refuse
  }

  function Distance(x: Receiver): nat {
    match x
    case Waiting => 0
    case Read(_, _) => 3
    case Counted(_, _) => 2
    case Sized(_) => 1
  }

  /** The receiver finishes the datagram in hand. */
  lemma {:induction false} FinishInHand(a: State, r: nat, steps: seq<Step>, n: nat, m: State)
    returns (more: seq<Step>, t: State)
    requires Onward(a, r, steps, n, m)
    ensures Onward(a, r, more, n + Underway(m.receiver), t)
    ensures ReceiverRan(m, t, Underway(m.receiver), 0)
    decreases Distance(m.receiver)
  {
    if m.receiver == Waiting {
      more, t := steps, m;
    } else {
      var step := NextStep(m.receiver);
      more := OnwardStep(a, r, steps, n, m, step);
      more, t := FinishInHand(a, r, more, n + (if step.Refuse? then 1 else 0), Apply(m, step));
    }
  }

  /** Then it refuses any number of empty datagrams. */
  lemma {:induction false} RefuseMany(a: State, r: nat, steps: seq<Step>, n: nat, m: State, k: nat)
    returns (more: seq<Step>, t: State)
    requires Onward(a, r, steps, n, m) && m.receiver == Waiting
    ensures Onward(a, r, more, n + k, t) && ReceiverRan(m, t, k, k)
  {
    if k == 0 {
      more, t := steps, m;
    } else {
      var before, x := RefuseMany(a, r, steps, n, m, k - 1);
      var arriving := OnwardStep(a, r, before, n + k - 1, x, Arrive(0, false));
      more, t := FinishInHand(a, r, arriving, n + k - 1, Apply(x, Arrive(0, false)));
    }
  }

  /** Four loads, one refusal more than rejected is behind, the fifth load. */
  lemma TornReading(s: State, p: seq<Step>, m: State, r: nat) returns (steps: seq<Step>, t: State)
    requires Initial(s) && Reaches(s, p, m) && NoWrap(m) && r < |m.readers| && Gap(m) < Room(m)
    ensures Window(m, r, steps, t) && NoWrap(t) && Refusals(steps) == Gap(m) + 1
    ensures t.readers[r].loaded[..4] == Fields(m.counts, 4)
    ensures t.readers[r].loaded[4] as int == m.counts.received + 1
  {
    RejectedWithinReceived(s, p, m);
    var a, u, gap: nat := Apply(m, BeginCounts(r)), Underway(m.receiver), Gap(m);
    var x := LoadedSoFar(m, r, 4);
    steps := LoadFirst(m, r, 4);
    steps, t := FinishInHand(a, r, steps, 0, x);
    var y;
    steps, y := RefuseMany(a, r, steps, u, t, gap + 1 - u);
    TornCount(s, p, m, r, steps, y, gap + 1);
    t := Apply(y, LoadNext(r));
    steps := OnwardStep(a, r, steps, gap + 1, y, LoadNext(r));
  }

  lemma TornCount(s: State, p: seq<Step>, m: State, r: nat, steps: seq<Step>, y: State, n: nat)
    requires Initial(s) && Reaches(s, p, m) && NoWrap(m) && r < |m.readers|
    requires Reaches(Apply(m, BeginCounts(r)), steps, y) && NoWrap(y) && y.history.refused == m.history.refused + n
    ensures y.counts.rejected as int == m.counts.rejected + n
  {
    var begun := ReachesMore(s, p, m, BeginCounts(r), Apply(m, BeginCounts(r)));
    ReachesThrough(s, begun, Apply(m, BeginCounts(r)), steps, y);
    BalancedAlways(s, p, m);
    BalancedAlways(s, begun + steps, y);
    ExactWithoutWrap(m);
    ExactWithoutWrap(y);
  }

  /** `received` is loaded before `rejected`, so a reading can show more
      rejected than received although no state does. Exactly when: readings
      begun in `m` are safe against up to `k` refusals, whatever else
      interleaves, if and only if rejected is at least `k` behind when the
      reading begins, or so far behind that a counter would wrap first. */
  lemma ReadingConsistentIff(s: State, p: seq<Step>, m: State, r: nat, k: nat)
    requires Initial(s) && Reaches(s, p, m) && NoWrap(m) && r < |m.readers|
    ensures (k <= Gap(m) || Room(m) <= Gap(m))
       <==> forall steps: seq<Step>, t: State ::
              Window(m, r, steps, t) && NoWrap(t) && Refusals(steps) <= k ==> Consistent(t, r)
  {
    if k <= Gap(m) || Room(m) <= Gap(m) {
      forall steps: seq<Step>, t: State | Window(m, r, steps, t) && NoWrap(t) && Refusals(steps) <= k
        ensures Consistent(t, r)
      {
        WindowConsistent(s, p, m, r, steps, t);
      }
    } else {
      var steps, t := TornReading(s, p, m, r);
      assert t.readers[r].loaded[2] == t.readers[r].loaded[..4][2] == Fields(m.counts, 4)[2] == m.counts.received;
      assert !Consistent(t, r);
    }
  }

  /** From the start already: one refusal is enough. */
  lemma SnapshotNotAtomic(s: State, r: nat) returns (steps: seq<Step>, t: State)
    requires Initial(s) && r < |s.readers|
    ensures Window(s, r, steps, t) && NoWrap(t)
    ensures t.readers[r].loaded == [0, 0, 0, 0, 1]
  {
    steps, t := TornReading(s, [], s, r);
    var loaded := t.readers[r].loaded;
    assert loaded == loaded[..4] + [loaded[4]];
    assert Fields(s.counts, 4) == [0, 0, 0, 0];
  }
}
