/**
 Receive errors: which of those a call consumes it reports, said of what the
 call returned and of what is known before it is made.
 */
module ReceiveErrors {
  import opened Wire
  import opened Io
  import opened Receive
  import opened ReceiveRuns

  /** Neither a drained socket nor an echo of an earlier send. */
  predicate Unrecoverable(k: ErrorKind) {
    !k.WouldBlock? && !IsTransient(k)
  }

  /** Such an error was consumed. */
  ghost predicate Met(inbox: seq<Incoming>, rest: seq<Incoming>, k: ErrorKind) {
    Unrecoverable(k) && Failure(k) in Used(inbox, rest)
  }

  lemma MetNothing(inbox: seq<Incoming>, k: ErrorKind)
    ensures !Met(inbox, inbox, k)
  {
    UsedNothing(inbox);
  }

  lemma MetFirst(inbox: seq<Incoming>, k: ErrorKind)
    requires inbox != []
    ensures Leaves(inbox, inbox[1..]) && (Met(inbox, inbox[1..], k) <==> Unrecoverable(k) && inbox[0] == Failure(k))
  {
    UsedOne(inbox);
  }

  lemma MetThrough(inbox: seq<Incoming>, mid: seq<Incoming>, rest: seq<Incoming>, k: ErrorKind)
    requires Leaves(inbox, mid) && Leaves(mid, rest)
    ensures Met(inbox, rest, k) <==> Met(inbox, mid, k) || Met(mid, rest, k)
  {
    UsedConcat(inbox, mid, rest);
  }

  /** The inner loop stops at the first unrecoverable error it meets. */
  lemma {:induction false} FillStops(f: Filter, rooms: seq<nat>, metas: nat, inbox: seq<Incoming>,
                                     kept: seq<Datagram>, taken: seq<Datagram>, k: ErrorKind)
    ensures var b := FillFrom(f, rooms, metas, inbox, kept, taken);
            b.stop == Fatal(k) <==> Met(inbox, b.rest, k)
    decreases |inbox|
  {
    MetNothing(inbox, k);
    if |kept| >= |rooms| || inbox == [] {
    } else {
      var tail := inbox[1..];
      MetFirst(inbox, k);
      match inbox[0]
      case Failure(_) =>
      case Arrival(d) =>
        var seen := Shorten(d, rooms[|kept|]);
        if f(seen) && |kept| >= metas {
        } else {
          var kept' := KeptAfter(f, kept, seen);
          FillNext(f, rooms, metas, inbox, kept, taken);
          FillStops(f, rooms, metas, tail, kept', taken + [seen], k);
          FillConsumes(f, rooms, metas, tail, kept', taken + [seen]);
          MetThrough(inbox, tail, FillFrom(f, rooms, metas, tail, kept', taken + [seen]).rest, k);
        }
    }
  }

  /** The call reports error `k` exactly when its last readiness poll failed
      with it, or it consumed it as an unrecoverable receive error and had
      nothing to hand over. */
  ghost predicate ReportsExactly(c: Call, signals: nat -> Readiness, inbox: seq<Incoming>, k: ErrorKind) {
    && c.tick > 0
    && (c.result == Error(k) <==> signals(c.tick - 1) == Broken(k) || (Met(inbox, c.inbox, k) && c.delivered == []))
  }

  lemma ReportsThrough(c: Call, signals: nat -> Readiness, inbox: seq<Incoming>, mid: seq<Incoming>, k: ErrorKind)
    requires Leaves(inbox, mid) && Leaves(mid, c.inbox) && !Met(inbox, mid, k)
    requires ReportsExactly(c, signals, mid, k)
    ensures ReportsExactly(c, signals, inbox, k)
  {
    MetThrough(inbox, mid, c.inbox, k);
  }

  /** What one round consumed, and whether it stopped at error `k`. */
  ghost predicate RoundMeets(b: Batch, inbox: seq<Incoming>, k: ErrorKind) {
    Leaves(inbox, b.rest) && (b.stop == Fatal(k) <==> Met(inbox, b.rest, k))
  }

  lemma RoundStops(f: Filter, rooms: seq<nat>, metas: nat, signals: nat -> Readiness, tick: nat,
                   inbox: seq<Incoming>, k: ErrorKind)
    requires rooms != []
    ensures var b := RoundOf(f, rooms, metas, signals, tick, inbox);
            && RoundMeets(b, inbox, k)
            && (Poll(signals, tick, inbox) == Readable ==> |b.rest| < |inbox|)
            && (Poll(signals, tick, inbox) != Readable ==> b == Batch([], [], [], inbox, Full))
  {
    MetNothing(inbox, k);
    UsedNothing(inbox);
    FillStops(f, rooms, metas, inbox, [], [], k);
    FillConsumes(f, rooms, metas, inbox, [], []);
  }

  /** The round that ends a call. */
  lemma ReportsAtEnd(b: Batch, c: Call, signals: nat -> Readiness, inbox: seq<Incoming>, k: ErrorKind)
    requires RoundMeets(b, inbox, k) && c.tick > 0 && c.delivered == b.kept && c.inbox == b.rest
    requires RoundResult(Poll(signals, c.tick - 1, inbox), b) == Some(c.result)
    requires Poll(signals, c.tick - 1, inbox) != Readable ==> b.kept == [] && b.stop == Full
    ensures ReportsExactly(c, signals, inbox, k)
  {
  }

  /** Transient errors never end the endpoint, and an unrecoverable one met
      behind kept datagrams is never reported. */
  lemma {:induction false} ErrorReportedIff(f: Filter, rooms: seq<nat>, metas: nat, signals: nat -> Readiness,
                                            tick: nat, inbox: seq<Incoming>,
                                            taken: seq<Datagram>, lost: seq<Datagram>, k: ErrorKind)
    requires rooms != []
    ensures ReportsExactly(PollFrom(f, rooms, metas, signals, tick, inbox, taken, lost), signals, inbox, k)
    decreases |inbox|
  {
    var b := RoundOf(f, rooms, metas, signals, tick, inbox);
    PollByRounds(f, rooms, metas, signals, tick, inbox, taken, lost);
    RoundStops(f, rooms, metas, signals, tick, inbox, k);
    if RoundResult(Poll(signals, tick, inbox), b).Some? {
      ReportsAtEnd(b, PollFrom(f, rooms, metas, signals, tick, inbox, taken, lost), signals, inbox, k);
    } else {
      var taken', lost' := taken + b.taken, lost + b.lost;
      ErrorReportedIff(f, rooms, metas, signals, tick + 1, b.rest, taken', lost', k);
      PollConsumes(f, rooms, metas, signals, tick + 1, b.rest, taken', lost');
      ReportsThrough(PollFrom(f, rooms, metas, signals, tick + 1, b.rest, taken', lost'), signals, inbox, b.rest, k);
    }
  }

  /** What becomes of each kind of error when nothing else is there to read:
      all but one leave the call waiting, or failing on its next poll. */
  lemma LoneError(f: Filter, rooms: seq<nat>, metas: nat, signals: nat -> Readiness, tick: nat, k: ErrorKind)
    requires rooms != [] && signals(tick) == Readable
    ensures var waiting := if signals(tick + 1).Broken? then Error(signals(tick + 1).kind) else Pending;
            var c := Polled(f, rooms, metas, signals, tick, [Failure(k)]);
            && c.inbox == [] && c.taken == []
            && c.result == match k
                           case WouldBlock => waiting
                           case ConnectionRefused => waiting
                           case ConnectionReset => waiting
                           case HostUnreachable => waiting
                           case NetworkUnreachable => waiting
                           case OtherError(_) => Error(k)
  {
    var inbox := [Failure(k)];
    assert inbox[1..] == [];
    PollByRounds(f, rooms, metas, signals, tick, inbox, [], []);
    if !k.OtherError? {
      PollByRounds(f, rooms, metas, signals, tick + 1, [], [] + [], [] + []);
    }
  }

  // ------------------------------------------------ Known before the call

  ghost predicate AllArrivals(s: seq<Incoming>) {
    forall i :: 0 <= i < |s| ==> s[i].Arrival?
  }

  /** Every error in `s` is WouldBlock or transient. */
  ghost predicate Survivable(s: seq<Incoming>) {
    forall i :: 0 <= i < |s| ==> s[i].Failure? ==> !Unrecoverable(s[i].kind)
  }

  /** How many datagrams of `s` pass. */
  ghost function Passing(f: Filter, s: seq<Incoming>): nat {
    |Survivors(f, Arrivals(s))|
  }

  lemma {:induction false} PassingConcat(f: Filter, a: seq<Incoming>, b: seq<Incoming>)
    ensures Passing(f, a + b) == Passing(f, a) + Passing(f, b)
  {
    ArrivalsConcat(a, b);
    SurvivorsConcat(f, Arrivals(a), Arrivals(b));
  }

  lemma PassingOne(f: Filter, i: Incoming)
    ensures Passing(f, [i]) == if i.Arrival? && f(i.datagram) then 1 else 0
  {
    ArrivalsOne(i);
    if i.Arrival? {
      SurvivorsSnoc(f, [], i.datagram);
      assert [] + [i.datagram] == [i.datagram];
    }
  }

  /** How many errors `s` holds, each of which ends a round. */
  ghost function Lulls(s: seq<Incoming>): nat {
    if s == [] then 0 else (if s[0].Failure? then 1 else 0) + Lulls(s[1..])
  }

  /** The readiness polls of `n` rounds that end empty-handed and one more. */
  ghost predicate StaysReadable(signals: nat -> Readiness, tick: nat, n: nat) {
    forall t :: tick <= t <= tick + n ==> signals(t) == Readable
  }

  /** A script up to an unrecoverable error: first everything up to the last
      error before it, then the arrivals in between. */
  ghost predicate Splits(earlier: seq<Incoming>, latest: seq<Incoming>, k: ErrorKind) {
    && Survivable(earlier) && (earlier == [] || earlier[|earlier| - 1].Failure?)
    && AllArrivals(latest) && Unrecoverable(k)
  }

  ghost function Script(earlier: seq<Incoming>, latest: seq<Incoming>, k: ErrorKind,
                        rest: seq<Incoming>): seq<Incoming>
  {
    earlier + (latest + ([Failure(k)] + rest))
  }

  /** Every script with an unrecoverable error splits at its first one. */
  lemma {:induction false} SplitAtError(inbox: seq<Incoming>)
    returns (earlier: seq<Incoming>, latest: seq<Incoming>, k: ErrorKind, rest: seq<Incoming>)
    requires !Survivable(inbox)
    ensures Splits(earlier, latest, k) && inbox == Script(earlier, latest, k, rest)
  {
    var first, tail := inbox[0], inbox[1..];
    assert inbox == [first] + tail;
    if first.Failure? && Unrecoverable(first.kind) {
      earlier, latest, k, rest := [], [], first.kind, tail;
    } else {
      earlier, latest, k, rest := SplitAtError(tail);
      if earlier == [] && first.Arrival? {
        latest := [first] + latest;
      } else {
        earlier := [first] + earlier;
      }
    }
  }

  /** Where a round over the arrivals `mid` and the error after them ends, `n`
      being how many it has room to keep. */
  ghost predicate RoundFate(b: Batch, n: nat, room: nat, metas: nat, k: ErrorKind, after: seq<Incoming>) {
    if n < room && n <= metas then |b.kept| == n && b.rest == after && b.stop == StopFor(k)
    else b.kept != [] && |b.rest| > |after| && !b.stop.Fatal?
  }

  lemma {:induction false} FillFate(f: Filter, rooms: seq<nat>, metas: nat, mid: seq<Incoming>, k: ErrorKind,
                                    after: seq<Incoming>, kept: seq<Datagram>, taken: seq<Datagram>, least: nat)
    requires Robust(f, least) && AllRoomy(rooms, least) && AllArrivals(mid)
    requires 0 < metas && |kept| <= metas && |kept| <= |rooms| && rooms != []
    ensures RoundFate(FillFrom(f, rooms, metas, mid + ([Failure(k)] + after), kept, taken),
                      |kept| + Passing(f, mid), |rooms|, metas, k, after)
    decreases |mid|
  {
    var inbox := mid + ([Failure(k)] + after);
    if |kept| == |rooms| {
    } else if mid == [] {
      assert inbox == [Failure(k)] + after && inbox[1..] == after;
      assert Passing(f, mid) == 0;
    } else {
      var d, tail := mid[0].datagram, mid[1..];
      var seen := Shorten(d, rooms[|kept|]);
      assert f(seen) == f(d);
      assert mid == [mid[0]] + tail && inbox[1..] == tail + ([Failure(k)] + after);
      PassingOne(f, mid[0]);
      PassingConcat(f, [mid[0]], tail);
      if f(seen) && |kept| >= metas {
      } else {
        FillNext(f, rooms, metas, inbox, kept, taken);
        FillFate(f, rooms, metas, tail, k, after, KeptAfter(f, kept, seen), taken + [seen], least);
      }
    }
  }

  /** Whether the call gets as far as the error. */
  ghost predicate Reached(f: Filter, rooms: seq<nat>, metas: nat, signals: nat -> Readiness, tick: nat,
                          earlier: seq<Incoming>, latest: seq<Incoming>)
  {
    && Passing(f, earlier) == 0 && StaysReadable(signals, tick, Lulls(earlier))
    && Passing(f, latest) < |rooms| && Passing(f, latest) <= metas
  }

  /** The error is consumed exactly if the call reaches it; it is then reported
      exactly if nothing has passed since the error before it. */
  ghost predicate Fate(c: Call, reached: bool, passing: nat, k: ErrorKind, rest: seq<Incoming>) {
    if reached then c.inbox == rest && c.result == if passing == 0 then Error(k) else Ready(passing)
    else |c.inbox| > |rest|
  }

  lemma {:induction false} FirstLull(s: seq<Incoming>)
    returns (mid: seq<Incoming>, k: ErrorKind, after: seq<Incoming>)
    requires !AllArrivals(s)
    ensures AllArrivals(mid) && s == mid + ([Failure(k)] + after) && Lulls(s) == 1 + Lulls(after)
  {
    assert s == [s[0]] + s[1..];
    if s[0].Failure? {
      mid, k, after := [], s[0].kind, s[1..];
    } else {
      mid, k, after := FirstLull(s[1..]);
      mid := [s[0]] + mid;
    }
  }

  lemma ReadableNext(signals: nat -> Readiness, tick: nat, n: nat)
    ensures StaysReadable(signals, tick, n + 1) <==> signals(tick) == Readable && StaysReadable(signals, tick + 1, n)
  {
  }

  lemma ScriptRegroups(mid: seq<Incoming>, k': ErrorKind, after: seq<Incoming>, latest: seq<Incoming>, k: ErrorKind,
                       rest: seq<Incoming>)
    ensures Script(mid + ([Failure(k')] + after), latest, k, rest)
         == mid + ([Failure(k')] + Script(after, latest, k, rest))
  {
  }

  lemma {:induction false} PassingRegroups(f: Filter, mid: seq<Incoming>, k: ErrorKind, after: seq<Incoming>)
    ensures Passing(f, mid + ([Failure(k)] + after)) == Passing(f, mid) + Passing(f, after)
  {
    PassingConcat(f, mid, [Failure(k)] + after);
    PassingConcat(f, [Failure(k)], after);
    PassingOne(f, Failure(k));
  }

  /** Splitting off the first round of `earlier`. */
  lemma {:induction false} EarlierRounds(f: Filter, earlier: seq<Incoming>, latest: seq<Incoming>, k: ErrorKind,
                                         rest: seq<Incoming>)
    returns (mid: seq<Incoming>, k': ErrorKind, after: seq<Incoming>)
    requires Splits(earlier, latest, k) && earlier != []
    ensures AllArrivals(mid) && StopFor(k') == Drained && Splits(after, latest, k) && |after| < |earlier|
    ensures Script(earlier, latest, k, rest) == mid + ([Failure(k')] + Script(after, latest, k, rest))
    ensures Lulls(earlier) == Lulls(after) + 1 && Passing(f, earlier) == Passing(f, mid) + Passing(f, after)
  {
    mid, k', after := FirstLull(earlier);
    assert earlier[|mid|] == Failure(k') && earlier[|mid| + 1..] == after;
    assert after != [] ==> after[|after| - 1] == earlier[|earlier| - 1];
    ScriptRegroups(mid, k', after, latest, k, rest);
    PassingRegroups(f, mid, k', after);
  }

  /** What becomes of the first unrecoverable error of a script, from what is
      known before the call. It is consumed exactly when nothing passes in the
      rounds before, every poll up to its own round finds the socket readable,
      and what passes in its own round leaves a buffer and stays within the
      metas. Consumed, it is reported exactly when nothing passes in its own
      round either; otherwise those datagrams are handed over and the error is
      gone. */
  lemma {:induction false} ErrorFate(f: Filter, rooms: seq<nat>, metas: nat, signals: nat -> Readiness, tick: nat,
                                     earlier: seq<Incoming>, latest: seq<Incoming>, k: ErrorKind,
                                     rest: seq<Incoming>, taken: seq<Datagram>, lost: seq<Datagram>, least: nat)
    requires rooms != [] && metas > 0 && Robust(f, least) && AllRoomy(rooms, least) && Splits(earlier, latest, k)
    ensures Fate(PollFrom(f, rooms, metas, signals, tick, Script(earlier, latest, k, rest), taken, lost),
                 Reached(f, rooms, metas, signals, tick, earlier, latest), Passing(f, latest), k, rest)
    decreases |earlier|
  {
    var inbox := Script(earlier, latest, k, rest);
    var b := RoundOf(f, rooms, metas, signals, tick, inbox);
    PollByRounds(f, rooms, metas, signals, tick, inbox, taken, lost);
    if signals(tick) != Readable {
    } else if earlier == [] {
      assert inbox == latest + ([Failure(k)] + rest);
      FillFate(f, rooms, metas, latest, k, rest, [], [], least);
      assert StaysReadable(signals, tick, 0);
    } else {
      var mid, k', after := EarlierRounds(f, earlier, latest, k, rest);
      var next := Script(after, latest, k, rest);
      FillFate(f, rooms, metas, mid, k', next, [], [], least);
      ReadableNext(signals, tick, Lulls(after));
      if Passing(f, mid) == 0 {
        ErrorFate(f, rooms, metas, signals, tick + 1, after, latest, k, rest, taken + b.taken, lost + b.lost, least);
      }
    }
  }

  /** The smallest case: one datagram that passes, then the error, and room for
      two. The call is ready, the script is empty and nobody hears of `k`. */
  lemma ErrorSwallowed(f: Filter, rooms: seq<nat>, metas: nat, signals: nat -> Readiness, tick: nat,
                       d: Datagram, k: ErrorKind)
    requires |rooms| >= 2 && metas >= 1 && signals(tick) == Readable
    requires f(Shorten(d, rooms[0])) && Unrecoverable(k)
    ensures var inbox := [Arrival(d), Failure(k)];
            var c := Polled(f, rooms, metas, signals, tick, inbox);
            && c.result == Ready(1) && c.delivered == [Shorten(d, rooms[0])]
            && c.inbox == [] && Met(inbox, c.inbox, k)
  {
    var inbox := [Arrival(d), Failure(k)];
    FillNext(f, rooms, metas, inbox, [], []);
    assert inbox[1..] == [Failure(k)] && [Failure(k)][1..] == [];
    var kept := KeptAfter(f, [], Shorten(d, rooms[0]));
    assert kept == [Shorten(d, rooms[0])];
    PollByRounds(f, rooms, metas, signals, tick, inbox, [], []);
    assert inbox[..2] == inbox && inbox[1] == Failure(k);
  }
}
