/**
 Whole runs of `poll_recv`: any number of calls, with any buffers, over any
 kernel script. What is handed over is the arrivals filtered by the gate.
 */
module ReceiveRuns {
  import opened Wire
  import opened Auth
  import opened Header
  import opened Io
  import opened Receive
  import Send

  // ------------------------------------------------------- Filtered sequences

  lemma {:induction false} SurvivorsConcat(f: Filter, a: seq<Datagram>, b: seq<Datagram>)
    ensures Survivors(f, a + b) == Survivors(f, a) + Survivors(f, b)
  {
    if b == [] {
      assert a + b == a;
    } else {
      var init, last := b[..|b| - 1], b[|b| - 1];
      SurvivorsConcat(f, a, init);
      assert (a + b)[..|a + b| - 1] == a + init && (a + b)[|a + b| - 1] == last;
      SurvivorsUnfold(f, a + b);
      SurvivorsUnfold(f, b);
      AppendAssociates(Survivors(f, a), Survivors(f, init), if f(last) then [last] else []);
    }
  }

  lemma SurvivorsUnfold(f: Filter, b: seq<Datagram>)
    requires b != []
    ensures Survivors(f, b) == Survivors(f, b[..|b| - 1]) + (if f(b[|b| - 1]) then [b[|b| - 1]] else [])
  {
  }

  function ArrivalOf(i: Incoming): seq<Datagram> {
    match i
    case Arrival(d) => [d]
    case Failure(_) => []
  }

  /** The datagrams of a script. */
  function Arrivals(inbox: seq<Incoming>): seq<Datagram> {
    if inbox == [] then [] else Arrivals(inbox[..|inbox| - 1]) + ArrivalOf(inbox[|inbox| - 1])
  }

  lemma {:induction false} ArrivalsConcat(a: seq<Incoming>, b: seq<Incoming>)
    ensures Arrivals(a + b) == Arrivals(a) + Arrivals(b)
  {
    if b == [] {
      assert a + b == a;
    } else {
      var init, last := b[..|b| - 1], b[|b| - 1];
      ArrivalsConcat(a, init);
      assert (a + b)[..|a + b| - 1] == a + init && (a + b)[|a + b| - 1] == last;
      ArrivalsUnfold(a + b);
      ArrivalsUnfold(b);
      AppendAssociates(Arrivals(a), Arrivals(init), ArrivalOf(last));
    }
  }

  lemma ArrivalsUnfold(b: seq<Incoming>)
    requires b != []
    ensures Arrivals(b) == Arrivals(b[..|b| - 1]) + ArrivalOf(b[|b| - 1])
  {
  }

  /** The datagrams in the part of a script that was consumed. */
  ghost function Consumed(inbox: seq<Incoming>, rest: seq<Incoming>): seq<Datagram> {
    Arrivals(Used(inbox, rest))
  }

  lemma ConsumedNothing(inbox: seq<Incoming>)
    ensures Leaves(inbox, inbox) && Consumed(inbox, inbox) == []
  {
    UsedNothing(inbox);
  }

  lemma ConsumedConcat(inbox: seq<Incoming>, mid: seq<Incoming>, rest: seq<Incoming>)
    requires Leaves(inbox, mid) && Leaves(mid, rest)
    ensures Leaves(inbox, rest) && Consumed(inbox, rest) == Consumed(inbox, mid) + Consumed(mid, rest)
  {
    UsedConcat(inbox, mid, rest);
    ArrivalsConcat(Used(inbox, mid), Used(mid, rest));
  }

  lemma ArrivalsOne(i: Incoming)
    ensures Arrivals([i]) == ArrivalOf(i)
  {
    assert [i][..0] == [] && Arrivals([]) == [];
    assert [] + ArrivalOf(i) == ArrivalOf(i);
  }

  lemma ConsumedOne(inbox: seq<Incoming>)
    requires inbox != []
    ensures Leaves(inbox, inbox[1..])
    ensures Consumed(inbox, inbox[1..]) == ArrivalOf(inbox[0])
  {
    UsedOne(inbox);
    ArrivalsOne(inbox[0]);
  }

  /** `seen` is `d` cut to one of the given buffer sizes. */
  ghost predicate Trimmed(sizes: set<nat>, seen: Datagram, d: Datagram) {
    exists room :: room in sizes && seen == Shorten(d, room)
  }

  ghost predicate TrimmedAll(sizes: set<nat>, taken: seq<Datagram>, arrivals: seq<Datagram>) {
    |taken| == |arrivals| && forall i :: 0 <= i < |taken| ==> Trimmed(sizes, taken[i], arrivals[i])
  }

  ghost predicate AllOf(rooms: seq<nat>, sizes: set<nat>) {
    forall i :: 0 <= i < |rooms| ==> rooms[i] in sizes
  }

  lemma TrimmedConcat(sizes: set<nat>, t: seq<Datagram>, a: seq<Datagram>, t': seq<Datagram>, a': seq<Datagram>)
    requires TrimmedAll(sizes, t, a) && TrimmedAll(sizes, t', a')
    ensures TrimmedAll(sizes, t + t', a + a')
  {
  }

  lemma TrimmedSnoc(sizes: set<nat>, t: seq<Datagram>, a: seq<Datagram>, d: Datagram, room: nat)
    requires TrimmedAll(sizes, t, a) && room in sizes
    ensures TrimmedAll(sizes, t + [Shorten(d, room)], a + [d])
  {
    assert Trimmed(sizes, Shorten(d, room), d);
  }

  lemma TrimmedExtend(sizes: set<nat>, taken: seq<Datagram>, past: seq<Datagram>, more: seq<Datagram>,
                      inbox: seq<Incoming>, rest: seq<Incoming>)
    requires TrimmedAll(sizes, taken, past) && TrimmedAll(sizes, more, [] + Consumed(inbox, rest))
    ensures TrimmedAll(sizes, taken + more, past + Consumed(inbox, rest))
  {
    assert [] + Consumed(inbox, rest) == Consumed(inbox, rest);
    TrimmedConcat(sizes, taken, past, more, Consumed(inbox, rest));
  }

  lemma TrimmedThrough(sizes: set<nat>, taken: seq<Datagram>, past: seq<Datagram>,
                       inbox: seq<Incoming>, mid: seq<Incoming>, rest: seq<Incoming>)
    requires Leaves(inbox, mid) && Leaves(mid, rest)
    requires TrimmedAll(sizes, taken, past + Consumed(inbox, mid) + Consumed(mid, rest))
    ensures TrimmedAll(sizes, taken, past + Consumed(inbox, rest))
  {
    ConsumedConcat(inbox, mid, rest);
    assert past + Consumed(inbox, mid) + Consumed(mid, rest) == past + (Consumed(inbox, mid) + Consumed(mid, rest));
  }

  lemma TrimmedStill(sizes: set<nat>, taken: seq<Datagram>, past: seq<Datagram>, inbox: seq<Incoming>)
    requires TrimmedAll(sizes, taken, past)
    ensures TrimmedAll(sizes, taken, past + Consumed(inbox, inbox))
  {
    ConsumedNothing(inbox);
    assert past + [] == past;
  }

  // ------------------------------------------------------------ The inner loop

  /** What the inner loop kept, followed by what it lost, is the survivors of
      what it read. */
  lemma {:induction false} FillKeepsSurvivors(f: Filter, rooms: seq<nat>, metas: nat, inbox: seq<Incoming>,
                                              kept: seq<Datagram>, taken: seq<Datagram>)
    requires kept == Survivors(f, taken) && |kept| <= |rooms| && |kept| <= metas
    ensures var b := FillFrom(f, rooms, metas, inbox, kept, taken);
            && Survivors(f, b.taken) == b.kept + b.lost
            && |b.kept| <= |rooms| && |b.kept| <= metas
            && (b.lost != [] ==> |b.kept| == metas < |rooms|)
    decreases |inbox|
  {
    if |kept| >= |rooms| || inbox == [] || inbox[0].Failure? {
    } else {
      var seen := Shorten(inbox[0].datagram, rooms[|kept|]);
      SurvivorsSnoc(f, taken, seen);
      if !f(seen) {
        assert Survivors(f, taken + [seen]) == kept;
        FillKeepsSurvivors(f, rooms, metas, inbox[1..], kept, taken + [seen]);
      } else if |kept| < metas {
        FillKeepsSurvivors(f, rooms, metas, inbox[1..], kept + [seen], taken + [seen]);
      }
    }
  }

  /** What is kept once `seen` has been judged. */
  function KeptAfter(f: Filter, kept: seq<Datagram>, seen: Datagram): seq<Datagram> {
    if f(seen) then kept + [seen] else kept
  }

  /** The inner loop goes on after a datagram it rejects or has a meta for. */
  lemma FillNext(f: Filter, rooms: seq<nat>, metas: nat, inbox: seq<Incoming>,
                 kept: seq<Datagram>, taken: seq<Datagram>)
    requires |kept| < |rooms| && inbox != [] && inbox[0].Arrival?
    requires f(Shorten(inbox[0].datagram, rooms[|kept|])) ==> |kept| < metas
    ensures var seen := Shorten(inbox[0].datagram, rooms[|kept|]);
            FillFrom(f, rooms, metas, inbox, kept, taken)
            == FillFrom(f, rooms, metas, inbox[1..], KeptAfter(f, kept, seen), taken + [seen])
  {
  }

  /** What the inner loop read is the arrivals it consumed, cut to fit: `past`
      stands for those consumed before. */
  lemma {:induction false} FillReadsArrivals(f: Filter, rooms: seq<nat>, metas: nat, inbox: seq<Incoming>,
                                             kept: seq<Datagram>, taken: seq<Datagram>,
                                             past: seq<Datagram>, sizes: set<nat>)
    requires AllOf(rooms, sizes) && TrimmedAll(sizes, taken, past)
    ensures var b := FillFrom(f, rooms, metas, inbox, kept, taken);
            TrimmedAll(sizes, b.taken, past + Consumed(inbox, b.rest))
    decreases |inbox|
  {
    TrimmedStill(sizes, taken, past, inbox);
    if |kept| >= |rooms| || inbox == [] {
    } else {
      var tail := inbox[1..];
      ConsumedOne(inbox);
      match inbox[0]
      case Failure(_) =>
        assert past + [] == past;
      case Arrival(d) =>
        var seen := Shorten(d, rooms[|kept|]);
        TrimmedSnoc(sizes, taken, past, d, rooms[|kept|]);
        if f(seen) && |kept| >= metas {
        } else {
          var kept' := KeptAfter(f, kept, seen);
          var b := FillFrom(f, rooms, metas, tail, kept', taken + [seen]);
          FillNext(f, rooms, metas, inbox, kept, taken);
          FillReadsArrivals(f, rooms, metas, tail, kept', taken + [seen], past + [d], sizes);
          FillConsumes(f, rooms, metas, tail, kept', taken + [seen]);
          TrimmedThrough(sizes, b.taken, past, inbox, tail, b.rest);
        }
    }
  }

  // ----------------------------------------------------------------- One call

  lemma RoundKeepsSurvivors(f: Filter, rooms: seq<nat>, metas: nat, inbox: seq<Incoming>,
                            taken: seq<Datagram>, lost: seq<Datagram>)
    requires lost == Survivors(f, taken) && (lost != [] ==> metas == 0)
    ensures var b := FillFrom(f, rooms, metas, inbox, [], []);
            && Survivors(f, taken + b.taken) == b.kept + (lost + b.lost)
            && (b.kept == [] ==> Survivors(f, taken + b.taken) == lost + b.lost)
            && (b.kept == [] && lost + b.lost != [] ==> metas == 0)
            && |b.kept| <= |rooms|
            && (metas >= |rooms| ==> b.lost == [])
  {
    var b := FillFrom(f, rooms, metas, inbox, [], []);
    FillKeepsSurvivors(f, rooms, metas, inbox, [], []);
    Regroup(f, taken, lost, b.taken, b.kept, b.lost);
  }

  lemma Regroup(f: Filter, taken: seq<Datagram>, lost: seq<Datagram>,
                more: seq<Datagram>, kept: seq<Datagram>, dropped: seq<Datagram>)
    requires lost == Survivors(f, taken) && kept + dropped == Survivors(f, more)
    requires lost == [] || kept == []
    ensures Survivors(f, taken + more) == kept + (lost + dropped)
    ensures kept == [] ==> kept + (lost + dropped) == lost + dropped
  {
    SurvivorsConcat(f, taken, more);
    Commute(lost, kept, dropped);
  }

  lemma Commute(a: seq<Datagram>, b: seq<Datagram>, c: seq<Datagram>)
    requires a == [] || b == []
    ensures a + (b + c) == b + (a + c)
    ensures b == [] ==> b + (a + c) == a + c
  {
    if a == [] {
      assert a + (b + c) == b + c && a + c == c;
    } else {
      assert b + c == c && b + (a + c) == a + c;
    }
  }

  lemma {:induction false} PollKeepsSurvivors(f: Filter, rooms: seq<nat>, metas: nat, signals: nat -> Readiness,
                                              tick: nat, inbox: seq<Incoming>,
                                              taken: seq<Datagram>, lost: seq<Datagram>)
    requires rooms != [] && lost == Survivors(f, taken) && (lost != [] ==> metas == 0)
    ensures var c := PollFrom(f, rooms, metas, signals, tick, inbox, taken, lost);
            && Survivors(f, c.taken) == c.delivered + c.lost
            && (c.delivered != [] <==> c.result.Ready?)
            && (c.result.Ready? ==> c.result.filled == |c.delivered| <= |rooms|)
            && (metas >= |rooms| ==> c.lost == [])
    decreases |inbox|
  {
    if Poll(signals, tick, inbox) != Readable {
    } else {
      var b := FillFrom(f, rooms, metas, inbox, [], []);
      RoundKeepsSurvivors(f, rooms, metas, inbox, taken, lost);
      FillConsumes(f, rooms, metas, inbox, [], []);
      if b.kept == [] && !b.stop.Fatal? {
        PollKeepsSurvivors(f, rooms, metas, signals, tick + 1, b.rest, taken + b.taken, lost + b.lost);
      }
    }
  }

  /** A call leaves a suffix of its script, a shorter one if the first poll
      finds it readable. */
  lemma {:induction false} PollConsumes(f: Filter, rooms: seq<nat>, metas: nat, signals: nat -> Readiness,
                                        tick: nat, inbox: seq<Incoming>,
                                        taken: seq<Datagram>, lost: seq<Datagram>)
    requires rooms != []
    ensures var c := PollFrom(f, rooms, metas, signals, tick, inbox, taken, lost);
            Leaves(inbox, c.inbox) && (inbox != [] && signals(tick) == Readable ==> |c.inbox| < |inbox|)
    decreases |inbox|
  {
    UsedNothing(inbox);
    if Poll(signals, tick, inbox) != Readable {
    } else {
      var b := FillFrom(f, rooms, metas, inbox, [], []);
      FillConsumes(f, rooms, metas, inbox, [], []);
      if b.kept == [] && !b.stop.Fatal? {
        PollConsumes(f, rooms, metas, signals, tick + 1, b.rest, taken + b.taken, lost + b.lost);
        var c := PollFrom(f, rooms, metas, signals, tick + 1, b.rest, taken + b.taken, lost + b.lost);
        UsedConcat(inbox, b.rest, c.inbox);
      }
    }
  }

  lemma {:induction false} PollKeepsLost(f: Filter, rooms: seq<nat>, metas: nat, signals: nat -> Readiness,
                                         tick: nat, inbox: seq<Incoming>,
                                         taken: seq<Datagram>, lost: seq<Datagram>)
    requires rooms != []
    ensures |lost| <= |PollFrom(f, rooms, metas, signals, tick, inbox, taken, lost).lost|
    decreases |inbox|
  {
    if Poll(signals, tick, inbox) != Readable {
    } else {
      var b := FillFrom(f, rooms, metas, inbox, [], []);
      FillConsumes(f, rooms, metas, inbox, [], []);
      if b.kept == [] && !b.stop.Fatal? {
        PollKeepsLost(f, rooms, metas, signals, tick + 1, b.rest, taken + b.taken, lost + b.lost);
      }
    }
  }

  lemma RoundReadsArrivals(f: Filter, rooms: seq<nat>, metas: nat, inbox: seq<Incoming>,
                           taken: seq<Datagram>, past: seq<Datagram>, sizes: set<nat>)
    requires AllOf(rooms, sizes) && TrimmedAll(sizes, taken, past)
    ensures var b := FillFrom(f, rooms, metas, inbox, [], []);
            Leaves(inbox, b.rest) && TrimmedAll(sizes, taken + b.taken, past + Consumed(inbox, b.rest))
  {
    var b := FillFrom(f, rooms, metas, inbox, [], []);
    FillConsumes(f, rooms, metas, inbox, [], []);
    FillReadsArrivals(f, rooms, metas, inbox, [], [], [], sizes);
    TrimmedExtend(sizes, taken, past, b.taken, inbox, b.rest);
  }

  lemma {:induction false} PollReadsArrivals(f: Filter, rooms: seq<nat>, metas: nat, signals: nat -> Readiness,
                                             tick: nat, inbox: seq<Incoming>,
                                             taken: seq<Datagram>, lost: seq<Datagram>,
                                             past: seq<Datagram>, sizes: set<nat>)
    requires rooms != [] && AllOf(rooms, sizes) && TrimmedAll(sizes, taken, past)
    ensures var c := PollFrom(f, rooms, metas, signals, tick, inbox, taken, lost);
            TrimmedAll(sizes, c.taken, past + Consumed(inbox, c.inbox))
    decreases |inbox|
  {
    var b := RoundOf(f, rooms, metas, signals, tick, inbox);
    PollByRounds(f, rooms, metas, signals, tick, inbox, taken, lost);
    if Poll(signals, tick, inbox) != Readable {
      assert taken + [] == taken;
      TrimmedStill(sizes, taken, past, inbox);
    } else {
      RoundReadsArrivals(f, rooms, metas, inbox, taken, past, sizes);
      if b.kept == [] && !b.stop.Fatal? {
        FillConsumes(f, rooms, metas, inbox, [], []);
        var taken', lost', past' := taken + b.taken, lost + b.lost, past + Consumed(inbox, b.rest);
        PollReadsArrivals(f, rooms, metas, signals, tick + 1, b.rest, taken', lost', past', sizes);
        PollConsumes(f, rooms, metas, signals, tick + 1, b.rest, taken', lost');
        var c := PollFrom(f, rooms, metas, signals, tick + 1, b.rest, taken', lost');
        TrimmedThrough(sizes, c.taken, past, inbox, b.rest, c.inbox);
      }
    }
  }

  /** One call: it hands over exactly what passed, in order, unless meta slots
      ran short; and a call that hands over nothing accepted nothing. */
  lemma CallDeliversSurvivors(f: Filter, rooms: seq<nat>, metas: nat, signals: nat -> Readiness, tick: nat,
                              inbox: seq<Incoming>)
    requires rooms != [] || Settles(signals, tick, inbox)
    ensures var c := Polled(f, rooms, metas, signals, tick, inbox);
            && Survivors(f, c.taken) == c.delivered + c.lost
            && (c.delivered != [] <==> c.result.Ready?)
            && (c.result.Ready? ==> c.result.filled == |c.delivered| <= |rooms|)
            && (metas >= |rooms| ==> c.lost == [] && c.delivered == Survivors(f, c.taken))
            && (metas >= |rooms| && !c.result.Ready? ==> Survivors(f, c.taken) == [])
  {
    if rooms != [] {
      PollKeepsSurvivors(f, rooms, metas, signals, tick, inbox, [], []);
    }
  }

  // ---------------------------------------------------- What exactly it delivers

  ghost predicate AllRoomy(rooms: seq<nat>, least: nat) {
    forall i :: 0 <= i < |rooms| ==> rooms[i] >= least
  }

  /** Cutting to `least` bytes or more does not change what passes. */
  ghost predicate Robust(f: Filter, least: nat) {
    forall d: Datagram, room: nat :: room >= least ==> f(Shorten(d, room)) == f(d)
  }

  /** `seen[i]` is `ds[i]` cut to the size of buffer `i`. */
  ghost predicate CutTo(seen: seq<Datagram>, ds: seq<Datagram>, rooms: seq<nat>) {
    && |seen| == |ds| <= |rooms|
    && forall i :: 0 <= i < |seen| ==> seen[i] == Shorten(ds[i], rooms[i])
  }

  lemma CutThrough(f: Filter, seen: seq<Datagram>, past: seq<Datagram>, rooms: seq<nat>,
                   inbox: seq<Incoming>, mid: seq<Incoming>, rest: seq<Incoming>)
    requires Leaves(inbox, mid) && Leaves(mid, rest)
    requires CutTo(seen, past + Survivors(f, Consumed(inbox, mid)) + Survivors(f, Consumed(mid, rest)), rooms)
    ensures CutTo(seen, past + Survivors(f, Consumed(inbox, rest)), rooms)
  {
    ConsumedConcat(inbox, mid, rest);
    SurvivorsConcat(f, Consumed(inbox, mid), Consumed(mid, rest));
    AppendAssociates(past, Survivors(f, Consumed(inbox, mid)), Survivors(f, Consumed(mid, rest)));
  }

  lemma CutStill(f: Filter, seen: seq<Datagram>, past: seq<Datagram>, rooms: seq<nat>, inbox: seq<Incoming>)
    requires CutTo(seen, past, rooms)
    ensures CutTo(seen, past + Survivors(f, Consumed(inbox, inbox)), rooms)
  {
    ConsumedNothing(inbox);
    assert past + [] == past;
  }

  lemma CutNext(f: Filter, kept: seq<Datagram>, past: seq<Datagram>, rooms: seq<nat>, d: Datagram, least: nat)
    requires CutTo(kept, past, rooms) && |kept| < |rooms| && Robust(f, least) && AllRoomy(rooms, least)
    ensures CutTo(KeptAfter(f, kept, Shorten(d, rooms[|kept|])), past + Survivors(f, [d]), rooms)
  {
    assert [d][..0] == [] && Survivors(f, []) == [];
    assert f(Shorten(d, rooms[|kept|])) == f(d);
    assert Survivors(f, [d]) == if f(d) then [d] else [];
  }

  /** What the inner loop keeps is what passes of what it consumed, each cut to
      the buffer of its position: `past` stands for what passed before. */
  lemma {:induction false} FillCuts(f: Filter, rooms: seq<nat>, metas: nat, inbox: seq<Incoming>,
                                    kept: seq<Datagram>, taken: seq<Datagram>, past: seq<Datagram>, least: nat)
    requires Robust(f, least) && AllRoomy(rooms, least) && metas >= |rooms| && CutTo(kept, past, rooms)
    ensures var b := FillFrom(f, rooms, metas, inbox, kept, taken);
            CutTo(b.kept, past + Survivors(f, Consumed(inbox, b.rest)), rooms)
    decreases |inbox|
  {
    CutStill(f, kept, past, rooms, inbox);
    if |kept| >= |rooms| || inbox == [] {
    } else {
      var tail := inbox[1..];
      ConsumedOne(inbox);
      match inbox[0]
      case Failure(_) =>
        assert past + [] == past;
      case Arrival(d) =>
        var seen := Shorten(d, rooms[|kept|]);
        var kept', past' := KeptAfter(f, kept, seen), past + Survivors(f, [d]);
        CutNext(f, kept, past, rooms, d, least);
        FillNext(f, rooms, metas, inbox, kept, taken);
        FillCuts(f, rooms, metas, tail, kept', taken + [seen], past', least);
        FillConsumes(f, rooms, metas, tail, kept', taken + [seen]);
        var b := FillFrom(f, rooms, metas, tail, kept', taken + [seen]);
        CutThrough(f, b.kept, past, rooms, inbox, tail, b.rest);
    }
  }

  lemma {:induction false} PollCuts(f: Filter, rooms: seq<nat>, metas: nat, signals: nat -> Readiness,
                                    tick: nat, inbox: seq<Incoming>,
                                    taken: seq<Datagram>, lost: seq<Datagram>, least: nat)
    requires rooms != [] && Robust(f, least) && AllRoomy(rooms, least) && metas >= |rooms|
    ensures var c := PollFrom(f, rooms, metas, signals, tick, inbox, taken, lost);
            CutTo(c.delivered, Survivors(f, Consumed(inbox, c.inbox)), rooms)
    decreases |inbox|
  {
    ConsumedNothing(inbox);
    if Poll(signals, tick, inbox) != Readable {
    } else {
      var b := FillFrom(f, rooms, metas, inbox, [], []);
      FillCuts(f, rooms, metas, inbox, [], [], [], least);
      FillConsumes(f, rooms, metas, inbox, [], []);
      assert [] + Survivors(f, Consumed(inbox, b.rest)) == Survivors(f, Consumed(inbox, b.rest));
      if b.kept == [] && !b.stop.Fatal? {
        var taken', lost' := taken + b.taken, lost + b.lost;
        PollCuts(f, rooms, metas, signals, tick + 1, b.rest, taken', lost', least);
        PollConsumes(f, rooms, metas, signals, tick + 1, b.rest, taken', lost');
        var c := PollFrom(f, rooms, metas, signals, tick + 1, b.rest, taken', lost');
        PassedLater(f, inbox, b.rest, c.inbox);
      }
    }
  }

  /** When nothing passes at first, what passes is what passes later. */
  lemma PassedLater(f: Filter, inbox: seq<Incoming>, mid: seq<Incoming>, rest: seq<Incoming>)
    requires Leaves(inbox, mid) && Leaves(mid, rest) && Survivors(f, Consumed(inbox, mid)) == []
    ensures Survivors(f, Consumed(inbox, rest)) == Survivors(f, Consumed(mid, rest))
  {
    ConsumedConcat(inbox, mid, rest);
    SurvivorsConcat(f, Consumed(inbox, mid), Consumed(mid, rest));
    assert [] + Survivors(f, Consumed(mid, rest)) == Survivors(f, Consumed(mid, rest));
  }

  // ----------------------------------------------------------------- Runs

  /** The buffers and metas one call is given. */
  datatype Shape = Shape(rooms: seq<nat>, metas: nat)

  /** What a sequence of calls did; `slots` are the sizes of the buffers that
      hold what was delivered. */
  datatype Run = Run(results: seq<PollResult>, delivered: seq<Datagram>, slots: seq<nat>, taken: seq<Datagram>,
                     lost: seq<Datagram>, tick: nat, inbox: seq<Incoming>)

  ghost predicate Callable(shapes: seq<Shape>) {
    forall i :: 0 <= i < |shapes| ==> shapes[i].rooms != []
  }

  ghost predicate EnoughMetas(shapes: seq<Shape>) {
    forall i :: 0 <= i < |shapes| ==> shapes[i].metas >= |shapes[i].rooms|
  }

  ghost predicate Roomy(shapes: seq<Shape>, least: nat) {
    forall i :: 0 <= i < |shapes| ==> AllRoomy(shapes[i].rooms, least)
  }

  ghost predicate Sized(shapes: seq<Shape>, sizes: set<nat>) {
    forall i :: 0 <= i < |shapes| ==> AllOf(shapes[i].rooms, sizes)
  }

  function FirstOf(rooms: seq<nat>, n: nat): seq<nat> {
    if n <= |rooms| then rooms[..n] else rooms
  }

  /** A sequence of calls on one socket. */
  ghost function RunOf(f: Filter, signals: nat -> Readiness, inbox: seq<Incoming>, shapes: seq<Shape>): Run
    requires Callable(shapes)
  {
    if shapes == [] then Run([], [], [], [], [], 0, inbox)
    else
      var r := RunOf(f, signals, inbox, shapes[..|shapes| - 1]);
      var shape := shapes[|shapes| - 1];
      var c := Polled(f, shape.rooms, shape.metas, signals, r.tick, r.inbox);
      Run(r.results + [c.result], r.delivered + c.delivered, r.slots + FirstOf(shape.rooms, |c.delivered|),
          r.taken + c.taken, r.lost + c.lost, c.tick, c.inbox)
  }

  // ------------------------------------------------------- A run of the code

  /** What Quinn passes to one call. */
  datatype Buffers = Buffers(bufs: seq<array<byte>>, metas: array<RecvMeta>)

  ghost predicate Usable(b: Buffers) {
    b.bufs != [] && Separate(b.bufs, b.metas)
  }

  ghost function ShapeOf(b: Buffers): Shape {
    Shape(Rooms(b.bufs), b.metas.Length)
  }

  ghost function ShapesOf(calls: seq<Buffers>): seq<Shape> {
    if calls == [] then [] else ShapesOf(calls[..|calls| - 1]) + [ShapeOf(calls[|calls| - 1])]
  }

  lemma {:induction false} ShapesCallable(calls: seq<Buffers>)
    requires forall i :: 0 <= i < |calls| ==> Usable(calls[i])
    ensures Callable(ShapesOf(calls))
  {
    if calls == [] {
    } else {
      var init, last := calls[..|calls| - 1], calls[|calls| - 1];
      ShapesCallable(init);
      assert Usable(last);
    }
  }

  ghost function Memory(calls: seq<Buffers>): set<object> {
    (set i, j | 0 <= i < |calls| && 0 <= j < |calls[i].bufs| :: calls[i].bufs[j] as object)
    + (set i | 0 <= i < |calls| :: calls[i].metas as object)
  }

  /** Reads the datagrams out of the filled slots, as Quinn does. */
  method Collect(b: Buffers, n: nat, ghost ds: seq<Datagram>) returns (out: seq<Datagram>)
    requires n == |ds| && Holds(b.bufs, b.metas, ds)
    ensures out == ds
  {
    out := [];
    for i := 0 to n
      invariant out == ds[..i]
    {
      assert Slot(b.bufs[i], b.metas[i], ds[i]);
      out := out + [Datagram(b.bufs[i][..b.metas[i].len], b.metas[i].addr)];
    }
  }

  /** One datagram per buffer: cutting a filled slot every stride, as Quinn
      does, gives back the one datagram it holds. */
  lemma OnePerBuffer(b: Buffers, ds: seq<Datagram>, i: nat)
    requires Holds(b.bufs, b.metas, ds) && i < |ds| && ds[i].bytes != []
    ensures var meta := b.metas[i];
            && meta.stride > 0 && meta.len <= b.bufs[i].Length
            && Send.Chunks(b.bufs[i][..meta.len], meta.stride, meta.addr) == [ds[i]]
  {
    FilledMeta(b.bufs, b.metas, ds, i);
  }

  lemma RunNext(f: Filter, signals: nat -> Readiness, inbox: seq<Incoming>, shapes: seq<Shape>, shape: Shape)
    requires Callable(shapes) && shape.rooms != []
    ensures Callable(shapes + [shape])
    ensures var r := RunOf(f, signals, inbox, shapes);
            var c := Polled(f, shape.rooms, shape.metas, signals, r.tick, r.inbox);
            RunOf(f, signals, inbox, shapes + [shape])
            == Run(r.results + [c.result], r.delivered + c.delivered, r.slots + FirstOf(shape.rooms, |c.delivered|),
                   r.taken + c.taken, r.lost + c.lost, c.tick, c.inbox)
  {
    assert (shapes + [shape])[..|shapes|] == shapes;
  }

  /** Any number of `poll_recv` calls on a new socket, each with its own
      buffers, reading out what each hands over. */
  method ReceiveAll(socket: PacketSocket, calls: seq<Buffers>)
    returns (results: seq<PollResult>, delivered: seq<Datagram>, ghost run: Run)
    requires socket.tick == 0 && forall i :: 0 <= i < |calls| ==> Usable(calls[i])
    modifies socket, socket.counters, Memory(calls)
    ensures Callable(ShapesOf(calls))
    ensures run == RunOf(socket.filter, socket.signals, old(socket.inbox), ShapesOf(calls))
    ensures results == run.results && delivered == run.delivered
    ensures socket.tick == run.tick && socket.inbox == run.inbox
    ensures socket.counters.View() == Tally(Counting(socket.filter), old(socket.counters.View()), run.taken)
  {
    ghost var shapes: seq<Shape>, c := [], socket.counters.View();
    results, delivered, run := [], [], Run([], [], [], [], [], 0, socket.inbox);
    for i := 0 to |calls|
      invariant shapes == ShapesOf(calls[..i]) && Callable(shapes)
      invariant run == RunOf(socket.filter, socket.signals, old(socket.inbox), shapes)
      invariant results == run.results && delivered == run.delivered
      invariant socket.tick == run.tick && socket.inbox == run.inbox
      invariant socket.counters.View() == Tally(Counting(socket.filter), c, run.taken)
    {
      var b := calls[i];
      assert Usable(b) && calls[..i + 1][..i] == calls[..i];
      RunNext(socket.filter, socket.signals, old(socket.inbox), shapes, ShapeOf(b));
      CallDeliversSurvivors(socket.filter, Rooms(b.bufs), b.metas.Length, socket.signals, socket.tick, socket.inbox);
      var r, call := socket.PollRecv(b.bufs, b.metas);
      var filled := if r.Ready? then r.filled else 0;
      var out := Collect(b, filled, call.delivered);
      TallyConcat(Counting(socket.filter), c, run.taken, call.taken);
      results, delivered, shapes := results + [r], delivered + out, shapes + [ShapeOf(b)];
      run := RunOf(socket.filter, socket.signals, old(socket.inbox), shapes);
    }
    assert calls[..|calls|] == calls;
  }

  // ------------------------------------------------------ Theorems about runs

  /** Over any run with enough metas, what is delivered is the survivors of
      what was read, and nothing accepted is lost. */
  lemma {:induction false} RunDeliversSurvivors(f: Filter, signals: nat -> Readiness, inbox: seq<Incoming>,
                                                shapes: seq<Shape>)
    requires Callable(shapes)
    ensures var r := RunOf(f, signals, inbox, shapes);
            && |Survivors(f, r.taken)| == |r.delivered| + |r.lost|
            && (EnoughMetas(shapes) ==> r.lost == [] && r.delivered == Survivors(f, r.taken))
  {
    if shapes == [] {
    } else {
      var init, shape := shapes[..|shapes| - 1], shapes[|shapes| - 1];
      var r := RunOf(f, signals, inbox, init);
      RunDeliversSurvivors(f, signals, inbox, init);
      CallDeliversSurvivors(f, shape.rooms, shape.metas, signals, r.tick, r.inbox);
      SurvivorsConcat(f, r.taken, Polled(f, shape.rooms, shape.metas, signals, r.tick, r.inbox).taken);
    }
  }

  /** What a run reads is the arrivals it consumed, a prefix of the script's,
      each cut to exactly the length of one of the buffers. */
  lemma {:induction false} RunReadsArrivals(f: Filter, signals: nat -> Readiness, inbox: seq<Incoming>,
                                            shapes: seq<Shape>, sizes: set<nat>)
    requires Callable(shapes) && Sized(shapes, sizes)
    ensures var r := RunOf(f, signals, inbox, shapes);
            Leaves(inbox, r.inbox) && TrimmedAll(sizes, r.taken, Consumed(inbox, r.inbox))
  {
    if shapes == [] {
      ConsumedNothing(inbox);
    } else {
      var init, shape := shapes[..|shapes| - 1], shapes[|shapes| - 1];
      var p := RunOf(f, signals, inbox, init);
      RunReadsArrivals(f, signals, inbox, init, sizes);
      PollReadsArrivals(f, shape.rooms, shape.metas, signals, p.tick, p.inbox, [], [], [], sizes);
      PollConsumes(f, shape.rooms, shape.metas, signals, p.tick, p.inbox, [], []);
      var c := Polled(f, shape.rooms, shape.metas, signals, p.tick, p.inbox);
      TrimmedExtend(sizes, p.taken, Consumed(inbox, p.inbox), c.taken, p.inbox, c.inbox);
      ConsumedConcat(inbox, p.inbox, c.inbox);
    }
  }

  /** Polling a socket that keeps being readable drains it: one call per script
      event is enough, whatever the buffers. */
  lemma {:induction false} RunDrains(f: Filter, signals: nat -> Readiness, inbox: seq<Incoming>, shapes: seq<Shape>)
    requires Callable(shapes) && forall t: nat :: signals(t) == Readable
    ensures |RunOf(f, signals, inbox, shapes).inbox| <= if |shapes| >= |inbox| then 0 else |inbox| - |shapes|
  {
    if shapes == [] {
    } else {
      var init, shape := shapes[..|shapes| - 1], shapes[|shapes| - 1];
      var p := RunOf(f, signals, inbox, init);
      RunDrains(f, signals, inbox, init);
      PollConsumes(f, shape.rooms, shape.metas, signals, p.tick, p.inbox, [], []);
    }
  }

  // -------------------------------------------------- Filtering the arrivals

  /** Cutting to 26 bytes or more does not change what passes the gate. */
  lemma GateRobust(prf: Prf, authenticator: Option<Authenticator>, least: nat)
    requires least >= 26
    ensures Robust(Gate(prf, authenticator), least)
  {
    forall d: Datagram, room: nat | room >= least
      ensures Gate(prf, authenticator)(Shorten(d, room)) == Gate(prf, authenticator)(d)
    {
      DestinationCidReads26(d.bytes, room);
    }
  }

  lemma CutConcat(seen: seq<Datagram>, ds: seq<Datagram>, slots: seq<nat>,
                  seen': seq<Datagram>, ds': seq<Datagram>, rooms: seq<nat>, least: nat)
    requires CutTo(seen, ds, slots) && |slots| == |seen| && CutTo(seen', ds', rooms)
    requires AllRoomy(slots, least) && AllRoomy(rooms, least)
    ensures CutTo(seen + seen', ds + ds', slots + FirstOf(rooms, |seen'|))
    ensures AllRoomy(slots + FirstOf(rooms, |seen'|), least)
  {
  }

  lemma {:induction false} RunCuts(f: Filter, signals: nat -> Readiness, inbox: seq<Incoming>,
                                   shapes: seq<Shape>, least: nat)
    requires Callable(shapes) && EnoughMetas(shapes) && Roomy(shapes, least) && Robust(f, least)
    ensures var r := RunOf(f, signals, inbox, shapes);
            && Leaves(inbox, r.inbox) && |r.slots| == |r.delivered| && AllRoomy(r.slots, least)
            && CutTo(r.delivered, Survivors(f, Consumed(inbox, r.inbox)), r.slots)
  {
    if shapes == [] {
      ConsumedNothing(inbox);
    } else {
      var init, shape := shapes[..|shapes| - 1], shapes[|shapes| - 1];
      var p := RunOf(f, signals, inbox, init);
      RunCuts(f, signals, inbox, init, least);
      PollCuts(f, shape.rooms, shape.metas, signals, p.tick, p.inbox, [], [], least);
      PollConsumes(f, shape.rooms, shape.metas, signals, p.tick, p.inbox, [], []);
      var c := Polled(f, shape.rooms, shape.metas, signals, p.tick, p.inbox);
      var before, after := Consumed(inbox, p.inbox), Consumed(p.inbox, c.inbox);
      CutConcat(p.delivered, Survivors(f, before), p.slots, c.delivered, Survivors(f, after), shape.rooms, least);
      ConsumedConcat(inbox, p.inbox, c.inbox);
      SurvivorsConcat(f, before, after);
    }
  }

  lemma CutWhole(seen: seq<Datagram>, ds: seq<Datagram>, slots: seq<nat>, least: nat)
    requires CutTo(seen, ds, slots) && AllRoomy(slots, least)
    requires forall i :: 0 <= i < |ds| ==> |ds[i].bytes| <= least
    ensures seen == ds
  {
    forall i | 0 <= i < |ds| ensures seen[i] == ds[i] {
      assert |ds[i].bytes| <= least <= slots[i];
    }
  }

  /** The receive side as a whole. Over any run of calls with enough metas and
      buffers of at least 26 bytes, on any script, with or without an
      authenticator: the datagrams handed to Quinn are the consumed arrivals
      that pass, in arrival order, each cut to the size of the very buffer that
      holds it; so whole when those that pass fit. */
  lemma {:induction false} RunFiltersArrivals(prf: Prf, authenticator: Option<Authenticator>,
                                              signals: nat -> Readiness, inbox: seq<Incoming>,
                                              shapes: seq<Shape>, least: nat)
    requires Callable(shapes) && EnoughMetas(shapes) && Roomy(shapes, least) && least >= 26
    ensures var f := Gate(prf, authenticator);
            var r := RunOf(f, signals, inbox, shapes);
            var passed := Survivors(f, Consumed(inbox, r.inbox));
            && Leaves(inbox, r.inbox) && |r.slots| == |r.delivered|
            && CutTo(r.delivered, passed, r.slots)
            && ((forall i :: 0 <= i < |passed| ==> |passed[i].bytes| <= least) ==> r.delivered == passed)
  {
    var f := Gate(prf, authenticator);
    GateRobust(prf, authenticator, least);
    RunCuts(f, signals, inbox, shapes, least);
    var r := RunOf(f, signals, inbox, shapes);
    var passed := Survivors(f, Consumed(inbox, r.inbox));
    if forall i :: 0 <= i < |passed| ==> |passed[i].bytes| <= least {
      CutWhole(r.delivered, passed, r.slots, least);
    }
  }

  /** Nothing is left behind either: as many calls as script entries, on a
      socket that stays readable, hand over every arrival that passes. */
  lemma {:induction false} RunDeliversEverything(prf: Prf, authenticator: Option<Authenticator>,
                                                 signals: nat -> Readiness, inbox: seq<Incoming>,
                                                 shapes: seq<Shape>, least: nat)
    requires Callable(shapes) && EnoughMetas(shapes) && Roomy(shapes, least) && least >= 26
    requires |shapes| >= |inbox| && forall t: nat :: signals(t) == Readable
    ensures var f := Gate(prf, authenticator);
            var r := RunOf(f, signals, inbox, shapes);
            CutTo(r.delivered, Survivors(f, Arrivals(inbox)), r.slots)
  {
    var f := Gate(prf, authenticator);
    RunFiltersArrivals(prf, authenticator, signals, inbox, shapes, least);
    RunDrains(f, signals, inbox, shapes);
    assert inbox[..|inbox| - 0] == inbox && inbox[|inbox|..] == [];
  }

  lemma {:induction false} AllPass(f: Filter, ds: seq<Datagram>)
    requires forall d: Datagram :: f(d)
    ensures Survivors(f, ds) == ds
  {
    if ds == [] {
    } else {
      var init, last := ds[..|ds| - 1], ds[|ds| - 1];
      AllPass(f, init);
      SurvivorsUnfold(f, ds);
      assert init + [last] == ds;
    }
  }

  /** With no authenticator everything passes. */
  lemma OpenGate(prf: Prf, ds: seq<Datagram>)
    ensures Survivors(Gate(prf, None), ds) == ds
  {
    AllPass(Gate(prf, None), ds);
  }

  /** From counters `c`, reading `taken` with so many of them accepted leaves
      the counters advanced by the reads, their bytes and the rest. */
  ghost predicate Accounts(f: Filter, c: Counts, taken: seq<Datagram>, accepted: nat) {
    && accepted <= |taken|
    && Tally(Counting(f), c, taken) == Advanced(c, |taken|, TotalBytes(taken), |taken| - accepted)
  }

  lemma SurvivorsAccount(f: Filter, c: Counts, taken: seq<Datagram>, accepted: nat)
    requires accepted == |Survivors(f, taken)|
    ensures Accounts(f, c, taken, accepted)
  {
    CountingSums(c, f, taken);
  }

  /** The counters account for everything read, modulo 2^64: received is
      rejected plus delivered plus lost, and the byte counter is the sum of
      the lengths read. */
  lemma {:induction false} RunCounts(f: Filter, signals: nat -> Readiness, inbox: seq<Incoming>,
                                     shapes: seq<Shape>, c: Counts)
    requires Callable(shapes)
    ensures var r := RunOf(f, signals, inbox, shapes);
            Accounts(f, c, r.taken, |r.delivered| + |r.lost|)
  {
    RunDeliversSurvivors(f, signals, inbox, shapes);
    var r := RunOf(f, signals, inbox, shapes);
    SurvivorsAccount(f, c, r.taken, |r.delivered| + |r.lost|);
  }

  // ------------------------------------------------------- Too few meta slots

  ghost function Copies(d: Datagram, n: nat): (s: seq<Incoming>)
    ensures |s| == n
  {
    seq(n, _ => Arrival(d))
  }

  lemma {:induction false} FillLoses(rooms: seq<nat>, metas: nat, d: Datagram, n: nat,
                                     kept: seq<Datagram>, taken: seq<Datagram>)
    requires |kept| <= metas < |rooms| && |kept| + n == metas + 1
    ensures var b := FillFrom(_ => true, rooms, metas, Copies(d, n), kept, taken);
            b.lost != [] && b.stop == NoMeta
    decreases n
  {
    var seen := Shorten(d, rooms[|kept|]);
    assert Copies(d, n)[1..] == Copies(d, n - 1);
    if |kept| == metas {
    } else {
      FillLoses(rooms, metas, d, n - 1, kept + [seen], taken + [seen]);
    }
  }

  lemma MetaShortageLoses(rooms: seq<nat>, metas: nat, d: Datagram)
    requires metas < |rooms|
    ensures Polled(_ => true, rooms, metas, _ => Readable, 0, Copies(d, metas + 1)).lost != []
  {
    var all: Filter, readable: nat -> Readiness := _ => true, _ => Readable;
    var inbox := Copies(d, metas + 1);
    FillLoses(rooms, metas, d, metas + 1, [], []);
    RoundLoses(all, rooms, metas, readable, inbox);
  }

  /** What the first round loses, the call has lost. */
  lemma RoundLoses(f: Filter, rooms: seq<nat>, metas: nat, signals: nat -> Readiness, inbox: seq<Incoming>)
    requires rooms != [] && inbox != [] && signals(0) == Readable
    requires FillFrom(f, rooms, metas, inbox, [], []).lost != []
    requires FillFrom(f, rooms, metas, inbox, [], []).stop == NoMeta
    ensures Polled(f, rooms, metas, signals, 0, inbox).lost != []
  {
    var b := FillFrom(f, rooms, metas, inbox, [], []);
    FillConsumes(f, rooms, metas, inbox, [], []);
    var lost := [] + b.lost;
    assert lost == b.lost;
    if b.kept == [] {
      PollKeepsLost(f, rooms, metas, signals, 1, b.rest, [] + b.taken, lost);
    }
  }

  /** No script makes a call lose an accepted datagram exactly when there are
      at least as many metas as buffers. */
  lemma NothingLostIff(rooms: seq<nat>, metas: nat)
    ensures metas >= |rooms|
       <==> forall f: Filter, signals: nat -> Readiness, tick: nat, inbox: seq<Incoming> ::
              rooms != [] || Settles(signals, tick, inbox) ==>
                Polled(f, rooms, metas, signals, tick, inbox).lost == []
  {
    if metas >= |rooms| {
      forall f: Filter, signals: nat -> Readiness, tick: nat, inbox: seq<Incoming>
        | rooms != [] || Settles(signals, tick, inbox)
        ensures Polled(f, rooms, metas, signals, tick, inbox).lost == []
      {
        CallDeliversSurvivors(f, rooms, metas, signals, tick, inbox);
      }
    } else {
      MetaShortageLoses(rooms, metas, Datagram([], SocketAddr(V4(UNSPECIFIED), 0)));
    }
  }
}
