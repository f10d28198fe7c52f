/**
 The blaster: an Initial packet laid out once, its destination connection ID
 rewritten in place from the generator before every send.
 */
module Blaster {
  import opened Wire
  import opened Auth
  import opened SplitMix

  const MIN_INITIAL_DATAGRAM := 1200
  const BATCH := 64
  const DCID_OFFSET := 6

  function Repeat(b: byte, n: nat): (s: seq<byte>)
    ensures |s| == n
  {
    seq(n, _ => b)
  }

  /** The 2-byte length field. */
  function LengthField(remaining: nat): (s: seq<byte>)
    requires remaining < 0x4000
    ensures |s| == 2
  {
    BigEndian16(0x4000 | (remaining as bv16))
  }

  /** The bytes before the connection ID. */
  const PREFIX: seq<byte> := [0xc3, 0, 0, 0, 1, 20]

  /** The bytes after it. */
  function Suffix(size: nat): (s: seq<byte>)
    requires MIN_INITIAL_DATAGRAM <= size <= 16433
    ensures |s| == size - 26
  {
    [20] + Repeat(0x5a, 20) + [0] + LengthField(size - 50) + Repeat(0, 4) + Repeat(0x42, size - 54)
  }

  function Packet(size: nat, cid: seq<byte>): (p: seq<byte>)
    requires MIN_INITIAL_DATAGRAM <= size <= 16433 && |cid| == TOKEN_LEN
    ensures |p| == size
  {
    PREFIX + cid + Suffix(size)
  }

  lemma CidOfPacket(size: nat, cid: seq<byte>)
    requires MIN_INITIAL_DATAGRAM <= size <= 16433 && |cid| == TOKEN_LEN
    ensures Packet(size, cid)[DCID_OFFSET..DCID_OFFSET + TOKEN_LEN] == cid
  {
  }

  lemma RewritePacket(size: nat, was: seq<byte>, cid: seq<byte>)
    requires MIN_INITIAL_DATAGRAM <= size <= 16433 && |was| == |cid| == TOKEN_LEN
    ensures Packet(size, was)[..6] + cid + Packet(size, was)[26..] == Packet(size, cid)
  {
    assert Packet(size, was)[..6] == PREFIX && Packet(size, was)[26..] == Suffix(size);
  }

  // ------------------------------------------------- Connection IDs written

  /** The machine's byte order, which `to_ne_bytes` depends on. */
  datatype Endian = Big | Little {
    function Order(): ByteOrder {
      match this
      case Big => BigEndian64
      case Little => LittleEndian64
    }
  }

  /** The ID written by one call that finds the generator in `state`. */
  function Cid(order: ByteOrder, output: bv64 -> bv64, state: bv64): (cid: seq<byte>)
    ensures |cid| == TOKEN_LEN
  {
    Chunk(order, output(Step(state)), 8) + Chunk(order, output(Step(Step(state))), 8)
    + Chunk(order, output(Step(Step(Step(state)))), 4)
  }

  lemma OrderInjective(e: Endian, x: bv64, y: bv64)
    requires e.Order()(x) == e.Order()(y)
    ensures x == y
  {
    match e
    case Big =>
      BigEndian64RoundTrip(x);
      BigEndian64RoundTrip(y);
    case Little =>
      LittleEndian64Injective(x, y);
  }

  function Chunk(order: ByteOrder, word: bv64, len: nat): (s: seq<byte>)
    requires len <= 8
    ensures |s| == len
  {
    order(word)[..len]
  }

  /** The state once `at` bytes of an ID are written. */
  function StateWithin(start: bv64, at: nat): bv64 {
    if at == 0 then start else if at == 8 then Step(start)
    else if at == 16 then Step(Step(start)) else Step(Step(Step(start)))
  }

  /** Each chunk of an ID is the head of the next word. */
  lemma CidChunk(order: ByteOrder, output: bv64 -> bv64, start: bv64, at: nat, len: nat)
    requires (at == 0 && len == 8) || (at == 8 && len == 8) || (at == 16 && len == 4)
    ensures Cid(order, output, start)[at..at + len] == Chunk(order, output(Step(StateWithin(start, at))), len)
  {
    Thirds(Chunk(order, output(Step(start)), 8), Chunk(order, output(Step(Step(start))), 8),
           Chunk(order, output(Step(Step(Step(start)))), 4));
  }

  lemma Thirds(x: seq<byte>, y: seq<byte>, z: seq<byte>)
    requires |x| == |y| == 8 && |z| == 4
    ensures (x + y + z)[0..8] == x && (x + y + z)[8..16] == y && (x + y + z)[16..20] == z
  {
  }

  lemma CidDeterminesWord(order: ByteOrder, output: bv64 -> bv64, a: bv64, b: bv64)
    requires Cid(order, output, a) == Cid(order, output, b)
    ensures order(output(Step(a))) == order(output(Step(b)))
  {
    CidChunk(order, output, a, 0, 8);
    CidChunk(order, output, b, 0, 8);
  }

  lemma CidInjective(e: Endian, a: bv64, b: bv64)
    requires Cid(e.Order(), Mix, a) == Cid(e.Order(), Mix, b)
    ensures a == b
  {
    CidDeterminesWord(e.Order(), Mix, a, b);
    OrderInjective(e, Mix(Step(a)), Mix(Step(b)));
    MixInjective(Step(a), Step(b));
    StepInjective(a, b);
  }

  /** Byte `i` of a word in memory, which starts at its highest byte or at its
      lowest. */
  function MemoryByte(e: Endian, word: bv64, i: nat): byte
    requires i < 8
  {
    LowByte(Leading(word, if e.Big? then i + 1 else 8 - i))
  }

  lemma OrderByte(e: Endian, word: bv64, i: nat)
    requires i < 8
    ensures e.Order()(word)[i] == MemoryByte(e, word, i)
  {
    match e
    case Big => ByteOfNumber(word, i);
    case Little => ByteOfLittle(word, i);
  }

  lemma CidByteOf(order: ByteOrder, output: bv64 -> bv64, state: bv64, i: nat)
    requires i < TOKEN_LEN
    ensures Cid(order, output, state)[i] == order(output(Step(StateWithin(state, 8 * (i / 8)))))[i % 8]
  {
    var at := 8 * (i / 8);
    var len := if at == 16 then 4 else 8;
    CidChunk(order, output, state, at, len);
    assert Cid(order, output, state)[i] == Cid(order, output, state)[at..at + len][i - at];
  }

  lemma WithinSteps(state: bv64, k: nat)
    requires k < 3
    ensures Step(StateWithin(state, 8 * k)) == Stepped(state, k + 1)
  {
    FirstSteps(state);
  }

  /** Every byte of the ID written by one call: of the generator's next three
      words, all of the first two and the first half of the third. */
  lemma CidByte(e: Endian, state: bv64, i: nat)
    requires i < TOKEN_LEN
    ensures Cid(e.Order(), Mix, state)[i] == MemoryByte(e, Draw(state, i / 8), i % 8)
  {
    CidByteOf(e.Order(), Mix, state, i);
    WithinSteps(state, i / 8);
    OrderByte(e, Draw(state, i / 8), i % 8);
  }

  /** The packets one thread sends. */
  ghost function Sent(order: ByteOrder, output: bv64 -> bv64, size: nat, seed: bv64, i: nat): seq<byte>
    requires MIN_INITIAL_DATAGRAM <= size <= 16433
  {
    Packet(size, Cid(order, output, StateAt(seed, i)))
  }

  /** Every byte of the ID in a thread's `i`-th packet, from the words its seed
      gives: three to a packet, the last one half used. */
  lemma SentByte(e: Endian, size: nat, seed: bv64, i: nat, b: nat)
    requires MIN_INITIAL_DATAGRAM <= size <= 16433 && b < TOKEN_LEN
    ensures Sent(e.Order(), Mix, size, seed, i)[6 + b] == MemoryByte(e, Draw(seed, 3 * i + b / 8), b % 8)
  {
    SentWordByte(e.Order(), Mix, size, seed, i, b);
    OrderByte(e, Draw(seed, 3 * i + b / 8), b % 8);
  }

  lemma SentWordByte(order: ByteOrder, output: bv64 -> bv64, size: nat, seed: bv64, i: nat, b: nat)
    requires MIN_INITIAL_DATAGRAM <= size <= 16433 && b < TOKEN_LEN
    ensures Sent(order, output, size, seed, i)[6 + b] == order(output(Stepped(seed, 3 * i + b / 8 + 1)))[b % 8]
  {
    SentIdByte(order, output, size, seed, i, b);
    CidByteOf(order, output, StateAt(seed, i), b);
    WithinSteps(StateAt(seed, i), b / 8);
    ThreeAtATime(seed, i);
    LaterSteps(seed, 3 * i, b / 8 + 1);
  }

  lemma SentIdByte(order: ByteOrder, output: bv64 -> bv64, size: nat, seed: bv64, i: nat, b: nat)
    requires MIN_INITIAL_DATAGRAM <= size <= 16433 && b < TOKEN_LEN
    ensures Sent(order, output, size, seed, i)[6 + b] == Cid(order, output, StateAt(seed, i))[b]
  {
    PacketIdByte(size, Cid(order, output, StateAt(seed, i)), b);
  }

  lemma PacketIdByte(size: nat, cid: seq<byte>, b: nat)
    requires MIN_INITIAL_DATAGRAM <= size <= 16433 && |cid| == TOKEN_LEN && b < TOKEN_LEN
    ensures Packet(size, cid)[6 + b] == cid[b]
  {
  }

  /** Two packets of one thread carry the same connection ID, and so are the
      same bytes, exactly when their positions agree modulo 2^64: any 2^64
      consecutive packets are pairwise distinct, and then they repeat. */
  lemma PacketsRepeat(e: Endian, size: nat, seed: bv64, i: nat, j: nat)
    requires MIN_INITIAL_DATAGRAM <= size <= 16433
    ensures Cid(e.Order(), Mix, StateAt(seed, i)) == Cid(e.Order(), Mix, StateAt(seed, j)) <==> i % TWO_64 == j % TWO_64
    ensures Sent(e.Order(), Mix, size, seed, i) == Sent(e.Order(), Mix, size, seed, j) <==> i % TWO_64 == j % TWO_64
  {
    StatePeriod(seed, i, j);
    if Cid(e.Order(), Mix, StateAt(seed, i)) == Cid(e.Order(), Mix, StateAt(seed, j)) {
      CidInjective(e, StateAt(seed, i), StateAt(seed, j));
    }
    CidOfPacket(size, Cid(e.Order(), Mix, StateAt(seed, i)));
    CidOfPacket(size, Cid(e.Order(), Mix, StateAt(seed, j)));
  }

  lemma RemaindersDiffer(i: nat, j: nat)
    requires i < j < i + TWO_64
    ensures i % TWO_64 != j % TWO_64
  {
  }

  lemma DistinctWithinPeriod(e: Endian, seed: bv64, first: nat, i: nat, j: nat)
    requires first <= i < j < first + TWO_64
    ensures Cid(e.Order(), Mix, StateAt(seed, i)) != Cid(e.Order(), Mix, StateAt(seed, j))
  {
    RemaindersDiffer(i, j);
    PacketsRepeat(e, 1200, seed, i, j);
  }

  lemma LaterPacket(order: ByteOrder, output: bv64 -> bv64, size: nat, a: bv64, b: bv64, offset: nat, k: nat)
    requires MIN_INITIAL_DATAGRAM <= size <= 16433 && StateAt(a, offset) == b
    ensures Sent(order, output, size, a, offset + k) == Sent(order, output, size, b, k)
  {
    StateComposes(a, offset, k);
  }

  /** Threads do not stay apart: whatever the two seeds, one thread's packets
      are the other's from some position on. */
  lemma ThreadsOverlap(e: Endian, size: nat, a: bv64, b: bv64) returns (offset: nat)
    requires MIN_INITIAL_DATAGRAM <= size <= 16433
    ensures offset < TWO_64 && StateAt(a, offset) == b
    ensures forall k: nat :: Sent(e.Order(), Mix, size, a, offset + k) == Sent(e.Order(), Mix, size, b, k)
  {
    offset := SeedsShareOneCycle(a, b);
    forall k: nat ensures Sent(e.Order(), Mix, size, a, offset + k) == Sent(e.Order(), Mix, size, b, k) {
      LaterPacket(e.Order(), Mix, size, a, b, offset, k);
    }
  }

  /** Positions `i` and `j` of two walks meet, the second starting `offset`
      along the first. */
  ghost predicate Meet(i: nat, j: nat, offset: nat) {
    i % TWO_64 == (offset + j) % TWO_64
  }

  /** Exactly when a packet of one thread is a packet of the other, `offset`
      being how far the second seed lies along the first one's walk. */
  lemma ThreadsCollideIff(e: Endian, size: nat, a: bv64, b: bv64, offset: nat, i: nat, j: nat)
    requires MIN_INITIAL_DATAGRAM <= size <= 16433 && StateAt(a, offset) == b
    ensures Sent(e.Order(), Mix, size, a, i) == Sent(e.Order(), Mix, size, b, j) <==> Meet(i, j, offset)
  {
    LaterPacket(e.Order(), Mix, size, a, b, offset, j);
    PacketsRepeat(e, size, a, i, offset + j);
  }

  /** No two positions below `n` meet. */
  ghost predicate Apart(n: nat, offset: nat) {
    n <= offset && offset + n <= TWO_64
  }

  lemma ApartPositions(n: nat, offset: nat, i: nat, j: nat)
    requires Apart(n, offset) && i < n && j < n
    ensures !Meet(i, j, offset)
  {
    RemaindersDiffer(i, offset + j);
  }

  lemma FirstMeeting(n: nat, offset: nat) returns (i: nat, j: nat)
    requires !Apart(n, offset) && offset < TWO_64 && n > 0
    ensures i < n && j < n && Meet(i, j, offset)
  {
    if offset < n {
      i, j := offset, 0;
    } else {
      i, j := 0, TWO_64 - offset;
    }
  }

  /** All a thread ever sends. */
  ghost function Thread(order: ByteOrder, output: bv64 -> bv64, size: nat, seed: bv64): nat -> seq<byte>
    requires MIN_INITIAL_DATAGRAM <= size <= 16433
  {
    (i: nat) => Sent(order, output, size, seed, i)
  }

  /** The first `n` packets of two threads have none in common. */
  ghost predicate Disjoint(p: nat -> seq<byte>, q: nat -> seq<byte>, n: nat) {
    forall i: nat, j: nat | i < n && j < n :: p(i) != q(j)
  }

  lemma DisjointIff(p: nat -> seq<byte>, q: nat -> seq<byte>, offset: nat, n: nat)
    requires forall i: nat, j: nat :: p(i) == q(j) <==> Meet(i, j, offset)
    requires offset < TWO_64 && n > 0
    ensures Disjoint(p, q, n) <==> Apart(n, offset)
  {
    if Apart(n, offset) {
      forall i: nat, j: nat | i < n && j < n ensures p(i) != q(j) {
        ApartPositions(n, offset, i, j);
      }
    } else {
      var i, j := FirstMeeting(n, offset);
      assert p(i) == q(j);
    }
  }

  /** Two threads stay apart for their first `n` packets exactly when each seed
      is at least `n` packets away from the other along the cycle. */
  lemma ThreadsDisjointIff(e: Endian, size: nat, a: bv64, b: bv64, offset: nat, n: nat)
    requires MIN_INITIAL_DATAGRAM <= size <= 16433 && StateAt(a, offset) == b
    requires offset < TWO_64 && n > 0
    ensures Disjoint(Thread(e.Order(), Mix, size, a), Thread(e.Order(), Mix, size, b), n)
       <==> n <= offset && offset + n <= TWO_64
  {
    var p, q := Thread(e.Order(), Mix, size, a), Thread(e.Order(), Mix, size, b);
    forall i: nat, j: nat ensures p(i) == q(j) <==> Meet(i, j, offset) {
      ThreadsCollideIff(e, size, a, b, offset, i, j);
    }
    DisjointIff(p, q, offset, n);
  }

  /** The seeds `main` hands to its threads, drawn from one generator. */
  method DrawSeeds(master: bv64, threads: nat) returns (seeds: seq<bv64>)
    ensures |seeds| == threads
    ensures forall i :: 0 <= i < threads ==> seeds[i] == Draw(master, i)
    ensures forall i, j :: 0 <= i < j < threads && j - i < TWO_64 ==> seeds[i] != seeds[j]
  {
    var rng := new Generator(master);
    seeds := [];
    for n := 0 to threads
      invariant fresh(rng) && rng.output == Mix && rng.state == Stepped(master, n)
      invariant |seeds| == n && forall i :: 0 <= i < n ==> seeds[i] == Draw(master, i)
    {
      SteppedNext(master, n);
      var seed := rng.Next();
      seeds := seeds + [seed];
    }
    forall i, j | 0 <= i < j < threads && j - i < TWO_64 ensures seeds[i] != seeds[j] {
      DrawsDistinct(master, i, j);
    }
  }

  lemma MeetSelf(n: nat, offset: nat)
    requires offset < TWO_64 && Meet(n, n, offset)
    ensures offset == 0
  {
    if offset > 0 {
      RemaindersDiffer(n, offset + n);
    }
  }

  /** So no two of up to 2^64 threads send the same packet at the same position,
      however far their streams overlap otherwise. */
  lemma ThreadsNeverInStep(e: Endian, size: nat, master: bv64, i: nat, j: nat, n: nat)
    requires MIN_INITIAL_DATAGRAM <= size <= 16433 && i < j < i + TWO_64
    ensures Sent(e.Order(), Mix, size, Draw(master, i), n) != Sent(e.Order(), Mix, size, Draw(master, j), n)
  {
    var a, b := Draw(master, i), Draw(master, j);
    DrawsDistinct(master, i, j);
    var offset := SeedsShareOneCycle(a, b);
    ThreadsCollideIff(e, size, a, b, offset, n, n);
    if Meet(n, n, offset) {
      MeetSelf(n, offset);
    }
  }

  // ---------------------------------------------------------- The template

  lemma Layout(cid: seq<byte>, scid: seq<byte>, length: seq<byte>, number: seq<byte>, payload: seq<byte>)
    ensures [] + [0xc3] + [0, 0, 0, 1] + [20] + cid + [20] + scid + [0] + length + number + payload
         == PREFIX + cid + ([20] + scid + [0] + length + number + payload)
  {
  }

  datatype NewResult =
    | Built(template: InitialTemplate)
    | TooSmall
    | TooLarge
    | Panicked

  class InitialTemplate {
    var bytes: array<byte>
    const dcidOffset: nat

    constructor (contents: seq<byte>, offset: nat)
      ensures fresh(bytes) && bytes[..] == contents && dcidOffset == offset
    {
      dcidOffset := offset;
      bytes := new byte[|contents|](i requires 0 <= i < |contents| => contents[i]);
    }

    /** `InitialTemplate::new`. Every size gets exactly one of a packet, an
        error or, from 16434 to 65535, the failed assertion. */
    static method New(size: nat) returns (r: NewResult)
      ensures r == TooSmall <==> size < 1200
      ensures r == TooLarge <==> size > 0xffff
      ensures r == Panicked <==> 16434 <= size <= 0xffff
      ensures r.Built? ==>
                && 1200 <= size <= 16433
                && fresh(r.template) && fresh(r.template.bytes)
                && r.template.dcidOffset == 6
                && r.template.bytes[..] == Packet(size, Repeat(0, TOKEN_LEN))
    {
      if size < MIN_INITIAL_DATAGRAM {
        return TooSmall;
      }
      if size > 0xffff {
        return TooLarge;
      }
      var bytes: seq<byte> := [];
      bytes := bytes + [0xc3];
      bytes := bytes + [0, 0, 0, 1];
      bytes := bytes + [20];
      var offset := |bytes|;
      bytes := bytes + Repeat(0, TOKEN_LEN);
      bytes := bytes + [20];
      bytes := bytes + Repeat(0x5a, TOKEN_LEN);
      bytes := bytes + [0];
      var remaining := size - (|bytes| + 2);
      if remaining >= 0x4000 {
        return Panicked;
      }
      bytes := bytes + LengthField(remaining);
      bytes := bytes + Repeat(0, 4);
      bytes := bytes + Repeat(0x42, size - |bytes|);
      Layout(Repeat(0, TOKEN_LEN), Repeat(0x5a, TOKEN_LEN), LengthField(remaining), Repeat(0, 4), Repeat(0x42, size - 54));
      var template := new InitialTemplate(bytes, offset);
      return Built(template);
    }

    /** `randomize_dcid`: only the ID changes, and it becomes the ID of the
        generator's state on entry. */
    method RandomizeDcid(order: ByteOrder, rng: Generator)
      requires dcidOffset + TOKEN_LEN <= bytes.Length
      modifies bytes, rng
      ensures rng.state == Advance(old(rng.state))
      ensures bytes[..] == old(bytes[..dcidOffset]) + Cid(order, rng.output, old(rng.state))
                           + old(bytes[dcidOffset + TOKEN_LEN..])
    {
      ghost var cid := Cid(order, rng.output, rng.state);
      ghost var start := rng.state;
      var at := 0;
      while at < TOKEN_LEN
        invariant at == 0 || at == 8 || at == 16 || at == 20
        invariant rng.state == StateWithin(start, at)
        invariant bytes[..] == old(bytes[..dcidOffset]) + cid[..at] + old(bytes[dcidOffset + at..])
      {
        var len := if TOKEN_LEN - at < 8 then TOKEN_LEN - at else 8;
        WriteChunk(order, rng, at, len);
        CidChunk(order, rng.output, start, at, len);
        Splice(old(bytes[..]), dcidOffset, cid, at, len);
        at := at + len;
      }
      AdvanceIsThreeSteps(start);
      assert cid[..20] == cid;
    }

    /** The loop body: the next word's leading bytes into one chunk. */
    method WriteChunk(order: ByteOrder, rng: Generator, at: nat, len: nat)
      requires dcidOffset + at + len <= bytes.Length && len <= 8
      modifies bytes, rng
      ensures rng.state == Step(old(rng.state))
      ensures bytes[..] == old(bytes[..dcidOffset + at]) + Chunk(order, rng.output(rng.state), len)
                           + old(bytes[dcidOffset + at + len..])
    {
      var word := rng.Next();
      CopyInto(bytes, dcidOffset + at, Chunk(order, word, len));
    }
  }

  lemma Splice(was: seq<byte>, offset: nat, cid: seq<byte>, at: nat, len: nat)
    requires at + len <= |cid| && offset + |cid| <= |was|
    ensures var now := was[..offset] + cid[..at] + was[offset + at..];
            now[..offset + at] + cid[at..at + len] + now[offset + at + len..]
            == was[..offset] + cid[..at + len] + was[offset + at + len..]
  {
  }

  ghost predicate Ready(t: InitialTemplate, size: nat, cid: seq<byte>)
    requires MIN_INITIAL_DATAGRAM <= size <= 16433
    reads t, t.bytes
  {
    && t.dcidOffset == DCID_OFFSET
    && |cid| == TOKEN_LEN
    && t.bytes[..] == Packet(size, cid)
  }

  /** The first `n` values of `f`. */
  ghost function Listing<T>(f: nat -> T, n: nat): (s: seq<T>)
    ensures |s| == n
  {
    if n == 0 then [] else Listing(f, n - 1) + [f(n - 1)]
  }

  lemma {:induction false} ListingAt<T>(f: nat -> T, n: nat, i: nat)
    requires i < n
    ensures Listing(f, n)[i] == f(i)
  {
    if i == n - 1 {
    } else {
      ListingAt(f, n - 1, i);
    }
  }

  /** The first `n` packets of a thread. */
  ghost function AllSent(order: ByteOrder, output: bv64 -> bv64, size: nat, seed: bv64, n: nat): (p: seq<seq<byte>>)
    requires MIN_INITIAL_DATAGRAM <= size <= 16433
  {
    Listing(Thread(order, output, size, seed), n)
  }

  lemma AllSentNext(order: ByteOrder, output: bv64 -> bv64, size: nat, seed: bv64, n: nat)
    requires MIN_INITIAL_DATAGRAM <= size <= 16433
    ensures AllSent(order, output, size, seed, n + 1)
         == AllSent(order, output, size, seed, n) + [Sent(order, output, size, seed, n)]
  {
  }

  /** The state of a thread that has handed over `log`. */
  ghost predicate Progress(order: ByteOrder, t: InitialTemplate, rng: Generator, size: nat, seed: bv64,
                           log: seq<seq<byte>>, cid: seq<byte>)
    requires MIN_INITIAL_DATAGRAM <= size <= 16433
    reads t, t.bytes, rng
  {
    && Ready(t, size, cid)
    && rng.state == StateAt(seed, |log|)
    && log == AllSent(order, rng.output, size, seed, |log|)
  }

  /** What the socket answers to each send: the length it reports, or none for
      an error. */
  type Answers = nat -> Option<nat>

  datatype Stats = Stats(sent: nat, bytes: nat, errors: nat)

  /** How many of the first `n` sends the socket accepted, and the lengths it
      reported for them. */
  ghost function Accepts(answers: Answers, n: nat): nat {
    if n == 0 then 0 else Accepts(answers, n - 1) + (if answers(n - 1).Some? then 1 else 0)
  }

  ghost function Reported(answers: Answers, n: nat): nat {
    if n == 0 then 0 else Reported(answers, n - 1) + (if answers(n - 1).Some? then answers(n - 1).value else 0)
  }

  ghost function AcceptedAt(answers: Answers, n: nat): set<nat> {
    set i: nat | i < n && answers(i).Some?
  }

  lemma AcceptedNext(answers: Answers, n: nat)
    ensures n !in AcceptedAt(answers, n)
    ensures AcceptedAt(answers, n + 1) == AcceptedAt(answers, n) + if answers(n).Some? then {n} else {}
  {
  }

  lemma {:induction false} AcceptsCounts(answers: Answers, n: nat)
    ensures Accepts(answers, n) == |AcceptedAt(answers, n)|
  {
    if n == 0 {
    } else {
      AcceptsCounts(answers, n - 1);
      AcceptedNext(answers, n - 1);
    }
  }

  /** A socket that takes packets whole makes the byte count the size times the
      packets sent. */
  lemma {:induction false} WholePackets(answers: Answers, size: nat, n: nat)
    requires forall i: nat :: answers(i) == None || answers(i) == Some(size)
    ensures Reported(answers, n) == size * Accepts(answers, n)
  {
    if n == 0 {
    } else {
      WholePackets(answers, size, n - 1);
      var before := Accepts(answers, n - 1);
      assert size * (before + 1) == size * before + size;
    }
  }

  ghost predicate Scored(answers: Answers, n: nat, stats: Stats) {
    stats.sent == Accepts(answers, n) && stats.bytes == Reported(answers, n) && stats.sent + stats.errors == n
  }

  /** One iteration: rewrite the ID, hand the packet over, count the answer. */
  method SendOne(order: ByteOrder, template: InitialTemplate, rng: Generator, size: nat, ghost seed: bv64,
                 log: seq<seq<byte>>, ghost last: seq<byte>)
    returns (packets: seq<seq<byte>>, ghost cid: seq<byte>)
    requires MIN_INITIAL_DATAGRAM <= size <= 16433
    requires Progress(order, template, rng, size, seed, log, last)
    modifies template.bytes, rng
    ensures |packets| == |log| + 1 && Progress(order, template, rng, size, seed, packets, cid)
  {
    cid := Cid(order, rng.output, rng.state);
    template.RandomizeDcid(order, rng);
    RewritePacket(size, last, cid);
    StateNext(seed, |log|);
    AllSentNext(order, rng.output, size, seed, |log|);
    packets := log + [template.bytes[..]];
  }

  method CountOne(answers: Answers, n: nat, stats: Stats) returns (stats': Stats)
    requires Scored(answers, n, stats)
    ensures Scored(answers, n + 1, stats')
  {
    match answers(n)
    case Some(len) => stats' := stats.(sent := stats.sent + 1, bytes := stats.bytes + len);
    case None => stats' := stats.(errors := stats.errors + 1);
  }

  /** One batch of 64. */
  method SendBatch(order: ByteOrder, template: InitialTemplate, rng: Generator, size: nat, ghost seed: bv64,
                   log: seq<seq<byte>>, answers: Answers, stats: Stats, ghost last: seq<byte>)
    returns (packets: seq<seq<byte>>, stats': Stats, ghost cid: seq<byte>)
    requires MIN_INITIAL_DATAGRAM <= size <= 16433
    requires Progress(order, template, rng, size, seed, log, last) && Scored(answers, |log|, stats)
    modifies template.bytes, rng
    ensures |packets| == |log| + BATCH
    ensures Progress(order, template, rng, size, seed, packets, cid) && Scored(answers, |packets|, stats')
  {
    packets, stats', cid := log, stats, last;
    for n := 0 to BATCH
      invariant |packets| == |log| + n
      invariant Progress(order, template, rng, size, seed, packets, cid) && Scored(answers, |packets|, stats')
    {
      stats' := CountOne(answers, |packets|, stats');
      packets, cid := SendOne(order, template, rng, size, seed, packets, cid);
    }
  }

  /** `blast`: `batches` rounds of 64 packets, each handed to the socket, whose
      answers are given by `answers`. A size that cannot be built, by error or
      by failed assertion, ends it before any packet. */
  method Blast(order: ByteOrder, size: nat, seed: bv64, batches: nat, answers: Answers)
    returns (built: bool, packets: seq<seq<byte>>, stats: Stats)
    ensures built <==> 1200 <= size <= 16433
    ensures !built ==> packets == []
    ensures built ==> |packets| == 64 * batches && packets == AllSent(order, Mix, size, seed, |packets|)
    ensures Scored(answers, |packets|, stats)
  {
    packets, stats := [], Stats(0, 0, 0);
    var r := InitialTemplate.New(size);
    if !r.Built? {
      return false, packets, stats;
    }
    built := true;
    var template := r.template;
    var rng := new Generator(seed);
    ghost var cid := Repeat(0, TOKEN_LEN);
    for batch := 0 to batches
      invariant |packets| == BATCH * batch && Scored(answers, |packets|, stats)
      invariant fresh(rng) && rng.output == Mix && fresh(template.bytes)
      invariant Progress(order, template, rng, size, seed, packets, cid)
    {
      packets, stats, cid := SendBatch(order, template, rng, size, seed, packets, answers, stats, cid);
    }
  }
}
