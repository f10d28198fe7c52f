/** The ping payload: a sequence number and a filler, compared in full. */
module Ping {
  import opened Wire

  function Header(size: nat): nat {
    if size < 8 then size else 8
  }

  function Filler(n: nat): (s: seq<byte>)
    ensures |s| == n
  {
    seq(n, i requires 0 <= i => ((i % 251) as bv8))
  }

  function Payload(number: bv64, size: nat): (p: seq<byte>)
    ensures |p| == size
  {
    BigEndian64(number)[..Header(size)] + Filler(size - Header(size))
  }

  /** `ping_payload`. */
  method PingPayload(number: bv64, size: nat) returns (payload: array<byte>)
    ensures fresh(payload) && payload[..] == Payload(number, size)
  {
    payload := new byte[size](_ => 0);
    var header := if 8 < size then 8 else size;
    CopyInto(payload, 0, BigEndian64(number)[..header]);
    ghost var lead := BigEndian64(number)[..header];
    for i := 0 to size - header
      invariant payload[..header + i] == lead + Filler(i)
    {
      payload[header + i] := (i % 251) as bv8;
      assert payload[..header + i + 1] == payload[..header + i] + [payload[header + i]];
      assert Filler(i + 1) == Filler(i) + [(i % 251) as bv8];
    }
    assert payload[..] == payload[..header + (size - header)];
  }

  /** `ping` accepts an echo exactly when it is the payload it sent. */
  predicate Accepts(sent: seq<byte>, echoed: seq<byte>) {
    echoed == sent
  }

  lemma PeelByte(x: bv64, y: bv64)
    ensures x == y <==> Drop(x) == Drop(y) && LowByte(x) == LowByte(y)
  {
  }

  lemma LeadingNext(a: bv64, b: bv64, n: nat)
    requires n < 8
    ensures Leading(a, n + 1) == Leading(b, n + 1)
       <==> Leading(a, n) == Leading(b, n) && BigEndian64(a)[n] == BigEndian64(b)[n]
  {
    PeelByte(Leading(a, n + 1), Leading(b, n + 1));
    ByteOfNumber(a, n);
    ByteOfNumber(b, n);
  }

  lemma {:induction false} PrefixIsLeading(a: bv64, b: bv64, n: nat)
    requires n <= 8
    ensures BigEndian64(a)[..n] == BigEndian64(b)[..n] <==> Leading(a, n) == Leading(b, n)
  {
    if n == 0 {
      LeadingShifts(a);
      LeadingShifts(b);
    } else {
      PrefixIsLeading(a, b, n - 1);
      LeadingNext(a, b, n - 1);
      PrefixSnoc(BigEndian64(a), BigEndian64(b), n - 1);
    }
  }

  lemma PrefixSnoc(x: seq<byte>, y: seq<byte>, n: nat)
    requires n < |x| && n < |y|
    ensures x[..n + 1] == y[..n + 1] <==> x[..n] == y[..n] && x[n] == y[n]
  {
    assert x[..n + 1] == x[..n] + [x[n]] && y[..n + 1] == y[..n] + [y[n]];
  }

  lemma PayloadPrefix(a: bv64, b: bv64, size: nat)
    ensures Payload(a, size) == Payload(b, size)
       <==> BigEndian64(a)[..Header(size)] == BigEndian64(b)[..Header(size)]
  {
    var h := Header(size);
    assert Payload(a, size)[..h] == BigEndian64(a)[..h] && Payload(b, size)[..h] == BigEndian64(b)[..h];
  }

  /** A ping accepts the echo of another ping of its size exactly when their
      sequence numbers agree in the bytes carried; from 8 bytes on, only its
      own. */
  lemma EchoAccepted(a: bv64, b: bv64, size: nat)
    ensures Accepts(Payload(a, size), Payload(b, size)) <==> Leading(a, size) == Leading(b, size)
    ensures size >= 8 ==> (Accepts(Payload(a, size), Payload(b, size)) <==> a == b)
  {
    PayloadPrefix(a, b, size);
    PrefixIsLeading(a, b, Header(size));
  }

  /** What stands at byte `i`: the number from its highest byte down, then a
      count that starts again every 251 bytes. */
  function ExpectedByte(number: bv64, i: nat): byte {
    if i < 8 then LowByte(Leading(number, i + 1)) else ((i - 8) % 251) as bv8
  }

  lemma PayloadByte(number: bv64, size: nat, i: nat)
    requires i < size
    ensures Payload(number, size)[i] == ExpectedByte(number, i)
  {
    if i < 8 {
      ByteOfNumber(number, i);
    }
  }

  /** An echo is accepted exactly when it has the size sent and every byte of it
      is the expected one. */
  lemma EchoExact(number: bv64, size: nat, echo: seq<byte>)
    ensures Accepts(Payload(number, size), echo)
       <==> |echo| == size && forall i :: 0 <= i < |echo| ==> echo[i] == ExpectedByte(number, i)
  {
    var sent := Payload(number, size);
    forall i | 0 <= i < size ensures sent[i] == ExpectedByte(number, i) {
      PayloadByte(number, size, i);
    }
  }

  /** From 8 bytes on the sequence number can be read back. */
  lemma SequenceRecoverable(number: bv64, size: nat)
    requires size >= 8
    ensures FromBigEndian64(Payload(number, size)[..8]) == number
  {
    assert Payload(number, size)[..8] == BigEndian64(number);
    BigEndian64RoundTrip(number);
  }
}
