/** How many 20-byte strings verify on one path: one per nonce, 256^8 in all. */
module TokenCount {
  import opened Wire
  import opened Auth

  ghost function Power(b: nat, e: nat): nat {
    if e == 0 then 1 else b * Power(b, e - 1)
  }

  /** The string of length `len` with a given value. */
  ghost function StringAt(len: nat, k: nat): (s: seq<byte>)
    ensures |s| == len
  {
    if len == 0 then [] else StringAt(len - 1, k / 256) + [(k % 256) as bv8]
  }

  lemma {:induction false} NumberOfString(len: nat, k: nat)
    requires k < Power(256, len)
    ensures Number(StringAt(len, k)) == k
  {
    if len == 0 {
    } else {
      NumberOfString(len - 1, k / 256);
      IntByteInt(k % 256);
      var s := StringAt(len, k);
      assert s[..len - 1] == StringAt(len - 1, k / 256);
    }
  }

  lemma {:induction false} StringOfNumber(s: seq<byte>)
    ensures Number(s) < Power(256, |s|)
    ensures StringAt(|s|, Number(s)) == s
  {
    if s == [] {
    } else {
      var init, last := s[..|s| - 1], s[|s| - 1];
      StringOfNumber(init);
      ByteIntByte(last);
      assert Number(s) / 256 == Number(init) && Number(s) % 256 == last as int;
      assert s == init + [last];
    }
  }

  lemma StringAtInjective(len: nat, k: nat, k': nat)
    requires k < Power(256, len) && k' < Power(256, len)
    requires StringAt(len, k) == StringAt(len, k')
    ensures k == k'
  {
    NumberOfString(len, k);
    NumberOfString(len, k');
  }

  datatype Route = Route(direction: Direction, src: Ipv4, dst: Ipv4)

  ghost function TokenAt(prf: Prf, r: Route, k: nat): seq<byte> {
    Assemble(prf, r.direction, StringAt(NONCE_LEN, k), r.src, r.dst)
  }

  /** The tokens of one path whose nonce counts below `n`. */
  ghost function TokensBelow(prf: Prf, r: Route, n: nat): set<seq<byte>> {
    if n == 0 then {} else TokensBelow(prf, r, n - 1) + {TokenAt(prf, r, n - 1)}
  }

  lemma {:induction false} TokensBelowMembers(prf: Prf, r: Route, n: nat, t: seq<byte>)
    requires t in TokensBelow(prf, r, n)
    ensures exists k: nat :: k < n && t == TokenAt(prf, r, k)
  {
    if t == TokenAt(prf, r, n - 1) {
    } else {
      TokensBelowMembers(prf, r, n - 1, t);
    }
  }

  lemma {:induction false} TokensBelowHold(prf: Prf, r: Route, n: nat, k: nat)
    requires k < n
    ensures TokenAt(prf, r, k) in TokensBelow(prf, r, n)
  {
    if k == n - 1 {
    } else {
      TokensBelowHold(prf, r, n - 1, k);
    }
  }

  lemma TokenIsNew(prf: Prf, r: Route, n: nat)
    requires n < Power(256, NONCE_LEN)
    ensures TokenAt(prf, r, n) !in TokensBelow(prf, r, n)
  {
    if TokenAt(prf, r, n) in TokensBelow(prf, r, n) {
      TokensBelowMembers(prf, r, n, TokenAt(prf, r, n));
      var k: nat :| k < n && TokenAt(prf, r, n) == TokenAt(prf, r, k);
      AssembleInjective(prf, r.direction, StringAt(NONCE_LEN, n), StringAt(NONCE_LEN, k), r.src, r.dst);
      StringAtInjective(NONCE_LEN, n, k);
    }
  }

  lemma {:induction false} TokensBelowSize(prf: Prf, r: Route, n: nat)
    requires n <= Power(256, NONCE_LEN)
    ensures |TokensBelow(prf, r, n)| == n
  {
    if n == 0 {
    } else {
      TokensBelowSize(prf, r, n - 1);
      TokenIsNew(prf, r, n - 1);
      OneMore(TokensBelow(prf, r, n - 1), TokenAt(prf, r, n - 1));
    }
  }

  lemma OneMore(s: set<seq<byte>>, x: seq<byte>)
    requires x !in s
    ensures |s + {x}| == |s| + 1
  {
  }

  ghost function ValidTokens(prf: Prf, r: Route): set<seq<byte>> {
    TokensBelow(prf, r, Power(256, NONCE_LEN))
  }

  lemma ValidTokensExact(prf: Prf, r: Route, t: seq<byte>)
    ensures t in ValidTokens(prf, r) <==> Verify(prf, t, r.direction, r.src, r.dst) == Ok
  {
    var total := Power(256, NONCE_LEN);
    if t in ValidTokens(prf, r) {
      TokensBelowMembers(prf, r, total, t);
      VerifyExact(prf, t, r.direction, r.src, r.dst);
    }
    if Verify(prf, t, r.direction, r.src, r.dst) == Ok {
      VerifyOkIsAssembled(prf, t, r.direction, r.src, r.dst);
      StringOfNumber(NonceOf(t));
      TokensBelowHold(prf, r, total, Number(NonceOf(t)));
    }
  }

  /** The valid tokens of a path are exactly 256^8 strings, whatever the cipher. */
  lemma ValidTokenCount(prf: Prf, r: Route)
    ensures |ValidTokens(prf, r)| == Power(256, NONCE_LEN)
    ensures forall t: seq<byte> :: t in ValidTokens(prf, r) <==> Verify(prf, t, r.direction, r.src, r.dst) == Ok
  {
    TokensBelowSize(prf, r, Power(256, NONCE_LEN));
    forall t: seq<byte> {
      ValidTokensExact(prf, r, t);
    }
  }

  /** One valid token per nonce, so changing only selector or tag bytes of a
      valid token never yields another one. */
  lemma OneTokenPerNonce(prf: Prf, t: seq<byte>, t': seq<byte>, direction: Direction, src: Ipv4, dst: Ipv4)
    requires Verify(prf, t, direction, src, dst) == Ok
    requires |t'| == TOKEN_LEN && |t| == TOKEN_LEN && NonceOf(t') == NonceOf(t)
    ensures Verify(prf, t', direction, src, dst) == Ok <==> t' == t
  {
    VerifyOkIsAssembled(prf, t, direction, src, dst);
    VerifyOkIsAssembled(prf, t', direction, src, dst);
  }
}
