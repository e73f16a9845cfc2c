/** 32-bit wrapping sequence numbers and the unbounded stream positions they stand for. */
module SeqNumbers {
  const MOD: int := 0x1_0000_0000

  type U32 = x: int | 0 <= x < 0x1_0000_0000

  function Wrap(n: int): U32 { n % 0x1_0000_0000 }

  function WrappingAdd(a: U32, n: int): U32 { Wrap(a + n) }

  function WrappingSub(a: U32, b: U32): U32 { Wrap(a - b) }

  lemma AddPosition(isn: int, p: int, n: int)
    ensures WrappingAdd(Wrap(isn + p), n) == Wrap(isn + p + n)
  {}

  /** The wrapping distance between two positions is their true distance reduced modulo 2^32. */
  lemma SubPositions(isn: int, p: int, q: int)
    ensures WrappingSub(Wrap(isn + q), Wrap(isn + p)) == Wrap(q - p)
    ensures 0 <= q - p < MOD ==> WrappingSub(Wrap(isn + q), Wrap(isn + p)) == q - p
  {}

  /** Positions less than 2^32 apart carry the same number only when they are equal. */
  lemma WrapInjective(isn: int, p: int, q: int)
    requires -MOD < p - q < MOD
    ensures Wrap(isn + p) == Wrap(isn + q) <==> p == q
  {}

  /** The acknowledgement test of the sender, read on positions. A position `ack` that is at
      most one wrap behind `base` passes the wrapping comparison exactly when it lies in
      `[base, sent]`, or when it is so stale that `[ack, sent]` spans a full 2^32. */
  lemma AckTestExact(isn: int, base: int, sent: int, ack: int)
    requires base <= sent < base + MOD && base - MOD <= ack <= sent
    ensures (WrappingSub(Wrap(isn + ack), Wrap(isn + base))
             <= WrappingSub(Wrap(isn + sent), Wrap(isn + base)))
            <==> (base <= ack || sent - ack >= MOD)
  {
    SubPositions(isn, base, sent);
    SubPositions(isn, base, ack);
  }

  /** A plain comparison of two numbers tells their order exactly when no multiple of 2^32
      lies between the positions. */
  lemma PlainCompare(p: int, q: int)
    requires p <= q < p + MOD
    ensures Wrap(p) != Wrap(q) <==> p != q
    ensures Wrap(p) < Wrap(q) <==> p != q && p / MOD == q / MOD
  {}
}
