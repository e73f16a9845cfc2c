/** Vocabulary shared by every component: optional values, the outcome of an operation
    that may abort the process, and buffers of bytes. */
module Base {

  datatype Option<+T> = None | Some(value: T)

  /** `Panic` stands for every way the program aborts: a failed assertion, an `unwrap` or
      `expect` of nothing, or a checked arithmetic operation that overflows. */
  datatype Outcome<+T> = Done(value: T) | Panic {
    predicate IsFailure() { Panic? }
    function PropagateFailure<U>(): Outcome<U> requires Panic? { Panic }
    function Extract(): T requires Done? { value }
  }

  function Power2(n: nat): nat { if n == 0 then 1 else 2 * Power2(n - 1) }

  type Byte = b: int | 0 <= b < 256
  type Bytes = seq<Byte>

  /** A port number; zero is not one. */
  type Port = p: int | 0 < p < 0x1_0000 witness 1

  /** All bytes of a list of buffers, in order. */
  function Flat(bufs: seq<Bytes>): Bytes {
    if bufs == [] then [] else bufs[0] + Flat(bufs[1..])
  }

  /** Number of bytes in a list of buffers. */
  function Total(bufs: seq<Bytes>): nat {
    if bufs == [] then 0 else |bufs[0]| + Total(bufs[1..])
  }

  lemma {:induction false} TotalIsFlatLength(bufs: seq<Bytes>)
    ensures Total(bufs) == |Flat(bufs)|
  {
    if bufs != [] {
      TotalIsFlatLength(bufs[1..]);
    }
  }

  predicate AllNonEmpty(bufs: seq<Bytes>) {
    forall i | 0 <= i < |bufs| :: bufs[i] != []
  }

  lemma {:induction false} FlatConcat(a: seq<Bytes>, b: seq<Bytes>)
    ensures Flat(a + b) == Flat(a) + Flat(b)
    ensures Total(a + b) == Total(a) + Total(b)
  {
    if a == [] {
      assert a + b == b;
    } else {
      assert (a + b)[1..] == a[1..] + b;
      FlatConcat(a[1..], b);
    }
  }

  lemma FlatSnoc(a: seq<Bytes>, b: Bytes)
    ensures Flat(a + [b]) == Flat(a) + b
    ensures Total(a + [b]) == Total(a) + |b|
  {
    FlatConcat(a, [b]);
    assert [b][1..] == [];
  }

  /** Byte offset of the `i`-th buffer of a list. */
  function Offset(bufs: seq<Bytes>, i: nat): nat
    requires i <= |bufs|
  {
    Total(bufs[..i])
  }

  lemma OffsetSplit(bufs: seq<Bytes>, i: nat)
    requires i <= |bufs|
    ensures Offset(bufs, i) + Total(bufs[i..]) == Total(bufs)
    ensures Flat(bufs) == Flat(bufs[..i]) + Flat(bufs[i..])
  {
    assert bufs == bufs[..i] + bufs[i..];
    FlatConcat(bufs[..i], bufs[i..]);
  }

  lemma OffsetStep(bufs: seq<Bytes>, i: nat)
    requires i < |bufs|
    ensures Offset(bufs, i + 1) == Offset(bufs, i) + |bufs[i]|
  {
    assert bufs[..i + 1] == bufs[..i] + [bufs[i]];
    FlatSnoc(bufs[..i], bufs[i]);
  }

  /** Offsets of non-empty buffers strictly increase, so an offset identifies its buffer. */
  lemma {:induction false} OffsetIncreases(bufs: seq<Bytes>, i: nat, j: nat)
    requires i < j <= |bufs| && AllNonEmpty(bufs)
    ensures Offset(bufs, i) < Offset(bufs, j)
    decreases j
  {
    OffsetStep(bufs, j - 1);
    if i < j - 1 {
      OffsetIncreases(bufs, i, j - 1);
    }
  }

  lemma OffsetCons(b: Bytes, rest: seq<Bytes>, k: nat)
    requires k <= |rest|
    ensures Offset([b] + rest, k + 1) == |b| + Offset(rest, k)
  {
    var l := ([b] + rest)[..k + 1];
    assert l == [b] + rest[..k];
    assert l[1..] == rest[..k];
  }

  lemma OffsetFull(bufs: seq<Bytes>)
    ensures Offset(bufs, |bufs|) == Total(bufs)
  {
    assert bufs[..|bufs|] == bufs;
  }

  /** Extending the list leaves the offsets of its old buffers alone. */
  lemma OffsetExtend(bufs: seq<Bytes>, more: seq<Bytes>, i: nat)
    requires i <= |bufs|
    ensures Offset(bufs + more, i) == Offset(bufs, i)
  {
    assert (bufs + more)[..i] == bufs[..i];
  }
}
