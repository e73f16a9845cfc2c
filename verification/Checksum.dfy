/** The Internet checksum: the subtracting loop of the Rust stack, the carry folding of RFC 1071
    and of the C++ stack, and what they have in common. */
module Checksum {
  import opened Base

  function Word(hi: Byte, lo: Byte): nat { hi * 256 + lo }

  /** The big-endian 16-bit words of `b`, added up; an odd last byte is padded with zero. */
  function SumWords(b: Bytes): nat {
    if |b| == 0 then 0
    else if |b| == 1 then Word(b[0], 0)
    else Word(b[0], b[1]) + SumWords(b[2..])
  }

  /** The one's complement value of `sum`, with all ones standing for zero. */
  function Residue(sum: nat): (r: nat)
    ensures 1 <= r <= 0xFFFF
    decreases sum
  {
    if sum == 0 then 0xFFFF else if sum <= 0xFFFF then sum else Residue(sum - 0xFFFF)
  }

  /** It is the sum modulo 0xFFFF. */
  lemma {:induction false} ResidueIsModulo(sum: nat)
    ensures (Residue(sum) - sum) % 0xFFFF == 0
    decreases sum
  {
    if sum > 0xFFFF {
      ResidueIsModulo(sum - 0xFFFF);
      MultipleDifference(Residue(sum) - (sum - 0xFFFF), 0xFFFF);
    }
  }

  function Complement(sum: nat): (r: nat)
    ensures r < 0xFFFF
  {
    0xFFFF - Residue(sum)
  }

  /** The final loop of the three Rust checksums. */
  method SubtractingLoop(sum: nat) returns (r: nat)
    ensures r == Complement(sum)
  {
    var state := 0xFFFF + sum;
    while state > 0xFFFF
      invariant 1 <= state && Residue(state) == Residue(sum)
    {
      state := state - 0xFFFF;
    }
    r := 0xFFFF - state;
  }

  lemma SameResidue(r: nat, sum: nat)
    requires 1 <= r <= 0xFFFF && (r - sum) % 0xFFFF == 0
    ensures r == Residue(sum)
  {
    hide Residue;
    var q := Residue(sum);
    ResidueIsModulo(sum);
    assert (r - sum) - (q - sum) == r - q;
    MultipleDifference(r - sum, q - sum);
  }

  lemma MultipleDifference(a: int, b: int)
    requires a % 0xFFFF == 0 && b % 0xFFFF == 0
    ensures (a - b) % 0xFFFF == 0
  {
    assert a - b == 0xFFFF * (a / 0xFFFF - b / 0xFFFF);
  }

  /** Carry folding, section 4.1 of RFC 1071. */
  function Fold(sum: nat): (r: nat)
    ensures r <= 0xFFFF
    decreases sum
  {
    if sum <= 0xFFFF then sum else Fold(sum % 0x1_0000 + sum / 0x1_0000)
  }

  /** The subtracting loop and carry folding agree exactly on the nonzero sums. */
  lemma SubtractingIsFolding(sum: nat)
    ensures Complement(sum) == 0xFFFF - Fold(sum) <==> sum != 0
  {
    if sum != 0 { FoldIsResidue(sum); }
  }

  lemma {:induction false} FoldIsResidue(sum: nat)
    requires sum != 0
    ensures Fold(sum) == Residue(sum)
    decreases sum
  {
    hide Residue;
    if sum <= 0xFFFF {
      SameResidue(sum, sum);
    } else {
      var next := sum % 0x1_0000 + sum / 0x1_0000;
      FoldIsResidue(next);
      CarryIsMultiple(sum);
      SameClass(next, sum);
    }
  }

  /** A receiver that adds the checksum to the words it covers gets all ones. */
  lemma ChecksumVerifies(sum: nat)
    ensures Residue(sum + Complement(sum)) == 0xFFFF
  {
    hide Residue;
    ResidueIsModulo(sum);
    assert (0xFFFF - (sum + Complement(sum))) == Residue(sum) - sum;
    SameResidue(0xFFFF, sum + Complement(sum));
  }

  /** The checksum tells two sums apart exactly if they differ modulo 0xFFFF; in particular it
      notices every change to a single word other than between all zeros and all ones. */
  lemma ChecksumDetects(a: nat, b: nat)
    ensures Complement(a) == Complement(b) <==> (a - b) % 0xFFFF == 0
  {
    hide Residue;
    ResidueIsModulo(a);
    ResidueIsModulo(b);
    if (a - b) % 0xFFFF == 0 {
      SameClass(a, b);
    } else if Residue(a) == Residue(b) {
      MultipleDifference(Residue(b) - b, Residue(a) - a);
    }
  }

  lemma {:induction false} SumWordsBound(b: Bytes)
    ensures SumWords(b) <= (|b| + 1) / 2 * 0xFFFF
  {
    if |b| >= 2 {
      SumWordsBound(b[2..]);
      assert (|b| + 1) / 2 == (|b[2..]| + 1) / 2 + 1;
    }
  }

  lemma {:induction false} SumWordsConcat(a: Bytes, b: Bytes)
    requires |a| % 2 == 0
    ensures SumWords(a + b) == SumWords(a) + SumWords(b)
  {
    if |a| == 0 {
      assert a + b == b;
    } else {
      assert (a + b)[2..] == a[2..] + b;
      SumWordsConcat(a[2..], b);
    }
  }

  /** Replacing the word at an even place changes the sum by the difference of the words. */
  lemma SumWordsReplaced(b: Bytes, j: nat, x: Byte, y: Byte)
    requires j % 2 == 0 && j + 2 <= |b|
    ensures SumWords(b[j := x][j + 1 := y]) == SumWords(b) - Word(b[j], b[j + 1]) + Word(x, y)
  {
    var c := b[j := x][j + 1 := y];
    SumWordsSplit(b, j);
    SumWordsSplit(c, j);
    assert c[..j] == b[..j] && c[j + 2..] == b[j + 2..];
  }

  lemma SumWordsSplit(b: Bytes, j: nat)
    requires j % 2 == 0 && j + 2 <= |b|
    ensures SumWords(b) == SumWords(b[..j]) + Word(b[j], b[j + 1]) + SumWords(b[j + 2..])
  {
    assert b == b[..j] + b[j..];
    SumWordsConcat(b[..j], b[j..]);
    assert b[j..][2..] == b[j + 2..];
  }

  /** Accumulates the words of `data` onto `start`, as the chunk loops do. The accumulator is 32
      bits wide and its overflow aborts. */
  method AddWords(start: nat, data: Bytes) returns (ok: bool, state: nat)
    ensures ok <==> start + SumWords(data) < 0x1_0000_0000
    ensures ok ==> state == start + SumWords(data)
  {
    state := start;
    if state >= 0x1_0000_0000 { return false, state; }
    var i := 0;
    while i + 2 <= |data|
      invariant 0 <= i <= |data| && i % 2 == 0 && state < 0x1_0000_0000
      invariant state + SumWords(data[i..]) == start + SumWords(data)
    {
      assert data[i..][2..] == data[i + 2..];
      state := state + Word(data[i], data[i + 1]);
      if state >= 0x1_0000_0000 { return false, state; }
      i := i + 2;
    }
    if i < |data| {
      assert data[i..] == [data[i]];
      state := state + Word(data[i], 0);
    } else {
      assert data[i..] == [];
    }
    ok := state < 0x1_0000_0000;
  }

  // ----- The C++ routine -----

  /** The same words read by a little-endian host; an odd last byte is left out. */
  function HostSum(b: Bytes): nat {
    if |b| < 2 then 0 else Word(b[1], b[0]) + HostSum(b[2..])
  }

  function SwapBytes(n: nat): nat
    requires n <= 0xFFFF
  {
    n % 256 * 256 + n / 256
  }

  /** `ip_sum` as written: fold early whenever bit 31 is set, so the 32-bit sum never overflows. */
  method IpSum(hdr: Bytes) returns (r: nat)
    ensures r == 0xFFFF - Fold(HostSum(hdr))
  {
    var sum: nat := 0;
    var i := 0;
    while |hdr| - i > 1
      invariant 0 <= i <= |hdr| && sum < 0x8000_0000
      invariant Fold(sum + HostSum(hdr[i..])) == Fold(HostSum(hdr))
    {
      assert hdr[i..][2..] == hdr[i + 2..];
      ghost var rest := HostSum(hdr[i + 2..]);
      sum := sum + Word(hdr[i + 1], hdr[i]);
      assert sum < 0x1_0000_0000;
      if sum >= 0x8000_0000 {
        FoldEarly(sum, rest);
        sum := sum % 0x1_0000 + sum / 0x1_0000;
      }
      i := i + 2;
    }
    while sum / 0x1_0000 != 0
      invariant Fold(sum) == Fold(HostSum(hdr))
      decreases sum
    {
      sum := sum % 0x1_0000 + sum / 0x1_0000;
    }
    r := 0xFFFF - sum;
  }

  /** Folding part of a sum early does not change the result. */
  lemma FoldEarly(sum: nat, rest: nat)
    requires sum > 0xFFFF
    ensures Fold(sum % 0x1_0000 + sum / 0x1_0000 + rest) == Fold(sum + rest)
  {
    hide Fold, Residue;
    var next := sum % 0x1_0000 + sum / 0x1_0000;
    FoldIsResidue(next + rest);
    FoldIsResidue(sum + rest);
    CarryIsMultiple(sum);
    assert (next + rest) - (sum + rest) == next - sum;
    SameClass(next + rest, sum + rest);
  }

  lemma CarryIsMultiple(sum: nat)
    ensures (sum % 0x1_0000 + sum / 0x1_0000 - sum) % 0xFFFF == 0
  {
    assert sum % 0x1_0000 + sum / 0x1_0000 - sum == 0xFFFF * -(sum / 0x1_0000);
  }

  lemma SameClass(a: nat, b: nat)
    requires (a - b) % 0xFFFF == 0
    ensures Residue(a) == Residue(b)
  {
    hide Residue;
    ResidueIsModulo(a);
    assert (0 - (a - b)) % 0xFFFF == 0 by { MultipleDifference(0, a - b); }
    MultipleDifference(Residue(a) - a, 0 - (a - b));
    assert Residue(a) - a - (0 - (a - b)) == Residue(a) - b;
    SameResidue(Residue(a), b);
  }

  lemma {:induction false} HostSumIsShifted(b: Bytes)
    requires |b| % 2 == 0
    ensures (HostSum(b) - 256 * SumWords(b)) % 0xFFFF == 0
    ensures HostSum(b) == 0 <==> SumWords(b) == 0
  {
    if |b| > 0 {
      HostSumIsShifted(b[2..]);
      var x, hi: int := HostSum(b[2..]) - 256 * SumWords(b[2..]), b[0];
      assert HostSum(b) - 256 * SumWords(b) == x - 0xFFFF * hi;
      MultipleDifference(x, 0xFFFF * hi);
    }
  }

  lemma SwapIsShift(n: nat)
    requires n <= 0xFFFF
    ensures (SwapBytes(n) - 256 * n) % 0xFFFF == 0
    ensures n >= 1 ==> 1 <= SwapBytes(n) <= 0xFFFF
  {
    assert SwapBytes(n) - 256 * n == 0xFFFF * -(n / 256);
  }

  lemma ShiftBoth(w: int, r: int, h: int, s: int)
    requires (w - 256 * r) % 0xFFFF == 0 && (h - 256 * s) % 0xFFFF == 0 && (r - s) % 0xFFFF == 0
    ensures (w - h) % 0xFFFF == 0
  {
    var a, b, c := (w - 256 * r) / 0xFFFF, (h - 256 * s) / 0xFFFF, (r - s) / 0xFFFF;
    assert w - h == 0xFFFF * (a - b + 256 * c);
  }

  /** Byte order does not matter, section 2(B) of RFC 1071: adding byte-swapped words gives the
      byte-swapped sum. */
  lemma FoldByteSwapped(b: Bytes)
    requires |b| % 2 == 0
    ensures Fold(HostSum(b)) == SwapBytes(Fold(SumWords(b)))
  {
    HostSumIsShifted(b);
    hide SumWords, HostSum, Residue;
    var s := SumWords(b);
    if s != 0 {
      hide Fold;
      FoldIsResidue(s);
      FoldIsResidue(HostSum(b));
      ResidueIsModulo(s);
      var r := Residue(s);
      SwapIsShift(r);
      ShiftBoth(SwapBytes(r), r, HostSum(b), s);
      SameResidue(SwapBytes(r), HostSum(b));
    }
  }

  lemma SwapComplement(n: nat)
    requires n <= 0xFFFF
    ensures SwapBytes(0xFFFF - n) == 0xFFFF - SwapBytes(n)
  {
    var hi, lo := n / 256, n % 256;
    assert 0xFFFF - n == 256 * (255 - hi) + (255 - lo);
  }

  /** On every nonzero even-length input the C++ routine returns the byte-swapped Rust checksum. */
  lemma IpSumIsByteSwapped(b: Bytes)
    requires |b| % 2 == 0 && SumWords(b) != 0
    ensures 0xFFFF - Fold(HostSum(b)) == SwapBytes(Complement(SumWords(b)))
  {
    hide Fold, SwapBytes, SumWords, HostSum;
    FoldByteSwapped(b);
    FoldIsResidue(SumWords(b));
    SwapComplement(Fold(SumWords(b)));
  }
}
