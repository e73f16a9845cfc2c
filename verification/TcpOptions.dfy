/** TCP options as bytes: the option list of a segment header and the loop that parses it. */
module TcpOptions {
  import opened Base
  import opened SeqNumbers
  import opened Wire

  const MAX_TCP_OPTIONS: nat := 5

  datatype TcpOption =
    | NoOperation
    | MaximumSegmentSize(mss: U16)
    | WindowScale(scale: Byte)
    | SackPermitted
    | Sack(sacks: seq<(U32, U32)>)
    | Timestamp(sender: U32, echo: U32)

  /** At most four ranges fit in the record of a selective acknowledgement. */
  predicate ValidOption(o: TcpOption) { o.Sack? ==> |o.sacks| <= 4 }

  function OptionSize(o: TcpOption): nat {
    match o
    case NoOperation => 1
    case MaximumSegmentSize(_) => 4
    case WindowScale(_) => 3
    case SackPermitted => 2
    case Sack(sacks) => 2 + 8 * |sacks|
    case Timestamp(_, _) => 10
  }

  function SackBytes(sacks: seq<(U32, U32)>): (r: Bytes)
    ensures |r| == 8 * |sacks|
  {
    if sacks == [] then [] else Put32(sacks[0].0) + Put32(sacks[0].1) + SackBytes(sacks[1..])
  }

  function OptionBytes(o: TcpOption): (r: Bytes)
    requires ValidOption(o)
    ensures |r| == OptionSize(o)
  {
    match o
    case NoOperation => [1]
    case MaximumSegmentSize(mss) => [2, 4] + Put16(mss)
    case WindowScale(scale) => [3, 3, scale]
    case SackPermitted => [4, 2]
    case Sack(sacks) => [5, 2 + 8 * |sacks|] + SackBytes(sacks)
    case Timestamp(sender, echo) => [8, 10] + Put32(sender) + Put32(echo)
  }

  /** Reads `n` ranges. */
  function ReadSacks(b: Bytes, n: nat): (r: Result<(seq<(U32, U32)>, Bytes)>)
    ensures r.Ok? ==> |r.value.0| == n && |r.value.1| <= |b|
  {
    if n == 0 then Ok(([], b))
    else if |b| < 8 then Err(EndOfInput)
    else
      var (more, rest) :- ReadSacks(b[8..], n - 1);
      Ok(([(Get32(b, 0), Get32(b, 4))] + more, rest))
  }

  /** Reads one option other than the end of the list; `None` stands for a no-operation. */
  function ReadOption(b: Bytes): (r: Result<(Option<TcpOption>, Bytes)>)
    requires b != [] && b[0] != 0
    ensures r.Ok? ==> |r.value.1| < |b| && (r.value.0.Some? ==> ValidOption(r.value.0.value))
  {
    if b[0] == 1 then Ok((None, b[1..]))
    else if b[0] !in {2, 3, 4, 5, 8} then Err(Malformed)
    else if |b| < 2 then Err(EndOfInput)
    else
      match b[0]
      case 2 =>
        if b[1] != 4 then Err(Malformed)
        else if |b| < 4 then Err(EndOfInput)
        else Ok((Some(MaximumSegmentSize(Get16(b, 2))), b[4..]))
      case 3 =>
        if b[1] != 3 then Err(Malformed)
        else if |b| < 3 then Err(EndOfInput)
        else Ok((Some(WindowScale(b[2])), b[3..]))
      case 4 =>
        if b[1] != 2 then Err(Malformed) else Ok((Some(SackPermitted), b[2..]))
      case 5 =>
        if b[1] !in {10, 18, 26, 34} then Err(Malformed)
        else
          var (sacks, rest) :- ReadSacks(b[2..], (b[1] - 2) / 8);
          Ok((Some(Sack(sacks)), rest))
      case _ =>
        if b[1] != 10 then Err(Malformed)
        else if |b| < 10 then Err(EndOfInput)
        else Ok((Some(Timestamp(Get32(b, 2), Get32(b, 6))), b[10..]))
  }

  /** The option list of `b`, after `found`: every option up to the end marker, without the
      no-operations. Input that ends before the marker, and a sixth option, are errors. */
  function ReadOptions(b: Bytes, found: seq<TcpOption>): (r: Result<seq<TcpOption>>)
    requires |found| <= MAX_TCP_OPTIONS && forall o | o in found :: ValidOption(o)
    ensures r.Ok? ==> |r.value| <= MAX_TCP_OPTIONS && forall o | o in r.value :: ValidOption(o)
    decreases |b|
  {
    if b == [] then Err(EndOfInput)
    else if b[0] == 0 then Ok(found)
    else
      var (option, rest) :- ReadOption(b);
      if option.None? then ReadOptions(rest, found)
      else if |found| >= MAX_TCP_OPTIONS then Err(Malformed)
      else ReadOptions(rest, found + [option.value])
  }

  /** The parser's loop: it stops on every input, for each round consumes a byte. */
  method ParseOptions(b: Bytes) returns (r: Result<seq<TcpOption>>)
    ensures r == ReadOptions(b, [])
  {
    var rest, found := b, [];
    while true
      invariant |found| <= MAX_TCP_OPTIONS && forall o | o in found :: ValidOption(o)
      invariant ReadOptions(b, []) == ReadOptions(rest, found)
      decreases |rest|
    {
      if rest == [] {
        return Err(EndOfInput);
      }
      if rest[0] == 0 {
        return Ok(found);
      }
      var one := ReadOption(rest);
      if one.Err? {
        return Err(one.fail);
      }
      rest := one.value.1;
      if one.value.0.Some? {
        if |found| >= MAX_TCP_OPTIONS {
          return Err(Malformed);
        }
        found := found + [one.value.0.value];
      }
    }
  }

  // ----- Round trip -----

  function AllSizes(os: seq<TcpOption>): nat { if os == [] then 0 else OptionSize(os[0]) + AllSizes(os[1..]) }

  function AllBytes(os: seq<TcpOption>): (r: Bytes)
    requires forall o | o in os :: ValidOption(o)
    ensures |r| == AllSizes(os)
  {
    if os == [] then [] else OptionBytes(os[0]) + AllBytes(os[1..])
  }

  /** What survives of an option list: the no-operations do not. */
  function Kept(os: seq<TcpOption>): (r: seq<TcpOption>)
    ensures |r| <= |os| && forall o | o in r :: o in os
  {
    if os == [] then []
    else if os[0].NoOperation? then Kept(os[1..])
    else [os[0]] + Kept(os[1..])
  }

  /** The wire format has no way to say a selective acknowledgement without ranges. */
  predicate HasEmptySack(os: seq<TcpOption>) { exists i | 0 <= i < |os| :: os[i].Sack? && os[i].sacks == [] }

  lemma {:induction false} SacksRoundTrip(sacks: seq<(U32, U32)>, rest: Bytes)
    ensures ReadSacks(SackBytes(sacks) + rest, |sacks|) == Ok((sacks, rest))
  {
    hide Put32, Get32, SackBytes;
    SackSlices(sacks, rest);
    if sacks != [] {
      var b := SackBytes(sacks) + rest;
      Reads32(b, 0, sacks[0].0);
      Reads32(b, 4, sacks[0].1);
      SacksRoundTrip(sacks[1..], rest);
      assert sacks == [sacks[0]] + sacks[1..];
    }
  }

  lemma SackSlices(sacks: seq<(U32, U32)>, rest: Bytes)
    ensures sacks == [] ==> SackBytes(sacks) + rest == rest
    ensures sacks != [] ==>
      var b := SackBytes(sacks) + rest;
      && |b| >= 8 && b[0..4] == Put32(sacks[0].0) && b[4..8] == Put32(sacks[0].1)
      && b[8..] == SackBytes(sacks[1..]) + rest
  {
    hide Put32;
    if sacks == [] {
      assert [] + rest == rest;
    } else {
      PairSlices(Put32(sacks[0].0), Put32(sacks[0].1), SackBytes(sacks[1..]), rest);
    }
  }

  lemma PairSlices(f: Bytes, g: Bytes, t: Bytes, rest: Bytes)
    requires |f| == 4 && |g| == 4
    ensures var b := f + g + t + rest; b[0..4] == f && b[4..8] == g && b[8..] == t + rest
  {
  }

  /** One option: reading what was written gives it back, except that a no-operation is skipped
      and a selective acknowledgement without ranges is refused. */
  lemma OptionRoundTrip(o: TcpOption, rest: Bytes)
    requires ValidOption(o)
    ensures var b := OptionBytes(o) + rest;
      && b[0] != 0
      && ReadOption(b) == (
        if o.NoOperation? then Ok((None, rest))
        else if o.Sack? && o.sacks == [] then Err(Malformed)
        else Ok((Some(o), rest)))
  {
    hide Put16, Get16, Put32, Get32, ReadSacks, SackBytes;
    var b := OptionBytes(o) + rest;
    assert b[OptionSize(o)..] == rest;
    match o
    case NoOperation =>
    case MaximumSegmentSize(mss) =>
      assert b[2..4] == Put16(mss);
      Reads16(b, 2, mss);
    case WindowScale(_) =>
    case SackPermitted =>
    case Sack(sacks) =>
      assert b[2..] == SackBytes(sacks) + rest;
      SacksRoundTrip(sacks, rest);
      assert b[1] == 2 + 8 * |sacks| && (b[1] - 2) / 8 == |sacks|;
    case Timestamp(sender, echo) =>
      assert b[2..6] == Put32(sender) && b[6..10] == Put32(echo);
      Reads32(b, 2, sender);
      Reads32(b, 6, echo);
  }

  /** The list: reading a written list gives back its options without the no-operations, unless
      a selective acknowledgement has no ranges, which is an error. */
  lemma {:induction false} OptionsRoundTrip(os: seq<TcpOption>, padding: Bytes, found: seq<TcpOption>)
    requires |found| + |Kept(os)| <= MAX_TCP_OPTIONS
    requires forall o | o in os + found :: ValidOption(o)
    ensures forall o | o in os :: o in os + found
    ensures forall o | o in found :: o in os + found
    ensures ReadOptions(AllBytes(os) + [0] + padding, found) ==
      if HasEmptySack(os) then Err(Malformed) else Ok(found + Kept(os))
  {
    hide OptionBytes, ReadOption, OptionSize, HasEmptySack, AllBytes, ValidOption;
    forall o | o in os || o in found ensures o in os + found {
    }
    var b := AllBytes(os) + [0] + padding;
    ListFront(os, padding);
    if os == [] {
      assert found + Kept(os) == found;
      NoEmptySack();
    } else {
      var rest := AllBytes(os[1..]) + [0] + padding;
      OptionRoundTrip(os[0], rest);
      EmptySackStep(os);
      if os[0].NoOperation? {
        OptionsRoundTrip(os[1..], padding, found);
      } else if !(os[0].Sack? && os[0].sacks == []) {
        assert forall o | o in os[1..] + (found + [os[0]]) :: o in os + found;
        OptionsRoundTrip(os[1..], padding, found + [os[0]]);
        assert found + [os[0]] + Kept(os[1..]) == found + Kept(os);
      }
    }
  }

  lemma ListFront(os: seq<TcpOption>, padding: Bytes)
    requires forall o | o in os :: ValidOption(o)
    ensures var b := AllBytes(os) + [0] + padding;
      if os == [] then b[0] == 0 else b == OptionBytes(os[0]) + (AllBytes(os[1..]) + [0] + padding)
  {
    hide OptionBytes, OptionSize;
  }

  lemma NoEmptySack()
    ensures !HasEmptySack([])
  {
  }

  lemma EmptySackStep(os: seq<TcpOption>)
    requires os != []
    ensures HasEmptySack(os) <==> (os[0].Sack? && os[0].sacks == []) || HasEmptySack(os[1..])
  {
    if HasEmptySack(os) {
      var i :| 0 <= i < |os| && os[i].Sack? && os[i].sacks == [];
      if i > 0 { assert os[1..][i - 1] == os[i]; }
    }
    if HasEmptySack(os[1..]) {
      var i :| 0 <= i < |os[1..]| && os[1..][i].Sack? && os[1..][i].sacks == [];
      assert os[i + 1] == os[1..][i];
    }
  }
}
