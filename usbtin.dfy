/**
 * The host-side logic of the USBtin driver: the byte-by-byte receive step, the
 * transmit FIFO, the listener list, the synchronous reply parser, the mapping
 * of filter chains to MCP2515 register writes, the bit-rate and mode tables
 * and the bit-timing search. The serial port is not modelled; what the driver
 * writes to it is recorded as the ghost sequence of lines `written`, and what
 * it hands to listeners as the ghost sequence `delivered`.
 */
module UsbTin {
  import opened Wrappers
  import opened Exceptions
  import opened Arith
  import opened Payload
  import opened CanMessages
  import opened FilterMasks
  import Hex

  const CR: Byte := 13
  const BEL: Byte := 7

  /** USBtin.ACTIVE, USBtin.LISTENONLY and USBtin.LOOPBACK. */
  const Active: int := 0
  const ListenOnly: int := 1
  const Loopback: int := 2

  /** RX_THREAD_STOPPED, RX_THREAD_RUNNING and RX_THREAD_TERMINATE. */
  datatype RxState = RxStopped | RxRunning | RxTerminate

  /** A registered callback, known by its identity. */
  type Listener = nat

  /** One call `listener(canmsg)` made by the receive step. */
  datatype Delivery = Delivery(listener: Listener, frame: Frame)

  /** A FilterChain: one mask and its filters, each as four register values. */
  datatype FilterChain = FilterChain(mask: RegisterSet, filters: seq<RegisterSet>)

  /** One `write_mcp_register(register, value)` call. */
  datatype RegWrite = RegWrite(register: nat, value: nat)

  /* ---------------------------------------------------------------------- */
  /* Commands                                                                */
  /* ---------------------------------------------------------------------- */

  /** `"W{:02x}{:02x}".format(register, value)`. */
  function RegisterCommand(register: nat, value: nat): string {
    "W" + Hex.Padded(register, 2) + Hex.Padded(value, 2)
  }

  /** The register and value of a write read back from the two hex pairs of its command. */
  lemma RegisterCommandFields(register: nat, value: nat)
    requires register < 256 && value < 256
    ensures var cmd := RegisterCommand(register, value);
      |cmd| == 5 && cmd[0] == 'W' &&
      Hex.Parse(cmd[1..3]) == Some(register) && Hex.Parse(cmd[3..5]) == Some(value)
  {
    assert Hex.Pow16(2) == 256;
    Hex.PaddedLength(register, 2);
    Hex.PaddedLength(value, 2);
    Hex.ParsePadded(register, 2);
    Hex.ParsePadded(value, 2);
    var cmd := RegisterCommand(register, value);
    assert cmd[1..3] == Hex.Padded(register, 2);
    assert cmd[3..5] == Hex.Padded(value, 2);
  }

  /** The line `transmit` writes for a register write. */
  function CommandLine(w: RegWrite): string {
    RegisterCommand(w.register, w.value) + "\r"
  }

  /** The lines written for a sequence of register writes, in order. */
  function Lines(ws: seq<RegWrite>): (ls: seq<string>)
    ensures |ls| == |ws|
  {
    if ws == [] then [] else [CommandLine(ws[0])] + Lines(ws[1..])
  }

  lemma {:induction false} LinesAppend(a: seq<RegWrite>, b: seq<RegWrite>)
    ensures Lines(a + b) == Lines(a) + Lines(b)
  {
    if a == [] {
      assert a + b == b;
    } else {
      assert (a + b)[1..] == a[1..] + b;
      LinesAppend(a[1..], b);
    }
  }

  /** The lines of the first `i + 1` writes: those of the first `i`, then one more. */
  lemma LinesSnoc(ws: seq<RegWrite>, i: nat)
    requires i < |ws|
    ensures Lines(ws[..i + 1]) == Lines(ws[..i]) + [CommandLine(ws[i])]
  {
    assert ws[..i + 1] == ws[..i] + [ws[i]];
    LinesAppend(ws[..i], [ws[i]]);
  }

  /** The preset bit rates and the digit of their `S` command. */
  const Presets: map<int, char> := map[
    10000 := '0', 20000 := '1', 50000 := '2', 100000 := '3', 125000 := '4',
    250000 := '5', 500000 := '6', 800000 := '7', 1000000 := '8']

  /** `"S" + baud_dict[baudrate]` for a preset rate, none otherwise. */
  function PresetCommand(baudrate: int): (r: Option<string>)
    ensures r.Some? <==> baudrate in {10000, 20000, 50000, 100000, 125000, 250000, 500000, 800000, 1000000}
    ensures r.Some? ==> |r.value| == 2 && r.value[0] == 'S' && '0' <= r.value[1] <= '8'
  {
    if baudrate in Presets then Some("S" + [Presets[baudrate]]) else None
  }

  /** A faster preset rate always has a larger digit: the digit determines the rate. */
  lemma PresetDigitsOrdered(a: int, b: int)
    requires PresetCommand(a).Some? && PresetCommand(b).Some?
    ensures a < b <==> PresetCommand(a).value[1] < PresetCommand(b).value[1]
  {
  }

  /** The command character for a mode; an unknown mode opens listen-only. */
  function ModeCommand(mode: int): (c: char)
    ensures c == 'O' <==> mode == Active
    ensures c == 'l' <==> mode == Loopback
    ensures c == 'L' <==> mode != Active && mode != Loopback
  {
    var modes := map[ListenOnly := 'L', Loopback := 'l', Active := 'O'];
    if mode in modes then modes[mode] else 'L'
  }

  /* ---------------------------------------------------------------------- */
  /* Bit-timing search                                                      */
  /* ---------------------------------------------------------------------- */

  /** The adapter's oscillator frequency in hertz. */
  const Fosc: real := 24000000.0

  /** CNF register values for 11 .. 23 time quanta per bit. */
  const CnfValues: seq<nat> := [0x9203, 0x9303, 0x9B03, 0x9B04, 0x9C04, 0xA404, 0xA405,
                                0xAC05, 0xAC06, 0xAD06, 0xB506, 0xB507, 0xBD07]

  /** Python's float `a % 20.0`: the remainder has the sign of the divisor. */
  function Mod20(a: real): (m: real)
    ensures 0.0 <= m < 20.0
  {
    a - 20.0 * ((a / 20.0).Floor as real)
  }

  /**
   * The prescaler tried for `x` quanta per bit: `xdesired * 10 / x` moved to a
   * multiple of 20 (up when the remainder is at least 10, else down), divided by
   * 10 and clamped to 2 .. 128. It is always an even whole number in that range.
   */
  function Prescaler(xdesired: real, x: nat): (p: real)
    requires x > 0
    ensures 2.0 <= p <= 128.0
    ensures p == p.Floor as real && p.Floor % 2 == 0
  {
    var xbrp := xdesired * 10.0 / (x as real);
    var m := Mod20(xbrp);
    var q := (xbrp / 20.0).Floor;
    var even := ((if m >= 10.0 then xbrp + 20.0 else xbrp) - m) / 10.0;
    assert even == ((2 * q + if m >= 10.0 then 2 else 0) as real);
    if even < 2.0 then 2.0 else if even > 128.0 then 128.0 else even
  }

  function Abs(r: real): real {
    if r < 0.0 then -r else r
  }

  /** How far `x` quanta of the chosen prescaler are from the desired bit length. */
  function Deviation(xdesired: real, x: nat): real
    requires x > 0
  {
    Abs(xdesired - (x as real) * Prescaler(xdesired, x))
  }

  /** The outcome of the search: quanta per bit, prescaler, BRP value and CNF registers. */
  datatype BitTiming = BitTiming(quanta: nat, prescaler: real, brp: real, cnf: nat)

  /**
   * What the search promises: the chosen quanta count has the least deviation of
   * all of 11 .. 23, every later count deviates strictly more, and the BRP value
   * and CNF registers belong to it.
   */
  ghost predicate BestTiming(xdesired: real, t: BitTiming) {
    11 <= t.quanta <= 23 &&
    t.prescaler == Prescaler(xdesired, t.quanta) &&
    t.brp == t.prescaler / 2.0 - 1.0 &&
    t.cnf == CnfValues[t.quanta - 11] &&
    (forall x :: 11 <= x <= 23 ==> Deviation(xdesired, t.quanta) <= Deviation(xdesired, x)) &&
    (forall x :: t.quanta < x <= 23 ==> Deviation(xdesired, t.quanta) < Deviation(xdesired, x))
  }

  /** At most one timing is best: ties between quanta counts go to the later one. */
  lemma BestTimingUnique(xdesired: real, s: BitTiming, t: BitTiming)
    requires BestTiming(xdesired, s) && BestTiming(xdesired, t)
    ensures s == t
  {
    assert Deviation(xdesired, s.quanta) <= Deviation(xdesired, t.quanta);
    assert Deviation(xdesired, t.quanta) <= Deviation(xdesired, s.quanta);
  }

  /**
   * The register search of `open_can_channel` for a rate without a preset: it
   * walks 11 .. 23 quanta per bit and keeps the last best one. A zero rate
   * divides by zero.
   */
  method SearchBitTiming(baudrate: int) returns (r: Result<BitTiming, Error>)
    ensures r.Err? <==> baudrate == 0
    ensures r.Err? ==> r.error == ZeroBaudrate
    ensures r.Ok? ==> BestTiming(Fosc / (baudrate as real), r.value)
    ensures r.Ok? ==> 0.0 <= r.value.brp <= 63.0 && r.value.brp == r.value.brp.Floor as real
  {
    if baudrate == 0 {
      return Err(ZeroBaudrate);
    }
    var xdesired := Fosc / (baudrate as real);
    var xopt := 0;
    var diffopt := 0.0;
    var brpopt := 0.0;
    for x := 11 to 24
      invariant xopt == 0 <==> x == 11
      invariant xopt != 0 ==> 11 <= xopt < x && diffopt == Deviation(xdesired, xopt) &&
                              brpopt == Prescaler(xdesired, xopt) / 2.0 - 1.0
      invariant forall y :: 11 <= y < x ==> diffopt <= Deviation(xdesired, y)
      invariant forall y :: 11 <= y && xopt < y < x ==> diffopt < Deviation(xdesired, y)
    {
      var xbrp, diff := TryQuanta(xdesired, x);
      if xopt == 0 || diff <= diffopt {
        xopt := x;
        diffopt := diff;
        brpopt := xbrp / 2.0 - 1.0;
      }
    }
    r := Ok(BitTiming(xopt, Prescaler(xdesired, xopt), brpopt, CnfValues[xopt - 11]));
    EvenHalf(Prescaler(xdesired, xopt));
  }

  /** One step of the search: the even prescaler for `x` quanta and how far it misses. */
  method TryQuanta(xdesired: real, x: nat) returns (xbrp: real, diff: real)
    requires x > 0
    ensures xbrp == Prescaler(xdesired, x) && diff == Deviation(xdesired, x)
  {
    xbrp := xdesired * 10.0 / (x as real);
    var m := Mod20(xbrp);
    if m >= 10.0 {
      xbrp := xbrp + 20.0;
    }
    xbrp := xbrp - m;
    xbrp := xbrp / 10.0;
    if xbrp < 2.0 {
      xbrp := 2.0;
    }
    if xbrp > 128.0 {
      xbrp := 128.0;
    }
    var xist := (x as real) * xbrp;
    diff := xdesired - xist;
    if diff < 0.0 {
      diff := -diff;
    }
  }

  /** Half an even prescaler, less one, is a whole BRP value in 0 .. 63. */
  lemma EvenHalf(p: real)
    requires 2.0 <= p <= 128.0 && p == p.Floor as real && p.Floor % 2 == 0
    ensures 0.0 <= p / 2.0 - 1.0 <= 63.0 && p / 2.0 - 1.0 == (p / 2.0 - 1.0).Floor as real
  {
    var k := p.Floor / 2;
    assert p == (2 * k) as real;
    assert p / 2.0 - 1.0 == (k - 1) as real;
  }

  /* ---------------------------------------------------------------------- */
  /* Synchronous replies                                                    */
  /* ---------------------------------------------------------------------- */

  /** No carriage return and no BEL among the bytes. */
  predicate NoTerminators(s: seq<Byte>) {
    forall i :: 0 <= i < |s| ==> s[i] != CR && s[i] != BEL
  }

  /**
   * `read_response`: the bytes up to the first carriage return, or an error when
   * BEL comes first. Refused while the receive thread owns the port. The serial
   * input is the sequence `input`; where the port would block for more bytes the
   * model reports that the input ran out.
   */
  method ReadResponse(rxState: RxState, input: seq<Byte>) returns (r: Result<seq<Byte>, Error>)
    ensures r == Err(RxThreadActive) <==> rxState != RxStopped
    ensures r.Ok? ==> |r.value| < |input| && r.value == input[..|r.value|] &&
                      input[|r.value|] == CR && NoTerminators(r.value)
    ensures r == Err(BellSignal) ==> exists k :: 0 <= k < |input| && input[k] == BEL && NoTerminators(input[..k])
    ensures r == Err(NoTerminator) ==> NoTerminators(input)
    ensures r.Err? ==> r.error in {RxThreadActive, BellSignal, NoTerminator}
  {
    if rxState != RxStopped {
      return Err(RxThreadActive);
    }
    var response: seq<Byte> := [];
    var i := 0;
    while true
      invariant 0 <= i <= |input| && response == input[..i] && NoTerminators(response)
      decreases |input| - i
    {
      if i == |input| {
        return Err(NoTerminator);
      }
      var b := input[i];
      i := i + 1;
      if b == CR {
        return Ok(response);
      } else if b == BEL {
        return Err(BellSignal);
      } else {
        response := response + [b];
      }
    }
  }

  /* ---------------------------------------------------------------------- */
  /* Filter chains                                                          */
  /* ---------------------------------------------------------------------- */

  const Zero: RegisterSet := [0, 0, 0, 0]

  /** First register of the filters RXF0 .. RXF5. */
  const FilterStart: seq<nat> := [0x00, 0x04, 0x08, 0x10, 0x14, 0x18]

  /** The writes of `write_mcp_filter_mask_registers(maskid, regs)`. */
  function MaskGroup(maskid: nat, regs: RegisterSet): (ws: seq<RegWrite>)
    ensures |ws| == 4 && forall i :: 0 <= i < 4 ==> ws[i] == RegWrite(0x20 + 4 * maskid + i, regs[i])
  {
    seq(4, i requires 0 <= i < 4 => RegWrite(0x20 + 4 * maskid + i, regs[i]))
  }

  /** The writes of `write_mcp_filter_registers(filterid, regs)`. */
  function FilterGroup(filterid: nat, regs: RegisterSet): (ws: seq<RegWrite>)
    requires filterid < 6
    ensures |ws| == 4 && forall i :: 0 <= i < 4 ==> ws[i] == RegWrite(FilterStart[filterid] + i, regs[i])
  {
    seq(4, i requires 0 <= i < 4 => RegWrite(FilterStart[filterid] + i, regs[i]))
  }

  /** The chains after the swap that puts the shorter of two chains first. */
  function Arranged(fc: seq<FilterChain>): (a: seq<FilterChain>)
    ensures |a| == |fc| && multiset(a) == multiset(fc)
    ensures |a| == 2 ==> |a[0].filters| <= |a[1].filters|
  {
    if |fc| == 2 && |fc[0].filters| > |fc[1].filters| then
      assert fc == [fc[0]] + [fc[1]];
      [fc[1], fc[0]]
    else fc
  }

  /**
   * The checks of `set_filter`: at most two chains; one chain holds at most four
   * filters; two chains are refused only when both exceed two filters and one
   * of them exceeds four.
   */
  function FilterCheck(fc: seq<FilterChain>): (r: Outcome<Error>)
    ensures r.Fail? <==>
      |fc| > 2 ||
      (|fc| == 1 && |fc[0].filters| > 4) ||
      (|fc| == 2 && Min(|fc[0].filters|, |fc[1].filters|) > 2 && Max(|fc[0].filters|, |fc[1].filters|) > 4)
  {
    if |fc| > 2 then Fail(TooManyChains)
    else
      var a := Arranged(fc);
      if |a| == 2 && |a[0].filters| > 2 && |a[1].filters| > 4 then Fail(ChainTooLong)
      else if |a| == 1 && |a[0].filters| > 4 then Fail(ChainTooLong)
      else Pass
  }

  /**
   * The chain consulted for filter `i` of a channel: the first chain only for the
   * very first filter, because the chain index advances right after that write
   * and then stays on the last chain.
   */
  function ChainFor(fc: seq<FilterChain>, channel: nat, i: nat): FilterChain
    requires |fc| >= 1
  {
    if channel == 0 && i == 0 then fc[0] else fc[|fc| - 1]
  }

  /** The chain whose mask a channel gets. */
  function MaskFor(fc: seq<FilterChain>, channel: nat): FilterChain
    requires |fc| >= 1
  {
    if channel == 0 then fc[0] else fc[|fc| - 1]
  }

  /**
   * The registers written for filter `i` of a channel: the chain's filter `i`
   * when it has one, otherwise whatever the previous filter of the channel got,
   * and zeros at the start of each channel.
   */
  function Slot(fc: seq<FilterChain>, channel: nat, i: nat): RegisterSet
    requires |fc| >= 1
  {
    var c := ChainFor(fc, channel, i);
    if |c.filters| > i then c.filters[i]
    else if i == 0 then Zero
    else Slot(fc, channel, i - 1)
  }

  /** The filter writes of the first `n` filters of a channel (RXF0-1 or RXF2-5). */
  function FilterGroups(fc: seq<FilterChain>, channel: nat, n: nat): (ws: seq<RegWrite>)
    requires |fc| >= 1 && channel <= 1 && n <= 2 * (1 + channel)
    ensures |ws| == 4 * n
  {
    if n == 0 then []
    else FilterGroups(fc, channel, n - 1) + FilterGroup(2 * channel + n - 1, Slot(fc, channel, n - 1))
  }

  lemma AppendAssoc<T>(a: seq<T>, b: seq<T>, c: seq<T>)
    ensures (a + b) + c == a + (b + c)
  {
  }

  /** The first `i` filter groups of a channel open the writes of all of them. */
  lemma {:induction false} FilterGroupsPrefix(fc: seq<FilterChain>, channel: nat, i: nat, n: nat)
    requires |fc| >= 1 && channel <= 1 && i <= n <= 2 * (1 + channel)
    ensures FilterGroups(fc, channel, n)[..4 * i] == FilterGroups(fc, channel, i)
  {
    if i < n {
      var head, tail := FilterGroups(fc, channel, n - 1), FilterGroup(2 * channel + n - 1, Slot(fc, channel, n - 1));
      FilterGroupsPrefix(fc, channel, i, n - 1);
      assert FilterGroups(fc, channel, n) == head + tail;
      assert (head + tail)[..4 * i] == head[..4 * i];
    }
  }

  /** The groups of the first `i + 1` slots are those of the first `i` and then slot `i`'s. */
  lemma PlanStep(fc: seq<FilterChain>, channel: nat, i: nat, plan: seq<RegWrite>)
    requires |fc| >= 1 && channel <= 1 && i < 2 * (1 + channel)
    requires plan == FilterGroups(fc, channel, 2 * (1 + channel))
    ensures plan[..4 * (i + 1)] == plan[..4 * i] + FilterGroup(2 * channel + i, Slot(fc, channel, i))
  {
    FilterGroupsPrefix(fc, channel, i, 2 * (1 + channel));
    FilterGroupsPrefix(fc, channel, i + 1, 2 * (1 + channel));
  }

  /** Lines written after those of `done` extend them to the lines of `done + group`. */
  lemma LinesExtend(start: seq<string>, done: seq<RegWrite>, group: seq<RegWrite>)
    ensures (start + Lines(done)) + Lines(group) == start + Lines(done + group)
  {
    LinesAppend(done, group);
    AppendAssoc(start, Lines(done), Lines(group));
  }

  /** All writes of one channel: its mask, then its filters. */
  function ChannelWrites(fc: seq<FilterChain>, channel: nat): (ws: seq<RegWrite>)
    requires |fc| >= 1 && channel <= 1
    ensures |ws| == 4 + 8 * (1 + channel)
  {
    MaskGroup(channel, MaskFor(fc, channel).mask) + FilterGroups(fc, channel, 2 * (1 + channel))
  }

  /** The writes of the first `n` channels. */
  function ChannelsUpTo(fc: seq<FilterChain>, n: nat): (ws: seq<RegWrite>)
    requires |fc| >= 1 && n <= 2
    ensures |ws| == if n == 0 then 0 else if n == 1 then 12 else 32
  {
    if n == 0 then [] else ChannelsUpTo(fc, n - 1) + ChannelWrites(fc, n - 1)
  }

  /** The lines of one more channel are its mask's lines followed by its filters' lines. */
  lemma ChannelStep(fc: seq<FilterChain>, channel: nat)
    requires |fc| >= 1 && channel <= 1
    ensures Lines(ChannelsUpTo(fc, channel + 1))
         == Lines(ChannelsUpTo(fc, channel)) + Lines(MaskGroup(channel, MaskFor(fc, channel).mask))
            + Lines(FilterGroups(fc, channel, 2 * (1 + channel)))
  {
    var m, f := MaskGroup(channel, MaskFor(fc, channel).mask), FilterGroups(fc, channel, 2 * (1 + channel));
    LinesAppend(ChannelsUpTo(fc, channel), m + f);
    LinesAppend(m, f);
  }

  /**
   * Every register write `set_filter` makes for accepted chains: no chains opens
   * both masks (eight zero writes at 0x20 .. 0x27); otherwise two masks and six
   * filters, 32 writes.
   */
  function FilterPlan(fc: seq<FilterChain>): (ws: seq<RegWrite>)
    requires FilterCheck(fc).Pass?
    ensures fc == [] ==> |ws| == 8 && forall k :: 0 <= k < 8 ==> ws[k] == RegWrite(0x20 + k, 0)
    ensures fc != [] ==> |ws| == 32
  {
    if fc == [] then MaskGroup(0, Zero) + MaskGroup(1, Zero)
    else ChannelsUpTo(Arranged(fc), 2)
  }

  /** Register addresses of the eight groups of four writes: RXM0, RXF0-1, RXM1, RXF2-5. */
  const GroupBase: seq<nat> := [0x20, 0x00, 0x04, 0x24, 0x08, 0x10, 0x14, 0x18]

  lemma {:induction false} FilterGroupsLayout(fc: seq<FilterChain>, channel: nat, n: nat)
    requires |fc| >= 1 && channel <= 1 && n <= 2 * (1 + channel)
    ensures forall k :: 0 <= k < 4 * n ==>
      FilterGroups(fc, channel, n)[k] == RegWrite(FilterStart[2 * channel + k / 4] + k % 4, Slot(fc, channel, k / 4)[k % 4])
  {
    if n > 0 {
      FilterGroupsLayout(fc, channel, n - 1);
      var ws := FilterGroups(fc, channel, n);
      forall k | 4 * (n - 1) <= k < 4 * n
        ensures ws[k] == RegWrite(FilterStart[2 * channel + k / 4] + k % 4, Slot(fc, channel, k / 4)[k % 4])
      {
        assert k / 4 == n - 1 && k % 4 == k - 4 * (n - 1);
      }
    }
  }

  /** The writes for accepted chains, group by group. */
  lemma PlanParts(fc: seq<FilterChain>)
    requires FilterCheck(fc).Pass? && fc != []
    ensures var a := Arranged(fc);
      FilterPlan(fc) == MaskGroup(0, a[0].mask) + FilterGroups(a, 0, 2) + MaskGroup(1, a[|a| - 1].mask) + FilterGroups(a, 1, 4)
  {
    var a := Arranged(fc);
    var m0, f0 := MaskGroup(0, a[0].mask), FilterGroups(a, 0, 2);
    var m1, f1 := MaskGroup(1, a[|a| - 1].mask), FilterGroups(a, 1, 4);
    assert ChannelsUpTo(a, 1) == m0 + f0 by {
      assert [] + (m0 + f0) == m0 + f0;
    }
    assert FilterPlan(fc) == (m0 + f0) + (m1 + f1);
    AppendAssoc(m0 + f0, m1, f1);
  }

  /**
   * With accepted chains, `set_filter` writes each of the eight groups exactly
   * once, in the order RXM0, RXF0, RXF1, RXM1, RXF2 .. RXF5, each group's four
   * registers in ascending order.
   */
  lemma FilterPlanAddresses(fc: seq<FilterChain>)
    requires FilterCheck(fc).Pass? && fc != []
    ensures var ws := FilterPlan(fc);
      forall k :: 0 <= k < 32 ==> ws[k].register == GroupBase[k / 4] + k % 4
  {
    var a := Arranged(fc);
    var ws := FilterPlan(fc);
    PlanParts(fc);
    FilterGroupsLayout(a, 0, 2);
    FilterGroupsLayout(a, 1, 4);
    var f0, f1 := FilterGroups(a, 0, 2), FilterGroups(a, 1, 4);
    forall k | 0 <= k < 32
      ensures ws[k].register == GroupBase[k / 4] + k % 4
    {
      if 4 <= k < 12 {
        assert ws[k] == f0[k - 4];
        assert (k - 4) / 4 == k / 4 - 1 && (k - 4) % 4 == k % 4;
      } else if 16 <= k {
        assert ws[k] == f1[k - 16];
        assert (k - 16) / 4 == k / 4 - 4 && (k - 16) % 4 == k % 4;
      }
    }
  }

  /**
   * The masks RXM0 and RXM1 come from the first and the last chain, and filter
   * `j` of a channel gets the registers `Slot(.., j)`.
   */
  lemma FilterPlanContents(fc: seq<FilterChain>)
    requires FilterCheck(fc).Pass? && fc != []
    ensures var ws, a := FilterPlan(fc), Arranged(fc);
      ws[..4] == MaskGroup(0, a[0].mask) && ws[12..16] == MaskGroup(1, a[|a| - 1].mask)
    ensures var ws, a := FilterPlan(fc), Arranged(fc);
      (forall k :: 4 <= k < 12 ==> ws[k].value == Slot(a, 0, (k - 4) / 4)[k % 4]) &&
      (forall k :: 16 <= k < 32 ==> ws[k].value == Slot(a, 1, (k - 16) / 4)[k % 4])
  {
    var a := Arranged(fc);
    var ws := FilterPlan(fc);
    PlanParts(fc);
    FilterGroupsLayout(a, 0, 2);
    FilterGroupsLayout(a, 1, 4);
    var f0, f1 := FilterGroups(a, 0, 2), FilterGroups(a, 1, 4);
    forall k | 4 <= k < 12 ensures ws[k].value == Slot(a, 0, (k - 4) / 4)[k % 4] {
      assert ws[k] == f0[k - 4];
      assert (k - 4) % 4 == k % 4;
    }
    forall k | 16 <= k < 32 ensures ws[k].value == Slot(a, 1, (k - 16) / 4)[k % 4] {
      assert ws[k] == f1[k - 16];
      assert (k - 16) % 4 == k % 4;
    }
  }

  /**
   * The filters RXF2 .. RXF5 take the last chain's filters in order; past its end
   * they repeat its last filter, and a chain without filters gives zeros.
   */
  lemma {:induction false} LastChainSlots(fc: seq<FilterChain>, i: nat)
    requires |fc| >= 1
    ensures var c := fc[|fc| - 1].filters;
      Slot(fc, 1, i) == if i < |c| then c[i] else if |c| == 0 then Zero else c[|c| - 1]
  {
    if i > 0 {
      LastChainSlots(fc, i - 1);
    }
  }

  /**
   * With two chains, RXF0 gets the first chain's first filter but RXF1 gets the
   * second chain's second filter, falling back to what RXF0 got.
   */
  lemma FirstChannelSlots(fc: seq<FilterChain>)
    requires |fc| == 2
    ensures Slot(fc, 0, 0) == if |fc[0].filters| > 0 then fc[0].filters[0] else Zero
    ensures Slot(fc, 0, 1) == if |fc[1].filters| > 1 then fc[1].filters[1] else Slot(fc, 0, 0)
  {
  }

  /* ---------------------------------------------------------------------- */
  /* The driver                                                             */
  /* ---------------------------------------------------------------------- */

  /** No carriage return and no BEL among the characters of a line buffer. */
  predicate CleanLine(s: string) {
    forall i :: 0 <= i < |s| ==> s[i] != 13 as char && s[i] != 7 as char
  }

  /** The line `send_first_tx_fifo_message` writes for the FIFO, if any. */
  function HeadLine(fifo: seq<Frame>): (ls: seq<string>)
    ensures |ls| <= 1
  {
    if |fifo| > 0 && Text(fifo[0]).Ok? then [Text(fifo[0]).value + "\r"] else []
  }

  /** Lines already written stay written when more are written after them. */
  lemma KeptWritten(lines: seq<string>, written: seq<string>, more: seq<string>)
    requires forall l :: l in lines ==> l in written
    ensures forall l :: l in lines ==> l in written + more
  {
  }

  /** The failure `send_first_tx_fifo_message` raises for the FIFO, if any. */
  function HeadStatus(fifo: seq<Frame>): (r: Outcome<Error>)
    ensures r.Fail? <==> |fifo| > 0 && Text(fifo[0]).Err?
  {
    if |fifo| > 0 && Text(fifo[0]).Err? then Fail(Text(fifo[0]).error) else Pass
  }

  /** The calls `listener(canmsg)` for every registered listener, in registration order. */
  function Deliveries(listeners: seq<Listener>, f: Frame): (ds: seq<Delivery>)
    ensures |ds| == |listeners| && forall i :: 0 <= i < |ds| ==> ds[i] == Delivery(listeners[i], f)
  {
    seq(|listeners|, i requires 0 <= i < |listeners| => Delivery(listeners[i], f))
  }

  /** The position of the first occurrence of `x`. */
  function IndexOf(s: seq<Listener>, x: Listener): (k: nat)
    requires x in s
    ensures k < |s| && s[k] == x && x !in s[..k]
  {
    if s[0] == x then 0
    else
      var k := 1 + IndexOf(s[1..], x);
      assert s[..k] == [s[0]] + s[1..][..k - 1];
      k
  }

  /** A USBtin object. */
  class Driver {
    var rxState: RxState
    /** `incoming_message`: the line received so far. */
    var incoming: string
    var listeners: seq<Listener>
    /** `tx_fifo`: the messages waiting for the adapter's acknowledgement, head first. */
    var txFifo: seq<Frame>
    /** Every line written to the serial port, in order. */
    ghost var written: seq<string>
    /** Every listener call made, in order. */
    ghost var delivered: seq<Delivery>

    /**
     * The line buffer never holds a terminator, and the FIFO head's line has
     * been written to the adapter (unless it cannot be printed).
     */
    ghost predicate Valid()
      reads this
    {
      CleanLine(incoming) &&
      (forall l :: l in HeadLine(txFifo) ==> l in written)
    }

    /** Everything but the lines written: what writing to the port leaves alone. */
    ghost function Kept(): (RxState, string, seq<Listener>, seq<Frame>, seq<Delivery>)
      reads this
    {
      (rxState, incoming, listeners, txFifo, delivered)
    }

    /** `USBtin()`: receive thread stopped, empty line buffer, no listeners, empty FIFO. */
    constructor ()
      ensures rxState == RxStopped && incoming == [] && listeners == [] && txFifo == []
      ensures written == [] && delivered == []
      ensures Valid()
    {
      rxState := RxStopped;
      incoming := [];
      listeners := [];
      txFifo := [];
      written := [];
      delivered := [];
    }

    /** `transmit(cmd)`: writes `cmd` and a carriage return. */
    method Transmit(cmd: string)
      modifies this
      ensures written == old(written) + [cmd + "\r"]
      ensures Kept() == old(Kept())
    {
      written := written + [cmd + "\r"];
    }

    /** `add_message_listener(func)`. */
    method AddMessageListener(l: Listener)
      modifies this
      ensures listeners == old(listeners) + [l]
      ensures rxState == old(rxState) && incoming == old(incoming) && txFifo == old(txFifo)
      ensures written == old(written) && delivered == old(delivered)
    {
      listeners := listeners + [l];
    }

    /** `remove_message_listener(func)`: drops its first occurrence, or raises. */
    method RemoveMessageListener(l: Listener) returns (r: Outcome<Error>)
      modifies this
      ensures r.Pass? <==> l in old(listeners)
      ensures r.Fail? ==> r.error == ListenerMissing && listeners == old(listeners)
      ensures r.Pass? ==> var k := IndexOf(old(listeners), l);
        listeners == old(listeners)[..k] + old(listeners)[k + 1..]
      ensures multiset(listeners) == multiset(old(listeners)) - multiset{l}
      ensures rxState == old(rxState) && incoming == old(incoming) && txFifo == old(txFifo)
      ensures written == old(written) && delivered == old(delivered)
    {
      if l !in listeners {
        return Fail(ListenerMissing);
      }
      var k := IndexOf(listeners, l);
      assert listeners == listeners[..k] + [l] + listeners[k + 1..];
      listeners := listeners[..k] + listeners[k + 1..];
      r := Pass;
    }

    /** `send_first_tx_fifo_message()`: writes the head's line, if there is a head. */
    method SendFirstTxFifoMessage() returns (r: Outcome<Error>)
      requires CleanLine(incoming)
      modifies this
      ensures Valid()
      ensures written == old(written) + HeadLine(txFifo)
      ensures r == HeadStatus(txFifo)
      ensures Kept() == old(Kept())
    {
      if |txFifo| == 0 {
        return Pass;
      }
      var canmsg := new CanMessage.FromFrame(txFifo[0]);
      var line := canmsg.ToString();
      if line.Err? {
        return Fail(line.error);
      }
      written := written + [line.value + "\r"];
      r := Pass;
    }

    /** `send(canmsg)`: queues a copy of the message; writes it when the FIFO was empty. */
    method Send(canmsg: CanMessage) returns (r: Outcome<Error>)
      requires Valid()
      modifies this
      ensures Valid()
      ensures txFifo == old(txFifo) + [canmsg.Value()]
      ensures |txFifo| == 1 ==> written == old(written) + HeadLine(txFifo) && r == HeadStatus(txFifo)
      ensures |txFifo| > 1 ==> written == old(written) && r.Pass?
      ensures rxState == old(rxState) && incoming == old(incoming) && listeners == old(listeners)
      ensures delivered == old(delivered)
    {
      txFifo := txFifo + [canmsg.Value()];
      if |txFifo| > 1 {
        return Pass;
      }
      r := SendFirstTxFifoMessage();
    }

    /**
     * One byte of the receive thread. A carriage return completes a non-empty
     * line: `t`/`T`/`r`/`R` lines are decoded and handed to every listener, `z`/`Z`
     * lines acknowledge the FIFO head, which is dropped and the next one written;
     * any other line is discarded. BEL rewrites the FIFO head. Every other byte
     * but a carriage return is appended to the line. An error is what the thread
     * would raise; the state is then as the raise left it.
     */
    method ReceiveByte(table: SignalTable, b: Byte) returns (r: Outcome<Error>)
      requires Valid()
      modifies this
      ensures Valid()
      ensures rxState == old(rxState) && listeners == old(listeners)
      // a byte other than CR and BEL is appended to the line
      ensures b != CR && b != BEL ==>
        r.Pass? && incoming == old(incoming) + [b as char] &&
        txFifo == old(txFifo) && written == old(written) && delivered == old(delivered)
      // CR on an empty line does nothing
      ensures b == CR && old(incoming) == [] ==>
        r.Pass? && incoming == [] && txFifo == old(txFifo) && written == old(written) && delivered == old(delivered)
      // BEL rewrites the head without removing it
      ensures b == BEL ==>
        incoming == old(incoming) && txFifo == old(txFifo) && delivered == old(delivered) &&
        written == old(written) + HeadLine(txFifo) && r == HeadStatus(txFifo)
      // a completed frame line is decoded and delivered to every listener
      ensures b == CR && old(incoming) != [] && old(incoming)[0] in "tTrR" ==>
        var d := Decode(table, old(incoming));
        txFifo == old(txFifo) && written == old(written) &&
        (d.Err? ==> r == Fail(d.error) && incoming == old(incoming) && delivered == old(delivered)) &&
        (d.Ok? ==> r.Pass? && incoming == [] && delivered == old(delivered) + Deliveries(listeners, d.value))
      // an acknowledgement drops the head and writes the next one
      ensures b == CR && old(incoming) != [] && old(incoming)[0] in "zZ" ==>
        delivered == old(delivered) &&
        (old(txFifo) == [] ==> r == Fail(EmptyFifo) && incoming == old(incoming) &&
                               txFifo == old(txFifo) && written == old(written)) &&
        (old(txFifo) != [] ==> txFifo == old(txFifo)[1..] && written == old(written) + HeadLine(txFifo) &&
                               r == HeadStatus(txFifo) && incoming == (if r.Pass? then [] else old(incoming)))
      // any other completed line is discarded
      ensures b == CR && old(incoming) != [] && old(incoming)[0] !in "tTrRzZ" ==>
        r.Pass? && incoming == [] && txFifo == old(txFifo) && written == old(written) && delivered == old(delivered)
      // a carriage return that completes a line without an error always empties the buffer
      ensures b == CR && r.Pass? ==> incoming == []
    {
      if b == CR && |incoming| > 0 {
        var message := incoming;
        var cmd := message[0];
        if cmd in "tTrR" {
          r := DeliverLine(table);
          if r.Fail? {
            return;
          }
        } else if cmd in "zZ" {
          r := Acknowledge();
          if r.Fail? {
            return;
          }
        }
        incoming := "";
        r := Pass;
      } else if b == BEL {
        r := SendFirstTxFifoMessage();
      } else if b != CR {
        incoming := incoming + [b as char];
        r := Pass;
      } else {
        r := Pass;
      }
    }

    /** A completed `t`, `T`, `r` or `R` line: decoded once and handed to every listener in order. */
    method DeliverLine(table: SignalTable) returns (r: Outcome<Error>)
      requires Valid()
      modifies this
      ensures Valid()
      ensures var d := Decode(table, incoming);
        (d.Err? ==> r == Fail(d.error) && delivered == old(delivered)) &&
        (d.Ok? ==> r.Pass? && delivered == old(delivered) + Deliveries(listeners, d.value))
      ensures rxState == old(rxState) && incoming == old(incoming) && listeners == old(listeners)
      ensures txFifo == old(txFifo) && written == old(written)
    {
      var decoded := CanMessage.FromString(table, incoming);
      if decoded.Err? {
        return Fail(decoded.error);
      }
      NotifyListeners(decoded.value.Value());
      r := Pass;
    }

    /** The listener loop of `rx_thread`: each listener in turn is handed the message. */
    method NotifyListeners(f: Frame)
      modifies this
      ensures delivered == old(delivered) + Deliveries(listeners, f)
      ensures rxState == old(rxState) && incoming == old(incoming) && listeners == old(listeners)
      ensures txFifo == old(txFifo) && written == old(written)
    {
      for i := 0 to |listeners|
        invariant delivered == old(delivered) + Deliveries(listeners[..i], f)
        invariant rxState == old(rxState) && incoming == old(incoming) && listeners == old(listeners)
        invariant txFifo == old(txFifo) && written == old(written)
      {
        delivered := delivered + [Delivery(listeners[i], f)];
      }
      assert listeners[..|listeners|] == listeners;
    }

    /** A completed `z` or `Z` line: the FIFO head was sent, so it is dropped and the next one written. */
    method Acknowledge() returns (r: Outcome<Error>)
      requires Valid()
      modifies this
      ensures Valid()
      ensures old(txFifo) == [] ==> r == Fail(EmptyFifo) && txFifo == old(txFifo) && written == old(written)
      ensures old(txFifo) != [] ==>
        txFifo == old(txFifo)[1..] && written == old(written) + HeadLine(txFifo) && r == HeadStatus(txFifo)
      ensures rxState == old(rxState) && incoming == old(incoming) && listeners == old(listeners)
      ensures delivered == old(delivered)
    {
      if |txFifo| == 0 {
        return Fail(EmptyFifo);
      }
      txFifo := txFifo[1..];
      r := SendFirstTxFifoMessage();
    }

    /** `write_mcp_register(register, value)`. */
    method WriteRegister(register: nat, value: nat)
      modifies this
      ensures written == old(written) + [CommandLine(RegWrite(register, value))]
      ensures Kept() == old(Kept())
    {
      Transmit(RegisterCommand(register, value));
    }

    /** `write_mcp_filter_mask_registers(maskid, registers)`: registers 0x20 + 4 * maskid + i. */
    method WriteMaskRegisters(maskid: nat, registers: RegisterSet)
      modifies this
      ensures written == old(written) + Lines(MaskGroup(maskid, registers))
      ensures Kept() == old(Kept())
    {
      var group := MaskGroup(maskid, registers);
      ghost var start := written;
      for i := 0 to 4
        invariant written == start + Lines(group[..i])
        invariant Kept() == old(Kept())
      {
        WriteRegister(0x20 + 4 * maskid + i, registers[i]);
        assert group[i] == RegWrite(0x20 + 4 * maskid + i, registers[i]);
        LinesSnoc(group, i);
        AppendAssoc(start, Lines(group[..i]), [CommandLine(group[i])]);
      }
      assert group[..4] == group;
    }

    /** `write_mcp_filter_registers(filterid, registers)`: from the filter's first register on. */
    method WriteFilterRegisters(filterid: nat, registers: RegisterSet)
      requires filterid < 6
      modifies this
      ensures written == old(written) + Lines(FilterGroup(filterid, registers))
      ensures Kept() == old(Kept())
    {
      var group := FilterGroup(filterid, registers);
      ghost var start := written;
      for i := 0 to 4
        invariant written == start + Lines(group[..i])
        invariant Kept() == old(Kept())
      {
        WriteRegister(FilterStart[filterid] + i, registers[i]);
        assert group[i] == RegWrite(FilterStart[filterid] + i, registers[i]);
        LinesSnoc(group, i);
        AppendAssoc(start, Lines(group[..i]), [CommandLine(group[i])]);
      }
      assert group[..4] == group;
    }

    /**
     * `set_filter(fc)`: refuses chains the hardware cannot hold, otherwise writes
     * the masks and filters of both channels.
     */
    method SetFilter(fc: seq<FilterChain>) returns (r: Outcome<Error>)
      requires Valid()
      modifies this
      ensures Valid()
      ensures r == FilterCheck(fc)
      ensures r.Pass? ==> written == old(written) + Lines(FilterPlan(fc))
      ensures r.Fail? ==> written == old(written)
      ensures Kept() == old(Kept())
    {
      if |fc| == 0 {
        WriteMaskRegisters(0, Zero);
        WriteMaskRegisters(1, Zero);
        LinesAppend(MaskGroup(0, Zero), MaskGroup(1, Zero));
        AppendAssoc(old(written), Lines(MaskGroup(0, Zero)), Lines(MaskGroup(1, Zero)));
        assert written == old(written) + Lines(FilterPlan(fc));
        KeptWritten(HeadLine(txFifo), old(written), Lines(FilterPlan(fc)));
        return Pass;
      }
      if |fc| > 2 {
        return Fail(TooManyChains);
      }
      var chains := fc;
      if |chains| == 2 {
        if |chains[0].filters| > |chains[1].filters| {
          chains := [chains[1], chains[0]];
        }
        if |chains[0].filters| > 2 && |chains[1].filters| > 4 {
          return Fail(ChainTooLong);
        }
      } else if |chains[0].filters| > 4 {
        return Fail(ChainTooLong);
      }
      assert chains == Arranged(fc);
      WriteChains(chains);
      assert written == old(written) + Lines(FilterPlan(fc));
      KeptWritten(HeadLine(txFifo), old(written), Lines(FilterPlan(fc)));
      r := Pass;
    }

    /** The register loop of `set_filter` over both channels, for one or two accepted chains. */
    method WriteChains(chains: seq<FilterChain>)
      requires 1 <= |chains| <= 2
      modifies this
      ensures written == old(written) + Lines(ChannelsUpTo(chains, 2))
      ensures Kept() == old(Kept())
    {
      var filterid := 0;
      var fcidx := 0;
      for channel := 0 to 2
        invariant filterid == if channel == 0 then 0 else if channel == 1 then 2 else 6
        invariant fcidx == if channel == 0 then 0 else |chains| - 1
        invariant written == old(written) + Lines(ChannelsUpTo(chains, channel))
        invariant Kept() == old(Kept())
      {
        ghost var start := written;
        assert chains[fcidx] == MaskFor(chains, channel);
        WriteMaskRegisters(channel, chains[fcidx].mask);
        ghost var base := written;
        filterid, fcidx := WriteChannelFilters(chains, channel, filterid, fcidx);
        ChannelStep(chains, channel);
        ghost var done, mask, filters := Lines(ChannelsUpTo(chains, channel)),
          Lines(MaskGroup(channel, MaskFor(chains, channel).mask)), Lines(FilterGroups(chains, channel, 2 * (1 + channel)));
        AppendAssoc(old(written), done, mask);
        AppendAssoc(old(written), done + mask, filters);
      }
    }

    /**
     * One pass of the filter loop of `set_filter`: filter `i` of the current chain
     * replaces `registers` when the chain has one, and the registers are written
     * to filter slot `2 * channel + i`.
     */
    method WriteSlot(chains: seq<FilterChain>, channel: nat, i: nat, fcidx: nat, registers0: RegisterSet,
                     ghost start: seq<string>, ghost plan: seq<RegWrite>)
      returns (registers: RegisterSet)
      requires 1 <= |chains| <= 2 && channel <= 1 && i < 2 * (1 + channel)
      requires fcidx == if channel == 0 && i == 0 then 0 else |chains| - 1
      requires registers0 == if i == 0 then Zero else Slot(chains, channel, i - 1)
      requires plan == FilterGroups(chains, channel, 2 * (1 + channel))
      requires written == start + Lines(plan[..4 * i])
      modifies this
      ensures registers == Slot(chains, channel, i)
      ensures written == start + Lines(plan[..4 * (i + 1)])
      ensures Kept() == old(Kept())
    {
      registers := registers0;
      assert chains[fcidx] == ChainFor(chains, channel, i);
      if |chains[fcidx].filters| > i {
        registers := chains[fcidx].filters[i];
      }
      WriteFilterRegisters(2 * channel + i, registers);
      PlanStep(chains, channel, i, plan);
      LinesExtend(start, plan[..4 * i], FilterGroup(2 * channel + i, registers));
    }

    /**
     * The filter loop of one channel in `set_filter`: `registers` starts at zero and
     * keeps its last value when the chain has no filter `i`; the chain index moves
     * on after each write while there is a further chain.
     */
    method WriteChannelFilters(chains: seq<FilterChain>, channel: nat, filterid0: nat, fcidx0: nat)
      returns (filterid: nat, fcidx: nat)
      requires 1 <= |chains| <= 2 && channel <= 1
      requires filterid0 == 2 * channel
      requires fcidx0 == if channel == 0 then 0 else |chains| - 1
      modifies this
      ensures filterid == filterid0 + 2 * (1 + channel) && fcidx == |chains| - 1
      ensures written == old(written) + Lines(FilterGroups(chains, channel, 2 * (1 + channel)))
      ensures Kept() == old(Kept())
    {
      filterid, fcidx := filterid0, fcidx0;
      var registers := Zero;
      ghost var plan := FilterGroups(chains, channel, 2 * (1 + channel));
      for i := 0 to 2 * (1 + channel)
        invariant filterid == 2 * channel + i
        invariant fcidx == if channel == 0 && i == 0 then 0 else |chains| - 1
        invariant registers == if i == 0 then Zero else Slot(chains, channel, i - 1)
        invariant written == old(written) + Lines(plan[..4 * i])
        invariant Kept() == old(Kept())
      {
        registers := WriteSlot(chains, channel, i, fcidx, registers, old(written), plan);
        filterid := filterid + 1;
        if |chains| - 1 > fcidx {
          fcidx := fcidx + 1;
        }
      }
      assert plan[..4 * (2 * (1 + channel))] == plan;
    }

    /**
     * `open_can_channel(baudrate, mode)`: a preset rate sends `S` and its digit;
     * any other rate runs the register search, whose command cannot be built,
     * so the call fails. Then the mode character is sent and the receive thread
     * starts.
     */
    method OpenCanChannel(baudrate: int, mode: int) returns (r: Outcome<Error>)
      requires Valid()
      modifies this
      ensures Valid()
      ensures PresetCommand(baudrate).Some? ==>
        r.Pass? && rxState == RxRunning &&
        written == old(written) + [PresetCommand(baudrate).value + "\r", [ModeCommand(mode)] + "\r"]
      ensures PresetCommand(baudrate).None? ==>
        r == Fail(if baudrate == 0 then ZeroBaudrate else CommandFormat) &&
        rxState == old(rxState) && written == old(written)
      ensures incoming == old(incoming) && listeners == old(listeners)
      ensures txFifo == old(txFifo) && delivered == old(delivered)
    {
      var preset := PresetCommand(baudrate);
      if preset.None? {
        var timing := SearchBitTiming(baudrate);
        if timing.Err? {
          return Fail(timing.error);
        }
        return Fail(CommandFormat);
      }
      ghost var lines := [preset.value + "\r", [ModeCommand(mode)] + "\r"];
      Transmit(preset.value);
      Transmit([ModeCommand(mode)]);
      rxState := RxRunning;
      assert written == old(written) + lines by {
        AppendAssoc(old(written), [preset.value + "\r"], [[ModeCommand(mode)] + "\r"]);
      }
      KeptWritten(HeadLine(txFifo), old(written), lines);
      r := Pass;
    }
  }
}
