/**
 * A CAN frame of the USBtin driver: construction against an optional signal
 * table, byte and signal access on the little-endian 64-bit payload, and the
 * conversion to and from the adapter's ASCII line (`t`/`T`/`r`/`R`, the hex id,
 * one length digit, then the payload as hex byte pairs).
 */
module CanMessages {
  import opened Wrappers
  import opened Exceptions
  import opened Arith
  import opened Payload
  import Hex

  /** Largest 29-bit identifier; larger ids are clamped to it. */
  const MaxId: nat := 0x1FFF_FFFF
  /** Largest 11-bit identifier; larger ids make the frame extended. */
  const MaxStandardId: nat := 0x7FF

  /** A signal of the table: its bit window in the payload and whether it is signed. */
  datatype Signal = Signal(startBit: nat, size: nat, signed: bool)

  /** A message of the table: its name, its data length and its signals. */
  datatype MessageInfo = MessageInfo(name: string, dlc: nat, signals: map<string, Signal>)

  /** The message descriptions by CAN id (the class attribute `dbc_info`). */
  type SignalTable = map<nat, MessageInfo>

  /**
   * The attributes of a CANMessage: `mid`, `name`, `rtr`, `extended`, `dlc`
   * (absent for a remote frame built without one) and `_data`.
   */
  datatype Frame = Frame(id: nat, name: string, rtr: bool, extended: bool, dlc: Option<nat>, data: nat)

  /** What construction guarantees of a frame. */
  predicate WellFormed(f: Frame) {
    f.id <= MaxId && f.extended == (f.id > MaxStandardId) && f.data < Pow2(64)
  }

  function ClampId(mid: nat): (id: nat)
    ensures id <= MaxId
    ensures id == mid || (mid > MaxId && id == MaxId)
  {
    if mid > MaxId then MaxId else mid
  }

  /** The table entry for `id` says another length than the one supplied. */
  predicate TableDisagrees(table: SignalTable, id: nat, data: Option<seq<int>>, rtr: bool, dlc: Option<nat>) {
    id in table &&
    if rtr then dlc != Some(table[id].dlc)
    else data.Some? && |data.value| != table[id].dlc
  }

  predicate AllBytes(data: seq<int>) {
    forall i :: 0 <= i < |data| ==> 0 <= data[i] < 256
  }

  function AsBytes(data: seq<int>): (bs: seq<Byte>)
    requires AllBytes(data)
    ensures |bs| == |data| && forall i :: 0 <= i < |data| ==> bs[i] == data[i]
  {
    seq(|data|, i requires 0 <= i < |data| => data[i] as Byte)
  }

  /**
   * `CANMessage(mid, data, rtr, name, dlc)`: the frame built, or the exception
   * the constructor raises.
   */
  function Construct(table: SignalTable, mid: nat, data: Option<seq<int>>, rtr: bool, name: string, dlc: Option<nat>): (r: Result<Frame, Error>)
    ensures r.Ok? ==> WellFormed(r.value) && r.value.id == ClampId(mid) && r.value.rtr == rtr
    ensures r == Err(DlcMismatch) <==> TableDisagrees(table, ClampId(mid), data, rtr, dlc)
    ensures r == Err(DlcUnavailable) <==> !rtr && data.None? && ClampId(mid) !in table && dlc.None?
    ensures r.Ok? && rtr ==> r.value.dlc == dlc && r.value.data == 0
    ensures r.Ok? && !rtr && data.Some? ==> |data.value| <= 8 && AllBytes(data.value) && r.value.dlc == Some(|data.value|)
    ensures r.Ok? && !rtr && data.None? ==>
      r.value.data == 0 && r.value.dlc == (if ClampId(mid) in table then Some(table[ClampId(mid)].dlc) else dlc)
    ensures r.Ok? ==> r.value.name == if !rtr && ClampId(mid) in table then table[ClampId(mid)].name else name
    ensures r == Err(ByteRange) <==>
      !TableDisagrees(table, ClampId(mid), data, rtr, dlc) && !rtr && data.Some? && !AllBytes(data.value)
    ensures r == Err(PayloadTooLong) <==>
      !TableDisagrees(table, ClampId(mid), data, rtr, dlc) && !rtr && data.Some? && AllBytes(data.value) && |data.value| > 8
    ensures r.Ok? <==>
      !TableDisagrees(table, ClampId(mid), data, rtr, dlc) &&
      (rtr || (data.Some? && AllBytes(data.value) && |data.value| <= 8) || (data.None? && (ClampId(mid) in table || dlc.Some?)))
  {
    var id := ClampId(mid);
    var extended := id > MaxStandardId;
    if TableDisagrees(table, id, data, rtr, dlc) then Err(DlcMismatch)
    else if rtr then Ok(Frame(id, name, true, extended, dlc, 0))
    else if data.Some? then
      if !AllBytes(data.value) then Err(ByteRange)
      else if |data.value| > 8 then Err(PayloadTooLong)
      else
        var bs := AsBytes(data.value);
        var name' := if id in table then table[id].name else name;
        assert Pack(bs) < Pow2(64) by {
          Pow2Mono(8 * |bs|, 64);
        }
        Ok(Frame(id, name', false, extended, Some(|bs|), Pack(bs)))
    else if id in table then Ok(Frame(id, table[id].name, false, extended, Some(table[id].dlc), 0))
    else if dlc.None? then Err(DlcUnavailable)
    else Ok(Frame(id, name, false, extended, dlc, 0))
  }

  /** A data frame built from `n <= 8` bytes has length `n` and reads back those bytes, then zeros. */
  lemma ConstructPayload(table: SignalTable, mid: nat, data: seq<int>, name: string, dlc: Option<nat>)
    requires Construct(table, mid, Some(data), false, name, dlc).Ok?
    ensures var f := Construct(table, mid, Some(data), false, name, dlc).value;
      f.dlc == Some(|data|) &&
      forall i :: 0 <= i < 8 ==> ByteAt(f.data, i) == if i < |data| then data[i] else 0
  {
    var bs := AsBytes(data);
    forall i | 0 <= i < 8
      ensures ByteAt(Pack(bs), i) == if i < |data| then data[i] else 0
    {
      PackedByte(bs, i);
    }
  }

  /** Byte `i` after `m[i] = v` is `v & 0xFF`; every other byte is unchanged. */
  lemma SetByte(d: nat, i: nat, v: int)
    requires i < 8
    ensures Unpack(WithField(d, 8 * i, 8, v)) == Unpack(d)[i := v % 256]
  {
    var w := WithField(d, 8 * i, 8, v);
    forall j | 0 <= j < 8
      ensures Unpack(w)[j] == Unpack(d)[i := v % 256][j]
    {
      if j == i {
        FieldOfWith(d, 8 * i, 8, v);
      } else {
        FieldOfWithDisjoint(d, 8 * i, 8, v, 8 * j, 8);
      }
    }
  }

  // ---------------------------------------------------------------- signals

  /** The values a signal can hold: `size` bits, read as two's complement when signed. */
  predicate InSignalRange(v: int, sig: Signal) {
    if sig.signed then sig.size >= 1 && -(Pow2(sig.size - 1) as int) <= v < Pow2(sig.size - 1)
    else 0 <= v < Pow2(sig.size)
  }

  /** The top bit of a `size`-bit number is set exactly when it is at least 2^(size-1). */
  lemma TopBit(raw: nat, size: nat)
    requires 1 <= size && raw < Pow2(size)
    ensures Field(raw, size - 1, 1) == 1 <==> raw >= Pow2(size - 1)
  {
    var p := Pow2(size - 1);
    assert Pow2(size) == 2 * p;
    if raw >= p {
      DivModUnique(raw, p, 1, raw - p);
    } else {
      DivModUnique(raw, p, 0, raw);
    }
  }

  /**
   * `if value & 2**(size-1): value -= 2**size`: the two's complement reading of
   * a `size`-bit field.
   */
  function SignExtend(raw: nat, size: nat): (r: int)
    requires 1 <= size && raw < Pow2(size)
    ensures -(Pow2(size - 1) as int) <= r < Pow2(size - 1)
    ensures r % Pow2(size) == raw
  {
    TopBit(raw, size);
    assert Pow2(size) == 2 * Pow2(size - 1);
    if Field(raw, size - 1, 1) == 1 then
      DivModUnique(raw - Pow2(size), Pow2(size), -1, raw);
      raw - Pow2(size)
    else
      DivModUnique(raw, Pow2(size), 0, raw);
      raw
  }

  /** The value of a signal whose bits are `raw`; a signed signal of size 0 raises. */
  function SignalValue(raw: nat, sig: Signal): (r: Result<int, Error>)
    requires raw < Pow2(sig.size)
    ensures r.Ok? <==> !sig.signed || sig.size >= 1
    ensures r.Ok? ==> InSignalRange(r.value, sig) && r.value % Pow2(sig.size) == raw
  {
    if !sig.signed then
      DivModUnique(raw, Pow2(sig.size), 0, raw);
      Ok(raw)
    else if sig.size == 0 then Err(SignBitUndefined)
    else Ok(SignExtend(raw, sig.size))
  }

  /** A signal value in range reads back unchanged after it is written. */
  lemma SignalRoundTrip(d: nat, sig: Signal, v: int)
    requires InSignalRange(v, sig)
    ensures SignalValue(Field(WithField(d, sig.startBit, sig.size, v), sig.startBit, sig.size), sig) == Ok(v)
  {
    var n := sig.size;
    FieldOfWith(d, sig.startBit, n, v);
    var raw := v % Pow2(n);
    if !sig.signed {
      DivModUnique(v, Pow2(n), 0, v);
    } else {
      assert Pow2(n) == 2 * Pow2(n - 1);
      if v < 0 {
        DivModUnique(v, Pow2(n), -1, v + Pow2(n));
        TopBit(raw, n);
      } else {
        DivModUnique(v, Pow2(n), 0, v);
        TopBit(raw, n);
      }
    }
  }

  /**
   * The signal `name` of message `id` in the table, if there is one. The attribute
   * hooks never look up `mid` and `dbc_info` in the table: those two names are
   * always the plain attributes, even when a signal carries the name.
   */
  predicate IsSignal(table: SignalTable, id: nat, name: string) {
    name != "mid" && name != "dbc_info" && id in table && name in table[id].signals
  }

  // ------------------------------------------------------------- line format

  /** The type character of a line: T/R for extended ids, t/r for standard ones. */
  function TypeChar(extended: bool, rtr: bool): char {
    if extended then (if rtr then 'R' else 'T') else (if rtr then 'r' else 't')
  }

  /** Number of hex digits of the id field: `{:08x}` or `{:03x}`. */
  function IdWidth(extended: bool): nat {
    if extended then 8 else 3
  }

  /** The payload bytes a line carries: `pack('<Q', _data)[:dlc]`. */
  function Sent(data: nat, dlc: nat): (bs: seq<Byte>)
    ensures |bs| == Min(dlc, 8)
  {
    Unpack(data)[..Min(dlc, 8)]
  }

  /** Bytes as two-digit hex pairs, in order. */
  function PayloadText(bs: seq<Byte>): (s: string)
    ensures |s| == 2 * |bs|
  {
    if bs == [] then ""
    else
      Hex.PaddedLength(bs[0], 2);
      Hex.Padded(bs[0], 2) + PayloadText(bs[1..])
  }

  lemma {:induction false} PayloadTextSnoc(bs: seq<Byte>, b: Byte)
    ensures PayloadText(bs + [b]) == PayloadText(bs) + Hex.Padded(b, 2)
  {
    if bs != [] {
      assert (bs + [b])[1..] == bs[1..] + [b];
      PayloadTextSnoc(bs[1..], b);
    } else {
      assert bs + [b] == [b];
    }
  }

  /**
   * `to_string()`: the line for a frame, or the exception raised for a frame
   * without a dlc or with a payload wider than 64 bits.
   */
  function Text(f: Frame): (r: Result<string, Error>)
    ensures r.Ok? <==> f.dlc.Some? && f.data < Pow2(64)
  {
    if f.dlc.None? then Err(NoDlc)
    else if f.data >= Pow2(64) then Err(PayloadOverflow)
    else
      var n := f.dlc.value;
      Ok([TypeChar(f.extended, f.rtr)] + Hex.Padded(f.id, IdWidth(f.extended))
         + Hex.Padded(n, 1) + PayloadText(Sent(f.data, n)))
  }

  /** The loop of `to_string` that appends each sent byte as two hex digits. */
  method AppendPairs(s0: string, bytes: seq<Byte>) returns (s: string)
    ensures s == s0 + PayloadText(bytes)
  {
    s := s0;
    for k := 0 to |bytes|
      invariant s == s0 + PayloadText(bytes[..k])
    {
      assert PayloadText(bytes[..k + 1]) == PayloadText(bytes[..k]) + Hex.Padded(bytes[k], 2) by {
        assert bytes[..k + 1] == bytes[..k] + [bytes[k]];
        PayloadTextSnoc(bytes[..k], bytes[k]);
      }
      s := s + Hex.Padded(bytes[k], 2);
    }
    assert bytes[..|bytes|] == bytes;
  }

  /** The pieces of a printable frame's line (unfolds `Text` for callers). */
  lemma TextParts(f: Frame)
    requires f.dlc.Some? && f.data < Pow2(64)
    ensures Text(f) == Ok([TypeChar(f.extended, f.rtr)] + Hex.Padded(f.id, IdWidth(f.extended))
                          + Hex.Padded(f.dlc.value, 1) + PayloadText(Sent(f.data, f.dlc.value)))
  {
  }

  /**
   * The shape of a line: the type character, exactly 8 or 3 id digits, the
   * length digit, then two digits per sent byte (a remote frame too sends its
   * zero bytes).
   */
  lemma TextShape(f: Frame)
    requires WellFormed(f) && f.dlc.Some? && f.dlc.value < 16
    ensures Text(f).Ok?
    ensures var s := Text(f).value;
      |s| == 1 + IdWidth(f.extended) + 1 + 2 * Min(f.dlc.value, 8) &&
      s[0] == TypeChar(f.extended, f.rtr) &&
      (s[0] == 'T' || s[0] == 'R' <==> f.id > MaxStandardId) &&
      (s[0] == 'r' || s[0] == 'R' <==> f.rtr) &&
      Hex.Parse(s[1..1 + IdWidth(f.extended)]) == Some(f.id) &&
      s[1 + IdWidth(f.extended)] == Hex.Digit(f.dlc.value)
  {
    var w, n := IdWidth(f.extended), f.dlc.value;
    IdFits(f);
    Hex.PaddedLength(f.id, w);
    Hex.ParsePadded(f.id, w);
    Hex.PaddedDigit(n);
    TextParts(f);
    FieldsOfLine(TypeChar(f.extended, f.rtr), Hex.Padded(f.id, w), Hex.Digit(n), PayloadText(Sent(f.data, n)));
  }

  /** Where the fields of a line sit: type character, id digits, length digit, payload. */
  lemma FieldsOfLine(c: char, ids: string, d: char, rest: string)
    ensures var s := [c] + ids + [d] + rest;
      |s| == |ids| + 2 + |rest| && s[0] == c && s[1..1 + |ids|] == ids && s[1 + |ids|] == d
  {
    var s := [c] + ids + [d] + rest;
    assert s[1..1 + |ids|] == ids;
  }

  lemma IdFits(f: Frame)
    requires WellFormed(f)
    ensures f.id < Hex.Pow16(IdWidth(f.extended))
  {
    if f.extended {
      assert Hex.Pow16(8) == 0x1_0000_0000;
    } else {
      assert Hex.Pow16(3) == 0x1000;
    }
  }

  /** Python's `s[i:j]`: indices past the end are clipped. */
  function Slice(s: string, i: nat, j: nat): (t: string)
    ensures |t| <= j - i || (j < i && t == [])
  {
    var lo := if i < |s| then i else |s|;
    var hi := if j < lo then lo else if j < |s| then j else |s|;
    s[lo..hi]
  }

  /** `int(msg[pos:pos + width], 16)` for a one- or two-digit field: always a byte. */
  function ByteField(msg: string, pos: nat, width: nat): (r: Result<Byte, Error>)
    requires 1 <= width <= 2
  {
    match Hex.ParseShort(Slice(msg, pos, pos + width))
    case None => Err(MalformedHex)
    case Some(v) => Ok(v)
  }

  /** A field reads without error exactly when `int(..., 16)` accepts it, and reads its value. */
  lemma ByteFieldParses(msg: string, pos: nat, width: nat)
    requires 1 <= width <= 2
    ensures ByteField(msg, pos, width).Ok? <==> Hex.Parse(Slice(msg, pos, pos + width)).Some?
    ensures ByteField(msg, pos, width).Ok? ==>
      Some(ByteField(msg, pos, width).value) == Hex.Parse(Slice(msg, pos, pos + width))
  {
    Hex.ParseShortAgrees(Slice(msg, pos, pos + width));
  }

  /**
   * The loop of `from_string` that reads `count` payload fields of `width`
   * characters, one every two characters from `pos`.
   */
  function ReadBytes(msg: string, pos: nat, width: nat, count: nat): (r: Result<seq<Byte>, Error>)
    requires 1 <= width <= 2
    ensures r.Ok? ==> |r.value| == count
    decreases count
  {
    if count == 0 then Ok([])
    else
      var field := ByteField(msg, pos, width);
      if field.Err? then Err(field.error)
      else Prepend([field.value], ReadBytes(msg, pos + 2, width, count - 1))
  }

  /** The id and the length digit that follow the type character. */
  function ReadHeader(msg: string, idWidth: nat): (r: Result<(nat, nat), Error>)
    ensures r.Ok? ==> |msg| > 1 + idWidth && Hex.Decimal(msg[1 + idWidth]) == Some(r.value.1)
    ensures r.Ok? ==> Hex.Parse(Slice(msg, 1, 1 + idWidth)) == Some(r.value.0)
  {
    var mid :- Hex.Parse(Slice(msg, 1, 1 + idWidth)).OrError(MalformedHex);
    if |msg| <= 1 + idWidth then Err(LineTooShort)
    else
      var dlc :- Hex.Decimal(msg[1 + idWidth]).OrError(MalformedDlc);
      Ok((mid, dlc))
  }

  /**
   * `from_string(msg)`: the frame a line describes, or the exception raised.
   * The `T` branch reproduces the source: its payload starts at the length
   * digit (offset 9) and each field is one character wide.
   */
  function Decode(table: SignalTable, msg: string): (r: Result<Frame, Error>)
    ensures r.Ok? ==> WellFormed(r.value)
    ensures msg != [] && msg[0] !in "tTrR" ==> r == Err(UnknownType)
    ensures r.Ok? && msg != [] ==> r.value.rtr == (msg[0] in "rR")
  {
    if msg == [] then Construct(table, 0, None, false, "", Some(0))
    else if msg[0] == 'r' || msg[0] == 'R' then
      var header :- ReadHeader(msg, IdWidth(msg[0] == 'R'));
      Construct(table, header.0, Some([]), true, "", Some(header.1))
    else if msg[0] == 't' then
      var header :- ReadHeader(msg, 3);
      var data :- ReadBytes(msg, 5, 2, header.1);
      Construct(table, header.0, Some(data), false, "", Some(header.1))
    else if msg[0] == 'T' then
      var header :- ReadHeader(msg, 8);
      var data :- ReadBytes(msg, 9, 1, header.1);
      Construct(table, header.0, Some(data), false, "", Some(header.1))
    else Err(UnknownType)
  }

  /** A `t` line whose header and payload fields read without error (unfolds `Decode` for callers). */
  lemma DecodeStandardData(table: SignalTable, msg: string, id: nat, n: nat, data: seq<Byte>)
    requires msg != [] && msg[0] == 't'
    requires ReadHeader(msg, 3) == Ok((id, n)) && ReadBytes(msg, 5, 2, n) == Ok(data)
    ensures Decode(table, msg) == Construct(table, id, Some(data), false, "", Some(n))
  {
  }

  /** A `T` line whose header and payload fields read without error (unfolds `Decode` for callers). */
  lemma DecodeExtendedData(table: SignalTable, msg: string, id: nat, n: nat, data: seq<Byte>)
    requires msg != [] && msg[0] == 'T'
    requires ReadHeader(msg, 8) == Ok((id, n)) && ReadBytes(msg, 9, 1, n) == Ok(data)
    ensures Decode(table, msg) == Construct(table, id, Some(data), false, "", Some(n))
  {
  }

  /**
   * An `r` or `R` line whose header reads without error is a remote frame with the
   * (clamped) id and the length digit of the line and an empty payload, unless the
   * signal table gives that id another length.
   */
  lemma DecodeRemote(table: SignalTable, msg: string, id: nat, n: nat)
    requires msg != [] && msg[0] in "rR"
    requires ReadHeader(msg, IdWidth(msg[0] == 'R')) == Ok((id, n))
    ensures TableDisagrees(table, ClampId(id), Some([]), true, Some(n)) ==> Decode(table, msg) == Err(DlcMismatch)
    ensures !TableDisagrees(table, ClampId(id), Some([]), true, Some(n)) ==>
      Decode(table, msg).Ok? &&
      var f := Decode(table, msg).value;
      f.rtr && f.id == ClampId(id) && f.extended == (ClampId(id) > MaxStandardId) && f.dlc == Some(n) && f.data == 0
  {
  }

  /** Whatever follows the length digit of an `r` or `R` line is never read. */
  lemma RemoteTrailingIgnored(table: SignalTable, msg: string, extra: string)
    requires msg != [] && msg[0] in "rR" && ReadHeader(msg, IdWidth(msg[0] == 'R')).Ok?
    ensures Decode(table, msg + extra) == Decode(table, msg)
  {
    var w := IdWidth(msg[0] == 'R');
    var t := msg + extra;
    assert t[0] == msg[0];
    assert ReadHeader(t, w) == ReadHeader(msg, w) by {
      SliceExtend(msg, extra, 1, 1 + w);
      assert t[1 + w] == msg[1 + w];
    }
  }

  /** The empty line gives a data frame with id 0 and no bytes. */
  lemma DecodeEmpty(table: SignalTable)
    requires 0 !in table
    ensures Decode(table, "") == Ok(Frame(0, "", false, false, Some(0), 0))
  {
  }

  /**
   * A complete `t` line reads the same with anything appended: the header and all
   * `n` pairs lie inside it. (A line whose last pair is cut short is not complete:
   * its last field reads one digit, and appended characters change it.)
   */
  lemma StandardTrailingIgnored(table: SignalTable, s: string, extra: string, id: nat, n: nat)
    requires s != [] && s[0] == 't' && ReadHeader(s, 3) == Ok((id, n)) && |s| >= 5 + 2 * n
    ensures Decode(table, s + extra) == Decode(table, s)
  {
    var t := s + extra;
    assert ReadHeader(t, 3) == ReadHeader(s, 3) by {
      SliceExtend(s, extra, 1, 4);
      assert t[4] == s[4];
    }
    ReadBytesExtend(s, extra, 5, 2, n);
  }

  /** Python's slicing of a string inside its first part ignores what follows. */
  lemma SliceExtend(s: string, extra: string, i: nat, j: nat)
    requires i <= j <= |s|
    ensures Slice(s + extra, i, j) == Slice(s, i, j)
  {
    assert (s + extra)[i..j] == s[i..j];
  }

  /** Fields that all lie inside the string read the same whatever follows it. */
  lemma {:induction false} ReadBytesExtend(s: string, extra: string, pos: nat, width: nat, count: nat)
    requires 1 <= width <= 2 && pos + 2 * count <= |s|
    ensures ReadBytes(s + extra, pos, width, count) == ReadBytes(s, pos, width, count)
    decreases count
  {
    if count > 0 {
      assert ByteField(s + extra, pos, width) == ByteField(s, pos, width) by {
        SliceExtend(s, extra, pos, pos + width);
      }
      ReadBytesExtend(s, extra, pos + 2, width, count - 1);
    }
  }

  /** The characters of `b` in `a + b + c`, taken with Python's slicing. */
  lemma SliceMiddle(a: string, b: string, c: string)
    ensures Slice(a + b + c, |a|, |a| + |b|) == b
  {
    assert (a + b + c)[|a|..|a| + |b|] == b;
  }

  /** Two-digit pairs written after a prefix read back as the bytes written. */
  lemma {:induction false} ReadPairs(p: string, bs: seq<Byte>)
    ensures ReadBytes(p + PayloadText(bs), |p|, 2, |bs|) == Ok(bs)
    decreases |bs|
  {
    if bs != [] {
      var pair := Hex.Padded(bs[0], 2);
      var rest := PayloadText(bs[1..]);
      var msg := p + PayloadText(bs);
      Hex.PaddedLength(bs[0], 2);
      assert msg == p + pair + rest;
      assert ByteField(msg, |p|, 2) == Ok(bs[0]) by {
        ByteFieldParses(msg, |p|, 2);
        SliceMiddle(p, pair, rest);
        Hex.ParsePadded(bs[0], 2);
      }
      assert ReadBytes(msg, |p| + 2, 2, |bs| - 1) == Ok(bs[1..]) by {
        assert msg == (p + pair) + rest;
        ReadPairs(p + pair, bs[1..]);
      }
      assert [bs[0]] + bs[1..] == bs;
    }
  }

  /** The low hex digit of each byte. */
  function LowDigits(bs: seq<Byte>): (r: seq<Byte>)
    ensures |r| == |bs| && forall i :: 0 <= i < |bs| ==> r[i] == bs[i] % 16
  {
    seq(|bs|, i requires 0 <= i < |bs| => bs[i] % 16)
  }

  /** One-character fields taken one place into each pair read the low digit of each byte. */
  lemma {:induction false} ReadLowDigits(p: string, bs: seq<Byte>, k: nat)
    requires k <= |bs|
    ensures ReadBytes(p + PayloadText(bs), |p| + 1, 1, k) == Ok(LowDigits(bs)[..k])
    decreases k
  {
    if k > 0 {
      var pair := Hex.Padded(bs[0], 2);
      var rest := PayloadText(bs[1..]);
      var msg := p + pair + rest;
      assert p + PayloadText(bs) == msg by {
        PayloadTextCons(p, bs);
      }
      var tail := LowDigits(bs[1..])[..k - 1];
      assert ReadBytes(msg, |p| + 3, 1, k - 1) == Ok(tail) by {
        Hex.PaddedLength(bs[0], 2);
        ReadLowDigits(p + pair, bs[1..], k - 1);
      }
      assert ReadBytes(msg, |p| + 1, 1, k) == Ok([bs[0] % 16] + tail) by {
        LowDigitField(p, bs[0], rest);
        ReadBytesCons(msg, |p| + 1, 1, k, bs[0] % 16, tail);
      }
      LowDigitsCons(bs, k);
    } else {
      assert LowDigits(bs)[..0] == [];
    }
  }

  /** A payload after a prefix is the prefix, the first pair, then the remaining pairs. */
  lemma PayloadTextCons(p: string, bs: seq<Byte>)
    requires bs != []
    ensures p + PayloadText(bs) == p + Hex.Padded(bs[0], 2) + PayloadText(bs[1..])
  {
  }

  /** A read of `count` fields that starts with a good field and continues with good ones. */
  lemma ReadBytesCons(msg: string, pos: nat, width: nat, count: nat, v: Byte, rest: seq<Byte>)
    requires 1 <= width <= 2 && count > 0
    requires ByteField(msg, pos, width) == Ok(v)
    requires ReadBytes(msg, pos + 2, width, count - 1) == Ok(rest)
    ensures ReadBytes(msg, pos, width, count) == Ok([v] + rest)
  {
  }

  /** The one-character field one place into a printed byte is its low digit. */
  lemma LowDigitField(p: string, b: Byte, rest: string)
    ensures ByteField(p + Hex.Padded(b, 2) + rest, |p| + 1, 1) == Ok(b % 16)
  {
    Hex.PaddedByte(b);
    var pair := Hex.Padded(b, 2);
    ByteFieldParses(p + pair + rest, |p| + 1, 1);
    assert p + pair + rest == (p + [pair[0]]) + [pair[1]] + rest;
    SliceMiddle(p + [pair[0]], [pair[1]], rest);
    Hex.DigitValueOfDigit(b % 16);
  }

  lemma LowDigitsCons(bs: seq<Byte>, k: nat)
    requires 0 < k <= |bs|
    ensures [bs[0] % 16] + LowDigits(bs[1..])[..k - 1] == LowDigits(bs)[..k]
  {
  }

  /** A frame whose id is not in the table, or whose length the table confirms. */
  predicate TableAgrees(table: SignalTable, f: Frame)
    requires f.dlc.Some?
  {
    f.id in table ==> table[f.id].dlc == f.dlc.value
  }

  /** The header of a line reads back as the frame's id and length. */
  lemma HeaderRoundTrip(f: Frame)
    requires WellFormed(f) && f.dlc.Some? && f.dlc.value <= 8
    ensures Text(f).Ok? && Text(f).value != [] && Text(f).value[0] == TypeChar(f.extended, f.rtr)
    ensures ReadHeader(Text(f).value, IdWidth(f.extended)) == Ok((f.id, f.dlc.value))
  {
    var w, n := IdWidth(f.extended), f.dlc.value;
    TextShape(f);
    var s := Text(f).value;
    assert Slice(s, 1, 1 + w) == s[1..1 + w];
    Hex.DecimalOfDigit(n);
  }

  /**
   * `from_string(to_string(m))` keeps id, rtr and dlc of a standard frame, an
   * extended remote frame or an extended data frame without bytes, and the sent
   * bytes of a data frame (the bytes past dlc come back as zero).
   */
  lemma RoundTrip(table: SignalTable, f: Frame)
    requires WellFormed(f) && (!f.extended || f.rtr || f.dlc == Some(0))
    requires f.dlc.Some? && f.dlc.value <= 8 && TableAgrees(table, f)
    ensures Text(f).Ok? && Decode(table, Text(f).value).Ok?
    ensures var g := Decode(table, Text(f).value).value;
      g.id == f.id && g.rtr == f.rtr && g.extended == f.extended && g.dlc == f.dlc &&
      (!f.rtr ==> forall i :: 0 <= i < 8 ==> ByteAt(g.data, i) == if i < f.dlc.value then ByteAt(f.data, i) else 0)
  {
    var n := f.dlc.value;
    HeaderRoundTrip(f);
    var s := Text(f).value;
    if f.rtr {
      DecodeRemote(table, s, f.id, n);
    } else if f.extended {
      DecodeExtendedData(table, s, f.id, 0, []);
      ConstructPayload(table, f.id, [], "", Some(0));
    } else {
      var bs := Sent(f.data, n);
      var p := ['t'] + Hex.Padded(f.id, 3) + Hex.Padded(n, 1);
      assert s == p + PayloadText(bs) && |p| == 5 by {
        IdFits(f);
        Hex.PaddedLength(f.id, 3);
      }
      assert ReadBytes(s, 5, 2, n) == Ok(bs) by {
        ReadPairs(p, bs);
      }
      DecodeStandardData(table, s, f.id, n, bs);
      ConstructPayload(table, f.id, bs, "", Some(n));
      forall i | 0 <= i < 8
        ensures ByteAt(Decode(table, s).value.data, i) == if i < n then ByteAt(f.data, i) else 0
      {
      }
    }
  }

  /**
   * The `T` branch of `from_string` does not invert `to_string`: byte 0 comes
   * back as the length and byte i as the low hex digit of byte i - 1.
   */
  lemma ExtendedDataQuirk(table: SignalTable, f: Frame)
    requires WellFormed(f) && f.extended && !f.rtr
    requires f.dlc.Some? && 1 <= f.dlc.value <= 8 && TableAgrees(table, f)
    ensures Text(f).Ok? && Decode(table, Text(f).value).Ok?
    ensures var g := Decode(table, Text(f).value).value;
      g.id == f.id && g.dlc == f.dlc && ByteAt(g.data, 0) == f.dlc.value &&
      forall i :: 1 <= i < f.dlc.value ==> ByteAt(g.data, i) == ByteAt(f.data, i - 1) % 16
  {
    var n := f.dlc.value;
    HeaderRoundTrip(f);
    var s := Text(f).value;
    var bs := Sent(f.data, n);
    var data := [n as Byte] + LowDigits(bs)[..n - 1];
    assert ReadBytes(s, 9, 1, n) == Ok(data) by {
      var p := ['T'] + Hex.Padded(f.id, 8) + Hex.Padded(n, 1);
      assert s == p + PayloadText(bs) && |p| == 10 && p[9] == Hex.Digit(n) by {
        IdFits(f);
        Hex.PaddedLength(f.id, 8);
        Hex.PaddedDigit(n);
      }
      QuirkPayload(p, bs, n);
    }
    ExtendedDecoded(table, s, f.id, n, data);
    var g := Decode(table, s).value;
    forall i | 1 <= i < n
      ensures ByteAt(g.data, i) == ByteAt(f.data, i - 1) % 16
    {
      assert data[i] == bs[i - 1] % 16;
    }
  }

  /** A `T` line whose header and payload read without error decodes to those bytes, then zeros. */
  lemma ExtendedDecoded(table: SignalTable, msg: string, id: nat, n: nat, data: seq<Byte>)
    requires msg != [] && msg[0] == 'T' && id <= MaxId && n == |data| <= 8
    requires ReadHeader(msg, 8) == Ok((id, n)) && ReadBytes(msg, 9, 1, n) == Ok(data)
    requires id in table ==> table[id].dlc == n
    ensures Decode(table, msg).Ok?
    ensures var g := Decode(table, msg).value;
      g.id == id && g.dlc == Some(n) &&
      forall i :: 0 <= i < 8 ==> ByteAt(g.data, i) == if i < n then data[i] else 0
  {
    DecodeExtendedData(table, msg, id, n, data);
    ConstructPayload(table, id, data, "", Some(n));
  }

  /** One-character fields from the length digit read the length, then low digits. */
  lemma QuirkPayload(p: string, bs: seq<Byte>, n: nat)
    requires |p| == 10 && 1 <= n <= 8 && n == |bs| && p[9] == Hex.Digit(n)
    ensures ReadBytes(p + PayloadText(bs), 9, 1, n) == Ok([n as Byte] + LowDigits(bs)[..n - 1])
  {
    var s := p + PayloadText(bs);
    assert Slice(s, 9, 10) == [Hex.Digit(n)];
    Hex.DigitValueOfDigit(n);
    ReadLowDigits(p, bs, n - 1);
  }

  /** The line `T12345678197` gives payload byte 1, not the 0x97 the docstring lists. */
  lemma ExtendedDataExample()
    ensures Decode(map[], "T12345678197") == Ok(Frame(0x1234_5678, "", false, true, Some(1), 1))
  {
    var msg := "T12345678197";
    ExampleHeader();
    ExamplePayload();
    DecodeExtendedData(map[], msg, 0x1234_5678, 1, [1]);
    SingleByte();
  }

  lemma ExampleHeader()
    ensures ReadHeader("T12345678197", 8) == Ok((0x1234_5678, 1))
  {
    var msg := "T12345678197";
    assert Slice(msg, 1, 9) == msg[1..9];
    assert msg[1..9] == "12345678";
    ExampleId();
  }

  lemma ExamplePayload()
    ensures ReadBytes("T12345678197", 9, 1, 1) == Ok([1])
  {
    var msg := "T12345678197";
    assert Slice(msg, 9, 10) == [msg[9]];
    ByteFieldParses(msg, 9, 1);
    ReadBytesCons(msg, 9, 1, 1, 1, []);
    var one: seq<Byte> := [1];
    assert one + [] == one;
  }

  lemma SingleByte()
    ensures AsBytes([1]) == [1] && Pack([1]) == 1
  {
    var one: seq<Byte> := [1];
    assert AsBytes([1])[0] == one[0];
    assert one[1..] == [];
  }

  lemma ExampleId()
    ensures Hex.Parse("12345678") == Some(0x1234_5678)
  {
    assert "12"[..1] == "1";
    assert Hex.Parse("12") == Some(0x12);
    assert "123"[..2] == "12";
    assert Hex.Parse("123") == Some(0x123);
    assert "1234"[..3] == "123";
    assert Hex.Parse("1234") == Some(0x1234);
    assert "12345"[..4] == "1234";
    assert Hex.Parse("12345") == Some(0x1_2345);
    assert "123456"[..5] == "12345";
    assert Hex.Parse("123456") == Some(0x12_3456);
    assert "1234567"[..6] == "123456";
    assert Hex.Parse("1234567") == Some(0x123_4567);
    assert "12345678"[..7] == "1234567";
  }

  // ------------------------------------------------------------ the object

  /** A CANMessage object; its payload and other attributes change in place. */
  class CanMessage {
    var id: nat
    var name: string
    var rtr: bool
    var extended: bool
    var dlc: Option<nat>
    var data: nat

    function Value(): Frame
      reads this
    {
      Frame(id, name, rtr, extended, dlc, data)
    }

    constructor FromFrame(f: Frame)
      ensures Value() == f
    {
      id, name, rtr, extended, dlc, data := f.id, f.name, f.rtr, f.extended, f.dlc, f.data;
    }

    /** `CANMessage(mid, data, rtr, name, dlc)`. */
    static method New(table: SignalTable, mid: nat, data: Option<seq<int>>, rtr: bool, name: string, dlc: Option<nat>)
      returns (r: Result<CanMessage, Error>)
      ensures r.Ok? <==> Construct(table, mid, data, rtr, name, dlc).Ok?
      ensures r.Err? ==> r.error == Construct(table, mid, data, rtr, name, dlc).error
      ensures r.Ok? ==> fresh(r.value) && r.value.Value() == Construct(table, mid, data, rtr, name, dlc).value
    {
      var f :- Construct(table, mid, data, rtr, name, dlc);
      var m := new CanMessage.FromFrame(f);
      return Ok(m);
    }

    /** `m[index]`: byte `index` of the little-endian payload; other indices raise. */
    function GetItem(index: int): (r: Result<Byte, Error>)
      reads this
      ensures r.Ok? <==> 0 <= index <= 7
      ensures r.Ok? ==> r.value == Unpack(data)[index]
    {
      if 0 <= index <= 7 then Ok(ByteAt(data, index)) else Err(IndexRange)
    }

    /** `m[index] = value`: replaces byte `index` by `value & 0xFF`. */
    method SetItem(index: int, value: int) returns (r: Outcome<Error>)
      modifies this
      ensures r.Pass? <==> 0 <= index <= 7
      ensures r.Pass? ==> data == WithField(old(data), 8 * index, 8, value)
      ensures r.Pass? ==> Unpack(data) == Unpack(old(data))[index := value % 256]
      ensures r.Pass? ==> ClearField(data, 8 * index, 8) == ClearField(old(data), 8 * index, 8)
      ensures r.Pass? ==> GetItem(index) == Ok(value % 256)
      ensures r.Fail? ==> data == old(data)
      ensures Value() == old(Value()).(data := data)
    {
      if !(0 <= index <= 7) {
        return Fail(IndexRange);
      }
      SetByte(data, index, value);
      ClearOfWith(data, 8 * index, 8, value);
      data := WithField(data, 8 * index, 8, value);
      return Pass;
    }

    /**
     * Reading the signal attribute `name`: the bits of its window, sign-extended
     * when it is signed. The value lies in the signal's range and agrees with
     * the stored bits modulo 2^size.
     */
    function GetSignal(table: SignalTable, name: string): (r: Result<int, Error>)
      reads this
      ensures r.Ok? <==> IsSignal(table, id, name) && (table[id].signals[name].signed ==> table[id].signals[name].size >= 1)
      ensures r.Ok? ==> var sig := table[id].signals[name];
        InSignalRange(r.value, sig) && r.value % Pow2(sig.size) == Field(data, sig.startBit, sig.size)
    {
      if !IsSignal(table, id, name) then Err(NotASignal)
      else
        var sig := table[id].signals[name];
        SignalValue(Field(data, sig.startBit, sig.size), sig)
    }

    /**
     * Assigning the signal attribute `name`: the window's bits become the low
     * `size` bits of `value`, every other bit is kept. An attribute that is not
     * a signal of this id leaves the payload alone.
     */
    method SetSignal(table: SignalTable, name: string, value: int)
      modifies this
      ensures Value() == old(Value()).(data := data)
      ensures !IsSignal(table, id, name) ==> data == old(data)
      ensures IsSignal(table, id, name) ==> var sig := table[id].signals[name];
        data == WithField(old(data), sig.startBit, sig.size, value) &&
        ClearField(data, sig.startBit, sig.size) == ClearField(old(data), sig.startBit, sig.size) &&
        (InSignalRange(value, sig) ==> GetSignal(table, name) == Ok(value))
    {
      if IsSignal(table, id, name) {
        var sig := table[id].signals[name];
        if InSignalRange(value, sig) {
          SignalRoundTrip(data, sig, value);
        }
        ClearOfWith(data, sig.startBit, sig.size, value);
        data := WithField(data, sig.startBit, sig.size, value);
      }
    }

    /** `to_string()`: builds the line piece by piece. */
    method ToString() returns (r: Result<string, Error>)
      ensures r == Text(Value())
    {
      var s := "";
      if extended {
        s := s + (if rtr then "R" else "T");
        s := s + Hex.Padded(id, 8);
      } else {
        s := s + (if rtr then "r" else "t");
        s := s + Hex.Padded(id, 3);
      }
      assert s == [TypeChar(extended, rtr)] + Hex.Padded(id, IdWidth(extended));
      if dlc.None? {
        return Err(NoDlc);
      }
      s := s + Hex.Padded(dlc.value, 1);
      if data >= Pow2(64) {
        return Err(PayloadOverflow);
      }
      assert s == [TypeChar(extended, rtr)] + Hex.Padded(id, IdWidth(extended)) + Hex.Padded(dlc.value, 1);
      TextParts(Value());
      s := AppendPairs(s, Sent(data, dlc.value));
      r := Ok(s);
    }

    /** `CANMessage.from_string(msg)`: reads the line with a running index. */
    static method FromString(table: SignalTable, msg: string) returns (r: Result<CanMessage, Error>)
      ensures r.Ok? <==> Decode(table, msg).Ok?
      ensures r.Err? ==> r.error == Decode(table, msg).error
      ensures r.Ok? ==> fresh(r.value) && r.value.Value() == Decode(table, msg).value
    {
      var rtr := false;
      var index := 1;
      if msg == [] {
        r := New(table, 0, None, false, "", Some(0));
        return;
      }
      var mtype := msg[0];
      var data: seq<Byte> := [];
      var header: (nat, nat);
      if mtype == 'r' || mtype == 'R' {
        header :- ReadHeader(msg, IdWidth(mtype == 'R'));
        rtr := true;
      } else if mtype == 't' || mtype == 'T' {
        header :- ReadHeader(msg, IdWidth(mtype == 'T'));
        index := index + (if mtype == 't' then 4 else 8);
        data :- ReadPayload(msg, index, if mtype == 't' then 2 else 1, header.1);
      } else {
        return Err(UnknownType);
      }
      r := New(table, header.0, Some(data), rtr, "", Some(header.1));
    }
  }

  /** The payload loop of `from_string`: `count` fields, the index advancing by two each time. */
  method ReadPayload(msg: string, start: nat, width: nat, count: nat) returns (r: Result<seq<Byte>, Error>)
    requires 1 <= width <= 2
    ensures r == ReadBytes(msg, start, width, count)
  {
    var data: seq<Byte> := [];
    var index := start;
    ghost var goal := ReadBytes(msg, start, width, count);
    PrependEmpty(goal);
    for i := 0 to count
      invariant index == start + 2 * i && |data| == i
      invariant goal == Prepend(data, ReadBytes(msg, index, width, count - i))
    {
      var field := ByteField(msg, index, width);
      ReadStep(msg, index, width, count - i, data);
      if field.Err? {
        return Err(field.error);
      }
      data := data + [field.value];
      index := index + 2;
    }
    assert data + [] == data;
    return Ok(data);
  }

  /**
   * One field of the read: a field that does not read ends the whole read with its
   * error, and one that reads as `v` moves `v` from the outcome still to come to the
   * bytes read.
   */
  lemma ReadStep(msg: string, pos: nat, width: nat, count: nat, data: seq<Byte>)
    requires 1 <= width <= 2 && count > 0
    ensures var field := ByteField(msg, pos, width);
      Prepend(data, ReadBytes(msg, pos, width, count)) ==
        if field.Err? then Err(field.error)
        else Prepend(data + [field.value], ReadBytes(msg, pos + 2, width, count - 1))
  {
    var field := ByteField(msg, pos, width);
    if field.Ok? {
      var rest := ReadBytes(msg, pos + 2, width, count - 1);
      assert ReadBytes(msg, pos, width, count) == Prepend([field.value], rest);
      PrependTwice(data, [field.value], rest);
    }
  }

  /** The bytes read so far in front of the outcome of reading the rest. */
  function Prepend(prefix: seq<Byte>, rest: Result<seq<Byte>, Error>): Result<seq<Byte>, Error> {
    if rest.Ok? then Ok(prefix + rest.value) else rest
  }

  lemma PrependEmpty(rest: Result<seq<Byte>, Error>)
    ensures Prepend([], rest) == rest
  {
    if rest.Ok? {
      assert [] + rest.value == rest.value;
    }
  }

  lemma PrependTwice(a: seq<Byte>, b: seq<Byte>, rest: Result<seq<Byte>, Error>)
    ensures Prepend(a, Prepend(b, rest)) == Prepend(a + b, rest)
  {
    if rest.Ok? {
      assert a + (b + rest.value) == (a + b) + rest.value;
    }
  }
}
