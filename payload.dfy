/**
 * The payload of a CAN frame, held as one little-endian 64-bit integer (the
 * `_data` attribute of CANMessage). Python integers are unbounded, so the
 * masks and shifts the source applies to `_data` are written here as
 * division and remainder by powers of two:
 *   (d & ((2**size - 1) << start)) >> start   is   Field(d, start, size)
 *   (d & ~mask) + ((v << start) & mask)       is   WithField(d, start, size, v)
 */
module Payload {
  import opened Arith

  type Byte = b: nat | b < 256

  /** Bits `start .. start + size - 1` of `d`, read as an unsigned number. */
  function Field(d: nat, start: nat, size: nat): (r: nat)
    ensures r < Pow2(size)
  {
    (d / Pow2(start)) % Pow2(size)
  }

  /** `d & ~mask`: `d` with bits `start .. start + size - 1` cleared. */
  function ClearField(d: nat, start: nat, size: nat): nat
  {
    ShrDiv(d, start + size);
    MulNat(Pow2(start + size), Shr(d, start + size));
    d % Pow2(start) + Pow2(start + size) * (d / Pow2(start + size))
  }

  /** `(d & ~mask) + ((v << start) & mask)`: `d` with bits `start .. start + size - 1`
      replaced by the low `size` bits of `v` (Python's `&` on a negative `v` sees its
      two's complement, which is what `v % 2**size` gives). */
  function WithField(d: nat, start: nat, size: nat, v: int): nat
  {
    ClearField(d, start, size) + Pow2(start) * (v % Pow2(size))
  }

  /** The written payload as its bits below the field, the field, and the bits above. */
  lemma WithFieldSplit(d: nat, start: nat, size: nat, v: int)
    ensures WithField(d, start, size, v)
         == Pow2(start) * (v % Pow2(size) + Pow2(size) * (d / Pow2(start + size))) + d % Pow2(start)
    ensures WithField(d, start, size, v)
         == Pow2(start + size) * (d / Pow2(start + size)) + (d % Pow2(start) + Pow2(start) * (v % Pow2(size)))
    ensures 0 <= d % Pow2(start) + Pow2(start) * (v % Pow2(size)) < Pow2(start + size)
  {
    var p, q, h := Pow2(start), Pow2(size), d / Pow2(start + size);
    MulNat(p, v % q);
    Pow2Add(start, size);
    Regroup(p, q, h, v % q);
    BelowProduct(d % p, v % q, p, q);
  }

  lemma Regroup(p: int, q: int, h: int, f: int)
    ensures (p * q) * h + p * f == p * (f + q * h)
  {
    assert (p * q) * h == p * (q * h);
  }

  /** A field written with `v` reads back as the low `size` bits of `v`. */
  lemma FieldOfWith(d: nat, start: nat, size: nat, v: int)
    ensures Field(WithField(d, start, size, v), start, size) == v % Pow2(size)
  {
    var p, q, h := Pow2(start), Pow2(size), d / Pow2(start + size);
    WithFieldSplit(d, start, size, v);
    DivModUnique(WithField(d, start, size, v), p, v % q + q * h, d % p);
    DivModUnique(v % q + q * h, q, h, v % q);
  }

  /** A field lying below bit `k` depends only on the bits below `k`. */
  lemma FieldBelow(x: nat, start: nat, size: nat, k: nat)
    requires start + size <= k
    ensures Field(x, start, size) == Field(x % Pow2(k), start, size)
  {
    var a, b := Pow2(start), Pow2(size);
    var c := Pow2(k - start - size);
    Pow2Add(start, size);
    Pow2Add(start + size, k - start - size);
    assert Pow2(k) == (a * b) * c;
    ModMod(x, a * b, c);
    ModMod(x % Pow2(k), a, b);
    ModMod(x, a, b);
  }

  /** A field lying at or above bit `k` is a field of `x` shifted right by `k`. */
  lemma FieldAbove(x: nat, start: nat, size: nat, k: nat)
    requires k <= start
    ensures Field(x, start, size) == Field(Shr(x, k), start - k, size)
  {
    ShrDiv(x, k);
    Pow2Add(k, start - k);
    DivDiv(x, Pow2(k), Pow2(start - k));
  }

  /** Writing one field leaves every field that does not overlap it unchanged. */
  lemma FieldOfWithDisjoint(d: nat, start: nat, size: nat, v: int, start': nat, size': nat)
    requires start' + size' <= start || start + size <= start'
    ensures Field(WithField(d, start, size, v), start', size') == Field(d, start', size')
  {
    var p, q, h := Pow2(start), Pow2(size), d / Pow2(start + size);
    var w := WithField(d, start, size, v);
    WithFieldSplit(d, start, size, v);
    if start' + size' <= start {
      DivModUnique(w, p, v % q + q * h, d % p);
      FieldBelow(w, start', size', start);
      FieldBelow(d, start', size', start);
    } else {
      DivModUnique(w, Pow2(start + size), h, d % p + p * (v % q));
      ShrDiv(w, start + size);
      ShrDiv(d, start + size);
      FieldAbove(w, start', size', start + size);
      FieldAbove(d, start', size', start + size);
    }
  }

  /** Writing a field leaves the bits below it unchanged. */
  lemma WithFieldLow(d: nat, start: nat, size: nat, v: int)
    ensures WithField(d, start, size, v) % Pow2(start) == d % Pow2(start)
  {
    var p, q := Pow2(start), Pow2(size);
    WithFieldSplit(d, start, size, v);
    DivModUnique(WithField(d, start, size, v), p, v % q + q * (d / Pow2(start + size)), d % p);
  }

  /** Writing a field leaves the bits above it unchanged. */
  lemma WithFieldHigh(d: nat, start: nat, size: nat, v: int)
    ensures WithField(d, start, size, v) / Pow2(start + size) == d / Pow2(start + size)
  {
    var p, q, m := Pow2(start), Pow2(size), Pow2(start + size);
    WithFieldSplit(d, start, size, v);
    DivModUnique(WithField(d, start, size, v), m, d / m, d % p + p * (v % q));
  }

  /** Writing a field leaves every bit outside it (`d & ~mask`) unchanged. */
  lemma ClearOfWith(d: nat, start: nat, size: nat, v: int)
    ensures ClearField(WithField(d, start, size, v), start, size) == ClearField(d, start, size)
  {
    WithFieldLow(d, start, size, v);
    WithFieldHigh(d, start, size, v);
  }

  /** A field of `a + b` bits splits into its low `a` bits and the `b` bits above them. */
  lemma FieldSplit(d: nat, start: nat, a: nat, b: nat)
    ensures Field(d, start, a + b) == Field(d, start, a) + Pow2(a) * Field(d, start + a, b)
  {
    var e, x, y := Shr(d, start), Pow2(a), Pow2(b);
    ShrDiv(d, start);
    assert d / Pow2(start + a) == e / x by {
      Pow2Add(start, a);
      DivDiv(d, Pow2(start), x);
    }
    assert e % Pow2(a + b) == x * ((e / x) % y) + e % x by {
      Pow2Add(a, b);
      DivDiv(e, x, y);
    }
  }

  /** A number below 2^n is its own low `n`-bit field. */
  lemma FieldWhole(d: nat, n: nat)
    requires d < Pow2(n)
    ensures Field(d, 0, n) == d
  {
    DivModUnique(d, Pow2(n), 0, d);
  }

  lemma BelowProduct(lo: nat, mid: nat, p: nat, q: nat)
    requires lo < p && mid < q
    ensures lo + p * mid < p * q
  {
    MulLe(p, mid, q - 1);
    MulSucc(p, q - 1);
  }

  /** Writing a field that ends at or below bit 64 keeps a 64-bit payload within 64 bits. */
  lemma WithFieldBound(d: nat, start: nat, size: nat, v: int)
    requires d < Pow2(64) && start + size <= 64
    ensures WithField(d, start, size, v) < Pow2(64)
  {
    Pow2Add(start + size, 64 - (start + size));
    WithFieldSplit(d, start, size, v);
    BelowMultiple(d, Pow2(start + size), Pow2(64 - (start + size)));
  }

  /** Byte `i` (0 = least significant) of a payload: `(d & (0xFF << 8*i)) >> 8*i`. */
  function ByteAt(d: nat, i: nat): Byte
  {
    Field(d, 8 * i, 8)
  }

  /** `pack('<Q', d)`: the eight payload bytes in ascending index order. */
  function Unpack(d: nat): (r: seq<Byte>)
    ensures |r| == 8
  {
    BytesFrom(d, 8)
  }

  function BytesFrom(d: nat, n: nat): (r: seq<Byte>)
    ensures |r| == n && forall i :: 0 <= i < n ==> r[i] == ByteAt(d, i)
  {
    seq(n, i requires 0 <= i < n => ByteAt(d, i))
  }

  /** `unpack('<Q', bs + zero padding)`: the bytes read as a little-endian number. */
  function Pack(bs: seq<Byte>): (r: nat)
    ensures r < Pow2(8 * |bs|)
  {
    if bs == [] then 0
    else
      Pow2Byte(|bs|);
      BelowProduct(bs[0], Pack(bs[1..]), 256, Pow2(8 * (|bs| - 1)));
      bs[0] + 256 * Pack(bs[1..])
  }

  /** Zero bytes padding a short payload up to eight bytes. */
  function Zeros(n: nat): (r: seq<Byte>)
  {
    seq(n, _ => 0)
  }

  /** The next byte of a payload is the first byte of the payload shifted right by eight. */
  lemma ByteAtNext(d: nat, i: nat)
    ensures ByteAt(d, i + 1) == ByteAt(d / 256, i)
  {
    FieldAbove(d, 8 * (i + 1), 8, 8);
    ShrDiv(d, 8);
    assert Pow2(8) == 256;
  }

  /** Byte `i` of a packed payload is the `i`-th byte given, or zero past its end. */
  lemma {:induction false} PackedByte(bs: seq<Byte>, i: nat)
    ensures ByteAt(Pack(bs), i) == if i < |bs| then bs[i] else 0
  {
    if bs == [] {
      assert ByteAt(0, i) == 0 by {
        ZeroField(8 * i, 8);
      }
    } else {
      var rest := Pack(bs[1..]);
      DivModUnique(Pack(bs), 256, rest, bs[0]);
      if i == 0 {
        assert Pow2(0) == 1 && Pow2(8) == 256;
      } else {
        ByteAtNext(Pack(bs), i - 1);
        PackedByte(bs[1..], i - 1);
        assert (if i - 1 < |bs[1..]| then bs[1..][i - 1] else 0) == (if i < |bs| then bs[i] else 0);
      }
    }
  }

  lemma ZeroField(start: nat, size: nat)
    ensures Field(0, start, size) == 0
  {
    DivModUnique(0, Pow2(start), 0, 0);
    DivModUnique(0, Pow2(size), 0, 0);
  }

  /** Packing then unpacking yields the bytes followed by zero padding. */
  lemma UnpackPack(bs: seq<Byte>)
    requires |bs| <= 8
    ensures Unpack(Pack(bs)) == bs + Zeros(8 - |bs|)
  {
    forall i | 0 <= i < 8
      ensures Unpack(Pack(bs))[i] == (bs + Zeros(8 - |bs|))[i]
    {
      PackedByte(bs, i);
    }
  }

  /** Unpacking the low `n` bytes and packing them gives the payload modulo 2^(8n). */
  lemma {:induction false} PackBytesFrom(d: nat, n: nat)
    ensures Pack(BytesFrom(d, n)) == d % Pow2(8 * n)
  {
    if n > 0 {
      var bs := BytesFrom(d, n);
      assert bs[1..] == BytesFrom(d / 256, n - 1) by {
        forall i | 0 <= i < n - 1 ensures bs[1..][i] == ByteAt(d / 256, i) {
          ByteAtNext(d, i);
        }
      }
      PackBytesFrom(d / 256, n - 1);
      assert bs[0] == d % 256 by {
        assert Pow2(0) == 1 && Pow2(8) == 256;
      }
      Pow2Byte(n);
      DivDiv(d, 256, Pow2(8 * (n - 1)));
    }
  }

  /** Unpacking then packing all eight bytes gives back a 64-bit payload. */
  lemma PackUnpack(d: nat)
    requires d < Pow2(64)
    ensures Pack(Unpack(d)) == d
  {
    PackBytesFrom(d, 8);
    DivModUnique(d, Pow2(64), 0, d);
  }
}
