/**
 * The register values of an MCP2515 acceptance mask or filter (SIDH, SIDL,
 * EID8, EID0), as the FilterMask class computes them from an 11-bit id and
 * two data-byte masks, or from a 29-bit id. Shifts and masks on Python's
 * unbounded integers are bit fields of the id.
 */
module FilterMasks {
  import opened Arith
  import opened Payload

  /** The four register bytes of a mask or filter, in the order SIDH, SIDL, EID8, EID0. */
  type RegisterSet = s: seq<nat> | |s| == 4 witness [0, 0, 0, 0]

  /**
   * `FilterMask(sid, d0, d1)`: SIDH holds id bits 3..10 (`(sid >> 3) & 0xff`), SIDL
   * holds id bits 0..2 in its top three bits (`(sid & 0x7) << 5`), and the data-byte
   * masks are stored as given.
   */
  function StandardRegisters(sid: nat, d0: nat, d1: nat): (r: RegisterSet)
    ensures r[0] < 256 && r[1] < 256
    ensures r[1] % 32 == 0
    ensures r[2] == d0 && r[3] == d1
  {
    [Field(sid, 3, 8), Field(sid, 0, 3) * 32, d0, d1]
  }

  /** The 11-bit id the SIDH and SIDL registers describe. */
  function StandardId(r: RegisterSet): nat {
    r[0] * 8 + r[1] / 32
  }

  /** An 11-bit id is recovered from its SIDH and SIDL registers. */
  lemma StandardIdRecovered(sid: nat, d0: nat, d1: nat)
    requires sid < 0x800
    ensures StandardId(StandardRegisters(sid, d0, d1)) == sid
  {
    FieldSplit(sid, 0, 3, 8);
    FieldWhole(sid, 11);
    Pow2Eight();
    Pow2Split(11, 3, 8);
    assert Pow2(3) == 8;
  }

  /** Two different 11-bit ids never share their SIDH and SIDL registers. */
  lemma StandardInjective(a: nat, b: nat, d0: nat, d1: nat, e0: nat, e1: nat)
    requires a < 0x800 && b < 0x800
    requires StandardRegisters(a, d0, d1)[..2] == StandardRegisters(b, e0, e1)[..2]
    ensures a == b
  {
    StandardIdRecovered(a, d0, d1);
    StandardIdRecovered(b, e0, e1);
    var ra, rb := StandardRegisters(a, d0, d1), StandardRegisters(b, e0, e1);
    assert ra[0] == ra[..2][0] && ra[1] == ra[..2][1];
    assert rb[0] == rb[..2][0] && rb[1] == rb[..2][1];
  }

  /**
   * `FilterMask(extid)`: SIDH holds id bits 21..28, SIDL holds bits 18..20 in its top
   * three bits (`(extid >> 13) & 0xe0`) and bits 16..17 in its low two bits
   * (`(extid >> 16) & 0x03`), EID8 bits 8..15 and EID0 bits 0..7.
   */
  function ExtendedRegisters(extid: nat): (r: RegisterSet)
    ensures r[0] < 256 && r[1] < 256 && r[2] < 256 && r[3] < 256
  {
    var sidl := Field(extid, 16, 2) + ClearField(Field(extid, 13, 8), 0, 5);
    assert sidl < 256 by {
      SidlBits(extid);
    }
    [Field(extid, 21, 8), sidl, Field(extid, 8, 8), Field(extid, 0, 8)]
  }

  /** `(x >> 13) & 0xe0` is id bits 18..20 moved to bits 5..7. */
  lemma SidlBits(x: nat)
    ensures ClearField(Field(x, 13, 8), 0, 5) == 32 * Field(x, 18, 3)
    ensures Field(x, 16, 2) + 32 * Field(x, 18, 3) < 256
  {
    FieldSplit(x, 13, 5, 3);
    var e := Field(x, 13, 8);
    assert Pow2(5) == 32 && Pow2(3) == 8 && Pow2(0) == 1 && Pow2(2) == 4;
    DivModUnique(e, 32, Field(x, 18, 3), Field(x, 13, 5));
  }

  /**
   * The SIDL register of an extended mask carries id bits 16..17 in bits 0..1 and
   * id bits 18..20 in bits 5..7; its bits 2..4 are always clear.
   */
  lemma ExtendedSidlLayout(extid: nat)
    ensures var sidl := ExtendedRegisters(extid)[1];
      Field(sidl, 0, 2) == Field(extid, 16, 2) &&
      Field(sidl, 2, 3) == 0 &&
      Field(sidl, 5, 3) == Field(extid, 18, 3)
  {
    SidlBits(extid);
    var sidl := ExtendedRegisters(extid)[1];
    var lo, hi := Field(extid, 16, 2), Field(extid, 18, 3);
    assert Pow2(0) == 1 && Pow2(2) == 4 && Pow2(3) == 8 && Pow2(5) == 32;
    assert sidl == lo + 4 * (8 * hi);
    DivModUnique(sidl, 4, 8 * hi, lo);
    DivModUnique(8 * hi, 8, hi, 0);
    DivModUnique(sidl, 32, hi, lo);
    DivModUnique(hi, 8, 0, hi);
  }

  lemma Pow2TwentyNine()
    ensures Pow2(29) == 0x2000_0000
  {
    Pow2Eight();
    Pow2Split(29, 8, 21);
    Pow2Split(21, 8, 13);
    Pow2Split(13, 8, 5);
    assert Pow2(5) == 32;
  }

  /** The 29-bit id the four registers of an extended mask describe. */
  function ExtendedId(r: RegisterSet): nat {
    r[0] * 0x20_0000 + (r[1] / 32) * 0x4_0000 + (r[1] % 4) * 0x1_0000 + r[2] * 0x100 + r[3]
  }

  /** A 29-bit id is recovered from its four extended registers. */
  lemma ExtendedIdRecovered(extid: nat)
    requires extid < 0x2000_0000
    ensures ExtendedId(ExtendedRegisters(extid)) == extid
  {
    var r := ExtendedRegisters(extid);
    var b0, b8, b16, b18, b21 := Field(extid, 0, 8), Field(extid, 8, 8), Field(extid, 16, 2), Field(extid, 18, 3), Field(extid, 21, 8);
    var above8, above16, above18 := Field(extid, 8, 21), Field(extid, 16, 13), Field(extid, 18, 11);
    assert extid == b0 + 0x100 * above8 by {
      Pow2TwentyNine();
      FieldWhole(extid, 29);
      Pow2Eight();
      FieldSplit(extid, 0, 8, 21);
    }
    assert above8 == b8 + 0x100 * above16 by {
      Pow2Eight();
      FieldSplit(extid, 8, 8, 13);
    }
    assert above16 == b16 + 4 * above18 by {
      assert Pow2(2) == 4;
      FieldSplit(extid, 16, 2, 11);
    }
    assert above18 == b18 + 8 * b21 by {
      assert Pow2(3) == 8;
      FieldSplit(extid, 18, 3, 8);
    }
    assert r[1] / 32 == b18 && r[1] % 4 == b16 by {
      SidlBits(extid);
      DivModUnique(r[1], 32, b18, b16);
      DivModUnique(r[1], 4, 8 * b18, b16);
    }
  }
}
