/** The XLCn thermocouple record (`struct tc_data`) and the protocol
    identifiers shared by every copy of the parser. */
module Xlc {

  /** A `uint8_t`. */
  type Byte = x: int | 0 <= x < 256

  /** The conversion of an `int` to `uint8_t`: reduction modulo 256. */
  function ToByte(x: int): Byte
  {
    x % 256
  }

  const PROTOCOL_TLOGA: Byte := 0
  const PROTOCOL_TLOGB: Byte := 1

  /** Every record has four channel slots. */
  const SLOTS: nat := 4

  /** The frame tags the dispatcher compares against. */
  const TLOGA_TAG: seq<char> := "$TLOGA"
  const TLOGB_TAG: seq<char> := "$TLOGB"

  /** The value of a `struct tc_data`: the protocol identifier and the five
      four-slot arrays. */
  datatype Record = Record(
    protocol: Byte,
    tc: seq<real>,      // cold junction temperature
    th: seq<real>,      // hot junction temperature
    unit: seq<char>,    // 'C', 'F' or 'K'
    status: seq<Byte>,  // channel status
    valid: seq<bool>)   // slot holds data from the last parsed frame
  {
    predicate WellFormed()
    {
      |tc| == SLOTS && |th| == SLOTS && |unit| == SLOTS && |status| == SLOTS && |valid| == SLOTS
    }
  }

  /** A `struct tc_data` that the parser fills in place through a pointer. */
  class TcData {
    var protocol: Byte
    var tc: array<real>
    var th: array<real>
    var unit: array<char>
    var status: array<Byte>
    var valid: array<bool>

    ghost predicate Valid()
      reads this
    {
      tc.Length == SLOTS && th.Length == SLOTS && unit.Length == SLOTS
      && status.Length == SLOTS && valid.Length == SLOTS && tc != th
    }

    /** The record's current value. */
    ghost function Model(): (r: Record)
      reads this, tc, th, unit, status, valid
      requires Valid()
      ensures r.WellFormed()
    {
      Record(protocol, tc[..], th[..], unit[..], status[..], valid[..])
    }

    /** One TLOGA slot write: `th[i]`, `unit[i]` and `valid[i] = true`. */
    method PutTloga(i: nat, hot: real, u: char)
      requires Valid() && i < SLOTS
      modifies th, unit, valid
      ensures Valid()
      ensures var m := old(Model());
        Model() == m.(th := m.th[i := hot], unit := m.unit[i := u], valid := m.valid[i := true])
    {
      th[i] := hot;
      unit[i] := u;
      valid[i] := true;
    }

    /** One TLOGB slot write: `tc[i]`, `th[i]`, `status[i]`, `unit[i]` and
        `valid[i] = true`. */
    method PutTlogb(i: nat, cold: real, hot: real, st: Byte, u: char)
      requires Valid() && i < SLOTS
      modifies tc, th, status, unit, valid
      ensures Valid()
      ensures var m := old(Model());
        Model() == m.(tc := m.tc[i := cold], th := m.th[i := hot], status := m.status[i := st],
                      unit := m.unit[i := u], valid := m.valid[i := true])
    {
      tc[i] := cold;
      th[i] := hot;
      status[i] := st;
      unit[i] := u;
      valid[i] := true;
    }

    /** A zeroed record. The C callers declare an uninitialised local, so the
        zeros stand for no particular contents: every parser contract holds
        for any initial record. */
    constructor ()
      ensures Valid()
      ensures fresh(tc) && fresh(th) && fresh(unit) && fresh(status) && fresh(valid)
      ensures Model() == Record(0, [0.0, 0.0, 0.0, 0.0], [0.0, 0.0, 0.0, 0.0],
                                ['\0', '\0', '\0', '\0'], [0, 0, 0, 0],
                                [false, false, false, false])
    {
      protocol := 0;
      tc := new real[SLOTS](_ => 0.0);
      th := new real[SLOTS](_ => 0.0);
      unit := new char[SLOTS](_ => '\0');
      status := new Byte[SLOTS](_ => 0);
      valid := new bool[SLOTS](_ => false);
      new;
      assert tc[..] == [0.0, 0.0, 0.0, 0.0];
      assert th[..] == [0.0, 0.0, 0.0, 0.0];
      assert unit[..] == ['\0', '\0', '\0', '\0'];
      assert status[..] == [0, 0, 0, 0];
      assert valid[..] == [false, false, false, false];
    }
  }
}
