/** The copy of the parser in `simple_superloop_production/src/main.c`, with
    its own caps: a field closed by a comma holds at most 12 characters and
    the last field at most 13, with at most 16 commas after the tag. */
module ProductionMain {
  import opened Text
  import opened Xlc
  import Parser
  import Properties

  const MAX_FIELDS: nat := 16
  const MAX_FIELD_LENGTH: nat := 12

  /** `parse_tloga` with the production program's caps. */
  method ParseTloga(s: seq<char>, dat: TcData) returns (r: int)
    requires Terminated(s) && dat.Valid() && Parser.TlogaFits(Line(s), MAX_FIELD_LENGTH, MAX_FIELDS)
    modifies dat`protocol, dat.th, dat.unit, dat.valid
    ensures dat.Valid()
    ensures Parser.Outcome(r, dat.Model()) == Parser.TlogaSpec(Line(s), MAX_FIELD_LENGTH, MAX_FIELDS, old(dat.Model()))
  {
    r := Parser.ParseTloga(s, dat, MAX_FIELD_LENGTH, MAX_FIELDS);
  }

  /** `parse_tlogb` with the production program's caps. */
  method ParseTlogb(s: seq<char>, dat: TcData) returns (r: int)
    requires Terminated(s) && dat.Valid() && Parser.TlogbFits(Line(s), MAX_FIELD_LENGTH, MAX_FIELDS)
    modifies dat`protocol, dat.tc, dat.th, dat.unit, dat.status, dat.valid
    ensures dat.Valid()
    ensures Parser.Outcome(r, dat.Model()) == Parser.TlogbSpec(Line(s), MAX_FIELD_LENGTH, MAX_FIELDS, old(dat.Model()))
  {
    r := Parser.ParseTlogb(s, dat, MAX_FIELD_LENGTH, MAX_FIELDS);
  }

  /** `parse_string` with the production program's caps. */
  method ParseString(s: seq<char>, dat: TcData) returns (r: int)
    requires Terminated(s) && dat.Valid()
    requires Parser.TagFits(Line(s)) && Parser.RouteFits(Line(s), MAX_FIELD_LENGTH, MAX_FIELDS)
    modifies dat`protocol, dat.tc, dat.th, dat.unit, dat.status, dat.valid
    ensures dat.Valid()
    ensures Parser.Outcome(r, dat.Model()) == Parser.ParseStringSpec(Line(s), MAX_FIELD_LENGTH, MAX_FIELDS, old(dat.Model()))
  {
    r := Parser.ParseString(s, dat, MAX_FIELD_LENGTH, MAX_FIELDS);
  }

  /** `parse_tloga` declares `char fields[8][8]`, yet the checks accept a
      field of 8 characters, whose NUL is a ninth column, and 8 commas, whose
      fields need a ninth row. */
  lemma TlogaBufferOverflow()
    ensures var long := seq(8, _ => '0');
      Parser.ScanLine(long, MAX_FIELD_LENGTH, MAX_FIELDS).Accepted?
      && !Properties.FitsBuffer(Parser.ScanLine(long, MAX_FIELD_LENGTH, MAX_FIELDS).fields, 8, 8)
    ensures var commas := seq(8, _ => ',');
      Parser.ScanLine(commas, MAX_FIELD_LENGTH, MAX_FIELDS).Accepted?
      && !Properties.FitsBuffer(Parser.ScanLine(commas, MAX_FIELD_LENGTH, MAX_FIELDS).fields, 8, 8)
  {
    Properties.LongFieldOverflows(MAX_FIELD_LENGTH, MAX_FIELDS, 8, 8);
    Properties.ManyFieldsOverflow(MAX_FIELD_LENGTH, MAX_FIELDS, 8, 8);
  }

  /** `parse_tlogb` declares `char fields[16][8]`, yet the checks accept a
      field of 8 characters and 16 commas, whose fields need a seventeenth
      row. */
  lemma TlogbBufferOverflow()
    ensures var long := seq(8, _ => '0');
      Parser.ScanLine(long, MAX_FIELD_LENGTH, MAX_FIELDS).Accepted?
      && !Properties.FitsBuffer(Parser.ScanLine(long, MAX_FIELD_LENGTH, MAX_FIELDS).fields, 16, 8)
    ensures var commas := seq(16, _ => ',');
      Parser.ScanLine(commas, MAX_FIELD_LENGTH, MAX_FIELDS).Accepted?
      && !Properties.FitsBuffer(Parser.ScanLine(commas, MAX_FIELD_LENGTH, MAX_FIELDS).fields, 16, 8)
  {
    Properties.LongFieldOverflows(MAX_FIELD_LENGTH, MAX_FIELDS, 16, 8);
    Properties.ManyFieldsOverflow(MAX_FIELD_LENGTH, MAX_FIELDS, 16, 8);
  }
}
