/** The first superloop program, `simple_superloop/src/main.c`: the parser
    with a field closed by a comma holding at most 8 characters and the last
    field at most 9, at most 16 commas after the tag, and `strip_crlf`. */
module SuperloopMain {
  import opened CLib
  import opened Text
  import opened Xlc
  import Parser
  import Properties

  const MAX_FIELDS: nat := 16
  const MAX_FIELD_LENGTH: nat := 8

  /** `parse_tloga` with this program's caps. */
  method ParseTloga(s: seq<char>, dat: TcData) returns (r: int)
    requires Terminated(s) && dat.Valid() && Parser.TlogaFits(Line(s), MAX_FIELD_LENGTH, MAX_FIELDS)
    modifies dat`protocol, dat.th, dat.unit, dat.valid
    ensures dat.Valid()
    ensures Parser.Outcome(r, dat.Model()) == Parser.TlogaSpec(Line(s), MAX_FIELD_LENGTH, MAX_FIELDS, old(dat.Model()))
  {
    r := Parser.ParseTloga(s, dat, MAX_FIELD_LENGTH, MAX_FIELDS);
  }

  /** `parse_tlogb` with this program's caps. */
  method ParseTlogb(s: seq<char>, dat: TcData) returns (r: int)
    requires Terminated(s) && dat.Valid() && Parser.TlogbFits(Line(s), MAX_FIELD_LENGTH, MAX_FIELDS)
    modifies dat`protocol, dat.tc, dat.th, dat.unit, dat.status, dat.valid
    ensures dat.Valid()
    ensures Parser.Outcome(r, dat.Model()) == Parser.TlogbSpec(Line(s), MAX_FIELD_LENGTH, MAX_FIELDS, old(dat.Model()))
  {
    r := Parser.ParseTlogb(s, dat, MAX_FIELD_LENGTH, MAX_FIELDS);
  }

  /** `parse_string` with this program's caps. */
  method ParseString(s: seq<char>, dat: TcData) returns (r: int)
    requires Terminated(s) && dat.Valid()
    requires Parser.TagFits(Line(s)) && Parser.RouteFits(Line(s), MAX_FIELD_LENGTH, MAX_FIELDS)
    modifies dat`protocol, dat.tc, dat.th, dat.unit, dat.status, dat.valid
    ensures dat.Valid()
    ensures Parser.Outcome(r, dat.Model()) == Parser.ParseStringSpec(Line(s), MAX_FIELD_LENGTH, MAX_FIELDS, old(dat.Model()))
  {
    r := Parser.ParseString(s, dat, MAX_FIELD_LENGTH, MAX_FIELDS);
  }

  /** `parse_tloga` declares `char fields[8][8]`, yet the checks accept a
      field of 8 characters, whose NUL is a ninth column, and 8 commas, whose
      fields need a ninth row. */
  lemma TlogaBufferOverflow()
    ensures var long := seq(8, _ => '0');
      Parser.ScanLine(long, MAX_FIELD_LENGTH, MAX_FIELDS).Accepted?
      && !Properties.FitsBuffer(Parser.ScanLine(long, MAX_FIELD_LENGTH, MAX_FIELDS).fields, 8, 8)
    ensures var commas := seq(8, _ => ',');
      Parser.ScanLine(commas, MAX_FIELD_LENGTH, MAX_FIELDS).Accepted?
      && !Properties.FitsBuffer(Parser.ScanLine(commas, MAX_FIELD_LENGTH, MAX_FIELDS).fields, 8, 8)
  {
    Properties.LongFieldOverflows(MAX_FIELD_LENGTH, MAX_FIELDS, 8, 8);
    Properties.ManyFieldsOverflow(MAX_FIELD_LENGTH, MAX_FIELDS, 8, 8);
  }

  /** `parse_tlogb` declares `char fields[16][8]`, yet the checks accept a
      field of 8 characters and 16 commas, whose fields need a seventeenth
      row. */
  lemma TlogbBufferOverflow()
    ensures var long := seq(8, _ => '0');
      Parser.ScanLine(long, MAX_FIELD_LENGTH, MAX_FIELDS).Accepted?
      && !Properties.FitsBuffer(Parser.ScanLine(long, MAX_FIELD_LENGTH, MAX_FIELDS).fields, 16, 8)
    ensures var commas := seq(16, _ => ',');
      Parser.ScanLine(commas, MAX_FIELD_LENGTH, MAX_FIELDS).Accepted?
      && !Properties.FitsBuffer(Parser.ScanLine(commas, MAX_FIELD_LENGTH, MAX_FIELDS).fields, 16, 8)
  {
    Properties.LongFieldOverflows(MAX_FIELD_LENGTH, MAX_FIELDS, 16, 8);
    Properties.ManyFieldsOverflow(MAX_FIELD_LENGTH, MAX_FIELDS, 16, 8);
  }

  /** The C string of `b` ends in CR LF. */
  predicate EndsInCrlf(b: seq<char>)
    requires '\0' in b
  {
    var c := CString(b);
    |c| >= 2 && c[|c| - 2..] == "\r\n"
  }

  /** `strip_crlf`: if the C string in `s` ends in CR LF, overwrite the CR
      with NUL and return 0; otherwise return -1 and leave `s` alone. */
  method StripCrlf(s: array<char>) returns (r: int)
    requires '\0' in s[..] && |CString(s[..])| >= 2
    modifies s
    ensures r == 0 <==> EndsInCrlf(old(s[..]))
    ensures r == 0 ==> s[..] == old(s[..])[|CString(old(s[..]))| - 2 := '\0']
    ensures r != 0 ==> r == -1 && s[..] == old(s[..])
  {
    var len := Strlen(s);
    if s[len - 2] == '\r' && s[len - 1] == '\n' {
      s[len - 2] := '\0';
      return 0;
    }
    return -1;
  }

  /** What remains after a successful `strip_crlf` is the string without its
      CR LF: putting CR LF back gives the original string. */
  lemma StripCrlfRemoves(b: seq<char>)
    requires '\0' in b && EndsInCrlf(b)
    ensures var c := CString(b);
      CString(b[|c| - 2 := '\0']) == c[..|c| - 2] && CString(b[|c| - 2 := '\0']) + "\r\n" == c
  {
    var c := CString(b);
    var b' := b[|c| - 2 := '\0'];
    assert b'[..|c| - 2] == c[..|c| - 2];
    CStringPrefix(b', |c| - 2);
    assert c == c[..|c| - 2] + c[|c| - 2..];
  }
}
