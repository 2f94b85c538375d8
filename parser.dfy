/** The XLCn frame parser: `parse_string`, which checks a frame's tag and hands
    the rest of the line to `parse_tloga` or `parse_tlogb`, which tokenize it
    at commas under a field-length and a field-count check and then decode the
    fields by position into a `TcData` record.

    The three copies of the parser differ only in their two caps, so the model
    takes them as parameters: `maxLen` is MAX_FIELD_LENGTH and `maxFields` is
    MAX_FIELDS. */
module Parser {
  import opened CLib
  import opened Text
  import opened Xlc

  // ---------------------------------------------------------------------------
  // Specification: what each function computes, stated on the line's fields.
  // ---------------------------------------------------------------------------

  /** How the tokenizer ends: with the fields, or with -1 or -2. */
  datatype Scan = Accepted(fields: seq<seq<char>>) | FieldTooLong | TooManyFields

  /** The code the tokenizer returns for its verdict. */
  function ScanCode(r: Scan): int
  {
    match r
    case Accepted(_) => 0
    case FieldTooLong => -1
    case TooManyFields => -2
  }

  /** Field `t` trips the length check: one that a comma closes may hold
      `maxLen` characters, the last one `maxLen + 1`, because the check runs
      before each character and none runs after the last. */
  predicate TooLong(fs: seq<seq<char>>, t: nat, maxLen: nat)
    requires t < |fs|
  {
    if t < |fs| - 1 then |fs[t]| > maxLen else |fs[t]| > maxLen + 1
  }

  /** Some character follows the `maxFields`-th comma. */
  predicate Overfull(fs: seq<seq<char>>, maxFields: nat)
  {
    |fs| > maxFields + 1 || (|fs| == maxFields + 1 && fs[maxFields] != [])
  }

  /** The tokenizer's verdict on a line. Only the first `maxFields` fields can
      trip the length check, since the count check stops the scan at the first
      character after the `maxFields`-th comma. */
  function ScanLine(line: seq<char>, maxLen: nat, maxFields: nat): Scan
  {
    var fs := Split(line);
    if exists t :: 0 <= t < |fs| && t < maxFields && TooLong(fs, t, maxLen) then FieldTooLong
    else if Overfull(fs, maxFields) then TooManyFields
    else Accepted(fs)
  }

  /** The record after a sub-parser's prologue: protocol set, every slot invalid. */
  function Reset(d: Record, protocol: Byte): (e: Record)
    requires d.WellFormed()
    ensures e.WellFormed()
  {
    d.(protocol := protocol, valid := [false, false, false, false])
  }

  /** TLOGA fields come in (hot junction, unit) pairs: pair `i` fills
      slot `i` and marks it valid. */
  function TlogaSlot(d: Record, fs: seq<seq<char>>, i: nat): (e: Record)
    requires d.WellFormed() && 2 * i + 2 <= |fs| && i < SLOTS
    ensures e.WellFormed()
  {
    d.(th := d.th[i := Atof(CString(fs[2 * i]))],
       unit := d.unit[i := First(fs[2 * i + 1])],
       valid := d.valid[i := true])
  }

  /** The record after the first `m` pairs are stored. */
  function TlogaFill(fs: seq<seq<char>>, d: Record, m: nat): (e: Record)
    requires d.WellFormed() && m <= |fs| / 2 && m <= SLOTS
    ensures e.WellFormed() && e.protocol == d.protocol && e.tc == d.tc && e.status == d.status
  {
    if m == 0 then d else TlogaSlot(TlogaFill(fs, d, m - 1), fs, m - 1)
  }

  /** Every complete pair of the fields stored. */
  function TlogaDecode(fs: seq<seq<char>>, d: Record): (e: Record)
    requires d.WellFormed() && |fs| / 2 <= SLOTS
    ensures e.WellFormed()
  {
    TlogaFill(fs, d, |fs| / 2)
  }

  /** TLOGB fields come in (cold junction, hot junction, status, unit)
      quadruples: quadruple `i` fills slot `i` and marks it valid. The status
      is atoi's value stored into a `uint8_t`, that is, reduced modulo 256. */
  function TlogbSlot(d: Record, fs: seq<seq<char>>, i: nat): (e: Record)
    requires d.WellFormed() && 4 * i + 4 <= |fs| && i < SLOTS
    ensures e.WellFormed()
  {
    d.(tc := d.tc[i := Atof(CString(fs[4 * i]))],
       th := d.th[i := Atof(CString(fs[4 * i + 1]))],
       status := d.status[i := ToByte(Atoi(CString(fs[4 * i + 2])))],
       unit := d.unit[i := First(fs[4 * i + 3])],
       valid := d.valid[i := true])
  }

  /** The record after the first `m` quadruples are stored. */
  function TlogbFill(fs: seq<seq<char>>, d: Record, m: nat): (e: Record)
    requires d.WellFormed() && m <= |fs| / 4 && m <= SLOTS
    ensures e.WellFormed() && e.protocol == d.protocol
  {
    if m == 0 then d else TlogbSlot(TlogbFill(fs, d, m - 1), fs, m - 1)
  }

  /** Every complete quadruple of the fields stored. */
  function TlogbDecode(fs: seq<seq<char>>, d: Record): (e: Record)
    requires d.WellFormed() && |fs| / 4 <= SLOTS
    ensures e.WellFormed()
  {
    TlogbFill(fs, d, |fs| / 4)
  }

  /** A return code together with the record as the call leaves it. */
  datatype Outcome = Outcome(code: int, rec: Record)

  /** `parse_tloga` writes slot i for i < n/2 of n fields; only up to slot 3
      stays inside `struct tc_data`. */
  predicate TlogaFits(line: seq<char>, maxLen: nat, maxFields: nat)
  {
    var r := ScanLine(line, maxLen, maxFields);
    r.Accepted? ==> |r.fields| / 2 <= SLOTS
  }

  /** `parse_tlogb` writes slot i for i < n/4, and atoi's result must be an
      `int` for every status field it converts. */
  predicate TlogbFits(line: seq<char>, maxLen: nat, maxFields: nat)
  {
    var r := ScanLine(line, maxLen, maxFields);
    r.Accepted? ==>
      |r.fields| / 4 <= SLOTS
      && forall i :: 0 <= i < |r.fields| / 4 ==> InIntRange(Atoi(CString(r.fields[4 * i + 2])))
  }

  /** `parse_tloga` on a payload whose line is `line`. */
  function TlogaSpec(line: seq<char>, maxLen: nat, maxFields: nat, d: Record): (o: Outcome)
    requires d.WellFormed() && TlogaFits(line, maxLen, maxFields)
    ensures o.rec.WellFormed()
  {
    var d0 := Reset(d, PROTOCOL_TLOGA);
    match ScanLine(line, maxLen, maxFields)
    case Accepted(fs) => Outcome(0, TlogaDecode(fs, d0))
    case FieldTooLong => Outcome(-1, d0)
    case TooManyFields => Outcome(-2, d0)
  }

  /** `parse_tlogb` on a payload whose line is `line`. */
  function TlogbSpec(line: seq<char>, maxLen: nat, maxFields: nat, d: Record): (o: Outcome)
    requires d.WellFormed() && TlogbFits(line, maxLen, maxFields)
    ensures o.rec.WellFormed()
  {
    var d0 := Reset(d, PROTOCOL_TLOGB);
    match ScanLine(line, maxLen, maxFields)
    case Accepted(fs) => Outcome(0, TlogbDecode(fs, d0))
    case FieldTooLong => Outcome(-1, d0)
    case TooManyFields => Outcome(-2, d0)
  }

  /** The tag of a line with a comma: what strcmp sees of `tmp`, i.e. the
      characters before the first comma, cut at a NUL if one occurs. */
  function Tag(line: seq<char>): seq<char>
    requires ',' in line
  {
    CString(line[..IndexOf(line, ',')])
  }

  /** The payload handed to a sub-parser: the line after the first comma. */
  function Payload(line: seq<char>): seq<char>
    requires ',' in line
  {
    line[IndexOf(line, ',') + 1..]
  }

  /** What the routed sub-parser needs of its payload. */
  predicate RouteFits(line: seq<char>, maxLen: nat, maxFields: nat)
  {
    ',' in line ==>
      (Tag(line) == TLOGA_TAG ==> TlogaFits(Payload(line), maxLen, maxFields))
      && (Tag(line) != TLOGA_TAG && Tag(line) == TLOGB_TAG ==> TlogbFits(Payload(line), maxLen, maxFields))
  }

  /** `parse_string` copies the characters up to and including the first comma
      (or all of the line when it has none) into `char tmp[64]`. */
  predicate TagFits(line: seq<char>)
  {
    (if ',' in line then IndexOf(line, ',') + 1 else |line|) <= 64
  }

  /** `parse_string` on a frame whose line is `line`. */
  function ParseStringSpec(line: seq<char>, maxLen: nat, maxFields: nat, d: Record): (o: Outcome)
    requires d.WellFormed() && RouteFits(line, maxLen, maxFields)
    ensures o.rec.WellFormed()
  {
    if ',' !in line then Outcome(-1, d)
    else if Tag(line) == TLOGA_TAG then
      var o := TlogaSpec(Payload(line), maxLen, maxFields, d);
      Outcome(if o.code < 0 then -2 else 0, o.rec)
    else if Tag(line) == TLOGB_TAG then
      var o := TlogbSpec(Payload(line), maxLen, maxFields, d);
      Outcome(if o.code != 0 then -3 else 0, o.rec)
    else Outcome(-4, d)
  }

  // ---------------------------------------------------------------------------
  // The tokenizer's verdict, seen from the position where the scan stops.
  // ---------------------------------------------------------------------------

  /** The state of the tokenizer after `i` characters of the line: `fsi` are
      the fields so far, `j` indexes the open one and `k` is its length; every
      closed field passed the length check, and no character followed the
      `maxFields`-th comma. */
  ghost predicate Scanned(line: seq<char>, i: nat, j: nat, k: nat, maxLen: nat, maxFields: nat,
                          fsi: seq<seq<char>>)
  {
    && i <= |line| && fsi == Split(line[..i])
    && j == |fsi| - 1 && k == |fsi[j]|
    && j <= maxFields && k <= maxLen + 1 && (j == maxFields ==> k == 0)
    && forall t :: 0 <= t < j ==> |fsi[t]| <= maxLen
  }

  /** One character that passes both checks. */
  lemma ScanStep(line: seq<char>, i: nat, j: nat, k: nat, maxLen: nat, maxFields: nat,
                 fsi: seq<seq<char>>)
    requires Scanned(line, i, j, k, maxLen, maxFields, fsi)
    requires i < |line| && k <= maxLen && j < maxFields
    ensures Step(fsi, line[i]) == Split(line[..i + 1])
    ensures if line[i] == ',' then Scanned(line, i + 1, j + 1, 0, maxLen, maxFields, Step(fsi, line[i]))
            else Scanned(line, i + 1, j, k + 1, maxLen, maxFields, Step(fsi, line[i]))
  {
    SplitPrefixStep(line, i);
  }

  /** The scan stops with -1 when the current field already holds more than
      `maxLen` characters and the count check has not fired. */
  lemma ScanStopsLong(line: seq<char>, i: nat, maxLen: nat, maxFields: nat)
    requires i < |line|
    requires var a := Split(line[..i]); |a| - 1 < maxFields && |a[|a| - 1]| > maxLen
    ensures ScanLine(line, maxLen, maxFields) == FieldTooLong
  {
    var a, fs := Split(line[..i]), Split(line);
    var j := |a| - 1;
    assert line == line[..i] + line[i..];
    SplitHead(line[..i], line[i..]);
    assert 0 <= j < |fs| && j < maxFields && TooLong(fs, j, maxLen);
  }

  /** The scan stops with -2 at a character after the `maxFields`-th comma,
      every earlier field having passed the length check. */
  lemma ScanStopsFull(line: seq<char>, i: nat, maxLen: nat, maxFields: nat)
    requires i < |line|
    requires var a := Split(line[..i]);
      |a| - 1 == maxFields && a[|a| - 1] == []
      && forall t :: 0 <= t < |a| - 1 ==> |a[t]| <= maxLen
    ensures ScanLine(line, maxLen, maxFields) == TooManyFields
  {
    var a, fs := Split(line[..i]), Split(line);
    assert line == line[..i] + line[i..];
    SplitHead(line[..i], line[i..]);
    forall t | 0 <= t < |fs| && t < maxFields
      ensures !TooLong(fs, t, maxLen)
    {
      assert fs[t] == a[..|a| - 1][t];
    }
  }

  /** The scan reaches CR/LF: the line is accepted. */
  lemma ScanAccepts(line: seq<char>, maxLen: nat, maxFields: nat)
    requires var a := Split(line);
      |a| - 1 <= maxFields && |a[|a| - 1]| <= maxLen + 1
      && (|a| - 1 == maxFields ==> a[|a| - 1] == [])
      && forall t :: 0 <= t < |a| - 1 ==> |a[t]| <= maxLen
    ensures ScanLine(line, maxLen, maxFields) == Accepted(Split(line))
  {
  }

  // ---------------------------------------------------------------------------
  // The field buffer.
  // ---------------------------------------------------------------------------

  /** Row `r` of the field buffer holds `f` followed by its NUL. */
  ghost predicate RowHolds(a: array2<char>, r: nat, f: seq<char>)
    reads a
  {
    r < a.Length0 && |f| < a.Length1 && RowPrefix(a, r, f) && a[r, |f|] == '\0'
  }

  /** Row `r` of the field buffer starts with `f`. */
  ghost predicate RowPrefix(a: array2<char>, r: nat, f: seq<char>)
    reads a
    requires r < a.Length0 && |f| <= a.Length1
  {
    forall c :: 0 <= c < |f| ==> a[r, c] == f[c]
  }

  /** The first character of a row, `fields[r][0]`, is the field's first
      character, or its NUL when the field is empty. */
  lemma RowFirst(a: array2<char>, r: nat, f: seq<char>)
    requires RowHolds(a, r, f)
    ensures 0 < a.Length1 && a[r, 0] == First(f)
  {
  }

  /** What atof and atoi read of `fields[r]`: the characters before its NUL. */
  method ReadField(a: array2<char>, r: nat, ghost f: seq<char>) returns (s: seq<char>)
    requires RowHolds(a, r, f)
    ensures s == CString(f)
  {
    var c := 0;
    s := [];
    while a[r, c] != '\0'
      invariant c <= |f| && s == f[..c] && '\0' !in s
      decreases |f| - c
    {
      s := s + [a[r, c]];
      c := c + 1;
    }
    CStringPrefix(f, c);
  }

  /** Rows 0 to `n - 1` of the field buffer hold the first `n` fields. */
  ghost predicate Tokenized(a: array2<char>, fs: seq<seq<char>>, n: nat)
    reads a
    requires n <= |fs|
  {
    n == 0 || (Tokenized(a, fs, n - 1) && RowHolds(a, n - 1, fs[n - 1]))
  }

  lemma {:induction false} TokenizedRows(a: array2<char>, fs: seq<seq<char>>, n: nat)
    requires n <= |fs|
    ensures Tokenized(a, fs, n) <==> forall r :: 0 <= r < n ==> RowHolds(a, r, fs[r])
  {
    if n > 0 {
      TokenizedRows(a, fs, n - 1);
    }
  }

  /** The two rows of TLOGA pair `b / 2`. */
  lemma PairHolds(a: array2<char>, fs: seq<seq<char>>, b: nat)
    requires b + 2 <= |fs| && Tokenized(a, fs, |fs|)
    ensures RowHolds(a, b, fs[b]) && RowHolds(a, b + 1, fs[b + 1])
  {
    TokenizedRows(a, fs, |fs|);
  }

  /** The four rows of TLOGB quadruple `b / 4`. */
  lemma QuadHolds(a: array2<char>, fs: seq<seq<char>>, b: nat)
    requires b + 4 <= |fs| && Tokenized(a, fs, |fs|)
    ensures RowHolds(a, b, fs[b]) && RowHolds(a, b + 1, fs[b + 1]) && RowHolds(a, b + 2, fs[b + 2])
    ensures b + 3 < a.Length0 && 0 < a.Length1 && a[b + 3, 0] == First(fs[b + 3])
  {
    TokenizedRows(a, fs, |fs|);
    RowFirst(a, b + 3, fs[b + 3]);
  }

  // ---------------------------------------------------------------------------
  // The code.
  // ---------------------------------------------------------------------------

  /** The rows written so far for the fields `fs` of the text scanned: every
      closed field with its NUL, and the characters of the open one. */
  ghost predicate Filled(a: array2<char>, fs: seq<seq<char>>)
    reads a
  {
    && |fs| >= 1 && |fs| - 1 < a.Length0 && |fs[|fs| - 1]| < a.Length1
    && (forall t :: 0 <= t < |fs| - 1 ==> RowHolds(a, t, fs[t]))
    && RowPrefix(a, |fs| - 1, fs[|fs| - 1])
  }

  /** `fields[j][k] = s[i]` or, at a comma, `fields[j][k] = '\0'; j++; k = 0`. */
  method Store(a: array2<char>, ghost fs: seq<seq<char>>, j: nat, k: nat, ch: char)
    requires Filled(a, fs) && j == |fs| - 1 && k == |fs[j]|
    requires if ch == ',' then j + 1 < a.Length0 else k + 1 < a.Length1
    modifies a
    ensures Filled(a, Step(fs, ch))
  {
    if ch == ',' {
      a[j, k] := '\0';
      assert Step(fs, ch)[..j + 1] == fs;
    } else {
      a[j, k] := ch;
      ghost var g := Step(fs, ch);
      assert forall t :: 0 <= t < j ==> g[t] == fs[t];
      assert g[j] == fs[j] + [ch];
    }
  }

  /** The final `fields[j][k] = '\0'`, which closes the last field. */
  method Close(a: array2<char>, ghost fs: seq<seq<char>>, j: nat, k: nat)
    requires Filled(a, fs) && j == |fs| - 1 && k == |fs[j]|
    modifies a
    ensures forall t :: 0 <= t < |fs| ==> RowHolds(a, t, fs[t])
  {
    a[j, k] := '\0';
  }

  /** The tokenizer loop shared by `parse_tloga` and `parse_tlogb`: `i` walks
      the input, `j` counts fields, `k` counts characters of the current
      field, and each character goes to `fields[j][k]`. The buffer has the
      `maxFields + 1` rows and `maxLen + 2` columns that the checks can reach. */
  method Tokenize(s: seq<char>, maxLen: nat, maxFields: nat)
    returns (code: int, fields: array2<char>, count: nat)
    requires Terminated(s)
    ensures code == ScanCode(ScanLine(Line(s), maxLen, maxFields))
    ensures fields.Length0 == maxFields + 1 && fields.Length1 == maxLen + 2
    ensures code == 0 ==> count == |Split(Line(s))|
    ensures code == 0 ==> Tokenized(fields, Split(Line(s)), count)
  {
    ghost var line := Line(s);
    fields := new char[maxFields + 1, maxLen + 2];
    var i, j, k := 0, 0, 0;
    ghost var fsi: seq<seq<char>> := [[]];
    count := 0;
    while s[i] != '\r' && s[i] != '\n'
      invariant Scanned(line, i, j, k, maxLen, maxFields, fsi)
      invariant fields.Length0 == maxFields + 1 && fields.Length1 == maxLen + 2
      invariant Filled(fields, fsi)
      decreases |line| - i
    {
      if k > maxLen {
        ScanStopsLong(line, i, maxLen, maxFields);
        code := -1;
        return;
      }
      if j > maxFields - 1 {
        ScanStopsFull(line, i, maxLen, maxFields);
        code := -2;
        return;
      }
      assert s[i] == line[i];
      ScanStep(line, i, j, k, maxLen, maxFields, fsi);
      Store(fields, fsi, j, k, s[i]);
      if s[i] == ',' {
        j := j + 1;
        k := 0;
      } else {
        k := k + 1;
      }
      fsi := Step(fsi, s[i]);
      i := i + 1;
    }
    assert line[..i] == line;
    Close(fields, fsi, j, k);
    TokenizedRows(fields, fsi, |fsi|);
    j := j + 1;
    count := j;
    ScanAccepts(line, maxLen, maxFields);
    code := 0;
  }

  /** The prologue of both sub-parsers: `dat->protocol = ...` and every
      `dat->valid[i] = false`. */
  method ClearSlots(dat: TcData, protocol: Byte)
    requires dat.Valid()
    modifies dat`protocol, dat.valid
    ensures dat.Valid() && dat.Model() == Reset(old(dat.Model()), protocol)
  {
    dat.protocol := protocol;
    for i := 0 to SLOTS
      invariant forall t :: 0 <= t < i ==> !dat.valid[t]
      invariant dat.protocol == protocol
    {
      dat.valid[i] := false;
    }
    assert dat.valid[..] == [false, false, false, false];
  }

  /** One iteration of the decode loop of `parse_tloga`: with pairs 0 to
      i - 1 stored, store pair i. */
  method StorePair(dat: TcData, fields: array2<char>, ghost fs: seq<seq<char>>,
                   ghost d0: Record, i: nat)
    requires dat.Valid() && d0.WellFormed() && i < SLOTS && 2 * i + 2 <= |fs|
    requires Tokenized(fields, fs, |fs|) && dat.Model() == TlogaFill(fs, d0, i)
    modifies dat.th, dat.unit, dat.valid
    ensures dat.Valid() && dat.Model() == TlogaFill(fs, d0, i + 1)
  {
    PairHolds(fields, fs, 2 * i);
    var hot := ReadField(fields, 2 * i, fs[2 * i]);
    dat.PutTloga(i, Atof(hot), fields[2 * i + 1, 0]);
  }

  /** The decode loop of `parse_tloga`: pair i of the tokenized fields goes
      to slot i. */
  method StoreTloga(dat: TcData, fields: array2<char>, count: nat, ghost fs: seq<seq<char>>)
    requires dat.Valid() && count == |fs| && count / 2 <= SLOTS
    requires Tokenized(fields, fs, count)
    modifies dat.th, dat.unit, dat.valid
    ensures dat.Valid() && dat.Model() == TlogaDecode(fs, old(dat.Model()))
  {
    ghost var d0 := dat.Model();
    var m := count / 2;
    assert 2 * m <= count;
    for i := 0 to m
      invariant dat.Model() == TlogaFill(fs, d0, i)
    {
      StorePair(dat, fields, fs, d0, i);
    }
  }

  /** One iteration of the decode loop of `parse_tlogb`: with quadruples 0
      to i - 1 stored, store quadruple i. */
  method StoreQuad(dat: TcData, fields: array2<char>, ghost fs: seq<seq<char>>,
                   ghost d0: Record, i: nat)
    requires dat.Valid() && d0.WellFormed() && i < SLOTS && 4 * i + 4 <= |fs|
    requires Tokenized(fields, fs, |fs|) && dat.Model() == TlogbFill(fs, d0, i)
    modifies dat.tc, dat.th, dat.unit, dat.status, dat.valid
    ensures dat.Valid() && dat.Model() == TlogbFill(fs, d0, i + 1)
  {
    QuadHolds(fields, fs, 4 * i);
    var cold := ReadField(fields, 4 * i, fs[4 * i]);
    var hot := ReadField(fields, 4 * i + 1, fs[4 * i + 1]);
    var status := ReadField(fields, 4 * i + 2, fs[4 * i + 2]);
    dat.PutTlogb(i, Atof(cold), Atof(hot), ToByte(Atoi(status)), fields[4 * i + 3, 0]);
  }

  /** The decode loop of `parse_tlogb`: quadruple i of the tokenized fields
      goes to slot i. */
  method StoreTlogb(dat: TcData, fields: array2<char>, count: nat, ghost fs: seq<seq<char>>)
    requires dat.Valid() && count == |fs| && count / 4 <= SLOTS
    requires Tokenized(fields, fs, count)
    modifies dat.tc, dat.th, dat.unit, dat.status, dat.valid
    ensures dat.Valid() && dat.Model() == TlogbDecode(fs, old(dat.Model()))
  {
    ghost var d0 := dat.Model();
    var m := count / 4;
    assert 4 * m <= count;
    for i := 0 to m
      invariant dat.Model() == TlogbFill(fs, d0, i)
    {
      StoreQuad(dat, fields, fs, d0, i);
    }
  }

  /** `parse_tloga`: set the protocol, invalidate every slot, tokenize, then
      store pair i of the fields into slot i. */
  method ParseTloga(s: seq<char>, dat: TcData, maxLen: nat, maxFields: nat)
    returns (r: int)
    requires Terminated(s) && dat.Valid() && TlogaFits(Line(s), maxLen, maxFields)
    modifies dat`protocol, dat.th, dat.unit, dat.valid
    ensures dat.Valid()
    ensures Outcome(r, dat.Model()) == TlogaSpec(Line(s), maxLen, maxFields, old(dat.Model()))
  {
    ClearSlots(dat, PROTOCOL_TLOGA);
    var code, fields, count := Tokenize(s, maxLen, maxFields);
    if code != 0 {
      return code;
    }
    StoreTloga(dat, fields, count, Split(Line(s)));
    return 0;
  }

  /** `parse_tlogb`: set the protocol, invalidate every slot, tokenize, then
      store quadruple i of the fields into slot i. */
  method ParseTlogb(s: seq<char>, dat: TcData, maxLen: nat, maxFields: nat)
    returns (r: int)
    requires Terminated(s) && dat.Valid() && TlogbFits(Line(s), maxLen, maxFields)
    modifies dat`protocol, dat.tc, dat.th, dat.unit, dat.status, dat.valid
    ensures dat.Valid()
    ensures Outcome(r, dat.Model()) == TlogbSpec(Line(s), maxLen, maxFields, old(dat.Model()))
  {
    ClearSlots(dat, PROTOCOL_TLOGB);
    var code, fields, count := Tokenize(s, maxLen, maxFields);
    if code != 0 {
      return code;
    }
    StoreTlogb(dat, fields, count, Split(Line(s)));
    return 0;
  }

  /** `parse_string`: copy the line into `tmp` up to the first comma, then
      dispatch on the tag; -1 when CR/LF comes before any comma. */
  method ParseString(s: seq<char>, dat: TcData, maxLen: nat, maxFields: nat)
    returns (r: int)
    requires Terminated(s) && dat.Valid()
    requires TagFits(Line(s)) && RouteFits(Line(s), maxLen, maxFields)
    modifies dat`protocol, dat.tc, dat.th, dat.unit, dat.status, dat.valid
    ensures dat.Valid()
    ensures Outcome(r, dat.Model()) == ParseStringSpec(Line(s), maxLen, maxFields, old(dat.Model()))
  {
    ghost var line := Line(s);
    var tmp := new char[64];
    var i := 0;
    while s[i] != '\r' && s[i] != '\n'
      invariant i <= |line| && ',' !in line[..i]
      invariant ',' in line ==> i <= IndexOf(line, ',')
      invariant forall c :: 0 <= c < i ==> tmp[c] == line[c]
      invariant dat.Model() == old(dat.Model())
      decreases |line| - i
    {
      if s[i] == ',' {
        assert IndexOf(line, ',') == i;
        tmp[i] := '\0';
        assert tmp[..] == line[..i] + ['\0'] + tmp[i + 1..];
        CStringOfTerminated(line[..i], tmp[i + 1..]);
        i := i + 1;
        LineSuffix(s, i);
        if CString(tmp[..]) == TLOGA_TAG {
          var sub := ParseTloga(s[i..], dat, maxLen, maxFields);
          if sub < 0 { return -2; } else { return 0; }
        } else if CString(tmp[..]) == TLOGB_TAG {
          var sub := ParseTlogb(s[i..], dat, maxLen, maxFields);
          if sub != 0 { return -3; } else { return 0; }
        } else {
          return -4;
        }
      } else {
        tmp[i] := s[i];
      }
      assert line[..i + 1] == line[..i] + [line[i]];
      i := i + 1;
    }
    assert line[..i] == line;
    return -1;
  }
}
