/** What the parser's specification functions promise, for every line and
    every record: how the tokenizer's verdict depends on the fields, which
    slots each sub-parser writes and with what, and how `parse_string` routes
    a frame and reports the outcome. */
module Properties {
  import opened CLib
  import opened Text
  import opened Xlc
  import opened Parser

  // ---------------------------------------------------------------------------
  // The tokenizer.
  // ---------------------------------------------------------------------------

  /** The fields of a line pass both checks of the tokenizer: at most
      `maxFields` commas, nothing after the last one when there are exactly
      that many, fields closed by a comma at most `maxLen` long and the last
      one at most `maxLen + 1`. */
  predicate WithinCaps(fs: seq<seq<char>>, maxLen: nat, maxFields: nat)
    requires |fs| >= 1
  {
    && |fs| <= maxFields + 1
    && (|fs| == maxFields + 1 ==> fs[maxFields] == [])
    && (forall t :: 0 <= t < |fs| - 1 ==> |fs[t]| <= maxLen)
    && |fs[|fs| - 1]| <= maxLen + 1
  }

  /** A line is accepted exactly when its fields are within the caps, and
      then the tokenizer yields those fields. */
  lemma AcceptedIff(line: seq<char>, maxLen: nat, maxFields: nat)
    ensures ScanLine(line, maxLen, maxFields).Accepted? <==> WithinCaps(Split(line), maxLen, maxFields)
    ensures ScanLine(line, maxLen, maxFields).Accepted? ==> ScanLine(line, maxLen, maxFields).fields == Split(line)
  {
    var fs := Split(line);
    if WithinCaps(fs, maxLen, maxFields) {
      ScanAccepts(line, maxLen, maxFields);
    }
    if ScanLine(line, maxLen, maxFields).Accepted? {
      forall t | 0 <= t < |fs| - 1
        ensures |fs[t]| <= maxLen
      {
        assert t < maxFields && !TooLong(fs, t, maxLen);
      }
      if |fs| - 1 < maxFields {
        assert !TooLong(fs, |fs| - 1, maxLen);
      }
    }
  }

  /** The accepted fields are the line's comma-separated fields, one more
      than its commas, and joining them with commas gives the line back. */
  lemma AcceptedFields(line: seq<char>, maxLen: nat, maxFields: nat)
    requires ScanLine(line, maxLen, maxFields).Accepted?
    ensures var fs := ScanLine(line, maxLen, maxFields).fields;
      && |fs| == Count(line, ',') + 1 && Count(line, ',') <= maxFields
      && (forall t :: 0 <= t < |fs| ==> ',' !in fs[t])
      && Join(fs) == line
  {
    AcceptedIff(line, maxLen, maxFields);
    SplitCount(line);
    JoinSplit(line);
  }

  /** The rows the tokenizer writes: every accepted field with its NUL fits a
      buffer of `maxFields + 1` rows of `maxLen + 2` characters. */
  lemma AcceptedFitsStorage(line: seq<char>, maxLen: nat, maxFields: nat)
    requires ScanLine(line, maxLen, maxFields).Accepted?
    ensures var fs := ScanLine(line, maxLen, maxFields).fields;
      |fs| <= maxFields + 1 && forall t :: 0 <= t < |fs| ==> |fs[t]| + 1 <= maxLen + 2
  {
    AcceptedIff(line, maxLen, maxFields);
  }

  /** A rejected line broke one of the caps: -1 means some field is longer
      than `maxLen`; -2 means the line has at least `maxFields` commas, the
      fields before the `maxFields`-th comma all being within `maxLen`. */
  lemma RejectionCause(line: seq<char>, maxLen: nat, maxFields: nat)
    ensures ScanLine(line, maxLen, maxFields).FieldTooLong? ==>
      exists t :: 0 <= t < |Split(line)| && |Split(line)[t]| > maxLen
    ensures ScanLine(line, maxLen, maxFields).TooManyFields? ==>
      Count(line, ',') >= maxFields
      && forall t :: 0 <= t < maxFields ==> |Split(line)[t]| <= maxLen
  {
    var fs := Split(line);
    SplitCount(line);
    if ScanLine(line, maxLen, maxFields).TooManyFields? {
      forall t | 0 <= t < maxFields
        ensures |fs[t]| <= maxLen
      {
        assert !TooLong(fs, t, maxLen);
      }
    }
  }

  /** A line of `n` commas splits into `n + 1` empty fields. */
  lemma {:induction false} SplitCommas(n: nat)
    ensures Split(seq(n, _ => ',')) == seq(n + 1, _ => [])
  {
    if n > 0 {
      SplitCommas(n - 1);
      assert seq(n, _ => ',') == seq(n - 1, _ => ',') + [','];
      SplitSnoc(seq(n - 1, _ => ','), ',');
    }
  }

  /** One more field on the right of a line. */
  lemma SplitAppendField(line: seq<char>, x: seq<char>)
    requires ',' !in x
    ensures Split(line + [','] + x) == Split(line) + [x]
  {
    var p := line + [','];
    SplitSnoc(line, ',');
    var a := Split(p);
    assert a == Split(line) + [[]];
    SplitConcat(p, x);
    SplitNoComma(x);
    assert a[..|a| - 1] == Split(line);
    assert a[|a| - 1] + Split(x)[0] == x;
    assert Split(x)[1..] == [];
  }

  // ---------------------------------------------------------------------------
  // parse_tloga.
  // ---------------------------------------------------------------------------

  /** The number of slots a tokenizer verdict lets `parse_tloga` fill. */
  function Pairs(r: Scan): nat
  {
    if r.Accepted? then |r.fields| / 2 else 0
  }

  /** Slot `j` after the first `m` pairs are stored: filled from pair `j`
      when j < m, as before otherwise. */
  lemma {:induction false} TlogaFillSlot(fs: seq<seq<char>>, d: Record, m: nat, j: nat)
    requires d.WellFormed() && m <= |fs| / 2 && m <= SLOTS && j < SLOTS
    ensures var e := TlogaFill(fs, d, m);
      && e.valid[j] == (j < m || d.valid[j])
      && e.th[j] == (if j < m then Atof(CString(fs[2 * j])) else d.th[j])
      && e.unit[j] == (if j < m then First(fs[2 * j + 1]) else d.unit[j])
    decreases m
  {
    if m > 0 {
      TlogaFillSlot(fs, d, m - 1, j);
    }
  }

  /** `parse_tloga` on every line: it returns 0, -1 or -2 as the tokenizer
      decides, sets the protocol, leaves cold junction and status alone, and
      after an accepted line of n fields slot i holds pair i (hot junction
      from field 2i, unit from the first character of field 2i + 1) and is
      valid exactly when i < n / 2; every other slot keeps its readings and
      is invalid. */
  lemma TlogaSlots(line: seq<char>, maxLen: nat, maxFields: nat, d: Record)
    requires d.WellFormed() && TlogaFits(line, maxLen, maxFields)
    ensures var o, r := TlogaSpec(line, maxLen, maxFields, d), ScanLine(line, maxLen, maxFields);
      && (o.code == 0 <==> r.Accepted?) && (o.code == -1 <==> r.FieldTooLong?)
      && (o.code == -2 <==> r.TooManyFields?)
      && o.rec.protocol == PROTOCOL_TLOGA && o.rec.tc == d.tc && o.rec.status == d.status
      && forall i :: 0 <= i < SLOTS ==>
        && o.rec.valid[i] == (i < Pairs(r))
        && o.rec.th[i] == (if i < Pairs(r) then Atof(CString(r.fields[2 * i])) else d.th[i])
        && o.rec.unit[i] == (if i < Pairs(r) then First(r.fields[2 * i + 1]) else d.unit[i])
  {
    var r := ScanLine(line, maxLen, maxFields);
    if r.Accepted? {
      forall j | 0 <= j < SLOTS {
        TlogaFillSlot(r.fields, Reset(d, PROTOCOL_TLOGA), |r.fields| / 2, j);
      }
    }
  }

  /** Pairs agree when the fields they come from agree. */
  lemma {:induction false} TlogaFillAgree(fs: seq<seq<char>>, gs: seq<seq<char>>, d: Record, m: nat)
    requires d.WellFormed() && m <= |fs| / 2 && m <= |gs| / 2 && m <= SLOTS
    requires fs[..2 * m] == gs[..2 * m]
    ensures TlogaFill(fs, d, m) == TlogaFill(gs, d, m)
    decreases m
  {
    if m > 0 {
      assert fs[..2 * (m - 1)] == fs[..2 * m][..2 * (m - 1)];
      assert gs[..2 * (m - 1)] == gs[..2 * m][..2 * (m - 1)];
      TlogaFillAgree(fs, gs, d, m - 1);
      assert fs[2 * m - 2] == fs[..2 * m][2 * m - 2] && fs[2 * m - 1] == fs[..2 * m][2 * m - 1];
      assert gs[2 * m - 2] == gs[..2 * m][2 * m - 2] && gs[2 * m - 1] == gs[..2 * m][2 * m - 1];
    }
  }

  /** Dropping the last field keeps a field list within the caps. */
  lemma WithinCapsInit(fs: seq<seq<char>>, x: seq<char>, maxLen: nat, maxFields: nat)
    requires |fs| >= 1 && WithinCaps(fs + [x], maxLen, maxFields)
    ensures WithinCaps(fs, maxLen, maxFields)
  {
    var gs := fs + [x];
    assert forall t :: 0 <= t < |fs| ==> gs[t] == fs[t];
  }

  /** A field without a partner is ignored: an accepted TLOGA line with one
      more field after an even number of fields gives the same outcome as the
      line without it. */
  lemma TlogaOddFieldIgnored(line: seq<char>, x: seq<char>, maxLen: nat, maxFields: nat, d: Record)
    requires d.WellFormed() && ',' !in x && |Split(line)| % 2 == 0
    requires ScanLine(line + [','] + x, maxLen, maxFields).Accepted?
    requires TlogaFits(line + [','] + x, maxLen, maxFields)
    ensures TlogaFits(line, maxLen, maxFields)
    ensures TlogaSpec(line + [','] + x, maxLen, maxFields, d) == TlogaSpec(line, maxLen, maxFields, d)
  {
    var fs := Split(line);
    var gs := fs + [x];
    SplitAppendField(line, x);
    AcceptedIff(line + [','] + x, maxLen, maxFields);
    WithinCapsInit(fs, x, maxLen, maxFields);
    AcceptedIff(line, maxLen, maxFields);
    var m := |fs| / 2;
    assert |gs| / 2 == m;
    assert gs[..2 * m] == fs[..2 * m];
    TlogaFillAgree(gs, fs, Reset(d, PROTOCOL_TLOGA), m);
  }

  /** The checks let through TLOGA lines with more pairs than a record has
      slots whenever `maxFields` admits nine commas: then `parse_tloga` would
      write past the four slots, so the model demands TlogaFits. */
  lemma TlogaOverrunAccepted(maxLen: nat, maxFields: nat)
    requires maxFields >= 2 * SLOTS + 1
    ensures var line := seq(2 * SLOTS + 1, _ => ',');
      ScanLine(line, maxLen, maxFields).Accepted? && !TlogaFits(line, maxLen, maxFields)
  {
    var line := seq(2 * SLOTS + 1, _ => ',');
    SplitCommas(2 * SLOTS + 1);
    ScanAccepts(line, maxLen, maxFields);
  }

  // ---------------------------------------------------------------------------
  // parse_tlogb.
  // ---------------------------------------------------------------------------

  /** The number of slots a tokenizer verdict lets `parse_tlogb` fill. */
  function Quads(r: Scan): nat
  {
    if r.Accepted? then |r.fields| / 4 else 0
  }

  /** Slot `j` after the first `m` quadruples are stored: filled from
      quadruple `j` when j < m, as before otherwise. */
  lemma {:induction false} TlogbFillSlot(fs: seq<seq<char>>, d: Record, m: nat, j: nat)
    requires d.WellFormed() && m <= |fs| / 4 && m <= SLOTS && j < SLOTS
    ensures var e := TlogbFill(fs, d, m);
      && e.valid[j] == (j < m || d.valid[j])
      && e.tc[j] == (if j < m then Atof(CString(fs[4 * j])) else d.tc[j])
      && e.th[j] == (if j < m then Atof(CString(fs[4 * j + 1])) else d.th[j])
      && e.status[j] == (if j < m then Atoi(CString(fs[4 * j + 2])) % 256 else d.status[j])
      && e.unit[j] == (if j < m then First(fs[4 * j + 3]) else d.unit[j])
    decreases m
  {
    if m > 0 {
      TlogbFillSlot(fs, d, m - 1, j);
    }
  }

  /** `parse_tlogb` on every line: it returns 0, -1 or -2 as the tokenizer
      decides, sets the protocol, and after an accepted line of n fields slot
      i holds quadruple i (cold junction, hot junction, status modulo 256,
      unit) and is valid exactly when i < n / 4; every other slot keeps its
      readings and is invalid. */
  lemma TlogbSlots(line: seq<char>, maxLen: nat, maxFields: nat, d: Record)
    requires d.WellFormed() && TlogbFits(line, maxLen, maxFields)
    ensures var o, r := TlogbSpec(line, maxLen, maxFields, d), ScanLine(line, maxLen, maxFields);
      && (o.code == 0 <==> r.Accepted?) && (o.code == -1 <==> r.FieldTooLong?)
      && (o.code == -2 <==> r.TooManyFields?)
      && o.rec.protocol == PROTOCOL_TLOGB
      && forall i :: 0 <= i < SLOTS ==>
        && o.rec.valid[i] == (i < Quads(r))
        && o.rec.tc[i] == (if i < Quads(r) then Atof(CString(r.fields[4 * i])) else d.tc[i])
        && o.rec.th[i] == (if i < Quads(r) then Atof(CString(r.fields[4 * i + 1])) else d.th[i])
        && o.rec.status[i] == (if i < Quads(r) then Atoi(CString(r.fields[4 * i + 2])) % 256 else d.status[i])
        && o.rec.unit[i] == (if i < Quads(r) then First(r.fields[4 * i + 3]) else d.unit[i])
  {
    var r := ScanLine(line, maxLen, maxFields);
    if r.Accepted? {
      forall j | 0 <= j < SLOTS {
        TlogbFillSlot(r.fields, Reset(d, PROTOCOL_TLOGB), |r.fields| / 4, j);
      }
    }
  }

  /** Quadruples agree when the fields they come from agree. */
  lemma {:induction false} TlogbFillAgree(fs: seq<seq<char>>, gs: seq<seq<char>>, d: Record, m: nat)
    requires d.WellFormed() && m <= |fs| / 4 && m <= |gs| / 4 && m <= SLOTS
    requires fs[..4 * m] == gs[..4 * m]
    ensures TlogbFill(fs, d, m) == TlogbFill(gs, d, m)
    decreases m
  {
    if m > 0 {
      assert fs[..4 * (m - 1)] == fs[..4 * m][..4 * (m - 1)];
      assert gs[..4 * (m - 1)] == gs[..4 * m][..4 * (m - 1)];
      TlogbFillAgree(fs, gs, d, m - 1);
      assert forall c :: 4 * m - 4 <= c < 4 * m ==> fs[c] == fs[..4 * m][c] && gs[c] == gs[..4 * m][c];
    }
  }

  /** Fields beyond the last complete quadruple are ignored. */
  lemma TlogbPartialQuadIgnored(fs: seq<seq<char>>, d: Record)
    requires d.WellFormed() && |fs| / 4 <= SLOTS
    ensures TlogbDecode(fs, d) == TlogbDecode(fs[..4 * (|fs| / 4)], d)
  {
    var m := |fs| / 4;
    assert fs[..4 * m][..4 * m] == fs[..4 * m];
    TlogbFillAgree(fs, fs[..4 * m], d, m);
  }

  /** With at most 18 commas a TLOGB line never has more quadruples than a
      record has slots, so for the caps of every copy TlogbFits asks only that
      the status fields be within the range of `int`. */
  lemma TlogbSlotsFit(line: seq<char>, maxLen: nat, maxFields: nat)
    requires maxFields + 1 < 4 * (SLOTS + 1)
    ensures var r := ScanLine(line, maxLen, maxFields);
      r.Accepted? ==> |r.fields| / 4 <= SLOTS
  {
    AcceptedIff(line, maxLen, maxFields);
  }

  /** A status field that spells a number below 256 is stored as that number. */
  lemma StatusRoundTrip(n: nat)
    requires n < 256
    ensures ToByte(Atoi(CString(Decimal(n)))) == n
  {
    assert '\0' !in Decimal(n);
    CStringNoNul(Decimal(n));
    AtoiDecimal(n);
  }

  // ---------------------------------------------------------------------------
  // parse_string.
  // ---------------------------------------------------------------------------

  /** A frame written as a tag without comma or NUL, a comma and a payload
      has that tag and that payload. */
  lemma TaggedFrame(tag: seq<char>, rest: seq<char>)
    requires ',' !in tag && '\0' !in tag
    ensures var line := tag + [','] + rest;
      ',' in line && Tag(line) == tag && Payload(line) == rest
  {
    var line := tag + [','] + rest;
    assert line[|tag|] == ',';
    assert line[..|tag|] == tag;
    assert IndexOf(line, ',') == |tag|;
    CStringNoNul(tag);
    assert line[|tag| + 1..] == rest;
  }

  /** The return codes of `parse_string` and what each says about the frame:
      -1 exactly when the line has no comma and -4 exactly when the tag is
      neither $TLOGA nor $TLOGB, both leaving the record as it was; a $TLOGA
      frame gives 0 when its payload is accepted and -2 otherwise, a $TLOGB
      frame 0 or -3, and either leaves the record as its sub-parser does. */
  lemma ParseStringCodes(line: seq<char>, maxLen: nat, maxFields: nat, d: Record)
    requires d.WellFormed() && RouteFits(line, maxLen, maxFields)
    ensures var o := ParseStringSpec(line, maxLen, maxFields, d);
      && o.code in {0, -1, -2, -3, -4}
      && (o.code == -1 <==> ',' !in line)
      && (o.code == -4 <==> ',' in line && Tag(line) != TLOGA_TAG && Tag(line) != TLOGB_TAG)
      && (o.code == -1 || o.code == -4 ==> o.rec == d)
      && (',' in line && Tag(line) == TLOGA_TAG ==>
            && (o.code == 0 <==> ScanLine(Payload(line), maxLen, maxFields).Accepted?)
            && (o.code != 0 ==> o.code == -2)
            && o.rec == TlogaSpec(Payload(line), maxLen, maxFields, d).rec)
      && (',' in line && Tag(line) == TLOGB_TAG ==>
            && (o.code == 0 <==> ScanLine(Payload(line), maxLen, maxFields).Accepted?)
            && (o.code != 0 ==> o.code == -3)
            && o.rec == TlogbSpec(Payload(line), maxLen, maxFields, d).rec)
  {
    if ',' in line && Tag(line) == TLOGA_TAG {
      TlogaSlots(Payload(line), maxLen, maxFields, d);
    } else if ',' in line && Tag(line) == TLOGB_TAG {
      TlogbSlots(Payload(line), maxLen, maxFields, d);
    }
  }

  /** The return code depends on the line alone, and so do the protocol and
      the valid flags whenever the frame reaches a sub-parser. */
  lemma OutcomeIndependentOfRecord(line: seq<char>, maxLen: nat, maxFields: nat, d1: Record, d2: Record)
    requires d1.WellFormed() && d2.WellFormed() && RouteFits(line, maxLen, maxFields)
    ensures var o1, o2 := ParseStringSpec(line, maxLen, maxFields, d1), ParseStringSpec(line, maxLen, maxFields, d2);
      && o1.code == o2.code
      && (o1.code != -1 && o1.code != -4 ==> o1.rec.protocol == o2.rec.protocol && o1.rec.valid == o2.rec.valid)
  {
    var o1, o2 := ParseStringSpec(line, maxLen, maxFields, d1), ParseStringSpec(line, maxLen, maxFields, d2);
    if ',' in line && Tag(line) == TLOGA_TAG {
      TlogaSlots(Payload(line), maxLen, maxFields, d1);
      TlogaSlots(Payload(line), maxLen, maxFields, d2);
      assert o1.rec.valid == o2.rec.valid;
    } else if ',' in line && Tag(line) == TLOGB_TAG {
      TlogbSlots(Payload(line), maxLen, maxFields, d1);
      TlogbSlots(Payload(line), maxLen, maxFields, d2);
      assert o1.rec.valid == o2.rec.valid;
    }
  }

  /** Parsing the same frame twice leaves the record as parsing it once. */
  lemma ParseStringIdempotent(line: seq<char>, maxLen: nat, maxFields: nat, d: Record)
    requires d.WellFormed() && RouteFits(line, maxLen, maxFields)
    ensures var o := ParseStringSpec(line, maxLen, maxFields, d);
      ParseStringSpec(line, maxLen, maxFields, o.rec) == o
  {
    var o := ParseStringSpec(line, maxLen, maxFields, d);
    var o2 := ParseStringSpec(line, maxLen, maxFields, o.rec);
    if ',' in line && Tag(line) == TLOGA_TAG {
      TlogaSlots(Payload(line), maxLen, maxFields, d);
      TlogaSlots(Payload(line), maxLen, maxFields, o.rec);
      assert o2.rec.th == o.rec.th && o2.rec.unit == o.rec.unit && o2.rec.valid == o.rec.valid;
    } else if ',' in line && Tag(line) == TLOGB_TAG {
      TlogbSlots(Payload(line), maxLen, maxFields, d);
      TlogbSlots(Payload(line), maxLen, maxFields, o.rec);
      assert o2.rec.tc == o.rec.tc && o2.rec.th == o.rec.th && o2.rec.status == o.rec.status;
      assert o2.rec.unit == o.rec.unit && o2.rec.valid == o.rec.valid;
    }
  }

  // ---------------------------------------------------------------------------
  // Whole frames.
  // ---------------------------------------------------------------------------

  /** A field as a device sends it: no comma, no NUL, no CR or LF. */
  predicate PlainField(f: seq<char>)
  {
    ',' !in f && '\0' !in f && '\r' !in f && '\n' !in f
  }

  /** The line of a frame is everything up to its CR. */
  lemma FrameLine(line: seq<char>, rest: seq<char>)
    requires '\r' !in line && '\n' !in line
    ensures Terminated(line + ['\r'] + rest) && Line(line + ['\r'] + rest) == line
  {
    var s := line + ['\r'] + rest;
    assert IsTerm(s[|line|]);
    assert forall i :: 0 <= i < |line| ==> s[i] == line[i];
    assert TermIndex(s) == |line|;
  }

  /** A $TLOGA frame goes to `parse_tloga` with the payload after the tag. */
  lemma TlogaRoute(payload: seq<char>, maxLen: nat, maxFields: nat, d: Record)
    requires d.WellFormed() && TlogaFits(payload, maxLen, maxFields)
    ensures var line := TLOGA_TAG + [','] + payload;
      RouteFits(line, maxLen, maxFields) &&
      var o, a := ParseStringSpec(line, maxLen, maxFields, d), TlogaSpec(payload, maxLen, maxFields, d);
      o.rec == a.rec && (o.code == 0 <==> a.code == 0)
  {
    TaggedFrame(TLOGA_TAG, payload);
    TlogaSlots(payload, maxLen, maxFields, d);
  }

  /** A $TLOGB frame goes to `parse_tlogb` with the payload after the tag. */
  lemma TlogbRoute(payload: seq<char>, maxLen: nat, maxFields: nat, d: Record)
    requires d.WellFormed() && TlogbFits(payload, maxLen, maxFields)
    ensures var line := TLOGB_TAG + [','] + payload;
      RouteFits(line, maxLen, maxFields) &&
      var o, b := ParseStringSpec(line, maxLen, maxFields, d), TlogbSpec(payload, maxLen, maxFields, d);
      o.rec == b.rec && (o.code == 0 <==> b.code == 0)
  {
    TaggedFrame(TLOGB_TAG, payload);
  }

  /** A data frame whose payload has more than `maxFields` commas is
      rejected whatever its fields: -2 under $TLOGA, -3 under $TLOGB. */
  lemma OverfullFrameRejected(payload: seq<char>, maxLen: nat, maxFields: nat, d: Record)
    requires d.WellFormed() && Count(payload, ',') > maxFields
    ensures var a, b := TLOGA_TAG + [','] + payload, TLOGB_TAG + [','] + payload;
      && RouteFits(a, maxLen, maxFields) && ParseStringSpec(a, maxLen, maxFields, d).code == -2
      && RouteFits(b, maxLen, maxFields) && ParseStringSpec(b, maxLen, maxFields, d).code == -3
  {
    if ScanLine(payload, maxLen, maxFields).Accepted? {
      AcceptedFields(payload, maxLen, maxFields);
    }
    TaggedFrame(TLOGA_TAG, payload);
    TaggedFrame(TLOGB_TAG, payload);
  }

  /** Plain fields are their own C strings. */
  lemma PlainFields(fs: seq<seq<char>>)
    requires forall t :: 0 <= t < |fs| ==> PlainField(fs[t])
    ensures forall t :: 0 <= t < |fs| ==> CString(fs[t]) == fs[t]
  {
    forall t | 0 <= t < |fs|
      ensures CString(fs[t]) == fs[t]
    {
      CStringNoNul(fs[t]);
    }
  }

  /** A $TLOGA frame of plain fields within the caps: `parse_string` returns
      0, sets the protocol, fills slot i from pair i for every complete pair,
      marks exactly those slots valid and leaves everything else alone. */
  lemma TlogaFrame(fs: seq<seq<char>>, maxLen: nat, maxFields: nat, d: Record)
    requires d.WellFormed() && |fs| >= 1 && |fs| / 2 <= SLOTS
    requires (forall t :: 0 <= t < |fs| ==> PlainField(fs[t])) && WithinCaps(fs, maxLen, maxFields)
    ensures var line := TLOGA_TAG + [','] + Join(fs);
      RouteFits(line, maxLen, maxFields) &&
      var o := ParseStringSpec(line, maxLen, maxFields, d);
      && o.code == 0 && o.rec.protocol == PROTOCOL_TLOGA && o.rec.tc == d.tc && o.rec.status == d.status
      && forall i :: 0 <= i < SLOTS ==>
        && o.rec.valid[i] == (i < |fs| / 2)
        && o.rec.th[i] == (if i < |fs| / 2 then Atof(fs[2 * i]) else d.th[i])
        && o.rec.unit[i] == (if i < |fs| / 2 then First(fs[2 * i + 1]) else d.unit[i])
  {
    var payload := Join(fs);
    SplitJoin(fs);
    AcceptedIff(payload, maxLen, maxFields);
    assert ScanLine(payload, maxLen, maxFields) == Accepted(fs);
    TlogaRoute(payload, maxLen, maxFields, d);
    TlogaSlots(payload, maxLen, maxFields, d);
    PlainFields(fs);
  }

  /** The payload of a $TLOGB frame of plain fields within the caps. */
  lemma TlogbPayload(fs: seq<seq<char>>, maxLen: nat, maxFields: nat, d: Record)
    requires d.WellFormed() && |fs| >= 1 && |fs| / 4 <= SLOTS
    requires (forall t :: 0 <= t < |fs| ==> PlainField(fs[t])) && WithinCaps(fs, maxLen, maxFields)
    requires forall i :: 0 <= i < |fs| / 4 ==> InIntRange(Atoi(fs[4 * i + 2]))
    ensures TlogbFits(Join(fs), maxLen, maxFields)
    ensures var b := TlogbSpec(Join(fs), maxLen, maxFields, d);
      && b.code == 0 && b.rec.protocol == PROTOCOL_TLOGB
      && forall i :: 0 <= i < SLOTS ==>
        && b.rec.valid[i] == (i < |fs| / 4)
        && b.rec.tc[i] == (if i < |fs| / 4 then Atof(fs[4 * i]) else d.tc[i])
        && b.rec.th[i] == (if i < |fs| / 4 then Atof(fs[4 * i + 1]) else d.th[i])
        && b.rec.status[i] == (if i < |fs| / 4 then Atoi(fs[4 * i + 2]) % 256 else d.status[i])
        && b.rec.unit[i] == (if i < |fs| / 4 then First(fs[4 * i + 3]) else d.unit[i])
  {
    var payload := Join(fs);
    SplitJoin(fs);
    AcceptedIff(payload, maxLen, maxFields);
    assert ScanLine(payload, maxLen, maxFields) == Accepted(fs);
    PlainFields(fs);
    TlogbSlots(payload, maxLen, maxFields, d);
  }

  /** A $TLOGB frame of plain fields within the caps: `parse_string` returns
      0, sets the protocol, fills slot i from quadruple i for every complete
      quadruple and marks exactly those slots valid. */
  lemma TlogbFrame(fs: seq<seq<char>>, maxLen: nat, maxFields: nat, d: Record)
    requires d.WellFormed() && |fs| >= 1 && |fs| / 4 <= SLOTS
    requires (forall t :: 0 <= t < |fs| ==> PlainField(fs[t])) && WithinCaps(fs, maxLen, maxFields)
    requires forall i :: 0 <= i < |fs| / 4 ==> InIntRange(Atoi(fs[4 * i + 2]))
    ensures var line := TLOGB_TAG + [','] + Join(fs);
      RouteFits(line, maxLen, maxFields) &&
      var o := ParseStringSpec(line, maxLen, maxFields, d);
      && o.code == 0 && o.rec.protocol == PROTOCOL_TLOGB
      && forall i :: 0 <= i < SLOTS ==>
        && o.rec.valid[i] == (i < |fs| / 4)
        && o.rec.tc[i] == (if i < |fs| / 4 then Atof(fs[4 * i]) else d.tc[i])
        && o.rec.th[i] == (if i < |fs| / 4 then Atof(fs[4 * i + 1]) else d.th[i])
        && o.rec.status[i] == (if i < |fs| / 4 then Atoi(fs[4 * i + 2]) % 256 else d.status[i])
        && o.rec.unit[i] == (if i < |fs| / 4 then First(fs[4 * i + 3]) else d.unit[i])
  {
    TlogbPayload(fs, maxLen, maxFields, d);
    TlogbRoute(Join(fs), maxLen, maxFields, d);
  }

  // ---------------------------------------------------------------------------
  // The field buffer the copies declare.
  // ---------------------------------------------------------------------------

  /** The tokenizer's writes for the fields `fs` stay inside a `char
      [rows][cols]` buffer: row t takes the characters of field t and its NUL. */
  predicate FitsBuffer(fs: seq<seq<char>>, rows: nat, cols: nat)
  {
    |fs| <= rows && forall t :: 0 <= t < |fs| ==> |fs[t]| < cols
  }

  /** The checks accept a single field of `cols` characters whenever
      `cols <= maxLen + 1` and a comma is allowed at all, and its NUL falls
      outside a row of `cols`. */
  lemma LongFieldOverflows(maxLen: nat, maxFields: nat, rows: nat, cols: nat)
    requires cols <= maxLen + 1 && maxFields >= 1
    ensures var line := seq(cols, _ => '0');
      ScanLine(line, maxLen, maxFields).Accepted?
      && !FitsBuffer(ScanLine(line, maxLen, maxFields).fields, rows, cols)
  {
    var line := seq(cols, _ => '0');
    SplitNoComma(line);
    ScanAccepts(line, maxLen, maxFields);
  }

  /** The checks accept `rows` commas whenever `rows <= maxFields`, and the
      `rows + 1` fields need one row more than the buffer has. */
  lemma ManyFieldsOverflow(maxLen: nat, maxFields: nat, rows: nat, cols: nat)
    requires rows <= maxFields
    ensures var line := seq(rows, _ => ',');
      ScanLine(line, maxLen, maxFields).Accepted?
      && !FitsBuffer(ScanLine(line, maxLen, maxFields).fields, rows, cols)
  {
    SplitCommas(rows);
    ScanAccepts(seq(rows, _ => ','), maxLen, maxFields);
  }

  /** The buffer the model's tokenizer allocates, `maxFields + 1` rows of
      `maxLen + 2` characters, holds every accepted line. */
  lemma CorrectedBufferFits(line: seq<char>, maxLen: nat, maxFields: nat)
    requires ScanLine(line, maxLen, maxFields).Accepted?
    ensures FitsBuffer(ScanLine(line, maxLen, maxFields).fields, maxFields + 1, maxLen + 2)
  {
    AcceptedFitsStorage(line, maxLen, maxFields);
  }
}
