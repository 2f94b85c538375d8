# XLCn frame parser, modelled in Dafny

The XLCn thermocouple loggers (XLC2, XLC4) send one ASCII line per reading
over a serial port, for instance `$TLOGA,123.4,C,98.76,F` followed by CR LF.
The C programs of this repository turn such a line into a `struct tc_data`
record through three functions:

- `parse_string` copies the line into `char tmp[64]` up to the first comma,
  compares that tag with `strcmp` against `$TLOGA` and `$TLOGB`, and hands the
  rest of the line to the matching sub-parser. It returns -1 when CR/LF comes
  before any comma, -4 for any other tag, -2 when `parse_tloga` fails, -3 when
  `parse_tlogb` fails, and 0 otherwise.
- `parse_tloga` and `parse_tlogb` set `protocol`, mark all four slots invalid
  and split the payload at commas into `char fields[..][8]`. Before each
  character they check the length of the current field (`k > MAX_FIELD_LENGTH`
  gives -1) and then the number of commas seen (`j > MAX_FIELDS - 1` gives -2).
  Then they decode the fields by position. TLOGA takes (hot junction, unit)
  pairs. TLOGB takes (cold junction, hot junction, status, unit) quadruples.
  The temperatures go through `atof`, the status through `atoi` into a
  `uint8_t`, and the unit is the field's first character. Each slot filled is
  marked valid.
- `strip_crlf` (first superloop program only) overwrites the CR of a
  trailing CR LF with a NUL; the LF stays in the buffer after it.

The same parser appears three times: in `libsrc/parser.c`, whose caps are in
`libxlc/includes/xlc.h` (MAX_FIELD_LENGTH 12, MAX_FIELDS 16); in
`simple_superloop_production/src/main.c` (12 and 16); and in
`simple_superloop/src/main.c` (8 and 16). The length check runs before each
stored character, so a field closed by a comma holds at most MAX_FIELD_LENGTH
characters (12, or 8 in `simple_superloop/src/main.c`) and the last field at
most one more (13, or 9); at most MAX_FIELDS commas follow the tag. Apart from
the caps the copies are the same, so the model has one module:

- `Parser` takes the caps as parameters `maxLen` and `maxFields`.
- `LibParser`, `ProductionMain` and `SuperloopMain` each fix the caps of one
  copy.
- `SuperloopMain` also holds `strip_crlf`.

Layout of the model:

- `CLib`: the C library behaviour the parser relies on. This covers C strings
  as `strcmp`, `atof` and `atoi` see them, and `atoi` and `atof` as
  character-by-character scanners.
- `Text`: the line up to CR/LF, and its comma-separated fields (`Split`, with
  its inverse `Join`).
- `Xlc`: the record, as a value (`Record`) and as the object the C code fills
  in place through a pointer (class `TcData`, with arrays for its four-slot
  fields).
- `Parser`:
  - Specification functions on values: `ScanLine` gives the tokenizer's
    verdict, `TlogaSpec` and `TlogbSpec` the sub-parsers' result, and
    `ParseStringSpec` the dispatcher's.
  - Imperative methods that follow the C loops: `Tokenize`, `ParseTloga`,
    `ParseTlogb` and `ParseString`. Each method is proved to produce the
    return code and final record its specification function gives.
- `Properties`: what the specification functions guarantee for every line
  and record.

Three behaviours of the C code are worth stating outright:

- A TLOGA payload with an odd number of fields is accepted, and its last
  field is ignored (`Properties.TlogaOddFieldIgnored`). A TLOGB payload's
  incomplete last quadruple is ignored too
  (`Properties.TlogbPartialQuadIgnored`). Neither case is an error.
- Both sub-parsers use the same cap of 16 commas.
- Text that is not a number reads as 0, as `atof` and `atoi` return it. No
  numeric parse error is reported.

## Model

| member | source | states |
|---|---|---|
| CLib.CString | libsrc/parser.c:25-27 | what `strcmp`, `atof` and `atoi` read of a buffer: a prefix of it with no NUL, ending at the first NUL if there is one |
| CLib.CStringOfTerminated | libsrc/parser.c:25 | writing NUL after a prefix makes the C string that prefix, whatever follows |
| CLib.CStringNoNul | libsrc/parser.c:27 | a text without NUL is its own C string, so `strcmp` compares the whole tag |
| CLib.Strlen | simple_superloop/src/main.c:43 | returns the length of the C string held in the buffer |
| CLib.AtoiDecimal | libsrc/parser.c:157 | `atoi` reads back the decimal numeral of every natural number |
| CLib.AtofFixedPoint | libsrc/parser.c:100 | `atof` of a fixed-point numeral with optional minus sign is its digits read as one integer, divided by ten to the number of fraction digits, negated when signed |
| Text.Line | libsrc/parser.c:69 | the part of the input the loops scan: a prefix with no CR or LF, followed by a CR or LF |
| Text.LineSuffix | libsrc/parser.c:29 | `&s[++i]` hands on an input whose line is the rest of the original line after position i |
| Text.Split | libsrc/parser.c:83-92 | the fields the tokenizer stores: at least one, none holding a comma |
| Text.SplitCount | libsrc/parser.c:96 | a line with n commas has n + 1 fields |
| Text.JoinSplit | libsrc/parser.c:83-92 | joining the fields with commas gives back the line |
| Text.SplitJoin | libsrc/parser.c:83-92 | splitting comma-free fields joined with commas gives back the fields |
| Xlc.TcData.PutTloga | libsrc/parser.c:100-102 | one TLOGA slot write: `th[i]`, `unit[i]` and `valid[i]` change and nothing else |
| Xlc.TcData.PutTlogb | libsrc/parser.c:155-159 | one TLOGB slot write: `tc[i]`, `th[i]`, `status[i]`, `unit[i]` and `valid[i]` change and nothing else |
| Xlc.TcData.constructor | libsrc/data.h:9-16 | allocates the protocol and the five four-slot arrays of the record; the zeros it writes are arbitrary, since the C callers leave the record uninitialised |
| Parser.TlogaFill | libsrc/parser.c:98-103 | storing TLOGA pairs leaves the protocol, the cold junction and the status readings unchanged |
| Parser.TlogbFill | libsrc/parser.c:153-160 | storing TLOGB quadruples leaves the protocol unchanged |
| Parser.ScanStopsLong | libsrc/parser.c:71-75 | the scan ends with -1 when a character arrives while the current field already holds more than MAX_FIELD_LENGTH characters, before the count check fires |
| Parser.ScanStopsFull | libsrc/parser.c:77-81 | the scan ends with -2 when a character arrives after the MAX_FIELDS-th comma, all earlier fields having passed the length check |
| Parser.ScanAccepts | libsrc/parser.c:69-96 | a line whose fields pass both checks up to CR/LF is accepted with exactly those fields |
| Parser.Store | libsrc/parser.c:83-92 | one character stored: a comma closes the current row with NUL and opens the next, anything else extends the current row |
| Parser.Close | libsrc/parser.c:95 | the final NUL completes every row |
| Parser.ReadField | libsrc/parser.c:100 | what `atof(fields[r])` reads: the C string of the field stored in row r |
| Parser.RowFirst | libsrc/parser.c:101 | `fields[r][0]` is a field's first character, or NUL for an empty field |
| Parser.Tokenize | libsrc/parser.c:69-96 | returns the code the tokenizer's verdict gives, and on 0 the number of fields, each row holding one field with its NUL |
| Parser.ClearSlots | libsrc/parser.c:58-66 | sets the protocol, makes every slot invalid, and changes nothing else |
| Parser.StorePair | libsrc/parser.c:98-103 | one iteration of the TLOGA decode loop takes the record from i pairs stored to i + 1 |
| Parser.StoreTloga | libsrc/parser.c:98-103 | the TLOGA decode loop leaves the record with every complete pair stored |
| Parser.StoreQuad | libsrc/parser.c:153-160 | one iteration of the TLOGB decode loop takes the record from i quadruples stored to i + 1 |
| Parser.StoreTlogb | libsrc/parser.c:153-160 | the TLOGB decode loop leaves the record with every complete quadruple stored |
| Parser.ParseTloga | libsrc/parser.c:56-106 | return code and final record are those of the TLOGA specification of the input's line |
| Parser.ParseTlogb | libsrc/parser.c:111-163 | return code and final record are those of the TLOGB specification of the input's line |
| Parser.ParseString | libsrc/parser.c:12-51 | return code and final record are those of the dispatcher's specification of the input's line |
| Properties.AcceptedIff | libsrc/parser.c:69-96 | a line is accepted exactly when it has at most MAX_FIELDS commas, nothing after the last of MAX_FIELDS commas, comma-closed fields of at most MAX_FIELD_LENGTH and a last field of at most MAX_FIELD_LENGTH + 1 characters; the accepted fields are the line's fields |
| Properties.AcceptedFields | libsrc/parser.c:83-96 | the accepted fields number the commas plus one, at most MAX_FIELDS + 1, hold no comma, and join back to the line |
| Properties.AcceptedFitsStorage | libsrc/parser.c:69-96 | every accepted field with its NUL fits MAX_FIELD_LENGTH + 2 columns, in at most MAX_FIELDS + 1 rows |
| Properties.RejectionCause | libsrc/parser.c:71-81 | -1 means some field is longer than MAX_FIELD_LENGTH; -2 means at least MAX_FIELDS commas with the fields before them within the length cap |
| Properties.TlogaFillSlot | libsrc/parser.c:98-103 | after m pairs, slot j < m holds pair j and is valid, and any other slot is as before |
| Properties.TlogaSlots | libsrc/parser.c:56-106 | `parse_tloga` returns 0, -1 or -2 exactly as the line is accepted, too long or too full; it sets the protocol and leaves cold junction and status alone; slot i is valid exactly when i < n/2 and then holds `atof` of field 2i and the first character of field 2i + 1; every other slot keeps its readings |
| Properties.TlogaOddFieldIgnored | libsrc/parser.c:98 | an extra field after an even number of fields does not change the TLOGA outcome |
| Properties.TlogaOverrunAccepted | libsrc/parser.c:98-103 | with 16 commas allowed, the checks accept lines of ten fields, whose fifth pair lies beyond the four slots |
| Properties.TlogbFillSlot | libsrc/parser.c:153-160 | after m quadruples, slot j < m holds quadruple j and is valid, and any other slot is as before |
| Properties.TlogbSlots | libsrc/parser.c:111-163 | `parse_tlogb` returns 0, -1 or -2 exactly as the line is accepted, too long or too full; it sets the protocol; slot i is valid exactly when i < n/4 and then holds `atof` of fields 4i and 4i + 1, `atoi` of field 4i + 2 modulo 256 and the first character of field 4i + 3; every other slot keeps its readings |
| Properties.TlogbPartialQuadIgnored | libsrc/parser.c:153 | fields after the last complete quadruple do not affect the record |
| Properties.TlogbSlotsFit | libsrc/parser.c:132-160 | with at most 18 commas a TLOGB line never has more than four quadruples |
| Properties.StatusRoundTrip | libsrc/parser.c:157 | a status field spelling a number below 256 is stored as that number |
| Properties.TaggedFrame | libsrc/parser.c:21-34 | a line made of a tag without comma or NUL, a comma and a payload has that tag and that payload |
| Properties.ParseStringCodes | libsrc/parser.c:12-51 | the return code is one of 0, -1, -2, -3, -4; -1 exactly when there is no comma and -4 exactly for another tag, both leaving the record unchanged; a `$TLOGA` frame gives 0 or -2 and a `$TLOGB` frame 0 or -3, with 0 exactly when the payload is accepted, and the record its sub-parser leaves |
| Properties.OutcomeIndependentOfRecord | libsrc/parser.c:12-51 | the return code depends on the line alone, and so do the protocol and valid flags of a routed frame |
| Properties.ParseStringIdempotent | libsrc/parser.c:12-51 | parsing the same line twice leaves the same code and record as parsing it once |
| Properties.FrameLine | libsrc/parser.c:21 | a frame's line is everything before its CR |
| Properties.TlogaRoute | libsrc/parser.c:27-31 | a `$TLOGA` frame gets the record `parse_tloga` makes of its payload, and 0 exactly when that returns 0 |
| Properties.TlogbRoute | libsrc/parser.c:32-36 | a `$TLOGB` frame gets the record `parse_tlogb` makes of its payload, and 0 exactly when that returns 0 |
| Properties.OverfullFrameRejected | libsrc/parser.c:77-81 | a payload with more than MAX_FIELDS commas gives -2 under `$TLOGA` and -3 under `$TLOGB` |
| Properties.TlogaFrame | libsrc/parser.c:12-106 | a `$TLOGA` frame of plain fields within the caps gives 0, fills slot i from pair i for every complete pair, marks exactly those slots valid, and leaves everything else alone |
| Properties.TlogbFrame | libsrc/parser.c:12-163 | a `$TLOGB` frame of plain fields within the caps gives 0, fills slot i from quadruple i for every complete quadruple and marks exactly those slots valid |
| Properties.LongFieldOverflows | libsrc/parser.c:59 | a single field of `cols` characters is accepted when `cols` is at most MAX_FIELD_LENGTH + 1, and does not fit rows of `cols` characters |
| Properties.ManyFieldsOverflow | libsrc/parser.c:114 | `rows` commas are accepted when `rows` is at most MAX_FIELDS, and their fields do not fit `rows` rows |
| Properties.CorrectedBufferFits | libsrc/parser.c:69-96 | a buffer of MAX_FIELDS + 1 rows of MAX_FIELD_LENGTH + 2 characters holds every accepted line |
| LibParser.ParseTloga | libsrc/parser.c:56-106 | `parse_tloga` with caps 12 and 16: code and record as the TLOGA specification gives |
| LibParser.ParseTlogb | libsrc/parser.c:111-163 | `parse_tlogb` with caps 12 and 16: code and record as the TLOGB specification gives |
| LibParser.ParseString | libsrc/parser.c:12-51 | `parse_string` with caps 12 and 16: code and record as the dispatcher's specification gives |
| LibParser.TlogaBufferOverflow | libsrc/parser.c:59 | the checks accept an 8-character field and 8 commas, neither of which fits `fields[8][8]` |
| LibParser.TlogbBufferOverflow | libsrc/parser.c:114 | the checks accept an 8-character field and 16 commas, neither of which fits `fields[16][8]` |
| ProductionMain.ParseTloga | simple_superloop_production/src/main.c:90-140 | `parse_tloga` with caps 12 and 16: code and record as the TLOGA specification gives |
| ProductionMain.ParseTlogb | simple_superloop_production/src/main.c:145-197 | `parse_tlogb` with caps 12 and 16: code and record as the TLOGB specification gives |
| ProductionMain.ParseString | simple_superloop_production/src/main.c:46-85 | `parse_string` with caps 12 and 16: code and record as the dispatcher's specification gives |
| ProductionMain.TlogaBufferOverflow | simple_superloop_production/src/main.c:93 | the checks accept an 8-character field and 8 commas, neither of which fits `fields[8][8]` |
| ProductionMain.TlogbBufferOverflow | simple_superloop_production/src/main.c:148 | the checks accept an 8-character field and 16 commas, neither of which fits `fields[16][8]` |
| SuperloopMain.ParseTloga | simple_superloop/src/main.c:99-149 | `parse_tloga` with caps 8 and 16: code and record as the TLOGA specification gives |
| SuperloopMain.ParseTlogb | simple_superloop/src/main.c:151-203 | `parse_tlogb` with caps 8 and 16: code and record as the TLOGB specification gives |
| SuperloopMain.ParseString | simple_superloop/src/main.c:57-97 | `parse_string` with caps 8 and 16: code and record as the dispatcher's specification gives |
| SuperloopMain.TlogaBufferOverflow | simple_superloop/src/main.c:102 | the checks accept an 8-character field and 8 commas, neither of which fits `fields[8][8]` |
| SuperloopMain.TlogbBufferOverflow | simple_superloop/src/main.c:154 | the checks accept an 8-character field and 16 commas, neither of which fits `fields[16][8]` |
| SuperloopMain.StripCrlf | simple_superloop/src/main.c:40-52 | returns 0 exactly when the string ends in CR LF, and then only the CR becomes NUL; otherwise returns -1 and the buffer is unchanged |
| SuperloopMain.StripCrlfRemoves | simple_superloop/src/main.c:45-48 | after a successful strip the string is the original without its CR LF, and appending CR LF gives the original back |

## Left out

- `print_tloga` and `print_tlogb` (libsrc/parser.c:168-201 and their copies), the `main` loops, `fopen`, `fgets` and the serial device: output formatting and I/O.
- parser/src/main.c, the library's `main`, is not part of this model: it is serial-device I/O (`fopen` of the device, an endless `fgets` loop, then `parse_string` and the print functions).
- CLib.Atof: reads numerals as exact reals. It does not model the rounding to `double` and then `float`, hexadecimal numerals, `inf`/`nan`, or overflow.
- Parser.TlogbFits: requires every converted status field to be within the range of `int`. Beyond that range `atoi` is undefined behaviour.
- Parser.ParseTloga: requires `Parser.TlogaFits`, that is, at most four complete pairs. For 10 to 17 fields the C loop writes `th[4]` and beyond, past the record's four slots (`Properties.TlogaOverrunAccepted`). The model does not say what that write does.
- Parser.ParseString: requires `Parser.TagFits`: a tag of at most 63 characters, or a line of at most 64 characters when it has no comma. Anything longer overflows `char tmp[64]`.
- Parser.ParseString: requires a CR or LF in the input. Without one the C loops read past the end of the string.
- Parser.Tokenize: allocates the rows and columns the checks can reach (see Findings). The out-of-bounds writes into the declared `fields[8][8]` and `fields[16][8]` are not modelled, nor how rows that overlap in memory would overwrite each other.
- SuperloopMain.StripCrlf: requires a string of at least two characters. On a shorter one `strip_crlf` reads before the buffer. The call to `strip_crlf` in the program's `main` is commented out.
- The `float` fields `tc` and `th` are reals, and `char` is Dafny's `char`.

## Findings

| source | as written | input that shows it | evidently intended | confidence | as-written member | corrected member |
|---|---|---|---|---|---|---|
| libsrc/parser.c:59 | `char fields[8][8]`, while the checks allow 12-character fields and 16 commas | `$TLOGA,00000000` + CR LF: the NUL of the 8-character field goes to column 8. With `$TLOGA,-1234.5678,C`, the second field overwrites characters 8 and 9 of the first in memory | a buffer of MAX_FIELDS + 1 rows of MAX_FIELD_LENGTH + 2 characters, which every accepted line fits | high; not executed | LibParser.TlogaBufferOverflow | Parser.Tokenize |
| libsrc/parser.c:114 | `char fields[16][8]`, while the checks allow 12-character fields and 16 commas | `$TLOGB,00000000` + CR LF, or `$TLOGB,` followed by 16 commas and CR LF (17 rows) | the same buffer of MAX_FIELDS + 1 by MAX_FIELD_LENGTH + 2 | high; not executed | LibParser.TlogbBufferOverflow | Parser.Tokenize |
| simple_superloop_production/src/main.c:93 | `char fields[8][8]` with caps 12 and 16 | `$TLOGA,00000000` + CR LF | MAX_FIELDS + 1 rows of MAX_FIELD_LENGTH + 2 characters | high; not executed | ProductionMain.TlogaBufferOverflow | Parser.Tokenize |
| simple_superloop_production/src/main.c:148 | `char fields[16][8]` with caps 12 and 16 | `$TLOGB,00000000` + CR LF, or 16 commas after the tag | MAX_FIELDS + 1 rows of MAX_FIELD_LENGTH + 2 characters | high; not executed | ProductionMain.TlogbBufferOverflow | Parser.Tokenize |
| simple_superloop/src/main.c:102 | `char fields[8][8]` with caps 8 and 16 | `$TLOGA,00000000` + CR LF: the NUL of the 8-character field goes to column 8 (as does the comma's NUL in `$TLOGA,12345678,C`); or 8 commas after the tag | MAX_FIELDS + 1 rows of MAX_FIELD_LENGTH + 2 characters | high; not executed | SuperloopMain.TlogaBufferOverflow | Parser.Tokenize |
| simple_superloop/src/main.c:154 | `char fields[16][8]` with caps 8 and 16 | `$TLOGB,00000000` + CR LF, or 16 commas after the tag | MAX_FIELDS + 1 rows of MAX_FIELD_LENGTH + 2 characters | high; not executed | SuperloopMain.TlogbBufferOverflow | Parser.Tokenize |

`Properties.CorrectedBufferFits` proves that every accepted line fits the
corrected buffer, and `Parser.Tokenize` allocates exactly that buffer.
