/**
 * What read_db_file_records guarantees (transcoders/nmrpipe/nmrpipe_lib.py),
 * proved about the Step/ReadFrom model of the reader: the invariant its state
 * keeps from line to line, and how each kind of line is handled.
 */
module NmrPipeReaderProps {
  import opened Wrappers
  import opened Text
  import opened Structures
  import opened NmrPipeRecords
  import opened NmrPipeReader

  /** The record types of a record list, with their multiplicities. */
  function Types(records: seq<DbRecord>): multiset<string> {
    if records == [] then multiset{}
    else Types(records[..|records| - 1]) + multiset{records[|records| - 1].recordType}
  }

  lemma TypesAppend(records: seq<DbRecord>, rec: DbRecord)
    ensures Types(records + [rec]) == Types(records) + multiset{rec.recordType}
  {
    assert (records + [rec])[..|records|] == records;
  }

  /** A type is counted exactly when some record has it. */
  lemma {:induction false} TypesMember(records: seq<DbRecord>, t: string)
    ensures t in Types(records) <==> exists k | 0 <= k < |records| :: records[k].recordType == t
  {
    if records != [] {
      var p := records[..|records| - 1];
      TypesMember(p, t);
      if t in Types(p) {
        var k :| 0 <= k < |p| && p[k].recordType == t;
        assert records[k].recordType == t;
      }
      if exists k | 0 <= k < |records| :: records[k].recordType == t {
        var k :| 0 <= k < |records| && records[k].recordType == t;
        if k < |p| {
          assert p[k].recordType == t;
        }
      }
    }
  }

  /** Each record's index is its rank among the records of its type: the n-th
      record of a type has index n. Stated from the last record back, so that
      each step looks at one record. */
  predicate IndexedByRank(records: seq<DbRecord>) {
    records == [] ||
    var n := |records| - 1;
    IndexedByRank(records[..n]) && records[n].index == Types(records)[records[n].recordType]
  }

  lemma IndexedByRankAppend(records: seq<DbRecord>, rec: DbRecord)
    requires IndexedByRank(records)
    requires rec.index == Types(records)[rec.recordType] + 1
    ensures IndexedByRank(records + [rec])
  {
    assert (records + [rec])[..|records|] == records;
    TypesAppend(records, rec);
  }

  lemma IndexedByRankPrefix(records: seq<DbRecord>, rec: DbRecord)
    requires IndexedByRank(records + [rec])
    ensures IndexedByRank(records)
  {
    assert (records + [rec])[..|records|] == records;
  }

  /** The converter a value came out of. */
  predicate Matches(c: Converter, v: Value) {
    match c
    case IntConverter => v.IntValue?
    case FloatConverter => v.FloatValue?
    case StrConverter => v.StrValue?
  }

  /** The values of a data row under the FORMAT converters: one per column
      after the index column, each of its column's kind. */
  predicate Conforms(values: seq<Value>, formats: seq<Converter>) {
    && |formats| > 0
    && |values| == |formats| - 1
    && forall i | 0 <= i < |values| :: Matches(formats[i + 1], values[i])
  }

  /** The shape of a record, given the header the reader holds: REMARK and #
      records keep their text, VARS records hold the column names, and the
      converted records are the __VALUES__ data rows. */
  predicate Shaped(rec: DbRecord, names: Option<seq<string>>, formats: Option<seq<Converter>>) {
    match rec.values
    case Text(_) => rec.recordType == REMARK || rec.recordType == COMMENT
    case Tokens(tokens) =>
      && |tokens| > 0
      && rec.recordType != REMARK && rec.recordType != COMMENT
      && (rec.recordType == VARS ==> names == Some(tokens))
    case Converted(values) => rec.recordType == VALUES && formats.Some? && Conforms(values, formats.value)
  }

  /** The invariant of the reader's state between lines. */
  ghost predicate Valid(st: ReaderState) {
    var types := Types(st.records);
    && st.recordCount == types
    && IndexedByRank(st.records)
    && (forall k | 0 <= k < |st.records| :: !IsInt(st.records[k].recordType))
    && types[VARS] <= 1 && types[FORMAT] <= 1
    && (st.columnNames.Some? <==> VARS in types)
    && (st.columnFormats.Some? <==> FORMAT in types)
    && (st.columnNames.Some? ==> |st.columnNames.value| > 0)
    && (st.columnFormats.Some? ==> st.columnNames.Some? && |st.columnNames.value| == |st.columnFormats.value|)
    && (forall k | 0 <= k < |st.records| :: Shaped(st.records[k], st.columnNames, st.columnFormats))
  }

  lemma KeywordsAreNotInts()
    ensures !IsInt(VARS) && !IsInt(FORMAT) && !IsInt(REMARK) && !IsInt(COMMENT) && !IsInt(VALUES) && !IsInt(DATA)
  {
    assert !IsDigit(VARS[0]) && !IsDigit(FORMAT[0]) && !IsDigit(REMARK[0]);
    assert !IsDigit(COMMENT[0]) && !IsDigit(VALUES[0]) && !IsDigit(DATA[0]);
  }

  lemma InitValid()
    ensures Valid(Init)
  {
  }

  /** A record appended with its type's next rank and a non-integer type keeps
      the counter and rank parts of the invariant. */
  lemma AppendKeepsCounts(st: ReaderState, rec: DbRecord)
    requires Valid(st)
    requires rec.index == Types(st.records)[rec.recordType] + 1
    requires !IsInt(rec.recordType)
    ensures Types(st.records + [rec]) == st.recordCount + multiset{rec.recordType}
    ensures IndexedByRank(st.records + [rec])
    ensures forall k | 0 <= k < |st.records + [rec]| :: !IsInt((st.records + [rec])[k].recordType)
  {
    TypesAppend(st.records, rec);
    IndexedByRankAppend(st.records, rec);
  }

  lemma VarsLineKeepsValid(st: ReaderState, fields: seq<string>, info: LineInfo)
    requires Valid(st) && |fields| > 0
    requires VarsLine(st, st.recordCount + multiset{VARS}, fields, info).Ok?
    ensures var next := VarsLine(st, st.recordCount + multiset{VARS}, fields, info).value;
      Valid(next) && |next.records| == |st.records| + 1 && next.records[..|st.records|] == st.records
  {
    var counts := st.recordCount + multiset{VARS};
    var rec := DbRecord(counts[VARS], VARS, Tokens(fields));
    var next := VarsLine(st, counts, fields, info).value;
    KeywordsAreNotInts();
    AppendKeepsCounts(st, rec);
    assert VARS !in Types(st.records);
    assert next.records[..|st.records|] == st.records;
    forall k | 0 <= k < |next.records| ensures Shaped(next.records[k], next.columnNames, next.columnFormats) {
      if k < |st.records| {
        assert next.records[k] == st.records[k];
        assert Shaped(st.records[k], st.columnNames, st.columnFormats);
        TypesMember(st.records, VARS);
      }
    }
  }

  lemma FormatLineKeepsValid(st: ReaderState, fields: seq<string>, info: LineInfo)
    requires Valid(st) && |fields| > 0 && AllTokens(fields)
    requires FormatLine(st, st.recordCount + multiset{FORMAT}, fields, info).Ok?
    ensures var next := FormatLine(st, st.recordCount + multiset{FORMAT}, fields, info).value;
      Valid(next) && |next.records| == |st.records| + 1 && next.records[..|st.records|] == st.records
  {
    var counts := st.recordCount + multiset{FORMAT};
    var rec := DbRecord(counts[FORMAT], FORMAT, Tokens(fields));
    var next := FormatLine(st, counts, fields, info).value;
    KeywordsAreNotInts();
    AppendKeepsCounts(st, rec);
    assert FORMAT !in Types(st.records);
    assert next.records[..|st.records|] == st.records;
    forall k | 0 <= k < |next.records| ensures Shaped(next.records[k], next.columnNames, next.columnFormats) {
      if k < |st.records| {
        assert next.records[k] == st.records[k];
        assert Shaped(st.records[k], st.columnNames, st.columnFormats);
      }
    }
  }

  /** Appending a record that is neither VARS nor FORMAT, with its type's next
      rank and a shape that fits the header, keeps the invariant. */
  lemma AppendOtherKeepsValid(st: ReaderState, rec: DbRecord)
    requires Valid(st)
    requires rec.recordType != VARS && rec.recordType != FORMAT && !IsInt(rec.recordType)
    requires rec.index == Types(st.records)[rec.recordType] + 1
    requires Shaped(rec, st.columnNames, st.columnFormats)
    ensures var next := Append(st, st.recordCount + multiset{rec.recordType}, rec);
      Valid(next) && |next.records| == |st.records| + 1 && next.records[..|st.records|] == st.records
  {
    var next := Append(st, st.recordCount + multiset{rec.recordType}, rec);
    AppendKeepsCounts(st, rec);
    var before := Types(st.records);
    var after := Types(next.records);
    assert after == before + multiset{rec.recordType};
    assert after[VARS] == before[VARS] && after[FORMAT] == before[FORMAT];
    assert next.records[..|st.records|] == st.records;
    forall k | 0 <= k < |next.records| ensures Shaped(next.records[k], next.columnNames, next.columnFormats) {
      if k < |st.records| {
        assert next.records[k] == st.records[k];
      }
    }
  }

  lemma TextLineKeepsValid(st: ReaderState, recordType: string, text: string)
    requires Valid(st) && (recordType == REMARK || recordType == COMMENT)
    ensures var counts := st.recordCount + multiset{recordType};
      var next := Append(st, counts, DbRecord(counts[recordType], recordType, Text(text)));
      Valid(next) && |next.records| == |st.records| + 1 && next.records[..|st.records|] == st.records
  {
    KeywordsAreNotInts();
    var counts := st.recordCount + multiset{recordType};
    AppendOtherKeepsValid(st, DbRecord(counts[recordType], recordType, Text(text)));
  }

  lemma VerbatimLineKeepsValid(st: ReaderState, recordType: string, fields: seq<string>)
    requires Valid(st) && |fields| > 0 && !IsInt(recordType)
    requires recordType != VARS && recordType != FORMAT && recordType != REMARK && recordType != COMMENT
    ensures var counts := st.recordCount + multiset{recordType};
      var next := Append(st, counts, DbRecord(counts[recordType], recordType, Tokens(fields)));
      Valid(next) && |next.records| == |st.records| + 1 && next.records[..|st.records|] == st.records
  {
    var counts := st.recordCount + multiset{recordType};
    AppendOtherKeepsValid(st, DbRecord(counts[recordType], recordType, Tokens(fields)));
  }

  /** The converted fields of an accepted data row conform to the FORMAT line. */
  lemma BuildValuesConform(formats: seq<Converter>, fields: seq<string>, info: LineInfo, floatOf: string -> Option<real>)
    requires |formats| > 0
    requires |Split(info.line)| > 0 && fields == Fields(Split(info.line))
    requires BuildValues(formats, fields, info, floatOf).Ok?
    ensures Conforms(BuildValues(formats, fields, info, floatOf).value, formats)
  {
    var values := BuildValues(formats, fields, info, floatOf).value;
    var nonIndex := formats[1..];
    assert CheckColumnCount(formats, info).Ok?;
    assert values == ConvertFrom(fields, nonIndex, info, floatOf, 0).value;
    assert |values| == |formats| - 1;
    forall i | 0 <= i < |values| ensures Matches(formats[i + 1], values[i]) {
      assert Some(values[i]) == ConvertField(nonIndex[i], fields[i], floatOf);
    }
  }

  /** Counting a data row under __VALUES__ and deleting its own key leaves the
      Counter with one more __VALUES__ when that key was not counted before. */
  lemma DataRowCounts(counts: multiset<string>, recordType: string)
    requires recordType !in counts && recordType != VALUES
    ensures var bumped := counts + multiset{recordType};
      bumped[VALUES := bumped[VALUES] + 1][recordType := 0] == counts + multiset{VALUES}
  {
  }

  /** A data line that converts appends one __VALUES__ record with the next
      __VALUES__ rank, and its record-type count is given back. */
  lemma DataLineAppends(st: ReaderState, recordType: string, fields: seq<string>, info: LineInfo,
                        floatOf: string -> Option<real>)
    requires recordType !in st.recordCount && recordType != VALUES
    requires DataLine(st, st.recordCount + multiset{recordType}, recordType, fields, info, floatOf).Ok?
    ensures NonEmpty(st.columnNames) && NonEmpty(st.columnFormats)
    ensures BuildValues(st.columnFormats.value, fields, info, floatOf).Ok?
    ensures DataLine(st, st.recordCount + multiset{recordType}, recordType, fields, info, floatOf).value ==
      Append(st, st.recordCount + multiset{VALUES},
             DbRecord(st.recordCount[VALUES] + 1, VALUES,
                      Converted(BuildValues(st.columnFormats.value, fields, info, floatOf).value)))
  {
    DataRowCounts(st.recordCount, recordType);
  }

  lemma DataLineKeepsValid(st: ReaderState, recordType: string, fields: seq<string>, info: LineInfo, floatOf: string -> Option<real>)
    requires Valid(st) && IsInt(recordType)
    requires |Split(info.line)| > 0 && fields == Fields(Split(info.line))
    requires DataLine(st, st.recordCount + multiset{recordType}, recordType, fields, info, floatOf).Ok?
    ensures var next := DataLine(st, st.recordCount + multiset{recordType}, recordType, fields, info, floatOf).value;
      Valid(next) && |next.records| == |st.records| + 1 && next.records[..|st.records|] == st.records
  {
    KeywordsAreNotInts();
    TypesMember(st.records, recordType);
    DataLineAppends(st, recordType, fields, info, floatOf);
    var formats := st.columnFormats.value;
    BuildValuesConform(formats, fields, info, floatOf);
    var rec := DbRecord(st.recordCount[VALUES] + 1, VALUES, Converted(BuildValues(formats, fields, info, floatOf).value));
    AppendOtherKeepsValid(st, rec);
  }

  /** Step keeps the invariant and either leaves the records alone or appends one. */
  lemma StepKeepsValid(st: ReaderState, info: LineInfo, floatOf: string -> Option<real>)
    requires Valid(st)
    requires Step(st, info, floatOf).Ok?
    ensures var next := Step(st, info, floatOf).value;
      && Valid(next)
      && (next == st || (|next.records| == |st.records| + 1 && next.records[..|st.records|] == st.records))
  {
    var rawFields := Split(info.line);
    if rawFields != [] {
      var recordType := rawFields[0];
      var fields := Fields(rawFields);
      if recordType == VARS {
        VarsLineKeepsValid(st, fields, info);
      } else if recordType == FORMAT {
        FormatLineKeepsValid(st, fields, info);
      } else if recordType == REMARK || recordType == COMMENT {
        TextLineKeepsValid(st, recordType, Strip(info.line));
      } else if IsInt(recordType) {
        DataLineKeepsValid(st, recordType, fields, info, floatOf);
      } else {
        VerbatimLineKeepsValid(st, recordType, fields);
      }
    }
  }

  /** Reading on from a valid state keeps the invariant, and records are only
      ever appended. */
  lemma {:induction false} ReadFromKeepsValid(st: ReaderState, lines: seq<string>, fileName: string, lineNo: int,
                                               floatOf: string -> Option<real>)
    requires Valid(st)
    requires ReadFrom(st, lines, fileName, lineNo, floatOf).Ok?
    ensures var last := ReadFrom(st, lines, fileName, lineNo, floatOf).value;
      Valid(last) && st.records <= last.records
    decreases |lines|
  {
    if lines != [] {
      var info := LineInfo(fileName, lineNo, lines[0]);
      StepKeepsValid(st, info, floatOf);
      var next := Step(st, info, floatOf).value;
      ReadFromKeepsValid(next, lines[1..], fileName, lineNo + 1, floatOf);
    }
  }

  lemma ReadValid(lines: seq<string>, fileName: string, floatOf: string -> Option<real>)
    requires ReadFrom(Init, lines, fileName, 1, floatOf).Ok?
    ensures Valid(ReadFrom(Init, lines, fileName, 1, floatOf).value)
  {
    InitValid();
    ReadFromKeepsValid(Init, lines, fileName, 1, floatOf);
  }

  /** What a successful read returns: each record's index is its rank among the
      records of its type, no record type is an integer, there is at most one
      VARS and one FORMAT record, and the converted records are __VALUES__ rows
      of one common width that only follow a FORMAT record. */
  lemma ReadRecordsWellFormed(lines: seq<string>, fileName: string, floatOf: string -> Option<real>)
    requires Read(lines, fileName, floatOf).Ok?
    ensures var records := Read(lines, fileName, floatOf).value.records;
      && IndexedByRank(records)
      && (forall k | 0 <= k < |records| :: !IsInt(records[k].recordType))
      && Types(records)[VARS] <= 1 && Types(records)[FORMAT] <= 1
      && (forall k | 0 <= k < |records| && records[k].values.Converted? ::
            records[k].recordType == VALUES && FORMAT in Types(records))
      && (forall k, j | 0 <= k < |records| && 0 <= j < |records| && records[k].values.Converted? && records[j].values.Converted? ::
            |records[k].values.values| == |records[j].values.values|)
  {
    ReadValid(lines, fileName, floatOf);
    var st := ReadFrom(Init, lines, fileName, 1, floatOf).value;
    assert st.records == Read(lines, fileName, floatOf).value.records;
    forall k | 0 <= k < |st.records| && st.records[k].values.Converted?
      ensures st.records[k].recordType == VALUES && FORMAT in Types(st.records)
    {
      assert Shaped(st.records[k], st.columnNames, st.columnFormats);
    }
    forall k, j | 0 <= k < |st.records| && 0 <= j < |st.records| && st.records[k].values.Converted? && st.records[j].values.Converted?
      ensures |st.records[k].values.values| == |st.records[j].values.values|
    {
      assert Shaped(st.records[k], st.columnNames, st.columnFormats);
      assert Shaped(st.records[j], st.columnNames, st.columnFormats);
    }
  }

  /** A first line that Step accepts hands the rest of the lines to the next state. */
  lemma ReadFromFirstStep(st: ReaderState, lines: seq<string>, fileName: string, lineNo: int,
                          floatOf: string -> Option<real>, next: ReaderState)
    requires lines != [] && Step(st, LineInfo(fileName, lineNo, lines[0]), floatOf) == Ok(next)
    ensures ReadFrom(st, lines, fileName, lineNo, floatOf) == ReadFrom(next, lines[1..], fileName, lineNo + 1, floatOf)
  {
  }

  /** The first line goes through Step; the rest are read from the state it gives. */
  lemma ReadFromHead(st: ReaderState, lines: seq<string>, fileName: string, lineNo: int, floatOf: string -> Option<real>)
    requires lines != []
    ensures var s := Step(st, LineInfo(fileName, lineNo, lines[0]), floatOf);
      ReadFrom(st, lines, fileName, lineNo, floatOf) ==
        if s.Err? then Err(s.error) else ReadFrom(s.value, lines[1..], fileName, lineNo + 1, floatOf)
  {
  }

  /** Reading two runs of lines is reading the first, then the second from
      where the first left off. */
  lemma {:induction false} ReadFromAppend(st: ReaderState, a: seq<string>, b: seq<string>, fileName: string, lineNo: int,
                                           floatOf: string -> Option<real>)
    ensures var r := ReadFrom(st, a, fileName, lineNo, floatOf);
      ReadFrom(st, a + b, fileName, lineNo, floatOf) ==
        if r.Err? then Err(r.error) else ReadFrom(r.value, b, fileName, lineNo + |a|, floatOf)
    decreases |a|
  {
    if a == [] {
      assert a + b == b;
    } else {
      var ab := a + b;
      assert ab[0] == a[0];
      assert ab[1..] == a[1..] + b;
      ReadFromHead(st, ab, fileName, lineNo, floatOf);
      ReadFromHead(st, a, fileName, lineNo, floatOf);
      var s := Step(st, LineInfo(fileName, lineNo, a[0]), floatOf);
      if s.Ok? {
        ReadFromAppend(s.value, a[1..], b, fileName, lineNo + 1, floatOf);
      }
    }
  }

  /** The state after a run of lines that read without error, then one more line. */
  lemma ReadThenLine(lines: seq<string>, line: string, fileName: string, floatOf: string -> Option<real>)
    requires ReadFrom(Init, lines, fileName, 1, floatOf).Ok?
    ensures var st := ReadFrom(Init, lines, fileName, 1, floatOf).value;
      var r := Step(st, LineInfo(fileName, |lines| + 1, line), floatOf);
      Read(lines + [line], fileName, floatOf) == if r.Err? then Err(r.error) else Ok(DbFile(fileName, r.value.records))
  {
    ReadFromAppend(Init, lines, [line], fileName, 1, floatOf);
    assert [line][1..] == [];
  }

  /** Whitespace-only lines make no record and leave the Counter and the header alone. */
  lemma BlankLineSkipped(st: ReaderState, info: LineInfo, floatOf: string -> Option<real>)
    requires IsBlank(info.line)
    ensures Step(st, info, floatOf) == Ok(st)
  {
    StripEmptyIffNoTokens(info.line);
  }

  /** Every error Step raises names the line it was raised on, and none of them
      is NoFormatLine. */
  lemma StepErrorInfo(st: ReaderState, info: LineInfo, floatOf: string -> Option<real>)
    ensures var r := Step(st, info, floatOf);
      r.Err? ==> r.error.info == info && !r.error.NoFormatLine?
  {
    var rawFields := Split(info.line);
    if rawFields != [] {
      var recordType := rawFields[0];
      var fields := Fields(rawFields);
      if recordType == FORMAT {
        var resolved := ResolveFormats(fields, info);
      } else if recordType != VARS && recordType != REMARK && recordType != COMMENT && IsInt(recordType) {
        if NonEmpty(st.columnNames) && NonEmpty(st.columnFormats) {
          var formats := st.columnFormats.value;
          var checked := CheckColumnCount(formats, info);
          if checked.Ok? {
            var converted := ConvertFrom(fields, checked.value, info, floatOf, 0);
          }
        }
      }
    }
  }

  /** The same error raised on another line with the same text. */
  function Relabel(e: ParseError, info: LineInfo): ParseError {
    e.(info := info)
  }

  lemma ResolveRelabel(codes: seq<string>, info1: LineInfo, info2: LineInfo)
    requires AllTokens(codes) && info1.line == info2.line
    ensures var r1 := ResolveFormats(codes, info1);
      var r2 := ResolveFormats(codes, info2);
      && r1.Ok? == r2.Ok?
      && (r1.Ok? ==> r1 == r2)
      && (r1.Err? ==> r2.error == Relabel(r1.error, info2))
  {
    var r1 := ResolveFormats(codes, info1);
    if r1.Ok? {
      ResolveAll(codes, info2, r1.value);
    } else {
      ResolveStopsAt(codes, info2, FirstUnresolved(codes, 0));
    }
  }

  lemma ConvertRelabel(fields: seq<string>, convs: seq<Converter>, info1: LineInfo, info2: LineInfo, floatOf: string -> Option<real>)
    requires info1.line == info2.line
    ensures var r1 := ConvertFrom(fields, convs, info1, floatOf, 0);
      var r2 := ConvertFrom(fields, convs, info2, floatOf, 0);
      && r1.Ok? == r2.Ok?
      && (r1.Ok? ==> r1 == r2)
      && (r1.Err? ==> r2.error == Relabel(r1.error, info2))
  {
    var r1 := ConvertFrom(fields, convs, info1, floatOf, 0);
    if r1.Ok? {
      ConvertAll(fields, convs, info2, floatOf, r1.value);
    } else {
      ConvertStopsAt(fields, convs, info2, floatOf, FirstUnconverted(fields, convs, floatOf, 0));
    }
  }

  /** What Step does depends on the text of the line only; the file name and
      line number are carried into the error and nowhere else. */
  lemma StepRelabel(st: ReaderState, info1: LineInfo, info2: LineInfo, floatOf: string -> Option<real>)
    requires info1.line == info2.line
    ensures var r1 := Step(st, info1, floatOf);
      var r2 := Step(st, info2, floatOf);
      && r1.Ok? == r2.Ok?
      && (r1.Ok? ==> r1 == r2)
      && (r1.Err? ==> r2.error == Relabel(r1.error, info2))
  {
    var rawFields := Split(info1.line);
    if rawFields != [] {
      var recordType := rawFields[0];
      var fields := Fields(rawFields);
      if recordType == FORMAT {
        ResolveRelabel(fields, info1, info2);
      } else if recordType != VARS && recordType != REMARK && recordType != COMMENT && IsInt(recordType) {
        if NonEmpty(st.columnNames) && NonEmpty(st.columnFormats) {
          var checked := CheckColumnCount(st.columnFormats.value, info1);
          if checked.Ok? {
            ConvertRelabel(fields, checked.value, info1, info2, floatOf);
          }
        }
      }
    }
  }

  /** The error moved d lines down. */
  function ShiftLine(e: ParseError, d: int): ParseError {
    e.(info := e.info.(lineNo := e.info.lineNo + d))
  }

  /** Numbering the lines from a different start changes only the line number
      in the error. */
  lemma {:induction false} ReadFromShift(st: ReaderState, lines: seq<string>, fileName: string, lineNo: int, d: int,
                                          floatOf: string -> Option<real>)
    ensures var r1 := ReadFrom(st, lines, fileName, lineNo, floatOf);
      var r2 := ReadFrom(st, lines, fileName, lineNo + d, floatOf);
      && r1.Ok? == r2.Ok?
      && (r1.Ok? ==> r1 == r2)
      && (r1.Err? ==> r2.error == ShiftLine(r1.error, d))
    decreases |lines|
  {
    if lines != [] {
      var info1 := LineInfo(fileName, lineNo, lines[0]);
      var info2 := LineInfo(fileName, lineNo + d, lines[0]);
      StepRelabel(st, info1, info2, floatOf);
      StepErrorInfo(st, info1, floatOf);
      var s := Step(st, info1, floatOf);
      if s.Ok? {
        ReadFromShift(s.value, lines[1..], fileName, lineNo + 1, d, floatOf);
      }
    }
  }

  /** The error names the file, a line number among lines (the first being
      number lineNo) and the text of that line, and is not NoFormatLine. */
  predicate RaisedWithin(e: ParseError, lines: seq<string>, fileName: string, lineNo: int) {
    && lineNo <= e.info.lineNo < lineNo + |lines|
    && e.info == LineInfo(fileName, e.info.lineNo, lines[e.info.lineNo - lineNo])
    && !e.NoFormatLine?
  }

  lemma RaisedWithinLater(e: ParseError, lines: seq<string>, fileName: string, lineNo: int)
    requires |lines| > 0 && RaisedWithin(e, lines[1..], fileName, lineNo + 1)
    ensures RaisedWithin(e, lines, fileName, lineNo)
  {
    assert lines[1..][e.info.lineNo - (lineNo + 1)] == lines[e.info.lineNo - lineNo];
  }

  /** A read that fails reports one of the lines it read, and never NoFormatLine. */
  lemma {:induction false} ReadFromErrorLine(st: ReaderState, lines: seq<string>, fileName: string, lineNo: int,
                                              floatOf: string -> Option<real>)
    requires ReadFrom(st, lines, fileName, lineNo, floatOf).Err?
    ensures RaisedWithin(ReadFrom(st, lines, fileName, lineNo, floatOf).error, lines, fileName, lineNo)
    decreases |lines|
  {
    var info := LineInfo(fileName, lineNo, lines[0]);
    StepErrorInfo(st, info, floatOf);
    var s := Step(st, info, floatOf);
    var e := ReadFrom(st, lines, fileName, lineNo, floatOf).error;
    if s.Ok? {
      ReadFromErrorLine(s.value, lines[1..], fileName, lineNo + 1, floatOf);
      RaisedWithinLater(e, lines, fileName, lineNo);
    }
  }

  /** NoFormatLine is declared but read_db_file_records never raises it. */
  lemma ReadNeverRaisesNoFormatLine(lines: seq<string>, fileName: string, floatOf: string -> Option<real>)
    ensures var r := Read(lines, fileName, floatOf);
      r.Err? ==> !r.error.NoFormatLine? && 1 <= r.error.info.lineNo <= |lines|
  {
    if ReadFrom(Init, lines, fileName, 1, floatOf).Err? {
      ReadFromErrorLine(Init, lines, fileName, 1, floatOf);
    }
  }

  /** Inserting a whitespace-only line anywhere changes nothing but the line
      number reported for an error after it. */
  lemma BlankLineOnlyRenumbers(before: seq<string>, blank: string, after: seq<string>, fileName: string,
                               floatOf: string -> Option<real>)
    requires IsBlank(blank)
    ensures var withBlank := Read(before + [blank] + after, fileName, floatOf);
      var without := Read(before + after, fileName, floatOf);
      && (withBlank.Ok? <==> without.Ok?)
      && (withBlank.Ok? ==> withBlank == without)
      && (withBlank.Err? ==>
            withBlank.error == ShiftLine(without.error, if without.error.info.lineNo > |before| then 1 else 0))
  {
    assert before + [blank] + after == before + ([blank] + after);
    ReadFromAppend(Init, before, [blank] + after, fileName, 1, floatOf);
    ReadFromAppend(Init, before, after, fileName, 1, floatOf);
    var r := ReadFrom(Init, before, fileName, 1, floatOf);
    if r.Err? {
      ReadFromErrorLine(Init, before, fileName, 1, floatOf);
      assert ShiftLine(r.error, 0) == r.error;
    } else {
      var mid := r.value;
      BlankLineSkipped(mid, LineInfo(fileName, 1 + |before|, blank), floatOf);
      assert ([blank] + after)[1..] == after;
      ReadFromShift(mid, after, fileName, 1 + |before|, 1, floatOf);
      var rest := ReadFrom(mid, after, fileName, 1 + |before|, floatOf);
      if rest.Err? {
        ReadFromErrorLine(mid, after, fileName, 1 + |before|, floatOf);
      }
    }
  }

  /** The column names the records so far define: the tokens of the VARS record. */
  function VarsNames(records: seq<DbRecord>): Option<seq<string>> {
    if records == [] then None
    else
      var last := records[|records| - 1];
      if last.recordType == VARS && last.values.Tokens? then Some(last.values.tokens)
      else VarsNames(records[..|records| - 1])
  }

  lemma {:induction false} VarsNamesOf(records: seq<DbRecord>, names: seq<string>)
    requires forall k | 0 <= k < |records| && records[k].recordType == VARS :: records[k].values == Tokens(names)
    ensures VarsNames(records) == if VARS in Types(records) then Some(names) else None
  {
    if records != [] {
      var p := records[..|records| - 1];
      var last := records[|records| - 1];
      assert forall k | 0 <= k < |p| :: p[k] == records[k];
      VarsNamesOf(p, names);
    }
  }

  /** The reader's column names are those of the VARS record read so far. */
  lemma ValidNames(st: ReaderState)
    requires Valid(st)
    ensures st.columnNames == VarsNames(st.records)
  {
    var names := if st.columnNames.Some? then st.columnNames.value else [];
    forall k | 0 <= k < |st.records| && st.records[k].recordType == VARS
      ensures st.records[k].values == Tokens(names)
    {
      assert Shaped(st.records[k], st.columnNames, st.columnFormats);
      TypesMember(st.records, VARS);
    }
    VarsNamesOf(st.records, names);
  }

  /** A second VARS line raises MultipleVars. */
  lemma SecondVarsRaises(lines: seq<string>, line: string, fileName: string, floatOf: string -> Option<real>)
    requires Read(lines, fileName, floatOf).Ok?
    requires VARS in Types(Read(lines, fileName, floatOf).value.records)
    requires |Split(line)| > 0 && Split(line)[0] == VARS
    ensures Read(lines + [line], fileName, floatOf) == Err(MultipleVars(LineInfo(fileName, |lines| + 1, line)))
  {
    ReadValid(lines, fileName, floatOf);
    ReadThenLine(lines, line, fileName, floatOf);
  }

  /** A second FORMAT line whose codes all resolve raises MultipleFormat. */
  lemma SecondFormatRaises(lines: seq<string>, line: string, fileName: string, floatOf: string -> Option<real>)
    requires Read(lines, fileName, floatOf).Ok?
    requires FORMAT in Types(Read(lines, fileName, floatOf).value.records)
    requires |Split(line)| > 0 && Split(line)[0] == FORMAT
    requires ResolveFormats(Fields(Split(line)), LineInfo(fileName, |lines| + 1, line)).Ok?
    ensures Read(lines + [line], fileName, floatOf) == Err(MultipleFormat(LineInfo(fileName, |lines| + 1, line)))
  {
    ReadValid(lines, fileName, floatOf);
    ReadThenLine(lines, line, fileName, floatOf);
  }

  /** A FORMAT line is checked in this order: its codes, then whether it
      repeats, then whether a VARS line came first, then whether the name and
      code counts agree; a line that passes all four becomes FORMAT record 1. */
  lemma FormatLineValidationOrder(lines: seq<string>, line: string, fileName: string, floatOf: string -> Option<real>)
    requires Read(lines, fileName, floatOf).Ok?
    requires |Split(line)| > 0 && Split(line)[0] == FORMAT
    ensures var records := Read(lines, fileName, floatOf).value.records;
      var info := LineInfo(fileName, |lines| + 1, line);
      var codes := Fields(Split(line));
      var resolved := ResolveFormats(codes, info);
      var names := VarsNames(records);
      var r := Read(lines + [line], fileName, floatOf);
      && (resolved.Err? ==> r == Err(resolved.error))
      && (resolved.Ok? && FORMAT in Types(records) ==> r == Err(MultipleFormat(info)))
      && (resolved.Ok? && FORMAT !in Types(records) && names.None? ==> r == Err(NoVarsLine(info)))
      && (resolved.Ok? && FORMAT !in Types(records) && names.Some? && |names.value| != |codes| ==>
            r == Err(WrongColumnCount(info, |names.value|, |codes|)))
      && (resolved.Ok? && FORMAT !in Types(records) && names.Some? && |names.value| == |codes| ==>
            r == Ok(DbFile(fileName, records + [DbRecord(1, FORMAT, Tokens(codes))])))
  {
    ReadValid(lines, fileName, floatOf);
    var st := ReadFrom(Init, lines, fileName, 1, floatOf).value;
    ValidNames(st);
    ReadThenLine(lines, line, fileName, floatOf);
  }

  /** A line led by an integer before both header lines raises DataBeforeFormat. */
  lemma DataBeforeHeaderRaises(lines: seq<string>, line: string, fileName: string, floatOf: string -> Option<real>)
    requires Read(lines, fileName, floatOf).Ok?
    requires var records := Read(lines, fileName, floatOf).value.records;
      VARS !in Types(records) || FORMAT !in Types(records)
    requires |Split(line)| > 0 && IsInt(Split(line)[0])
    ensures Read(lines + [line], fileName, floatOf) == Err(DataBeforeFormat(LineInfo(fileName, |lines| + 1, line)))
  {
    ReadValid(lines, fileName, floatOf);
    ReadThenLine(lines, line, fileName, floatOf);
    var st := ReadFrom(Init, lines, fileName, 1, floatOf).value;
    var raw := Split(line);
    var info := LineInfo(fileName, |lines| + 1, line);
    KeywordsAreNotInts();
    assert raw[0] != VARS && raw[0] != FORMAT && raw[0] != REMARK && raw[0] != COMMENT;
    assert st.columnNames.None? || st.columnFormats.None?;
    assert Step(st, info, floatOf) == DataLine(st, st.recordCount + multiset{raw[0]}, raw[0], Fields(raw), info, floatOf);
  }

  /** A line led by any other word that is not an integer is kept as it is,
      whatever came before: its fields under the next rank of its type. */
  lemma UnknownKeywordKept(lines: seq<string>, line: string, fileName: string, floatOf: string -> Option<real>)
    requires Read(lines, fileName, floatOf).Ok?
    requires var raw := Split(line);
      && |raw| > 0 && !IsInt(raw[0])
      && raw[0] != VARS && raw[0] != FORMAT && raw[0] != REMARK && raw[0] != COMMENT
    ensures var records := Read(lines, fileName, floatOf).value.records;
      var raw := Split(line);
      Read(lines + [line], fileName, floatOf) ==
        Ok(DbFile(fileName, records + [DbRecord(Types(records)[raw[0]] + 1, raw[0], Tokens(Fields(raw)))]))
  {
    var st := ReadFrom(Init, lines, fileName, 1, floatOf).value;
    assert st.recordCount == Types(st.records) by {
      ReadValid(lines, fileName, floatOf);
    }
    var raw := Split(line);
    assert (st.recordCount + multiset{raw[0]})[raw[0]] == Types(st.records)[raw[0]] + 1;
    ReadThenLine(lines, line, fileName, floatOf);
    VerbatimStep(st, LineInfo(fileName, |lines| + 1, line), floatOf);
  }

  /** Step on a line led by a word that is neither a keyword nor an integer:
      its fields, under the next rank of that word. */
  lemma VerbatimStep(st: ReaderState, info: LineInfo, floatOf: string -> Option<real>)
    requires var raw := Split(info.line);
      && |raw| > 0 && !IsInt(raw[0])
      && raw[0] != VARS && raw[0] != FORMAT && raw[0] != REMARK && raw[0] != COMMENT
    ensures var raw := Split(info.line);
      var counts := st.recordCount + multiset{raw[0]};
      Step(st, info, floatOf) == Ok(Append(st, counts, DbRecord(counts[raw[0]], raw[0], Tokens(Fields(raw)))))
  {
  }

  /** A data row after both header lines: it fails with WrongColumnCount exactly
      when its token count, index included, differs from the number of FORMAT
      codes; when accepted it becomes the next __VALUES__ record, holding the
      conversions of the tokens after the index; with the right count it is
      accepted when every field converts, and otherwise the first field that
      does not convert raises BadFieldFormat on that line. */
  lemma DataRowOutcome(lines: seq<string>, line: string, fileName: string, floatOf: string -> Option<real>,
                       st: ReaderState, formats: seq<Converter>)
    requires ReadFrom(Init, lines, fileName, 1, floatOf) == Ok(st)
    requires VARS in Types(st.records) && st.columnFormats == Some(formats)
    requires |Split(line)| > 0 && IsInt(Split(line)[0])
    ensures var raw := Split(line);
      var info := LineInfo(fileName, |lines| + 1, line);
      var r := Read(lines + [line], fileName, floatOf);
      && (r == Err(WrongColumnCount(info, |formats|, |raw|)) <==> |raw| != |formats|)
      && (r.Ok? ==>
            && |r.value.records| == |st.records| + 1
            && r.value.records[..|st.records|] == st.records
            && r.value.records[|st.records|].index == Types(st.records)[VALUES] + 1
            && r.value.records[|st.records|].recordType == VALUES
            && r.value.records[|st.records|].values.Converted?
            && Conforms(r.value.records[|st.records|].values.values, formats)
            && |raw| == |formats|
            && forall i | 0 <= i < |raw| - 1 ::
                 Some(r.value.records[|st.records|].values.values[i]) == ConvertField(formats[i + 1], raw[i + 1], floatOf))
      && (|raw| == |formats| && (forall i | 1 <= i < |raw| :: ConvertField(formats[i], raw[i], floatOf).Some?) ==> r.Ok?)
      && (|raw| == |formats| && (exists i | 1 <= i < |raw| :: ConvertField(formats[i], raw[i], floatOf).None?) ==>
            && r.Err? && r.error.BadFieldFormat? && r.error.info == info
            && 1 <= r.error.column < |raw|
            && ConvertField(formats[r.error.column], raw[r.error.column], floatOf).None?
            && forall j | 1 <= j < r.error.column :: ConvertField(formats[j], raw[j], floatOf).Some?)
  {
    ReadValid(lines, fileName, floatOf);
    ReadThenLine(lines, line, fileName, floatOf);
    var raw := Split(line);
    var info := LineInfo(fileName, |lines| + 1, line);
    DataRowCounted(st, info, floatOf, formats);
    if Step(st, info, floatOf).Ok? {
      DataRowAccepted(st, info, floatOf, formats);
    }
    if |raw| == |formats| && exists i | 1 <= i < |raw| :: ConvertField(formats[i], raw[i], floatOf).None? {
      var i :| 1 <= i < |raw| && ConvertField(formats[i], raw[i], floatOf).None?;
      DataRowRejected(st, info, floatOf, formats, i);
    }
  }

  /** A data row fails on its word count exactly when the count is wrong, and
      is accepted when the count is right and every field converts. */
  lemma DataRowCounted(st: ReaderState, info: LineInfo, floatOf: string -> Option<real>, formats: seq<Converter>)
    requires Valid(st) && VARS in Types(st.records) && st.columnFormats == Some(formats)
    requires |Split(info.line)| > 0 && IsInt(Split(info.line)[0])
    ensures var raw := Split(info.line);
      var step := Step(st, info, floatOf);
      && (step == Err(WrongColumnCount(info, |formats|, |raw|)) <==> |raw| != |formats|)
      && (|raw| == |formats| && (forall i | 1 <= i < |raw| :: ConvertField(formats[i], raw[i], floatOf).Some?) ==> step.Ok?)
  {
    var raw := Split(info.line);
    DataRowStep(st, info, floatOf);
    if |raw| == |formats| {
      var converted := ConvertFrom(Fields(raw), formats[1..], info, floatOf, 0);
    }
  }

  /** A data row of the right length with a field that does not convert raises
      BadFieldFormat on its line, at the first such field's column. */
  lemma DataRowRejected(st: ReaderState, info: LineInfo, floatOf: string -> Option<real>, formats: seq<Converter>, i: nat)
    requires Valid(st) && VARS in Types(st.records) && st.columnFormats == Some(formats)
    requires |Split(info.line)| > 0 && IsInt(Split(info.line)[0])
    requires |Split(info.line)| == |formats| && 1 <= i < |formats|
    requires ConvertField(formats[i], Split(info.line)[i], floatOf).None?
    ensures var raw := Split(info.line);
      var step := Step(st, info, floatOf);
      && step.Err? && step.error.BadFieldFormat? && step.error.info == info
      && 1 <= step.error.column < |raw|
      && ConvertField(formats[step.error.column], raw[step.error.column], floatOf).None?
      && forall j | 1 <= j < step.error.column :: ConvertField(formats[j], raw[j], floatOf).Some?
  {
    DataRowStep(st, info, floatOf);
    BuildValuesBadField(formats, info, floatOf, i);
  }

  /** After both header lines an integer-led row goes to the data row branch. */
  lemma DataRowStep(st: ReaderState, info: LineInfo, floatOf: string -> Option<real>)
    requires Valid(st) && VARS in Types(st.records) && st.columnFormats.Some?
    requires |Split(info.line)| > 0 && IsInt(Split(info.line)[0])
    ensures NonEmpty(st.columnNames) && NonEmpty(st.columnFormats)
    ensures var raw := Split(info.line);
      Step(st, info, floatOf) == DataLine(st, st.recordCount + multiset{raw[0]}, raw[0], Fields(raw), info, floatOf)
  {
    var raw := Split(info.line);
    KeywordsAreNotInts();
    assert raw[0] != VARS && raw[0] != FORMAT && raw[0] != REMARK && raw[0] != COMMENT;
  }

  /** An accepted data row appends the next __VALUES__ record, holding the
      conversions of the words after the index. */
  lemma DataRowAccepted(st: ReaderState, info: LineInfo, floatOf: string -> Option<real>, formats: seq<Converter>)
    requires Valid(st) && VARS in Types(st.records) && st.columnFormats == Some(formats)
    requires |Split(info.line)| > 0 && IsInt(Split(info.line)[0])
    requires Step(st, info, floatOf).Ok?
    ensures var raw := Split(info.line);
      var next := Step(st, info, floatOf).value;
      && |next.records| == |st.records| + 1
      && next.records[..|st.records|] == st.records
      && next.records[|st.records|].index == Types(st.records)[VALUES] + 1
      && next.records[|st.records|].recordType == VALUES
      && next.records[|st.records|].values.Converted?
      && Conforms(next.records[|st.records|].values.values, formats)
      && |raw| == |formats|
      && forall i | 0 <= i < |raw| - 1 ::
           Some(next.records[|st.records|].values.values[i]) == ConvertField(formats[i + 1], raw[i + 1], floatOf)
  {
    var raw := Split(info.line);
    DataRowStep(st, info, floatOf);
    KeywordsAreNotInts();
    StepKeepsValid(st, info, floatOf);
    TypesMember(st.records, raw[0]);
    DataLineAppends(st, raw[0], Fields(raw), info, floatOf);
    BuildValuesConform(formats, Fields(raw), info, floatOf);
    BuildValuesContents(formats, info, floatOf);
  }

  /** _build_values_or_raise on an accepted row: one value per word after the
      index, each the conversion of its word by its column's converter. */
  lemma BuildValuesContents(formats: seq<Converter>, info: LineInfo, floatOf: string -> Option<real>)
    requires |formats| > 0 && |Split(info.line)| > 0
    ensures var raw := Split(info.line);
      var b := BuildValues(formats, Fields(raw), info, floatOf);
      b.Ok? ==> (
        && |raw| == |formats| && |b.value| == |raw| - 1
        && forall i | 0 <= i < |raw| - 1 :: Some(b.value[i]) == ConvertField(formats[i + 1], raw[i + 1], floatOf))
  {
    var raw := Split(info.line);
    if |raw| == |formats| {
      var fields, convs := Fields(raw), formats[1..];
      assert forall i | 0 <= i < |raw| - 1 :: fields[i] == raw[i + 1] && convs[i] == formats[i + 1];
      assert BuildValues(formats, fields, info, floatOf) == ConvertFrom(fields, convs, info, floatOf, 0);
    }
  }

  /** _build_values_or_raise on a row of the right length with a word that does
      not convert: BadFieldFormat on that line, at the column of the first such word. */
  lemma BuildValuesBadField(formats: seq<Converter>, info: LineInfo, floatOf: string -> Option<real>, i: nat)
    requires |formats| > 0 && |Split(info.line)| == |formats|
    requires 1 <= i < |formats| && ConvertField(formats[i], Split(info.line)[i], floatOf).None?
    ensures var raw := Split(info.line);
      var b := BuildValues(formats, Fields(raw), info, floatOf);
      && b.Err? && b.error.BadFieldFormat? && b.error.info == info
      && 1 <= b.error.column < |raw|
      && ConvertField(formats[b.error.column], raw[b.error.column], floatOf).None?
      && forall j | 1 <= j < b.error.column :: ConvertField(formats[j], raw[j], floatOf).Some?
  {
    var raw := Split(info.line);
    var fields, convs := Fields(raw), formats[1..];
    assert forall k | 0 <= k < |raw| - 1 :: fields[k] == raw[k + 1] && convs[k] == formats[k + 1];
    assert ConvertField(convs[i - 1], fields[i - 1], floatOf).None?;
    var first := FirstUnconverted(fields, convs, floatOf, 0);
    assert first <= i - 1;
    assert BuildValues(formats, fields, info, floatOf) == Err(BadField(fields, first, info));
    assert ConvertField(formats[first + 1], raw[first + 1], floatOf).None?;
    forall j | 1 <= j < first + 1 ensures ConvertField(formats[j], raw[j], floatOf).Some? {
      assert ConvertField(convs[j - 1], fields[j - 1], floatOf).Some?;
    }
  }
}
