/**
 * read_db_file_records (transcoders/nmrpipe/nmrpipe_lib.py): one pass over
 * the lines of an NMRPipe gdb/tab file. The reader keeps the column names of
 * the VARS line, the converters of the FORMAT line, a per-type Counter and the
 * growing record list; Step is what one line does to that state, ReadFrom the
 * fold over the lines, and ReadDbFileRecords the loop the source runs.
 */
module NmrPipeReader {
  import opened Wrappers
  import opened Text
  import opened Structures
  import opened NmrPipeRecords

  /** What the reader holds between lines: the records so far, the column names
      and converters once seen, and the Counter of record types as a multiset. */
  datatype ReaderState = ReaderState(
    records: seq<DbRecord>,
    columnNames: Option<seq<string>>,
    columnFormats: Option<seq<Converter>>,
    recordCount: multiset<string>)

  /** The state before the first line. */
  const Init := ReaderState([], None, None, multiset{})

  /** Python truthiness of an optional list: present and not empty. */
  predicate NonEmpty<T>(o: Option<seq<T>>) {
    o.Some? && |o.value| > 0
  }

  /** The fields of a line: the tokens after the keyword, or the keyword itself
      when it stands alone on its line. */
  function Fields(rawFields: seq<string>): (fields: seq<string>)
    requires |rawFields| > 0
    ensures |fields| > 0
    ensures |rawFields| > 1 ==> fields == rawFields[1..]
    ensures |rawFields| == 1 ==> fields == rawFields
  {
    if |rawFields| > 1 then rawFields[1..] else rawFields
  }

  /** _check_var_and_format_count_raise_if_bad: a FORMAT line needs an earlier
      VARS line with as many names as it has codes. */
  function CheckVarAndFormatCount(names: Option<seq<string>>, formats: seq<Converter>, info: LineInfo): (r: Option<ParseError>)
    ensures r.None? <==> names.Some? && |names.value| == |formats|
    ensures names.None? ==> r == Some(NoVarsLine(info))
    ensures names.Some? && |names.value| != |formats| ==> r == Some(WrongColumnCount(info, |names.value|, |formats|))
  {
    if names.None? then Some(NoVarsLine(info))
    else if |names.value| != |formats| then Some(WrongColumnCount(info, |names.value|, |formats|))
    else None
  }

  /** The state after appending one record and taking the new counter. */
  function Append(st: ReaderState, counts: multiset<string>, rec: DbRecord): ReaderState {
    st.(records := st.records + [rec], recordCount := counts)
  }

  /** A VARS line: a repeat raises MultipleVars, otherwise its fields become the
      column names. */
  function VarsLine(st: ReaderState, counts: multiset<string>, fields: seq<string>, info: LineInfo)
    : Result<ReaderState, ParseError>
  {
    if counts[VARS] != 1 then Err(MultipleVars(info))
    else Ok(Append(st, counts, DbRecord(counts[VARS], VARS, Tokens(fields))).(columnNames := Some(fields)))
  }

  /** A FORMAT line: its codes are resolved first, then a repeat raises
      MultipleFormat, then the names are checked against the codes. */
  function FormatLine(st: ReaderState, counts: multiset<string>, fields: seq<string>, info: LineInfo)
    : Result<ReaderState, ParseError>
    requires AllTokens(fields)
  {
    match ResolveFormats(fields, info)
    case Err(e) => Err(e)
    case Ok(formats) =>
      if counts[FORMAT] != 1 then Err(MultipleFormat(info))
      else match CheckVarAndFormatCount(st.columnNames, formats, info)
        case Some(e) => Err(e)
        case None =>
          Ok(Append(st, counts, DbRecord(counts[FORMAT], FORMAT, Tokens(fields))).(columnFormats := Some(formats)))
  }

  /** A line led by an integer: a data row once both header lines are in. It is
      counted under __VALUES__ and its own key leaves the Counter. */
  function DataLine(st: ReaderState, counts: multiset<string>, recordType: string, fields: seq<string>,
                    info: LineInfo, floatOf: string -> Option<real>)
    : Result<ReaderState, ParseError>
  {
    if NonEmpty(st.columnNames) && NonEmpty(st.columnFormats) then
      var valueCounts := counts[VALUES := counts[VALUES] + 1][recordType := 0];
      match BuildValues(st.columnFormats.value, fields, info, floatOf)
      case Err(e) => Err(e)
      case Ok(values) => Ok(Append(st, valueCounts, DbRecord(valueCounts[VALUES], VALUES, Converted(values))))
    else Err(DataBeforeFormat(info))
  }

  /** One line of the file. A line that strips to nothing is skipped; otherwise
      its first token is its record type (line.strip().split() splits the same
      tokens as Split, see Text.SplitStrip). */
  function Step(st: ReaderState, info: LineInfo, floatOf: string -> Option<real>): Result<ReaderState, ParseError> {
    var rawFields := Split(info.line);
    if rawFields == [] then Ok(st)
    else
      var recordType := rawFields[0];
      var counts := st.recordCount + multiset{recordType};
      var fields := Fields(rawFields);
      if recordType == VARS then VarsLine(st, counts, fields, info)
      else if recordType == FORMAT then FormatLine(st, counts, fields, info)
      else if recordType == REMARK || recordType == COMMENT then
        Ok(Append(st, counts, DbRecord(counts[recordType], recordType, Text(Strip(info.line)))))
      else if IsInt(recordType) then DataLine(st, counts, recordType, fields, info, floatOf)
      else Ok(Append(st, counts, DbRecord(counts[recordType], recordType, Tokens(fields))))
  }

  /** The lines from number lineNo on, each through Step; the first error ends
      the read. */
  function ReadFrom(st: ReaderState, lines: seq<string>, fileName: string, lineNo: int, floatOf: string -> Option<real>)
    : Result<ReaderState, ParseError>
    decreases |lines|
  {
    if lines == [] then Ok(st)
    else
      match Step(st, LineInfo(fileName, lineNo, lines[0]), floatOf)
      case Err(e) => Err(e)
      case Ok(next) => ReadFrom(next, lines[1..], fileName, lineNo + 1, floatOf)
  }

  /** read_db_file_records as a function of the lines: line numbers start at 1. */
  function Read(lines: seq<string>, fileName: string, floatOf: string -> Option<real>): (r: Result<DbFile, ParseError>)
    ensures r.Ok? ==> r.value.name == fileName
  {
    match ReadFrom(Init, lines, fileName, 1, floatOf)
    case Err(e) => Err(e)
    case Ok(st) => Ok(DbFile(fileName, st.records))
  }

  lemma ReadFromUnfold(st: ReaderState, lines: seq<string>, i: nat, fileName: string, floatOf: string -> Option<real>)
    requires i < |lines|
    ensures ReadFrom(st, lines[i..], fileName, i + 1, floatOf) ==
      match Step(st, LineInfo(fileName, i + 1, lines[i]), floatOf)
      case Err(e) => Err(e)
      case Ok(next) => ReadFrom(next, lines[i + 1..], fileName, i + 2, floatOf)
  {
    assert lines[i..][1..] == lines[i + 1..];
  }

  /** read_db_file_records over the lines of a file: the loop of the source,
      proved to compute Read. */
  method ReadDbFileRecords(lines: seq<string>, fileName: string, floatOf: string -> Option<real>)
    returns (r: Result<DbFile, ParseError>)
    ensures r == Read(lines, fileName, floatOf)
  {
    var records: seq<DbRecord> := [];
    var columnNames: Option<seq<string>> := None;
    var columnFormats: Option<seq<Converter>> := None;
    var recordCount: multiset<string> := multiset{};
    var lineIndex := 0;
    while lineIndex < |lines|
      invariant 0 <= lineIndex <= |lines|
      invariant ReadFrom(Init, lines, fileName, 1, floatOf) ==
        ReadFrom(ReaderState(records, columnNames, columnFormats, recordCount), lines[lineIndex..], fileName, lineIndex + 1, floatOf)
    {
      ghost var before := ReaderState(records, columnNames, columnFormats, recordCount);
      var lineInfo := LineInfo(fileName, lineIndex + 1, lines[lineIndex]);
      ReadFromUnfold(before, lines, lineIndex, fileName, floatOf);
      var line := Strip(lineInfo.line);
      var rawFields := Split(line);
      SplitStrip(lineInfo.line);
      StripEmptyIffNoTokens(lineInfo.line);
      if |line| == 0 {
        lineIndex := lineIndex + 1;
        continue;
      }
      var recordType := rawFields[0];
      recordCount := recordCount + multiset{recordType};
      var fields := Fields(rawFields);
      // the record types below exclude one another, so the source's chain of
      // independent tests guarded by a handled flag is an if-else chain
      if recordType == VARS {
        if recordCount[recordType] != 1 {
          return Err(MultipleVars(lineInfo));
        }
        columnNames := Some(fields);
        records := records + [DbRecord(recordCount[recordType], recordType, Tokens(fields))];
      } else if recordType == FORMAT {
        var formats := FormatsToConstructors(fields, lineInfo);
        if formats.Err? {
          return Err(formats.error);
        }
        columnFormats := Some(formats.value);
        if recordCount[recordType] != 1 {
          return Err(MultipleFormat(lineInfo));
        }
        var countError := CheckVarAndFormatCount(columnNames, formats.value, lineInfo);
        if countError.Some? {
          return Err(countError.value);
        }
        records := records + [DbRecord(recordCount[recordType], recordType, Tokens(fields))];
      } else if recordType == REMARK || recordType == COMMENT {
        records := records + [DbRecord(recordCount[recordType], recordType, Text(line))];
      } else if IsInt(recordType) {
        if NonEmpty(columnNames) && NonEmpty(columnFormats) {
          recordCount := recordCount[VALUES := recordCount[VALUES] + 1];
          recordCount := recordCount[recordType := 0];
          var values := BuildValuesOrRaise(columnFormats.value, fields, lineInfo, floatOf);
          if values.Err? {
            return Err(values.error);
          }
          records := records + [DbRecord(recordCount[VALUES], VALUES, Converted(values.value))];
        } else {
          return Err(DataBeforeFormat(lineInfo));
        }
      } else {
        records := records + [DbRecord(recordCount[recordType], recordType, Tokens(fields))];
      }
      lineIndex := lineIndex + 1;
    }
    r := Ok(DbFile(fileName, records));
  }
}
