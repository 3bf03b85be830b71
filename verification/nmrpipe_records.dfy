/**
 * The record model of the NMRPipe gdb/tab reader and its two converting
 * steps (transcoders/nmrpipe/nmrpipe_lib.py): resolving FORMAT codes into
 * converters, and checking and converting the fields of a data row.
 */
module NmrPipeRecords {
  import opened Wrappers
  import opened Text
  import opened Structures
  import opened NmrPipeFind

  // the record types the reader knows
  const VARS := "VARS"
  const FORMAT := "FORMAT"
  const REMARK := "REMARK"
  const COMMENT := "#"
  const DATA := "DATA"
  const VALUES := "__VALUES__"
  const SEQUENCE := "SEQUENCE"

  /** The converters a FORMAT code resolves to: int, float and str. */
  datatype Converter = IntConverter | FloatConverter | StrConverter

  /** A converted field of a data row. */
  datatype Value = IntValue(i: int) | FloatValue(f: real) | StrValue(s: string)

  /** What a record holds: the tokens after the keyword (VARS, FORMAT and
      verbatim lines), the stripped line (REMARK and #), or the converted
      fields of a data row. */
  datatype RecordValues = Tokens(tokens: seq<string>) | Text(text: string) | Converted(values: seq<Value>)

  /** DbRecord: index is the running count of records of the same type. */
  datatype DbRecord = DbRecord(index: nat, recordType: string, values: RecordValues)

  /** DbFile: the file name and the records in file order. */
  datatype DbFile = DbFile(name: string, records: seq<DbRecord>)

  /** The BadNmrPipeFile family. Each error carries the line it was raised on;
      column errors carry the 1-based column and the caret offset in the raw
      line, count errors the two counts that disagree. NoFormatLine is declared
      by the source but never raised. */
  datatype ParseError =
    | BadFieldFormat(info: LineInfo, column: nat, caret: int)
    | WrongColumnCount(info: LineInfo, expected: nat, found: nat)
    | NoVarsLine(info: LineInfo)
    | NoFormatLine(info: LineInfo)
    | MultipleVars(info: LineInfo)
    | MultipleFormat(info: LineInfo)
    | DataBeforeFormat(info: LineInfo)

  /** _constructor_to_name */
  function ConverterName(c: Converter): (name: string)
    ensures name in {"int", "float", "str"}
  {
    match c
    case IntConverter => "int"
    case FloatConverter => "float"
    case StrConverter => "str"
  }

  lemma ConverterNamesDistinct(a: Converter, b: Converter)
    ensures ConverterName(a) == ConverterName(b) <==> a == b
  {
  }

  /** The last character of a FORMAT code, which alone decides its converter.
      The source strips the code first; a token is its own strip (StripToken). */
  function CodeLetter(code: string): char
    requires |code| > 0
  {
    code[|code| - 1]
  }

  /** The converter a FORMAT code stands for: d int, f and e float, s str. */
  function ResolveCode(code: string): (r: Option<Converter>)
    requires |code| > 0
  {
    var letter := CodeLetter(code);
    if letter == 'd' then Some(IntConverter)
    else if letter == 'f' then Some(FloatConverter)
    else if letter == 's' then Some(StrConverter)
    else if letter == 'e' then Some(FloatConverter)
    else None
  }

  predicate AllTokens(codes: seq<string>) {
    forall k | 0 <= k < |codes| :: IsToken(codes[k])
  }

  /** The Counter value the source reads when it reports the code at position
      k: by then its variable holds only the code's last character, so it is
      the number of codes in codes[..k+1] that are exactly that one character. */
  function LetterSeen(codes: seq<string>, k: nat): nat
    requires k < |codes| && |codes[k]| > 0
  {
    multiset(codes[..k + 1])[[CodeLetter(codes[k])]]
  }

  /** The error for an unknown code at position k: its column and a caret found
      by searching the raw line for the code's last character. */
  function BadCode(codes: seq<string>, k: nat, info: LineInfo): ParseError
    requires k < |codes| && |codes[k]| > 0
  {
    BadFieldFormat(info, k + 1, NthOccurrence(info.line, [CodeLetter(codes[k])], LetterSeen(codes, k)))
  }

  /** _formats_to_constructors from position k on: one converter per code, or
      BadFieldFormat for the first code whose last character is not d, f, s or e. */
  /** The position of the first code from k on that names no converter, or
      |codes| when every one of them does. */
  function FirstUnresolved(codes: seq<string>, k: nat): (i: nat)
    requires k <= |codes| && AllTokens(codes)
    ensures k <= i <= |codes|
    ensures forall j | k <= j < i :: ResolveCode(codes[j]).Some?
    ensures i < |codes| ==> ResolveCode(codes[i]).None?
    decreases |codes| - k
  {
    if k == |codes| || ResolveCode(codes[k]).None? then k else FirstUnresolved(codes, k + 1)
  }

  function ResolveFormatsFrom(codes: seq<string>, info: LineInfo, k: nat): (r: Result<seq<Converter>, ParseError>)
    requires k <= |codes| && AllTokens(codes)
    ensures r.Ok? <==> forall i | k <= i < |codes| :: ResolveCode(codes[i]).Some?
    ensures r.Ok? ==> (|r.value| == |codes| - k &&
      forall i | 0 <= i < |r.value| :: Some(r.value[i]) == ResolveCode(codes[k + i]))
    ensures r.Err? ==> FirstUnresolved(codes, k) < |codes| && r.error == BadCode(codes, FirstUnresolved(codes, k), info)
    decreases |codes| - k
  {
    if k == |codes| then Ok([])
    else
      match ResolveCode(codes[k])
      case None => Err(BadCode(codes, k, info))
      case Some(c) =>
        match ResolveFormatsFrom(codes, info, k + 1)
        case Err(e) => Err(e)
        case Ok(cs) => Ok([c] + cs)
  }

  function ResolveFormats(codes: seq<string>, info: LineInfo): Result<seq<Converter>, ParseError>
    requires AllTokens(codes)
  {
    ResolveFormatsFrom(codes, info, 0)
  }

  /** The converter list of a FORMAT line, as _formats_to_constructors builds
      it while counting the codes it has seen. */
  method FormatsToConstructors(formats: seq<string>, info: LineInfo) returns (r: Result<seq<Converter>, ParseError>)
    requires AllTokens(formats)
    ensures r == ResolveFormats(formats, info)
  {
    var result: seq<Converter> := [];
    var fieldCounter: multiset<string> := multiset{};
    var columnIndex := 0;
    while columnIndex < |formats|
      invariant 0 <= columnIndex <= |formats|
      invariant fieldCounter == multiset(formats[..columnIndex])
      invariant |result| == columnIndex
      invariant forall i | 0 <= i < columnIndex :: Some(result[i]) == ResolveCode(formats[i])
    {
      var fieldFormat := formats[columnIndex];
      fieldCounter := fieldCounter + multiset{fieldFormat};
      assert formats[..columnIndex + 1] == formats[..columnIndex] + [fieldFormat];
      var stripped := StripCode(fieldFormat);
      var letter := stripped[|stripped| - 1];
      if letter == 'd' {
        result := result + [IntConverter];
      } else if letter == 'f' {
        result := result + [FloatConverter];
      } else if letter == 's' {
        result := result + [StrConverter];
      } else if letter == 'e' {
        result := result + [FloatConverter];
      } else {
        assert letter == CodeLetter(formats[columnIndex]);
        assert fieldCounter[[letter]] == LetterSeen(formats, columnIndex);
        var formatColumn := FindNth(info.line, [letter], fieldCounter[[letter]]);
        r := Err(BadFieldFormat(info, columnIndex + 1, formatColumn));
        ResolveStopsAt(formats, info, columnIndex);
        return;
      }
      columnIndex := columnIndex + 1;
    }
    r := Ok(result);
    ResolveAll(formats, info, result);
  }

  /** field_format.strip() on a code that split() produced: nothing to strip. */
  method StripCode(code: string) returns (stripped: string)
    requires IsToken(code)
    ensures stripped == code
  {
    stripped := Strip(code);
    StripToken(code);
  }

  lemma {:induction false} ResolveStopsAt(codes: seq<string>, info: LineInfo, k: nat)
    requires AllTokens(codes) && k < |codes|
    requires forall i | 0 <= i < k :: ResolveCode(codes[i]).Some?
    requires ResolveCode(codes[k]).None?
    ensures ResolveFormats(codes, info) == Err(BadCode(codes, k, info))
  {
    var f := FirstUnresolved(codes, 0);
    assert !(f < k) && !(k < f);
  }

  /** Every code before the failing one resolved, so none of them is the failing
      one-character string: the caret always marks the first occurrence of the
      bad letter in the line, which may lie inside the keyword or another token. */
  lemma BadCodeCaretIsFirst(codes: seq<string>, k: nat, info: LineInfo)
    requires AllTokens(codes) && k < |codes|
    requires forall i | 0 <= i < k :: ResolveCode(codes[i]).Some?
    requires ResolveCode(codes[k]).None?
    ensures BadCode(codes, k, info).caret == Find(info.line, [CodeLetter(codes[k])], 0)
  {
    var bad := [CodeLetter(codes[k])];
    forall i | 0 <= i < k ensures codes[i] != bad {
      assert ResolveCode(codes[i]).Some?;
    }
    assert multiset(codes[..k])[bad] == 0;
    assert codes[..k + 1] == codes[..k] + [codes[k]];
    NthOccurrenceOccurs(info.line, bad, LetterSeen(codes, k));
  }

  lemma ResolveAll(codes: seq<string>, info: LineInfo, cs: seq<Converter>)
    requires AllTokens(codes) && |cs| == |codes|
    requires forall i | 0 <= i < |codes| :: Some(cs[i]) == ResolveCode(codes[i])
    ensures ResolveFormats(codes, info) == Ok(cs)
  {
    var r := ResolveFormats(codes, info);
    assert r.Ok?;
    assert r.value == cs;
  }

  /** One field through its column's converter; int() and float() may fail. The
      float parser is a parameter: the model does not parse floats. */
  function ConvertField(c: Converter, token: string, floatOf: string -> Option<real>): (r: Option<Value>)
    ensures c == StrConverter ==> r == Some(StrValue(token))
    ensures c == IntConverter ==> (r.Some? <==> IsInt(token)) && (r.Some? ==> r.value == IntValue(ParseInt(token).value))
    ensures c == FloatConverter ==> (r.Some? <==> floatOf(token).Some?) && (r.Some? ==> r.value == FloatValue(floatOf(token).value))
  {
    match c
    case StrConverter => Some(StrValue(token))
    case IntConverter =>
      (match ParseInt(token) case Some(i) => Some(IntValue(i)) case None => None)
    case FloatConverter =>
      (match floatOf(token) case Some(f) => Some(FloatValue(f)) case None => None)
  }

  /** _check_column_count_raise_if_bad: the raw line, leading index included,
      must have one token per FORMAT column; the converters after the index
      column are returned. */
  function CheckColumnCount(formats: seq<Converter>, info: LineInfo): (r: Result<seq<Converter>, ParseError>)
    ensures r.Ok? <==> |Split(info.line)| == (if |formats| == 0 then 1 else |formats|)
    ensures r.Ok? ==> r.value == (if |formats| == 0 then [] else formats[1..])
    ensures r.Err? ==> r.error == WrongColumnCount(info, if |formats| == 0 then 1 else |formats|, |Split(info.line)|)
  {
    var nonIndexColumnFormats := if |formats| == 0 then [] else formats[1..];
    var numFields := |Split(info.line)|;
    var numColumns := |nonIndexColumnFormats| + 1;
    if numFields != numColumns then Err(WrongColumnCount(info, numColumns, numFields))
    else Ok(nonIndexColumnFormats)
  }

  /** The number of times fields[k] occurs in fields[..k+1]: the Counter value
      the source reads when it reports fields[k]. */
  function SeenSoFar(fields: seq<string>, k: nat): (n: nat)
    requires k < |fields|
    ensures n >= 1
  {
    assert fields[k] in fields[..k + 1];
    multiset(fields[..k + 1])[fields[k]]
  }

  /** The error for a field at position k that its converter rejects: its
      column and a caret found by searching the raw line for the field text. */
  function BadField(fields: seq<string>, k: nat, info: LineInfo): ParseError
    requires k < |fields|
  {
    BadFieldFormat(info, k + 1, NthOccurrence(info.line, fields[k], SeenSoFar(fields, k)))
  }

  /** The fields paired with the converters (zip stops at the shorter) from
      position k on, converted, or BadFieldFormat for the first that fails. */
  /** The position of the first field from k on that its converter rejects,
      or the end of the shorter list when every pair converts. */
  function FirstUnconverted(fields: seq<string>, convs: seq<Converter>, floatOf: string -> Option<real>, k: nat): (i: nat)
    requires k <= |fields| && k <= |convs|
    ensures k <= i <= |fields| && i <= |convs|
    ensures forall j | k <= j < i :: ConvertField(convs[j], fields[j], floatOf).Some?
    ensures i < |fields| && i < |convs| ==> ConvertField(convs[i], fields[i], floatOf).None?
    decreases |fields| - k
  {
    if k == |fields| || k == |convs| || ConvertField(convs[k], fields[k], floatOf).None? then k
    else FirstUnconverted(fields, convs, floatOf, k + 1)
  }

  function ConvertFrom(fields: seq<string>, convs: seq<Converter>, info: LineInfo, floatOf: string -> Option<real>, k: nat)
    : (r: Result<seq<Value>, ParseError>)
    requires k <= |fields| && k <= |convs|
    ensures var n := if |fields| < |convs| then |fields| else |convs|;
      && (r.Ok? <==> forall i | k <= i < n :: ConvertField(convs[i], fields[i], floatOf).Some?)
      && (r.Ok? ==> (|r.value| == n - k &&
           forall i | 0 <= i < |r.value| :: Some(r.value[i]) == ConvertField(convs[k + i], fields[k + i], floatOf)))
      && (r.Err? ==> (FirstUnconverted(fields, convs, floatOf, k) < n &&
                      r.error == BadField(fields, FirstUnconverted(fields, convs, floatOf, k), info)))
    decreases |fields| - k
  {
    if k == |fields| || k == |convs| then Ok([])
    else
      match ConvertField(convs[k], fields[k], floatOf)
      case None => Err(BadField(fields, k, info))
      case Some(v) =>
        match ConvertFrom(fields, convs, info, floatOf, k + 1)
        case Err(e) => Err(e)
        case Ok(vs) => Ok([v] + vs)
  }

  /** _build_values_or_raise: the column count first, then each field after the index. */
  function BuildValues(formats: seq<Converter>, fields: seq<string>, info: LineInfo, floatOf: string -> Option<real>)
    : Result<seq<Value>, ParseError>
  {
    match CheckColumnCount(formats, info)
    case Err(e) => Err(e)
    case Ok(nonIndex) => ConvertFrom(fields, nonIndex, info, floatOf, 0)
  }

  /** The converted fields of a data row, as _build_values_or_raise builds them
      while counting the field texts it has seen. */
  method BuildValuesOrRaise(formats: seq<Converter>, fields: seq<string>, info: LineInfo, floatOf: string -> Option<real>)
    returns (r: Result<seq<Value>, ParseError>)
    ensures r == BuildValues(formats, fields, info, floatOf)
  {
    var checked := CheckColumnCount(formats, info);
    if checked.Err? {
      return Err(checked.error);
    }
    var nonIndex := checked.value;
    var n := if |fields| < |nonIndex| then |fields| else |nonIndex|;
    var result: seq<Value> := [];
    var fieldCount: multiset<string> := multiset{};
    var columnNo := 0;
    while columnNo < n
      invariant 0 <= columnNo <= n
      invariant fieldCount == multiset(fields[..columnNo])
      invariant |result| == columnNo
      invariant forall i | 0 <= i < columnNo :: Some(result[i]) == ConvertField(nonIndex[i], fields[i], floatOf)
    {
      var rawField := fields[columnNo];
      fieldCount := fieldCount + multiset{rawField};
      assert fields[..columnNo + 1] == fields[..columnNo] + [rawField];
      var value := ConvertField(nonIndex[columnNo], rawField, floatOf);
      if value.None? {
        var absoluteColumn := FindNth(info.line, rawField, fieldCount[rawField]);
        r := Err(BadFieldFormat(info, columnNo + 1, absoluteColumn));
        ConvertStopsAt(fields, nonIndex, info, floatOf, columnNo);
        return;
      }
      result := result + [value.value];
      columnNo := columnNo + 1;
    }
    r := Ok(result);
    ConvertAll(fields, nonIndex, info, floatOf, result);
  }

  lemma ConvertStopsAt(fields: seq<string>, convs: seq<Converter>, info: LineInfo, floatOf: string -> Option<real>, k: nat)
    requires k < |fields| && k < |convs|
    requires forall i | 0 <= i < k :: ConvertField(convs[i], fields[i], floatOf).Some?
    requires ConvertField(convs[k], fields[k], floatOf).None?
    ensures ConvertFrom(fields, convs, info, floatOf, 0) == Err(BadField(fields, k, info))
  {
    var f := FirstUnconverted(fields, convs, floatOf, 0);
    assert !(f < k) && !(k < f);
  }

  lemma ConvertAll(fields: seq<string>, convs: seq<Converter>, info: LineInfo, floatOf: string -> Option<real>, vs: seq<Value>)
    requires |vs| == (if |fields| < |convs| then |fields| else |convs|)
    requires forall i | 0 <= i < |vs| :: Some(vs[i]) == ConvertField(convs[i], fields[i], floatOf)
    ensures ConvertFrom(fields, convs, info, floatOf, 0) == Ok(vs)
  {
    var r := ConvertFrom(fields, convs, info, floatOf, 0);
    assert r.Ok?;
    assert r.value == vs;
  }
}
