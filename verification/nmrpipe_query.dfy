/**
 * Queries over a read gdb/tab file (transcoders/nmrpipe/nmrpipe_lib.py):
 * select_records, and gdb_to_3let_sequence, which joins the residue letters
 * of the DATA SEQUENCE records before translating them.
 */
module NmrPipeQuery {
  import opened Wrappers
  import opened Text
  import opened NmrPipeRecords
  import opened NmrPipeReader
  import opened NmrPipeReaderProps

  /** The records that keep accepts, in their order. */
  function Filter(records: seq<DbRecord>, keep: DbRecord -> bool): (r: seq<DbRecord>)
    ensures |r| <= |records|
  {
    if records == [] then []
    else
      var last := records[|records| - 1];
      var kept := Filter(records[..|records| - 1], keep);
      if keep(last) then kept + [last] else kept
  }

  /** Filtering keeps exactly the records the test accepts. */
  lemma {:induction false} FilterMembers(records: seq<DbRecord>, keep: DbRecord -> bool)
    ensures forall x :: x in Filter(records, keep) <==> x in records && keep(x)
  {
    if records != [] {
      var p := records[..|records| - 1];
      FilterMembers(p, keep);
      assert records == p + [records[|records| - 1]];
    }
  }

  lemma {:induction false} FilterAppend(a: seq<DbRecord>, b: seq<DbRecord>, keep: DbRecord -> bool)
    ensures Filter(a + b, keep) == Filter(a, keep) + Filter(b, keep)
    decreases |b|
  {
    if b == [] {
      assert a + b == a;
    } else {
      var p, last := b[..|b| - 1], b[|b| - 1];
      var ab := a + b;
      FilterAppend(a, p, keep);
      assert ab[..|ab| - 1] == a + p;
      assert ab[|ab| - 1] == last;
      var tail := if keep(last) then [last] else [];
      assert Filter(ab, keep) == Filter(a + p, keep) + tail;
      assert Filter(b, keep) == Filter(p, keep) + tail;
      SeqAppendAssoc(Filter(a, keep), Filter(p, keep), tail);
    }
  }

  /** The test for records of the given type. */
  function OfType(recordType: string): DbRecord -> bool {
    (record: DbRecord) => record.recordType == recordType
  }

  /** select_records: the records of the given type, then those the optional
      predicate accepts. */
  function SelectRecords(gdb: DbFile, recordType: string, test: Option<DbRecord -> bool>): (r: seq<DbRecord>)
    ensures |r| <= |gdb.records|
    ensures test.None? ==> |r| == Types(gdb.records)[recordType]
  {
    FilterTypeCount(gdb.records, recordType);
    var ofType := Filter(gdb.records, OfType(recordType));
    if test.Some? then Filter(ofType, test.value) else ofType
  }

  /** Exactly the records of the type that the predicate accepts. */
  lemma SelectRecordsMembers(gdb: DbFile, recordType: string, test: Option<DbRecord -> bool>)
    ensures forall x :: x in SelectRecords(gdb, recordType, test) <==>
      x in gdb.records && x.recordType == recordType && (test.Some? ==> test.value(x))
  {
    FilterMembers(gdb.records, OfType(recordType));
    if test.Some? {
      FilterMembers(Filter(gdb.records, OfType(recordType)), test.value);
    }
  }

  /** Selection keeps file order: selecting from two runs of records is
      selecting from the first, then from the second. */
  lemma SelectRecordsAppend(name: string, a: seq<DbRecord>, b: seq<DbRecord>, recordType: string,
                            test: Option<DbRecord -> bool>)
    ensures SelectRecords(DbFile(name, a + b), recordType, test) ==
      SelectRecords(DbFile(name, a), recordType, test) + SelectRecords(DbFile(name, b), recordType, test)
  {
    var ofType := OfType(recordType);
    FilterAppend(a, b, ofType);
    if test.Some? {
      FilterAppend(Filter(a, ofType), Filter(b, ofType), test.value);
    }
  }

  /** The number of records of a type is the count the reader keeps. */
  lemma {:induction false} FilterTypeCount(records: seq<DbRecord>, recordType: string)
    ensures |Filter(records, OfType(recordType))| == Types(records)[recordType]
  {
    if records != [] {
      FilterTypeCount(records[..|records| - 1], recordType);
    }
  }

  /** In a record list indexed by rank, the records of one type are numbered
      1, 2, 3, ... in order. */
  lemma {:induction false} RankedSelectionIsNumbered(records: seq<DbRecord>, recordType: string)
    requires IndexedByRank(records)
    ensures forall j | 0 <= j < |Filter(records, OfType(recordType))| ::
      Filter(records, OfType(recordType))[j].index == j + 1
  {
    if records != [] {
      var n := |records| - 1;
      var p, last := records[..n], records[n];
      assert records == p + [last];
      RankedSelectionIsNumbered(p, recordType);
      var before := Filter(p, OfType(recordType));
      if last.recordType == recordType {
        FilterTypeCount(p, recordType);
        TypesAppend(p, last);
        assert last.index == |before| + 1;
        var selected := before + [last];
        assert Filter(records, OfType(recordType)) == selected;
        forall j | 0 <= j < |selected| ensures selected[j].index == j + 1 {
          if j < |before| {
            assert selected[j] == before[j];
          }
        }
      }
    }
  }

  /** The data rows of a read file are numbered 1, 2, 3, ... in file order; the
      count is shared with lines that start with the word __VALUES__. */
  lemma ValuesRecordsNumbered(lines: seq<string>, fileName: string, floatOf: string -> Option<real>)
    requires Read(lines, fileName, floatOf).Ok?
    ensures var values := SelectRecords(Read(lines, fileName, floatOf).value, VALUES, None);
      forall j | 0 <= j < |values| :: values[j].index == j + 1
  {
    ReadRecordsWellFormed(lines, fileName, floatOf);
    var db := Read(lines, fileName, floatOf).value;
    RankedSelectionIsNumbered(db.records, VALUES);
    var values := SelectRecords(db, VALUES, None);
    assert values == Filter(db.records, OfType(VALUES));
    assert forall j | 0 <= j < |values| :: values[j].index == j + 1;
  }

  /** The residue letters one record contributes: the tokens after SEQUENCE of
      a DATA record whose first value is SEQUENCE, joined. Other records
      contribute nothing. */
  function RecordSequence(record: DbRecord): string {
    if record.recordType == DATA && record.values.Tokens? && |record.values.tokens| > 0
       && record.values.tokens[0] == SEQUENCE
    then Concat(record.values.tokens[1..])
    else ""
  }

  /** The joined sequence string gdb_to_3let_sequence translates. */
  function SequenceString(records: seq<DbRecord>): string {
    if records == [] then ""
    else SequenceString(records[..|records| - 1]) + RecordSequence(records[|records| - 1])
  }

  /** The sequence of a file read in two runs is the two sequences joined. */
  lemma {:induction false} SequenceStringAppend(a: seq<DbRecord>, b: seq<DbRecord>)
    ensures SequenceString(a + b) == SequenceString(a) + SequenceString(b)
    decreases |b|
  {
    if b == [] {
      assert a + b == a;
    } else {
      var p := b[..|b| - 1];
      SequenceStringAppend(a, p);
      assert (a + b)[..|a + b| - 1] == a + p;
      assert (a + b)[|a + b| - 1] == b[|b| - 1];
    }
  }

  /** Only DATA records contribute letters: selecting them first changes nothing. */
  lemma {:induction false} SequenceStringOfData(records: seq<DbRecord>)
    ensures SequenceString(Filter(records, OfType(DATA))) == SequenceString(records)
  {
    if records != [] {
      var n := |records| - 1;
      var p, last := records[..n], records[n];
      SequenceStringOfData(p);
      var before := Filter(p, OfType(DATA));
      if last.recordType == DATA {
        SequenceStringAppend(before, [last]);
        assert SequenceString([last]) == SequenceString([]) + RecordSequence(last);
      } else {
        assert RecordSequence(last) == "";
        assert SequenceString(records) == SequenceString(p) + "";
      }
    }
  }

  /** gdb_to_3let_sequence: the DATA records are selected, and the letters
      after SEQUENCE in them are joined and translated; translate_1_to_3 and
      its table are a parameter. The letters are those of the whole file, in
      file order. */
  function GdbTo3LetSequence<R>(gdb: DbFile, translate: string -> R): (r: R)
    ensures r == translate(SequenceString(gdb.records))
  {
    SequenceStringOfData(gdb.records);
    translate(SequenceString(SelectRecords(gdb, DATA, None)))
  }
}
