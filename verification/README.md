# NEF pipelines core, modelled in Dafny

This project models the core of the NEF pipelines transcoders and tools.

The main piece is the reader for NMRPipe/NIH "gdb/tab" tables. It makes one
pass over the lines of a file. Each non-blank line is split on whitespace and
classified by its first word:

- `VARS` declares the column names.
- `FORMAT` declares printf-style codes, which resolve to int, float or str
  converters.
- `REMARK` and `#` lines are kept as text.
- Integer-led rows become numbered `__VALUES__` records of converted values.
- Any other line is kept as its words.

The reader keeps the column names, the converters, a count per record type and
the growing record list. It stops at the first error of a closed family:
MultipleVars, MultipleFormat, NoVarsLine, WrongColumnCount, BadFieldFormat and
DataBeforeFormat. Around the reader sit:

- the n-th occurrence search that places error carets;
- record selection;
- the `DATA SEQUENCE` concatenation that precedes translation to three-letter
  residue names.

The smaller pieces are:

- **PALES template writer.** It parses the weight table, keyed by an unordered
  atom pair with an (HN, N) default. It builds dummy restraints that skip
  prolines and the weighted restraint rows. It prints the sequence as
  `DATA SEQUENCE` lines, and these are proved to read back through the NMRPipe
  reader to the letters written.
- **FASTA importer helpers.** They build the per-chain residue offsets and
  list the chain codes in order of first appearance.
- **chains rename command.** It rewrites chain-code columns in place, counts
  the changes and reports the changed frames.
- **list chains command.** It prints the sorted, distinct chain codes of the
  molecular system frames, with optional comment and count prefixes.
- **Isotope table.** It covers the printed form of an isotope (mass number
  first), the atom-letter table and the magnetogyric ratio table.
- **Record shapes.** These are the shared record types of `lib/structures.py`.

How each kind of code is modelled:

- **Loops that update state become methods proved against a specification
  function.** The reader loop, the n-th occurrence search, format resolution,
  value building, weight parsing, restraint building, the rename loops and
  chain collection are all of this kind. The rename loop's innermost step
  assigns into an `array` in place, and the entry whose frames are rewritten is
  a `class`.
- **Comprehensions and lookups are functions.**
- **Properties are lemmas about those functions.**

Python's `str.split()`, `str.strip()`, `str.split(c)`, `str.join`,
`str.startswith`, `int()` on a token, `str(n)` and string ordering are written
out in `text.dfy`. `OrderedSet`, `sorted` on a set of strings and `chunks` are
in `collections.dfy`.

Points of the reader that are easy to misread; the model follows the code:

- A `FORMAT` line resolves its codes before anything else. Only then does it
  check for repetition, a missing `VARS` line and the column count.
- Only integer-led rows raise DataBeforeFormat. Other unknown keywords are
  kept verbatim in any state, `DATA` included.
- A data row is checked against the full format count, leading index
  included. Its record holds the converted values after the index, one fewer
  than the columns.
- A one-word line keeps that word as its fields. The code takes `raw_fields[1:]`
  only when there is more than one word.
- `residues_to_chain_codes` takes each residue's chain code. The model reads
  it from the `chain` field of the `SequenceResidue` in `lib/structures.py`.

## Model

| member | source | states |
|---|---|---|
| Structures.NewShiftData | lib/structures.py:65-69 | a shift built without an error has no error |
| Structures.NewRdcRestraint | lib/structures.py:76-82 | a restraint built from two atoms, an rdc and its error keeps them and has no weight |
| Structures.AtomLabelEquality | lib/structures.py:13-18 | atom labels are equal exactly when chain, sequence code (possibly absent), residue name and atom name are equal |
| Structures.SequenceResidueEquality | lib/structures.py:5-9 | sequence residues are equal exactly when chain, sequence code and residue name are equal |
| Text.StripEmptyIffNoTokens | transcoders/nmrpipe/nmrpipe_lib.py:70-75 | a line is skipped (empty once stripped) exactly when it is all whitespace, exactly when split() finds no word |
| Text.SplitStrip | transcoders/nmrpipe/nmrpipe_lib.py:70-72 | line.strip().split() gives the same words as line.split() |
| Text.SplitJoin | transcoders/pales/exporters/template.py:117-118 | split() undoes a single-space join of words |
| Text.SplitOnPartsLackSeparator | transcoders/pales/exporters/template.py:50 | no part that str.split(c) returns holds the separator c |
| Text.NatToStringRoundTrip | tools/list/chains.py:35 | the decimal form of a count reads back as that count |
| Text.JoinLength | tools/list/chains.py:32-35 | the length of a joined string is the part lengths plus one separator between each two parts |
| Collections.Dedupe | src/nef/transcoders/fasta/importers/sequence.py:121 | the OrderedSet list has no repeats, and holds exactly the elements of its input |
| Collections.DedupeKeepsFirstAppearanceOrder | src/nef/transcoders/fasta/importers/sequence.py:121 | the OrderedSet list keeps elements in order of first appearance |
| Collections.SortedStrings | tools/list/chains.py:30 | sorted() of a set of strings holds each element once, in strictly increasing order |
| Collections.Chunks | transcoders/pales/exporters/template.py:113-116 | chunks() slices into runs of n, only the last possibly shorter, which join back to the input |
| NmrPipeFind.FindIsFirstOccurrence | transcoders/nmrpipe/nmrpipe_lib.py:136-138 | str.find from a start gives -1 when the needle does not occur from there on, else the first occurrence from the start |
| NmrPipeFind.OccurrencesAreOrdered | transcoders/nmrpipe/nmrpipe_lib.py:134-140 | the successive non-overlapping occurrences, each starting after the previous one ends |
| NmrPipeFind.NthOccurrenceOccurs | transcoders/nmrpipe/nmrpipe_lib.py:134-140 | the n-th non-overlapping occurrence, or -1; for n <= 1 the first occurrence |
| NmrPipeFind.FindNth | transcoders/nmrpipe/nmrpipe_lib.py:134-140 | the while loop of _find_nth returns exactly the n-th non-overlapping occurrence or -1 |
| NmrPipeFind.OccurrencesAreGreedy | transcoders/nmrpipe/nmrpipe_lib.py:137-138 | every occurrence of the needle overlaps one of the occurrences the search steps through |
| NmrPipeFind.NthOccurrenceIncreases | transcoders/nmrpipe/nmrpipe_lib.py:137-139 | when the (n+1)-th occurrence exists, the n-th does too and ends no later than the (n+1)-th starts |
| NmrPipeRecords.ConverterName | transcoders/nmrpipe/nmrpipe_lib.py:308-315 | each converter is named int, float or str |
| NmrPipeRecords.ConverterNamesDistinct | transcoders/nmrpipe/nmrpipe_lib.py:308-315 | two converters have the same name exactly when they are the same converter |
| NmrPipeRecords.ResolveFormatsFrom | transcoders/nmrpipe/nmrpipe_lib.py:250-273 | resolution succeeds exactly when every code ends in d, f, e or s, giving one converter per code; otherwise the first bad code raises BadFieldFormat |
| NmrPipeRecords.FormatsToConstructors | transcoders/nmrpipe/nmrpipe_lib.py:246-274 | the loop of _formats_to_constructors returns the resolution of the codes |
| NmrPipeRecords.StripCode | transcoders/nmrpipe/nmrpipe_lib.py:252 | stripping a format code taken from split() leaves it unchanged |
| NmrPipeRecords.ResolveStopsAt | transcoders/nmrpipe/nmrpipe_lib.py:255-273 | the first code with another last letter is the one reported |
| NmrPipeRecords.BadCodeCaretIsFirst | transcoders/nmrpipe/nmrpipe_lib.py:249-264 | for a first bad letter seen once so far, the caret is its first position on the line |
| NmrPipeRecords.ResolveAll | transcoders/nmrpipe/nmrpipe_lib.py:246-274 | codes that all resolve give exactly their converters |
| NmrPipeRecords.ConvertField | transcoders/nmrpipe/nmrpipe_lib.py:150 | str keeps the token; int succeeds exactly on an optionally signed decimal; float succeeds exactly when the float parser does |
| NmrPipeRecords.CheckColumnCount | transcoders/nmrpipe/nmrpipe_lib.py:209-243 | a row passes exactly when its word count, index included, equals the format count; then the formats after the index are used, else WrongColumnCount |
| NmrPipeRecords.ConvertFrom | transcoders/nmrpipe/nmrpipe_lib.py:147-164 | conversion succeeds exactly when every paired field converts, giving one value per pair; else the first failing field raises BadFieldFormat |
| NmrPipeRecords.BuildValuesOrRaise | transcoders/nmrpipe/nmrpipe_lib.py:143-165 | the loop of _build_values_or_raise returns the column check followed by the conversion |
| NmrPipeRecords.ConvertStopsAt | transcoders/nmrpipe/nmrpipe_lib.py:147-163 | the first field that fails to convert is the one reported |
| NmrPipeRecords.ConvertAll | transcoders/nmrpipe/nmrpipe_lib.py:147-165 | fields that all convert give exactly their values |
| NmrPipeReader.Fields | transcoders/nmrpipe/nmrpipe_lib.py:80-83 | the words after the first, or the single word of a one-word line |
| NmrPipeReader.CheckVarAndFormatCount | transcoders/nmrpipe/nmrpipe_lib.py:184-206 | no error exactly when VARS was seen with as many names as formats; NoVarsLine without VARS; WrongColumnCount on a count mismatch |
| NmrPipeReader.Read | transcoders/nmrpipe/nmrpipe_lib.py:50-132 | a successful read carries the file name |
| NmrPipeReader.ReadDbFileRecords | transcoders/nmrpipe/nmrpipe_lib.py:50-132 | the reading loop returns the result of stepping the reader over the lines |
| NmrPipeReaderProps.TypesMember | transcoders/nmrpipe/nmrpipe_lib.py:78 | a type is counted exactly when some record has it |
| NmrPipeReaderProps.KeywordsAreNotInts | transcoders/nmrpipe/nmrpipe_lib.py:87-110 | no keyword is integer-led, so keyword lines never become data rows |
| NmrPipeReaderProps.StepKeepsValid | transcoders/nmrpipe/nmrpipe_lib.py:68-129 | each line keeps the reader state well formed, and adds at most one record after the earlier ones |
| NmrPipeReaderProps.ReadValid | transcoders/nmrpipe/nmrpipe_lib.py:63-132 | the state after a successful read is well formed: counts match the records, names and converters match the header records |
| NmrPipeReaderProps.ReadRecordsWellFormed | transcoders/nmrpipe/nmrpipe_lib.py:63-132 | records are numbered by rank within their type; at most one VARS and one FORMAT; converted rows only after FORMAT, all of one length |
| NmrPipeReaderProps.ReadFromAppend | transcoders/nmrpipe/nmrpipe_lib.py:68 | reading two runs of lines is reading the first, then the second from where it stopped |
| NmrPipeReaderProps.ReadThenLine | transcoders/nmrpipe/nmrpipe_lib.py:68-129 | reading one more line is one more reader step |
| NmrPipeReaderProps.BlankLineSkipped | transcoders/nmrpipe/nmrpipe_lib.py:74-75 | a whitespace-only line changes nothing, counters included |
| NmrPipeReaderProps.StepErrorInfo | transcoders/nmrpipe/nmrpipe_lib.py:69 | every error raised on a line carries that line's file, number and text, and NoFormatLine is never raised |
| NmrPipeReaderProps.ReadFromErrorLine | transcoders/nmrpipe/nmrpipe_lib.py:68-69 | an error names one of the lines read, with its own number |
| NmrPipeReaderProps.ReadNeverRaisesNoFormatLine | transcoders/nmrpipe/nmrpipe_lib.py:355-359 | a read fails only with the errors the reader raises, at a line number within the file |
| NmrPipeReaderProps.BlankLineOnlyRenumbers | transcoders/nmrpipe/nmrpipe_lib.py:68-75 | inserting a blank line gives the same records, and errors after it move down one line |
| NmrPipeReaderProps.ValidNames | transcoders/nmrpipe/nmrpipe_lib.py:91 | the column names are those of the VARS record, if any |
| NmrPipeReaderProps.SecondVarsRaises | transcoders/nmrpipe/nmrpipe_lib.py:87-89 | a second VARS line raises MultipleVars at that line |
| NmrPipeReaderProps.SecondFormatRaises | transcoders/nmrpipe/nmrpipe_lib.py:95-99 | a second FORMAT line with valid codes raises MultipleFormat at that line |
| NmrPipeReaderProps.FormatLineValidationOrder | transcoders/nmrpipe/nmrpipe_lib.py:95-104 | a FORMAT line fails on bad codes first, then on repetition, then NoVarsLine, then WrongColumnCount, and otherwise adds FORMAT record 1 |
| NmrPipeReaderProps.DataBeforeHeaderRaises | transcoders/nmrpipe/nmrpipe_lib.py:110-126 | an integer-led row before both VARS and FORMAT raises DataBeforeFormat at that line |
| NmrPipeReaderProps.UnknownKeywordKept | transcoders/nmrpipe/nmrpipe_lib.py:128-129 | any other keyword is appended verbatim, numbered by its own count, in any state |
| NmrPipeReaderProps.DataRowOutcome | transcoders/nmrpipe/nmrpipe_lib.py:109-121 | a data row raises WrongColumnCount exactly when its word count differs from the formats; when accepted it adds the next __VALUES__ record, holding the conversions of the tokens after the index by the formats after the index; with the right count it is accepted when every field converts, and otherwise the first field that does not convert raises BadFieldFormat on that line at its column |
| NmrPipeReaderProps.BuildValuesContents | transcoders/nmrpipe/nmrpipe_lib.py:143-165 | values that are built are one per word after the index, each the conversion of its word by its column's converter |
| NmrPipeReaderProps.BuildValuesBadField | transcoders/nmrpipe/nmrpipe_lib.py:143-163 | with the right word count, a word that does not convert raises BadFieldFormat on that line, at the column of the first word that does not convert |
| NmrPipeQuery.FilterMembers | transcoders/nmrpipe/nmrpipe_lib.py:291-293 | a list comprehension keeps exactly the records the test accepts |
| NmrPipeQuery.FilterAppend | transcoders/nmrpipe/nmrpipe_lib.py:291-293 | filtering keeps file order |
| NmrPipeQuery.SelectRecords | transcoders/nmrpipe/nmrpipe_lib.py:280-294 | the selection is never longer than the file; with no predicate it holds as many records as the file has of that type |
| NmrPipeQuery.SelectRecordsMembers | transcoders/nmrpipe/nmrpipe_lib.py:280-294 | exactly the records of the type that the optional predicate accepts |
| NmrPipeQuery.SelectRecordsAppend | transcoders/nmrpipe/nmrpipe_lib.py:280-294 | selection keeps file order |
| NmrPipeQuery.FilterTypeCount | transcoders/nmrpipe/nmrpipe_lib.py:78 | the number of records of a type is its count |
| NmrPipeQuery.RankedSelectionIsNumbered | transcoders/nmrpipe/nmrpipe_lib.py:92-129 | the records of one type are numbered 1, 2, 3, ... in file order |
| NmrPipeQuery.ValuesRecordsNumbered | transcoders/nmrpipe/nmrpipe_lib.py:112-118 | the data rows of a read file are numbered 1, 2, 3, ... in file order |
| NmrPipeQuery.GdbTo3LetSequence | transcoders/nmrpipe/nmrpipe_lib.py:298-305 | the translation of the letters after SEQUENCE in the file's DATA records, in file order; selecting the DATA records first leaves out no letters |
| NmrPipeQuery.SequenceStringAppend | transcoders/nmrpipe/nmrpipe_lib.py:298-303 | the sequence letters of two runs of records are those of the first then the second |
| PalesTemplate.BuildWeightsKey | transcoders/pales/exporters/template.py:69-70 | the key holds the two atom names, smaller first |
| PalesTemplate.BuildWeightsKeySymmetric | transcoders/pales/exporters/template.py:69-70 | the key of (a, b) is the key of (b, a) |
| PalesTemplate.ParseWeights | transcoders/pales/exporters/template.py:45-67 | the loop of _parse_weights returns the weight table, or the first malformed weight |
| PalesTemplate.WeightsOkIff | transcoders/pales/exporters/template.py:50-57 | parsing succeeds exactly when every weight has three comma-separated fields and a float third field |
| PalesTemplate.RawKeysMembers | transcoders/pales/exporters/template.py:50-60 | a pair of atoms is among the option keys exactly when some option with three comma-separated fields names it |
| PalesTemplate.WeightsContents | transcoders/pales/exporters/template.py:59-67 | the table's keys are the given atom pairs plus (HN, N); the last weight for a pair wins; (HN, N) gets 1.0 only when not given |
| PalesTemplate.BuildDummyRestraints | transcoders/pales/exporters/template.py:72-90 | the loop of _build_dummy_restraints returns one restraint per residue not skipped, in order |
| PalesTemplate.DummyRestraintsMembers | transcoders/pales/exporters/template.py:79-90 | the restraints are exactly those of the residues that are not prolines when HN is an atom |
| PalesTemplate.DummyRestraintsShape | transcoders/pales/exporters/template.py:83-87 | both atoms share chain, sequence code and residue name, with the given atom names; rdc and error are 0.0; no weight; no proline when HN is an atom |
| PalesTemplate.DummyRestraintsOnePerResidue | transcoders/pales/exporters/template.py:79-90 | without HN, one restraint per residue, in residue order |
| PalesTemplate.DummyRestraintsSkipProlines | transcoders/pales/exporters/template.py:80-88 | with HN among the atoms, the restraints are those of the residues that are not prolines, one each, in residue order |
| PalesTemplate.BuildRestraintRows | transcoders/pales/exporters/template.py:96-106 | the row loop returns the rows of the restraints, or the first missing weight |
| PalesTemplate.RestraintRowsContents | transcoders/pales/exporters/template.py:98-106 | rows are built exactly when every sorted atom pair has a weight; each row carries both atoms' code, residue and atom names, 0.0, 0.0 and the pair's weight |
| PalesTemplate.DefaultTemplateHasWeights | transcoders/pales/exporters/template.py:63-65 | with the default HN and N atoms, every restraint finds a weight |
| PalesTemplate.RestraintFormatResolves | transcoders/pales/exporters/template.py:94 | the table's FORMAT codes resolve to int, str, str, int, str, str, float, float, float |
| PalesTemplate.RestraintHeaderRead | transcoders/pales/exporters/template.py:93-96 | the table's VARS and FORMAT lines read back as the column names and converters |
| PalesTemplate.TemplateRowsConform | transcoders/pales/exporters/template.py:104-105 | every template row's values after the first column match the table's converters |
| PalesTemplate.SequenceLines | transcoders/pales/exporters/template.py:115-118 | one DATA SEQUENCE line per row of letters |
| PalesTemplate.SequenceLineWords | transcoders/pales/exporters/template.py:116-118 | a sequence line splits into DATA, SEQUENCE and the groups of at most ten letters |
| PalesTemplate.SequenceLinesRead | transcoders/pales/exporters/template.py:115-118 | the lines read without error, one DATA record each, whose sequence letters are the rows joined |
| PalesTemplate.PipeSequenceReadBack | transcoders/pales/exporters/template.py:111-118 | the printed sequence lines read back, after any earlier records, to exactly the letters written |
| PalesTemplate.PipeSequenceFileRead | transcoders/pales/exporters/template.py:111-118 | read as a file, the printed sequence translates exactly as the letters written |
| FastaSequence.PadWithZeros | src/nef/transcoders/fasta/importers/sequence.py:107-115 | the first n offsets, padded with zeros |
| FastaSequence.ZipToMapKeys | src/nef/transcoders/fasta/importers/sequence.py:117 | the zipped dictionary's keys are the chain codes |
| FastaSequence.ZipToMapLastWins | src/nef/transcoders/fasta/importers/sequence.py:117 | a key takes the value of its last position |
| FastaSequence.SequenceOffsetsContents | src/nef/transcoders/fasta/importers/sequence.py:104-117 | keys are exactly the chain codes; the first len(starts) chains get start - 1, the rest 0; surplus starts are ignored |
| FastaSequence.SequenceOffsetsDistinct | src/nef/transcoders/fasta/importers/sequence.py:104-117 | with distinct chain codes every chain gets its own offset |
| FastaSequence.ResiduesToChainCodesContents | src/nef/transcoders/fasta/importers/sequence.py:120-121 | each chain code of the residues appears exactly once, in order of first appearance |
| ChainsRename.ReplaceValues | tools/chains/rename.py:44-51 | in place, each value equal to old becomes new and nothing else changes; the count is the number of old values |
| ChainsRename.RenameInColumn | tools/chains/rename.py:43-51 | a chain-code column is rewritten and its replacements counted; other columns are left alone |
| ChainsRename.RenameInLoop | tools/chains/rename.py:40-51 | every column of a loop rewritten, the changes added up |
| ChainsRename.RenameInFrame | tools/chains/rename.py:40-51 | every loop of a frame rewritten, the changes added up |
| ChainsRename.Entry.Rename | tools/chains/rename.py:33-51 | the entry's frames become their rewrite; the count is the total of replacements; the changed frames are listed once each in first-change order |
| ChainsRename.SumZero | tools/chains/rename.py:48 | a total of counts is zero exactly when every count is |
| ChainsRename.NoChangesIffEntryUnchanged | tools/chains/rename.py:44-48 | for different codes, no change is counted exactly when the entry is left as it was |
| ChainsRename.RenameFramesEffect | tools/chains/rename.py:40-51 | frames, loops, columns and tags keep their place; only chain-code columns change, and there each old value becomes new |
| ChainsRename.RenameLeavesNoOldCode | tools/chains/rename.py:44-47 | after the rewrite no chain-code column holds the old code, and rewriting again changes nothing |
| ChainsRename.ChangedFramesContents | tools/chains/rename.py:34-49 | the changed frames have no repeats and are exactly the frames with at least one replacement |
| ChainsRename.ChangesIffChangedFrames | tools/chains/rename.py:48-49 | some change was made exactly when some frame is listed |
| ChainsRename.RenameReportContents | tools/chains/rename.py:53-63 | the report says no changes made exactly when the count is 0; otherwise a summary then the changed frames five to a line, then a blank line; comments go to stdout |
| ChainsRename.ChainCodeTagOf | tools/chains/rename.py:42-43 | a tag whose part after its last dot starts with chain_code is edited |
| ChainsRename.UnselectedFrameRenamed | tools/chains/rename.py:35-39 | a frame that the one selector does not pick is still rewritten |
| ChainsRename.UnselectedFramesRenamed | tools/chains/rename.py:35-51 | every frame with an old code is rewritten, whether or not a selector picks it |
| ChainsRename.RenameSelectedFramesEffect | tools/chains/rename.py:35-39 | with selectors applied, frames no selector picks are left alone, picked frames are rewritten, and no selectors rewrites everything |
| ListChains.TagValuesFound | tools/list/chains.py:28 | get_tag finds no values exactly when no column has the tag name, else the values of a column that has it |
| ListChains.LoopsChainsContents | tools/list/chains.py:27-28 | a frame's loops give chain codes exactly when each has a chain_code column; the codes are exactly the values of those columns |
| ListChains.FramesChainsContents | tools/list/chains.py:23-28 | codes are gathered exactly when every loop of every molecular system frame has chain codes; the set is exactly those values, and other frames are ignored |
| ListChains.AddLoopChains | tools/list/chains.py:27-28 | the inner loop adds the codes of each loop of a frame to the set |
| ListChains.CollectChains | tools/list/chains.py:25-28 | the set built by the nested loops is the chain codes of the molecular system frames |
| ListChains.Chains | tools/list/chains.py:21-39 | the printed line for the gathered codes, or the error of a loop without chain codes |
| ListChains.ChainsLineWords | tools/list/chains.py:30-39 | split back, the line is "#" if commented, then the count and noun if verbose, then each code once in increasing order; the noun is chain exactly when there is one code |
| ListChains.VerboseCountIsListingLength | tools/list/chains.py:35 | the verbose count is the character length of the listing, not the number of chains |
| ListChains.VerboseCountOfLetterChains | tools/list/chains.py:35 | with n >= 2 one-letter codes the count reads 2n - 1, not n |
| ListChains.CountedChainsLineWords | tools/list/chains.py:33-39 | with the count taken as the number of chains, the number read back is the number of codes that follow |
| Isotopes.DigitsFirstParts | src/nef_pipelines/lib/isotope_lib.py:28-30 | the name is its element part then its digits; the printed form is the digits then the element part, of the same length |
| Isotopes.LetterThenDigits | src/nef_pipelines/lib/isotope_lib.py:28-30 | for a letter then digits, the element part is the letter and the printed form is the digits then the letter |
| Isotopes.NameIsLetterThenDigits | src/nef_pipelines/lib/isotope_lib.py:17-25 | every member name is one non-digit then the mass number |
| Isotopes.StrPutsNumberFirst | src/nef_pipelines/lib/isotope_lib.py:27-30 | str(isotope) moves the mass number to the front (N15 prints as 15N), keeps the length, and its element part has no digit |
| Isotopes.GammaRatiosComplete | src/nef_pipelines/lib/isotope_lib.py:34-44 | every isotope has a ratio, all positive, with 1H at 1.0 |
| Isotopes.AtomLetterInverts | src/nef_pipelines/lib/isotope_lib.py:46-56 | each isotope has one letter in the atom table, and each letter maps to the isotope it stands for |
| Isotopes.AtomToIsotopeIsOneToOne | src/nef_pipelines/lib/isotope_lib.py:34-56 | eight letters map to eight different isotopes, every isotope is reached, and each has a ratio |

## Left out

- File and stream I/O is not modelled. This covers `open`, the pipe file, `print` and the `--stream` echo of the input in `tools/list/chains.py`. The reader takes its lines as a sequence, and commands return their printed lines.
- Exception messages are not modelled. Errors carry their kind, the line information, the column and the caret offset, but not the rendered `dedent` text or the `tabulate` dump of columns.
- `_constructor_names` is not modelled. It only feeds the tabulated WrongColumnCount message.
- Float parsing is a parameter `floatOf`, a partial function from a token to a real. This applies to the `float` converter and to `read_float_or_exit`. Real values are abstract numbers.
- `is_int` and `int()` accept an optional sign and ASCII digits. Underscores, surrounding whitespace and non-ASCII digits are not modelled.
- The translation of one-letter sequences (`translate_1_to_3`, `TRANSLATIONS_1_3`) is a function parameter.
- The typer commands, their options and the other command modules are not modelled.
- `get_sequence_or_exit`, `sequence_residues_to_sequence_3let`, `translate_3_to_1`, `exit_error`, `offset_chain_residues` and `sequence_to_nef_frame` are not part of this model. A failure that exits with an error is an error result.
- The body of the PALES `template` command is not modelled. This includes its REMARK lines and the `_read_rdcs_from_nef` branch, which names a function that does not exist. The restraint table is modelled as the rows handed to `tabulate`, not as rendered text.
- `read_sequences` and `process_sequences` of the FASTA importer are not modelled. They parse files through an external FASTA reader.
- pynmrstar is replaced by `NefEntry`, a list of save frames, each holding loops of tagged columns.
  - `get_tag('chain_code')` finds the first column whose tag, after its last dot, is exactly `chain_code`, and fails when there is none.
  - Case-insensitive tag matching is not modelled.
- ChainsRename.Selected: `fnmatch` with the pattern `*selector*` is modelled as a plain substring test. Wildcard characters inside a selector are not interpreted.
- ChainsRename.RenameReport: the destination stream is a flag. Commented reports go to stdout and the others to stderr.
- The peak-list and shift-list extractors and the assignment parser are not part of this model. No modelled file contains them.
- Isotopes.GammaRatiosComplete: the signs of the 15N and 17O ratios are kept as written (positive), as the source does.

## Findings

| source | as written | input that shows it | evidently intended | confidence | as-written member | corrected member |
|---|---|---|---|---|---|---|
| tools/chains/rename.py:35-39 | the `continue` only moves to the next selector, so every frame is rewritten whatever `--frame` says | a frame `nef_rdc_list_1` with `_nef_rdc_restraint.chain_code_1` value A, renamed from A to B with `--frame molecular_system`: the frame is changed | only frames whose name matches a selector are rewritten | not executed | ChainsRename.UnselectedFrameRenamed | ChainsRename.RenameSelectedFramesEffect |
| tools/list/chains.py:35 | the verbose count is `len(result)`, the character length of the joined codes | two chains A and B print `3 chains: A B` | the count of chains, `2 chains: A B` | not executed | ListChains.VerboseCountOfLetterChains | ListChains.CountedChainsLineWords |
