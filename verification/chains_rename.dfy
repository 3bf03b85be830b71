/**
 * The chains rename command (tools/chains/rename.py): in every loop of every
 * save frame of an NEF entry, the values of each column whose tag ends in a
 * part starting with chain_code are rewritten from one chain code to another,
 * in place, while the changes and the changed frames are counted; with
 * --verbose a report of the changes is printed.
 *
 * The entry is modelled as the nested lists the source walks (NefEntry).
 */
module ChainsRename {
  import opened Text
  import opened Collections
  import opened NefEntry

  /** f applied to each item, in order. */
  function MapSeq<A, B>(f: A -> B, s: seq<A>): (r: seq<B>)
    ensures |r| == |s| && forall i | 0 <= i < |s| :: r[i] == f(s[i])
  {
    if s == [] then [] else MapSeq(f, s[..|s| - 1]) + [f(s[|s| - 1])]
  }

  function Sum(s: seq<nat>): nat {
    if s == [] then 0 else Sum(s[..|s| - 1]) + s[|s| - 1]
  }

  /** The tag's last dot-separated part starts with chain_code. */
  predicate IsChainCodeTag(tag: string) {
    var tagParts := SplitOn(tag, '.');
    StartsWith(tagParts[|tagParts| - 1], "chain_code")
  }

  /** One value, replaced when it equals oldCode. */
  function ReplaceOne(v: string, oldCode: string, newCode: string): string {
    if v == oldCode then newCode else v
  }

  /** Each value equal to oldCode replaced by newCode. */
  function Replaced(values: seq<string>, oldCode: string, newCode: string): seq<string> {
    MapSeq((v: string) => ReplaceOne(v, oldCode, newCode), values)
  }

  function RenameColumn(column: Column, oldCode: string, newCode: string): Column {
    if IsChainCodeTag(column.tag) then column.(values := Replaced(column.values, oldCode, newCode)) else column
  }

  function RenameLoop(loop: Loop, oldCode: string, newCode: string): Loop {
    Loop(MapSeq((c: Column) => RenameColumn(c, oldCode, newCode), loop.columns))
  }

  function RenameFrame(frame: SaveFrame, oldCode: string, newCode: string): SaveFrame {
    frame.(loops := MapSeq((l: Loop) => RenameLoop(l, oldCode, newCode), frame.loops))
  }

  /** The entry after the rewrite. */
  function RenameFrames(frames: seq<SaveFrame>, oldCode: string, newCode: string): seq<SaveFrame> {
    MapSeq((f: SaveFrame) => RenameFrame(f, oldCode, newCode), frames)
  }

  /** The replacements made in one column: its values equal to oldCode when it
      is a chain code column. */
  function ColumnChanges(column: Column, oldCode: string): nat {
    if IsChainCodeTag(column.tag) then multiset(column.values)[oldCode] else 0
  }

  function LoopChanges(loop: Loop, oldCode: string): nat {
    Sum(MapSeq((c: Column) => ColumnChanges(c, oldCode), loop.columns))
  }

  function FrameChanges(frame: SaveFrame, oldCode: string): nat {
    Sum(MapSeq((l: Loop) => LoopChanges(l, oldCode), frame.loops))
  }

  /** The value of changes at the end of the loop. */
  function TotalChanges(frames: seq<SaveFrame>, oldCode: string): nat {
    Sum(MapSeq((f: SaveFrame) => FrameChanges(f, oldCode), frames))
  }

  /** The names of the frames with a change, a name once per frame. */
  function ChangedNames(frames: seq<SaveFrame>, oldCode: string): seq<string> {
    if frames == [] then []
    else
      var previous := ChangedNames(frames[..|frames| - 1], oldCode);
      var last := frames[|frames| - 1];
      if FrameChanges(last, oldCode) > 0 then previous + [last.name] else previous
  }

  /** The OrderedSet changed_frames: each changed frame's name once, in the
      order of the first change. */
  function ChangedFrames(frames: seq<SaveFrame>, oldCode: string): seq<string> {
    Dedupe(ChangedNames(frames, oldCode))
  }

  /** for i, row in enumerate(tag_values): the in-place rewrite of one column. */
  method ReplaceValues(tagValues: array<string>, oldCode: string, newCode: string) returns (changes: nat)
    modifies tagValues
    ensures tagValues[..] == Replaced(old(tagValues[..]), oldCode, newCode)
    ensures changes == multiset(old(tagValues[..]))[oldCode]
  {
    ghost var original := tagValues[..];
    changes := 0;
    var i := 0;
    while i < tagValues.Length
      invariant 0 <= i <= tagValues.Length == |original|
      invariant forall k | 0 <= k < i :: tagValues[k] == ReplaceOne(original[k], oldCode, newCode)
      invariant forall k | i <= k < tagValues.Length :: tagValues[k] == original[k]
      invariant changes == multiset(original[..i])[oldCode]
    {
      CountStep(original, i, oldCode);
      if tagValues[i] == oldCode {
        tagValues[i] := newCode;
        changes := changes + 1;
      }
      i := i + 1;
    }
    ReplacedPointwise(original, tagValues[..], oldCode, newCode);
    assert original[..tagValues.Length] == original;
  }

  lemma ReplacedPointwise(values: seq<string>, after: seq<string>, oldCode: string, newCode: string)
    requires |after| == |values|
    requires forall k | 0 <= k < |values| :: after[k] == ReplaceOne(values[k], oldCode, newCode)
    ensures after == Replaced(values, oldCode, newCode)
  {
  }

  /** One more value of the column counted when it equals oldCode. */
  lemma CountStep(values: seq<string>, i: nat, oldCode: string)
    requires i < |values|
    ensures multiset(values[..i + 1])[oldCode] == multiset(values[..i])[oldCode] + if values[i] == oldCode then 1 else 0
  {
    assert values[..i + 1] == values[..i] + [values[i]];
  }

  /** One column: a chain code column is copied out, rewritten in place and
      stored back, as loop[tag] = tag_values does. */
  method RenameInColumn(column: Column, oldCode: string, newCode: string) returns (renamed: Column, changes: nat)
    ensures renamed == RenameColumn(column, oldCode, newCode)
    ensures changes == ColumnChanges(column, oldCode)
  {
    var tagParts := SplitOn(column.tag, '.');
    if StartsWith(tagParts[|tagParts| - 1], "chain_code") {
      var tagValues := new string[|column.values|](k requires 0 <= k < |column.values| => column.values[k]);
      assert tagValues[..] == column.values;
      changes := ReplaceValues(tagValues, oldCode, newCode);
      renamed := column.(values := tagValues[..]);
    } else {
      renamed, changes := column, 0;
    }
  }

  /** One loop: its columns in turn. */
  method RenameInLoop(loop: Loop, oldCode: string, newCode: string) returns (renamed: Loop, changes: nat)
    ensures renamed == RenameLoop(loop, oldCode, newCode)
    ensures changes == LoopChanges(loop, oldCode)
  {
    var columns := loop.columns;
    var renamedColumns: seq<Column> := [];
    changes := 0;
    var i := 0;
    while i < |columns|
      invariant 0 <= i <= |columns|
      invariant renamedColumns == RenameLoop(Loop(columns[..i]), oldCode, newCode).columns
      invariant changes == LoopChanges(Loop(columns[..i]), oldCode)
    {
      ColumnStep(columns, i, oldCode, newCode);
      var renamedColumn, columnChanges := RenameInColumn(columns[i], oldCode, newCode);
      renamedColumns := renamedColumns + [renamedColumn];
      changes := changes + columnChanges;
      i := i + 1;
    }
    assert columns[..|columns|] == columns;
    renamed := Loop(renamedColumns);
  }

  /** One save frame: its loops in turn. */
  method RenameInFrame(frame: SaveFrame, oldCode: string, newCode: string) returns (renamed: SaveFrame, changes: nat)
    ensures renamed == RenameFrame(frame, oldCode, newCode)
    ensures changes == FrameChanges(frame, oldCode)
  {
    var loops := frame.loops;
    var renamedLoops: seq<Loop> := [];
    changes := 0;
    var i := 0;
    while i < |loops|
      invariant 0 <= i <= |loops|
      invariant renamedLoops == RenameFrame(frame.(loops := loops[..i]), oldCode, newCode).loops
      invariant changes == FrameChanges(frame.(loops := loops[..i]), oldCode)
    {
      LoopStep(frame, i, oldCode, newCode);
      var renamedLoop, loopChanges := RenameInLoop(loops[i], oldCode, newCode);
      renamedLoops := renamedLoops + [renamedLoop];
      changes := changes + loopChanges;
      i := i + 1;
    }
    assert loops[..|loops|] == loops;
    renamed := frame.(loops := renamedLoops);
  }

  /** What one more column adds to the results of the loop over columns. */
  lemma ColumnStep(columns: seq<Column>, i: nat, oldCode: string, newCode: string)
    requires i < |columns|
    ensures RenameLoop(Loop(columns[..i + 1]), oldCode, newCode).columns ==
      RenameLoop(Loop(columns[..i]), oldCode, newCode).columns + [RenameColumn(columns[i], oldCode, newCode)]
    ensures LoopChanges(Loop(columns[..i + 1]), oldCode) == LoopChanges(Loop(columns[..i]), oldCode) + ColumnChanges(columns[i], oldCode)
  {
    assert columns[..i + 1][..i] == columns[..i];
  }

  /** What one more loop adds to the results of the loop over the loops of a frame. */
  lemma LoopStep(frame: SaveFrame, i: nat, oldCode: string, newCode: string)
    requires i < |frame.loops|
    ensures RenameFrame(frame.(loops := frame.loops[..i + 1]), oldCode, newCode).loops ==
      RenameFrame(frame.(loops := frame.loops[..i]), oldCode, newCode).loops + [RenameLoop(frame.loops[i], oldCode, newCode)]
    ensures FrameChanges(frame.(loops := frame.loops[..i + 1]), oldCode) ==
      FrameChanges(frame.(loops := frame.loops[..i]), oldCode) + LoopChanges(frame.loops[i], oldCode)
  {
    assert frame.loops[..i + 1][..i] == frame.loops[..i];
  }

  /** What one more frame adds to the results of the loop over frames. */
  lemma FrameStep(p: seq<SaveFrame>, f: SaveFrame, oldCode: string, newCode: string)
    ensures RenameFrames(p + [f], oldCode, newCode) == RenameFrames(p, oldCode, newCode) + [RenameFrame(f, oldCode, newCode)]
    ensures TotalChanges(p + [f], oldCode) == TotalChanges(p, oldCode) + FrameChanges(f, oldCode)
    ensures ChangedFrames(p + [f], oldCode) ==
      if FrameChanges(f, oldCode) > 0 && f.name !in ChangedFrames(p, oldCode)
      then ChangedFrames(p, oldCode) + [f.name] else ChangedFrames(p, oldCode)
  {
    assert (p + [f])[..|p|] == p;
    var names := ChangedNames(p, oldCode);
    if FrameChanges(f, oldCode) > 0 {
      assert (names + [f.name])[..|names|] == names;
    }
  }

  /** The loop over frames after frame i: the state it keeps is that of the
      frames up to and including i. */
  lemma NextFrame(original: seq<SaveFrame>, i: nat, saveFrames: seq<SaveFrame>, changes: nat, changedFrames: seq<string>,
                  renamed: SaveFrame, frameChanges: nat, oldCode: string, newCode: string)
    requires i < |original|
    requires saveFrames == RenameFrames(original[..i], oldCode, newCode) + original[i..]
    requires changes == TotalChanges(original[..i], oldCode)
    requires changedFrames == ChangedFrames(original[..i], oldCode)
    requires renamed == RenameFrame(original[i], oldCode, newCode)
    requires frameChanges == FrameChanges(original[i], oldCode)
    ensures saveFrames[i := renamed] == RenameFrames(original[..i + 1], oldCode, newCode) + original[i + 1..]
    ensures changes + frameChanges == TotalChanges(original[..i + 1], oldCode)
    ensures ChangedFrames(original[..i + 1], oldCode) ==
      if frameChanges > 0 && original[i].name !in changedFrames then changedFrames + [original[i].name] else changedFrames
  {
    assert original[..i + 1] == original[..i] + [original[i]];
    FrameStep(original[..i], original[i], oldCode, newCode);
    var done := RenameFrames(original[..i], oldCode, newCode);
    assert |done| == i;
    UpdateAfter(done, original[i..], renamed);
    assert original[i..][1..] == original[i + 1..];
  }

  /** The loop over frames reaches frame i before rewriting it. */
  lemma CurrentFrame(original: seq<SaveFrame>, i: nat, saveFrames: seq<SaveFrame>, oldCode: string, newCode: string)
    requires i < |original|
    requires saveFrames == RenameFrames(original[..i], oldCode, newCode) + original[i..]
    ensures |saveFrames| == |original| && saveFrames[i] == original[i]
  {
    assert |RenameFrames(original[..i], oldCode, newCode)| == i;
  }

  /** Overwriting the first item after a prefix. */
  lemma UpdateAfter<T>(done: seq<T>, rest: seq<T>, x: T)
    requires |rest| > 0
    ensures (done + rest)[|done|] == rest[0]
    ensures (done + rest)[|done| := x] == done + [x] + rest[1..]
  {
  }

  /** The entry the command reads and prints. */
  class Entry {
    var frames: seq<SaveFrame>

    constructor(frames: seq<SaveFrame>)
      ensures this.frames == frames
    {
      this.frames := frames;
    }

    /** rename: the rewrite of every frame, with the change count and the
        changed frames. The frame selectors are taken but, as in the source,
        restrict nothing: the test on them only continues their own loop. */
    method Rename(oldCode: string, newCode: string, frameSelectors: seq<string>)
      returns (changes: nat, changedFrames: seq<string>)
      modifies this
      ensures frames == RenameFrames(old(frames), oldCode, newCode)
      ensures changes == TotalChanges(old(frames), oldCode)
      ensures changedFrames == ChangedFrames(old(frames), oldCode)
    {
      var original := frames;
      var saveFrames := original;
      changes := 0;
      changedFrames := [];
      var i := 0;
      while i < |saveFrames|
        invariant 0 <= i <= |saveFrames| && |saveFrames| == |original|
        invariant saveFrames == RenameFrames(original[..i], oldCode, newCode) + original[i..]
        invariant changes == TotalChanges(original[..i], oldCode)
        invariant changedFrames == ChangedFrames(original[..i], oldCode)
      {
        CurrentFrame(original, i, saveFrames, oldCode, newCode);
        var saveFrame := saveFrames[i];
        var renamed, frameChanges := RenameInFrame(saveFrame, oldCode, newCode);
        NextFrame(original, i, saveFrames, changes, changedFrames, renamed, frameChanges, oldCode, newCode);
        changes := changes + frameChanges;
        if frameChanges > 0 && saveFrame.name !in changedFrames {
          changedFrames := changedFrames + [saveFrame.name];
        }
        saveFrames := saveFrames[i := renamed];
        i := i + 1;
      }
      assert original[..|original|] == original;
      frames := saveFrames;
    }
  }

  // ------------------------------------------------------------ properties

  lemma {:induction false} SumZero(s: seq<nat>)
    ensures Sum(s) == 0 <==> forall i | 0 <= i < |s| :: s[i] == 0
  {
    if s != [] {
      SumZero(s[..|s| - 1]);
      assert forall i | 0 <= i < |s| - 1 :: s[..|s| - 1][i] == s[i];
    }
  }

  /** A column is left as it was exactly when it has nothing to replace. */
  lemma ColumnUnchangedIffNoChanges(column: Column, oldCode: string, newCode: string)
    requires oldCode != newCode
    ensures RenameColumn(column, oldCode, newCode) == column <==> ColumnChanges(column, oldCode) == 0
  {
    if IsChainCodeTag(column.tag) {
      var values := column.values;
      var r := Replaced(values, oldCode, newCode);
      if multiset(values)[oldCode] == 0 {
        assert forall i | 0 <= i < |values| :: values[i] != oldCode by {
          forall i | 0 <= i < |values| ensures values[i] != oldCode {
            assert values[i] in multiset(values);
          }
        }
        assert r == values;
      } else {
        assert oldCode in multiset(values);
        var i :| 0 <= i < |values| && values[i] == oldCode;
        assert r[i] == newCode;
      }
    }
  }

  lemma LoopUnchangedIffNoChanges(loop: Loop, oldCode: string, newCode: string)
    requires oldCode != newCode
    ensures RenameLoop(loop, oldCode, newCode) == loop <==> LoopChanges(loop, oldCode) == 0
  {
    var columns := loop.columns;
    forall c | c in columns ensures RenameColumn(c, oldCode, newCode) == c <==> ColumnChanges(c, oldCode) == 0 {
      ColumnUnchangedIffNoChanges(c, oldCode, newCode);
    }
    SumZero(MapSeq((c: Column) => ColumnChanges(c, oldCode), columns));
    if RenameLoop(loop, oldCode, newCode) == loop {
      forall i | 0 <= i < |columns| ensures ColumnChanges(columns[i], oldCode) == 0 {
        assert RenameLoop(loop, oldCode, newCode).columns[i] == RenameColumn(columns[i], oldCode, newCode);
      }
    }
  }

  lemma FrameUnchangedIffNoChanges(frame: SaveFrame, oldCode: string, newCode: string)
    requires oldCode != newCode
    ensures RenameFrame(frame, oldCode, newCode) == frame <==> FrameChanges(frame, oldCode) == 0
  {
    var loops := frame.loops;
    forall l | l in loops ensures RenameLoop(l, oldCode, newCode) == l <==> LoopChanges(l, oldCode) == 0 {
      LoopUnchangedIffNoChanges(l, oldCode, newCode);
    }
    SumZero(MapSeq((l: Loop) => LoopChanges(l, oldCode), loops));
    if RenameFrame(frame, oldCode, newCode) == frame {
      forall i | 0 <= i < |loops| ensures LoopChanges(loops[i], oldCode) == 0 {
        assert RenameFrame(frame, oldCode, newCode).loops[i] == RenameLoop(loops[i], oldCode, newCode);
      }
    }
  }

  /** The change count is 0 exactly when the rewrite leaves the entry as it
      was (for two different chain codes). */
  lemma NoChangesIffEntryUnchanged(frames: seq<SaveFrame>, oldCode: string, newCode: string)
    requires oldCode != newCode
    ensures TotalChanges(frames, oldCode) == 0 <==> RenameFrames(frames, oldCode, newCode) == frames
  {
    forall f | f in frames ensures RenameFrame(f, oldCode, newCode) == f <==> FrameChanges(f, oldCode) == 0 {
      FrameUnchangedIffNoChanges(f, oldCode, newCode);
    }
    SumZero(MapSeq((f: SaveFrame) => FrameChanges(f, oldCode), frames));
    if RenameFrames(frames, oldCode, newCode) == frames {
      forall i | 0 <= i < |frames| ensures FrameChanges(frames[i], oldCode) == 0 {
        assert RenameFrames(frames, oldCode, newCode)[i] == RenameFrame(frames[i], oldCode, newCode);
      }
    }
  }

  /** Only chain code columns are edited: in them every value equal to the old
      code becomes the new one and the others stay; every other column, every
      tag, frame name and the shape of the entry are kept. */
  lemma RenameFramesEffect(frames: seq<SaveFrame>, oldCode: string, newCode: string)
    ensures var renamed := RenameFrames(frames, oldCode, newCode);
      |renamed| == |frames| &&
      forall f | 0 <= f < |frames| ::
        && renamed[f].name == frames[f].name
        && |renamed[f].loops| == |frames[f].loops|
        && forall l | 0 <= l < |frames[f].loops| ::
          var before, after := frames[f].loops[l].columns, renamed[f].loops[l].columns;
          && |after| == |before|
          && forall c | 0 <= c < |before| ::
            && after[c].tag == before[c].tag
            && (!IsChainCodeTag(before[c].tag) ==> after[c] == before[c])
            && |after[c].values| == |before[c].values|
            && (IsChainCodeTag(before[c].tag) ==> forall v | 0 <= v < |before[c].values| ::
                  after[c].values[v] == if before[c].values[v] == oldCode then newCode else before[c].values[v])
  {
    var renamed := RenameFrames(frames, oldCode, newCode);
    forall f | 0 <= f < |frames| ensures renamed[f] == RenameFrame(frames[f], oldCode, newCode) {
    }
  }

  lemma RenamedColumnHasNoOldCode(column: Column, oldCode: string, newCode: string)
    requires oldCode != newCode
    ensures ColumnChanges(RenameColumn(column, oldCode, newCode), oldCode) == 0
  {
    var renamed := RenameColumn(column, oldCode, newCode);
    if IsChainCodeTag(column.tag) {
      assert oldCode !in renamed.values;
      assert oldCode !in multiset(renamed.values);
    }
  }

  lemma RenamedLoopHasNoOldCode(loop: Loop, oldCode: string, newCode: string)
    requires oldCode != newCode
    ensures LoopChanges(RenameLoop(loop, oldCode, newCode), oldCode) == 0
  {
    var columns := RenameLoop(loop, oldCode, newCode).columns;
    forall c | 0 <= c < |columns| ensures ColumnChanges(columns[c], oldCode) == 0 {
      RenamedColumnHasNoOldCode(loop.columns[c], oldCode, newCode);
    }
    SumZero(MapSeq((c: Column) => ColumnChanges(c, oldCode), columns));
  }

  lemma RenamedFrameHasNoOldCode(frame: SaveFrame, oldCode: string, newCode: string)
    requires oldCode != newCode
    ensures FrameChanges(RenameFrame(frame, oldCode, newCode), oldCode) == 0
  {
    var loops := RenameFrame(frame, oldCode, newCode).loops;
    forall l | 0 <= l < |loops| ensures LoopChanges(loops[l], oldCode) == 0 {
      RenamedLoopHasNoOldCode(frame.loops[l], oldCode, newCode);
    }
    SumZero(MapSeq((l: Loop) => LoopChanges(l, oldCode), loops));
  }

  /** After the rewrite no chain code column holds the old code, so a second
      rewrite changes nothing. */
  lemma RenameLeavesNoOldCode(frames: seq<SaveFrame>, oldCode: string, newCode: string)
    requires oldCode != newCode
    ensures TotalChanges(RenameFrames(frames, oldCode, newCode), oldCode) == 0
    ensures RenameFrames(RenameFrames(frames, oldCode, newCode), oldCode, newCode) == RenameFrames(frames, oldCode, newCode)
  {
    var renamed := RenameFrames(frames, oldCode, newCode);
    forall f | 0 <= f < |renamed| ensures FrameChanges(renamed[f], oldCode) == 0 {
      RenamedFrameHasNoOldCode(frames[f], oldCode, newCode);
    }
    SumZero(MapSeq((f: SaveFrame) => FrameChanges(f, oldCode), renamed));
    NoChangesIffEntryUnchanged(renamed, oldCode, newCode);
  }

  lemma {:induction false} ChangedNamesMembers(frames: seq<SaveFrame>, oldCode: string)
    ensures forall name :: name in ChangedNames(frames, oldCode) <==>
      exists i | 0 <= i < |frames| :: frames[i].name == name && FrameChanges(frames[i], oldCode) > 0
  {
    if frames != [] {
      var p := frames[..|frames| - 1];
      ChangedNamesMembers(p, oldCode);
      assert forall i | 0 <= i < |p| :: p[i] == frames[i];
    }
  }

  /** changed_frames names each frame with a replacement once and no other. */
  lemma ChangedFramesContents(frames: seq<SaveFrame>, oldCode: string)
    ensures Distinct(ChangedFrames(frames, oldCode))
    ensures forall name :: name in ChangedFrames(frames, oldCode) <==>
      exists i | 0 <= i < |frames| :: frames[i].name == name && FrameChanges(frames[i], oldCode) > 0
  {
    ChangedNamesMembers(frames, oldCode);
    var names := ChangedNames(frames, oldCode);
    var r := ChangedFrames(frames, oldCode);
    assert forall name :: name in r <==> name in names by {
      forall name | name in r ensures name in names {
        var i :| 0 <= i < |r| && r[i] == name;
      }
      forall name | name in names ensures name in r {
        var i :| 0 <= i < |names| && names[i] == name;
      }
    }
  }

  /** There are changes exactly when some frame is listed as changed. */
  lemma ChangesIffChangedFrames(frames: seq<SaveFrame>, oldCode: string)
    ensures TotalChanges(frames, oldCode) > 0 <==> |ChangedFrames(frames, oldCode)| > 0
  {
    ChangedFramesContents(frames, oldCode);
    SumZero(MapSeq((f: SaveFrame) => FrameChanges(f, oldCode), frames));
    if TotalChanges(frames, oldCode) > 0 {
      var i :| 0 <= i < |frames| && FrameChanges(frames[i], oldCode) != 0;
      assert frames[i].name in ChangedFrames(frames, oldCode);
    }
    if |ChangedFrames(frames, oldCode)| > 0 {
      assert ChangedFrames(frames, oldCode)[0] in ChangedFrames(frames, oldCode);
    }
  }

  // ---------------------------------------------------------------- report

  /** What --verbose prints, and whether it goes to stdout (with --comment) or
      stderr. */
  datatype Report = Report(toStdout: bool, lines: seq<string>)

  function CommentPrefix(comment: bool): string {
    if comment then "# " else ""
  }

  /** The report: a summary line, the changed frames five to a line, and an
      empty line. */
  function RenameReport(changes: nat, changedFrames: seq<string>, comment: bool): Report {
    var prefix := CommentPrefix(comment);
    var body :=
      if changes >= 1 then
        [prefix + "rename chain: " + NatToString(changes) + " changes made in the following frames"] +
        MapSeq((chunk: seq<string>) => prefix + "  " + Join(", ", chunk), Chunks(changedFrames, 5))
      else [prefix + "rename chain: no changes made"];
    Report(comment, body + [""])
  }

  /** The report says "no changes made" exactly when there were none; otherwise
      it lists the changed frames, in order, at most five to a line. */
  lemma RenameReportContents(changes: nat, changedFrames: seq<string>, comment: bool)
    ensures var report := RenameReport(changes, changedFrames, comment);
      var prefix := CommentPrefix(comment);
      && report.toStdout == comment
      && report.lines[|report.lines| - 1] == ""
      && (report.lines[0] == prefix + "rename chain: no changes made" <==> changes == 0)
      && (changes == 0 ==> |report.lines| == 2)
      && (changes >= 1 ==>
            var groups := Chunks(changedFrames, 5);
            && |report.lines| == |groups| + 2
            && Flatten(groups) == changedFrames
            && forall k | 0 <= k < |groups| :: |groups[k]| <= 5 && report.lines[k + 1] == prefix + "  " + Join(", ", groups[k]))
  {
    var prefix := CommentPrefix(comment);
    var report := RenameReport(changes, changedFrames, comment);
    if changes >= 1 {
      var digits := NatToString(changes);
      var line := prefix + "rename chain: " + digits + " changes made in the following frames";
      var none := prefix + "rename chain: no changes made";
      var at := |prefix| + 14;
      assert line[at] == digits[0];
      assert none[at] == 'n';
      assert IsDigit(digits[0]);
    }
  }

  // ---------------------------------------------------------- frame selectors

  /** fnmatch(name, '*selector*') for a selector without wildcards: the
      selector occurs in the name. */
  predicate Contains(name: string, selector: string) {
    exists i | 0 <= i <= |name| :: StartsWith(name[i..], selector)
  }

  /** A frame the --frame options pick: any frame when there are none,
      otherwise one whose name contains one of them. */
  predicate Selected(name: string, frameSelectors: seq<string>) {
    |frameSelectors| == 0 || exists k | 0 <= k < |frameSelectors| :: Contains(name, frameSelectors[k])
  }

  /** A tag whose part after its last dot starts with chain_code. */
  lemma ChainCodeTagOf(head: string, tail: string)
    requires '.' !in tail && StartsWith(tail, "chain_code")
    ensures IsChainCodeTag(head + ['.'] + tail)
  {
    SplitOnLastPart(head, tail, '.');
  }

  /** As written, a frame that no selector picks is still rewritten: for
      instance a frame nef_rdc_list_1 holding _nef_rdc_restraint.chain_code_1
      value A, renamed from A to B with the selector molecular_system. */
  lemma UnselectedFrameRenamed(name: string, category: string, selector: string, head: string, tail: string)
    requires !Contains(name, selector)
    requires '.' !in tail && StartsWith(tail, "chain_code")
    ensures var frames := [SaveFrame(name, category, [Loop([Column(head + ['.'] + tail, ["A"])])])];
      && !Selected(name, [selector])
      && RenameFrames(frames, "A", "B")[0] != frames[0]
  {
    var column := Column(head + ['.'] + tail, ["A"]);
    ChainCodeTagOf(head, tail);
    assert RenameColumn(column, "A", "B").values[0] == "B";
    var frame := SaveFrame(name, category, [Loop([column])]);
    assert RenameFrame(frame, "A", "B").loops[0].columns[0] == RenameColumn(column, "A", "B");
  }

  /** As written, every frame with something to replace is rewritten, whether
      or not a selector picks it. */
  lemma UnselectedFramesRenamed(frames: seq<SaveFrame>, frameSelectors: seq<string>, oldCode: string, newCode: string)
    requires oldCode != newCode
    ensures forall i | 0 <= i < |frames| && !Selected(frames[i].name, frameSelectors) && FrameChanges(frames[i], oldCode) > 0 ::
      RenameFrames(frames, oldCode, newCode)[i] != frames[i]
  {
    forall i | 0 <= i < |frames| && FrameChanges(frames[i], oldCode) > 0
      ensures RenameFrames(frames, oldCode, newCode)[i] != frames[i]
    {
      FrameUnchangedIffNoChanges(frames[i], oldCode, newCode);
    }
  }

  /** The rewrite limited to the selected frames. */
  function RenameSelectedFrames(frames: seq<SaveFrame>, frameSelectors: seq<string>, oldCode: string, newCode: string)
    : seq<SaveFrame>
  {
    MapSeq((f: SaveFrame) => if Selected(f.name, frameSelectors) then RenameFrame(f, oldCode, newCode) else f, frames)
  }

  /** Frames the selectors do not pick are left as they were, the others are
      rewritten; without selectors this is the whole rewrite. */
  lemma RenameSelectedFramesEffect(frames: seq<SaveFrame>, frameSelectors: seq<string>, oldCode: string, newCode: string)
    ensures var renamed := RenameSelectedFrames(frames, frameSelectors, oldCode, newCode);
      && |renamed| == |frames|
      && (forall i | 0 <= i < |frames| && !Selected(frames[i].name, frameSelectors) :: renamed[i] == frames[i])
      && (forall i | 0 <= i < |frames| && Selected(frames[i].name, frameSelectors) ::
            renamed[i] == RenameFrames(frames, oldCode, newCode)[i])
      && (frameSelectors == [] ==> renamed == RenameFrames(frames, oldCode, newCode))
  {
    var renamed := RenameSelectedFrames(frames, frameSelectors, oldCode, newCode);
    if frameSelectors == [] {
      assert forall i | 0 <= i < |frames| :: renamed[i] == RenameFrames(frames, oldCode, newCode)[i];
    }
  }
}
