/**
 * The list chains command (tools/list/chains.py): the chain codes found in
 * every loop of every nef_molecular_system save frame are gathered into a set,
 * sorted, joined with single spaces and printed on one line, after an optional
 * comment prefix and an optional count with the noun chain or chains.
 */
module ListChains {
  import opened Wrappers
  import opened Text
  import opened Collections
  import opened NefEntry

  const MOLECULAR_SYSTEM := "nef_molecular_system"
  const CHAIN_CODE := "chain_code"

  /** loop.get_tag('chain_code') fails on a loop without that tag; the error
      names the frame the loop is in. */
  datatype ListError = NoChainCodeTag(frameName: string)

  /** The column's tag, without its category, is the given name. */
  predicate HasTagName(column: Column, tagName: string) {
    var tagParts := SplitOn(column.tag, '.');
    tagParts[|tagParts| - 1] == tagName
  }

  /** loop.get_tag(tagName): the values of the first column with that name. */
  function TagValues(columns: seq<Column>, tagName: string): Option<seq<string>> {
    if columns == [] then None
    else if HasTagName(columns[0], tagName) then Some(columns[0].values)
    else TagValues(columns[1..], tagName)
  }

  /** get_tag fails exactly when no column has the name, and otherwise gives
      the values of a column that has it. */
  lemma {:induction false} TagValuesFound(columns: seq<Column>, tagName: string)
    ensures TagValues(columns, tagName).None? <==> forall i | 0 <= i < |columns| :: !HasTagName(columns[i], tagName)
    ensures TagValues(columns, tagName).Some? ==> exists i | 0 <= i < |columns| ::
      HasTagName(columns[i], tagName) && TagValues(columns, tagName).value == columns[i].values
  {
    if columns != [] && !HasTagName(columns[0], tagName) {
      TagValuesFound(columns[1..], tagName);
      assert forall i | 1 <= i < |columns| :: columns[i] == columns[1..][i - 1];
      if TagValues(columns, tagName).Some? {
        var i :| 0 <= i < |columns[1..]| && HasTagName(columns[1..][i], tagName)
          && TagValues(columns, tagName).value == columns[1..][i].values;
        assert HasTagName(columns[i + 1], tagName);
      }
    }
  }

  /** loop.get_tag('chain_code') */
  function ChainCodeValues(columns: seq<Column>): Option<seq<string>> {
    TagValues(columns, CHAIN_CODE)
  }

  /** The chain codes of a frame's loops, added loop by loop; the first loop
      without a chain_code column stops the command. */
  function LoopsChains(frameName: string, loops: seq<Loop>): Result<set<string>, ListError> {
    if loops == [] then Ok({})
    else
      var before := LoopsChains(frameName, loops[..|loops| - 1]);
      var values := ChainCodeValues(loops[|loops| - 1].columns);
      if before.Err? then before
      else if values.None? then Err(NoChainCodeTag(frameName))
      else Ok(before.value + set c | c in values.value)
  }

  /** The chain codes of the molecular system frames, added frame by frame. */
  function FramesChains(frames: seq<SaveFrame>): Result<set<string>, ListError> {
    if frames == [] then Ok({})
    else
      var before := FramesChains(frames[..|frames| - 1]);
      var frame := frames[|frames| - 1];
      if before.Err? || frame.category != MOLECULAR_SYSTEM then before
      else
        var added := LoopsChains(frame.name, frame.loops);
        if added.Err? then Err(added.error) else Ok(before.value + added.value)
  }

  /** A loop is read without error exactly when it has a chain_code column. */
  predicate Listable(frames: seq<SaveFrame>) {
    forall i, j | 0 <= i < |frames| && frames[i].category == MOLECULAR_SYSTEM && 0 <= j < |frames[i].loops| ::
      ChainCodeValues(frames[i].loops[j].columns).Some?
  }

  /** c is a value of the chain_code column of loop j of frame i. */
  predicate ChainCodeAt(frames: seq<SaveFrame>, i: int, j: int, c: string) {
    && 0 <= i < |frames| && frames[i].category == MOLECULAR_SYSTEM
    && 0 <= j < |frames[i].loops|
    && var values := ChainCodeValues(frames[i].loops[j].columns);
       values.Some? && c in values.value
  }

  /** c is a value of the loop's chain_code column. */
  predicate InChainCodes(loop: Loop, c: string) {
    var values := ChainCodeValues(loop.columns);
    values.Some? && c in values.value
  }

  lemma {:induction false} LoopsChainsContents(frameName: string, loops: seq<Loop>)
    ensures LoopsChains(frameName, loops).Ok? <==>
      forall j | 0 <= j < |loops| :: ChainCodeValues(loops[j].columns).Some?
    ensures LoopsChains(frameName, loops).Err? ==> LoopsChains(frameName, loops) == Err(NoChainCodeTag(frameName))
    ensures LoopsChains(frameName, loops).Ok? ==> forall c :: c in LoopsChains(frameName, loops).value <==>
      exists j | 0 <= j < |loops| :: InChainCodes(loops[j], c)
  {
    if loops != [] {
      var n := |loops| - 1;
      var p := loops[..n];
      LoopsChainsContents(frameName, p);
      assert forall j | 0 <= j < n :: p[j] == loops[j];
      var r := LoopsChains(frameName, loops);
      if r.Ok? {
        var before := LoopsChains(frameName, p).value;
        var values := ChainCodeValues(loops[n].columns).value;
        assert r.value == before + set c | c in values;
        forall c ensures c in r.value <==> exists j | 0 <= j < |loops| :: InChainCodes(loops[j], c) {
          if c in r.value && c !in before {
            assert InChainCodes(loops[n], c);
          }
          if exists j | 0 <= j < |loops| :: InChainCodes(loops[j], c) {
            var j :| 0 <= j < |loops| && InChainCodes(loops[j], c);
            if j < n {
              assert InChainCodes(p[j], c);
            }
          }
        }
      }
    }
  }

  /** Once a prefix of the frames fails, the whole list fails the same way. */
  lemma {:induction false} FramesChainsErrorStays(frames: seq<SaveFrame>, i: nat)
    requires i <= |frames| && FramesChains(frames[..i]).Err?
    ensures FramesChains(frames) == FramesChains(frames[..i])
    decreases |frames| - i
  {
    if i < |frames| {
      var p := frames[..|frames| - 1];
      assert p[..i] == frames[..i];
      FramesChainsErrorStays(p, i);
    } else {
      assert frames[..i] == frames;
    }
  }

  /** Ok exactly when every loop of every molecular system frame has a
      chain_code column; then the set holds exactly the values of those
      columns. Frames of other categories are not looked at. */
  lemma {:induction false} FramesChainsContents(frames: seq<SaveFrame>)
    ensures FramesChains(frames).Ok? <==> Listable(frames)
    ensures FramesChains(frames).Ok? ==> forall c :: c in FramesChains(frames).value <==>
      exists i, j :: ChainCodeAt(frames, i, j, c)
  {
    if frames != [] {
      var n := |frames| - 1;
      var p := frames[..n];
      var frame := frames[n];
      FramesChainsContents(p);
      LoopsChainsContents(frame.name, frame.loops);
      assert forall i | 0 <= i < n :: p[i] == frames[i];
      assert forall i, j, c | ChainCodeAt(p, i, j, c) :: ChainCodeAt(frames, i, j, c);
      if FramesChains(frames).Ok? {
        forall c | c in FramesChains(frames).value ensures exists i, j :: ChainCodeAt(frames, i, j, c) {
          if c !in FramesChains(p).value {
            var j :| 0 <= j < |frame.loops| && ChainCodeValues(frame.loops[j].columns).Some?
              && c in ChainCodeValues(frame.loops[j].columns).value;
            assert ChainCodeAt(frames, n, j, c);
          }
        }
        forall c | exists i, j :: ChainCodeAt(frames, i, j, c) ensures c in FramesChains(frames).value {
          var i, j :| ChainCodeAt(frames, i, j, c);
          if i < n {
            assert ChainCodeAt(p, i, j, c);
          }
        }
      }
      if !Listable(p) {
        var i, j :| 0 <= i < n && p[i].category == MOLECULAR_SYSTEM && 0 <= j < |p[i].loops|
          && ChainCodeValues(p[i].loops[j].columns).None?;
        assert frames[i] == p[i];
      }
    }
  }

  /** The inner loop of chains: the codes of each loop of one frame added to
      the set. */
  method AddLoopChains(chains: set<string>, frameName: string, loops: seq<Loop>)
    returns (r: Result<set<string>, ListError>)
    ensures LoopsChains(frameName, loops).Err? ==> r == LoopsChains(frameName, loops)
    ensures LoopsChains(frameName, loops).Ok? ==> r == Ok(chains + LoopsChains(frameName, loops).value)
  {
    var updated := chains;
    var j := 0;
    while j < |loops|
      invariant 0 <= j <= |loops|
      invariant LoopsChains(frameName, loops[..j]).Ok?
      invariant updated == chains + LoopsChains(frameName, loops[..j]).value
    {
      assert loops[..j + 1][..j] == loops[..j];
      var values := ChainCodeValues(loops[j].columns);
      if values.None? {
        assert LoopsChains(frameName, loops[..j + 1]).Err?;
        LoopsErrorStays(frameName, loops, j + 1);
        return Err(NoChainCodeTag(frameName));
      }
      updated := updated + set c | c in values.value;
      j := j + 1;
    }
    assert loops[..j] == loops;
    return Ok(updated);
  }

  /** The chains set of the source, built by updating it loop by loop. */
  method CollectChains(frames: seq<SaveFrame>) returns (r: Result<set<string>, ListError>)
    ensures r == FramesChains(frames)
  {
    var chains: set<string> := {};
    var i := 0;
    while i < |frames|
      invariant 0 <= i <= |frames|
      invariant FramesChains(frames[..i]) == Ok(chains)
    {
      var frame := frames[i];
      assert frames[..i + 1][..i] == frames[..i];
      assert frames[..i + 1][i] == frame;
      if frame.category == MOLECULAR_SYSTEM {
        var added := AddLoopChains(chains, frame.name, frame.loops);
        if added.Err? {
          FramesChainsErrorStays(frames, i + 1);
          return added;
        }
        chains := added.value;
      }
      i := i + 1;
    }
    assert frames[..i] == frames;
    return Ok(chains);
  }

  /** Once a prefix of the loops fails, the frame fails the same way. */
  lemma {:induction false} LoopsErrorStays(frameName: string, loops: seq<Loop>, j: nat)
    requires j <= |loops| && LoopsChains(frameName, loops[..j]).Err?
    ensures LoopsChains(frameName, loops) == LoopsChains(frameName, loops[..j])
    decreases |loops| - j
  {
    if j < |loops| {
      var p := loops[..|loops| - 1];
      assert p[..j] == loops[..j];
      LoopsErrorStays(frameName, p, j);
    } else {
      assert loops[..j] == loops;
    }
  }

  /** 'chain' for exactly one chain, 'chains' otherwise. */
  function Noun(count: nat): string {
    if count == 1 then "chain" else "chains"
  }

  /** The codes, sorted and joined with single spaces. */
  function Listing(chains: set<string>): string {
    Join(" ", SortedStrings(chains))
  }

  /** The line the command prints: the comment prefix, the verbose prefix
      (the length of the listing and the noun), then the listing. */
  function ChainsLine(chains: set<string>, comment: bool, verbose: bool): string {
    var result := Listing(chains);
    var verbosePrefix := if verbose then NatToString(|result|) + " " + Noun(|chains|) + ": " else "";
    (if comment then "# " else "") + verbosePrefix + result
  }

  /** chains: the printed line, or the error of a loop without chain codes. */
  method Chains(frames: seq<SaveFrame>, comment: bool, verbose: bool) returns (r: Result<string, ListError>)
    ensures FramesChains(frames).Err? ==> r == Err(FramesChains(frames).error)
    ensures FramesChains(frames).Ok? ==> r == Ok(ChainsLine(FramesChains(frames).value, comment, verbose))
  {
    var chains := CollectChains(frames);
    if chains.Err? {
      return Err(chains.error);
    }
    return Ok(ChainsLine(chains.value, comment, verbose));
  }

  /** The words before a listing: "#" for a comment, then the count and the
      noun with its colon when verbose. */
  function PrefixWords(count: string, noun: string, comment: bool, verbose: bool): seq<string> {
    (if comment then ["#"] else []) + (if verbose then [count, noun + ":"] else [])
  }

  lemma SplitAfterSpace(s: string)
    ensures Split(" " + s) == Split(s)
  {
    assert (" " + s)[1..] == s;
  }

  lemma NounWord(count: nat)
    ensures IsToken(Noun(count) + ":")
  {
    var w := Noun(count) + ":";
    assert forall i | 0 <= i < |w| :: w[i] in "chains:";
  }

  /** The words of a verbose prefix followed by a listing. */
  lemma {:induction false} VerboseWords(count: string, noun: string, listing: string)
    requires IsToken(count) && IsToken(noun + ":")
    ensures Split(count + " " + noun + ": " + listing) == [count, noun + ":"] + Split(listing)
  {
    var word := noun + ":";
    var rest := " " + listing;
    var line := count + " " + noun + ": " + listing;
    assert line == count + (" " + (word + rest)) by {
      var a := count + " ";
      assert ": " == ":" + " ";
      SeqAppendAssoc(a + noun, ": ", listing);
      SeqAppendAssoc(":", " ", listing);
      SeqAppendAssoc(a, noun, ":" + rest);
      SeqAppendAssoc(noun, ":", rest);
      SeqAppendAssoc(count, " ", word + rest);
    }
    assert Split(line) == [count] + Split(" " + (word + rest)) by {
      SplitTokenThenRest(count, " " + (word + rest));
    }
    assert Split(" " + (word + rest)) == [word] + Split(listing) by {
      SplitAfterSpace(word + rest);
      SplitTokenThenRest(word, rest);
      SplitAfterSpace(listing);
    }
    assert [count, word] == [count] + [word];
    SeqAppendAssoc([count], [word], Split(listing));
  }

  /** A comment prefix adds the word "#". */
  lemma CommentWords(s: string)
    ensures Split("# " + s) == ["#"] + Split(s)
  {
    assert "# " == "#" + " ";
    SeqAppendAssoc("#", " ", s);
    SplitTokenThenRest("#", " " + s);
    SplitAfterSpace(s);
  }

  lemma VerbosePartWords(count: string, noun: string, verbose: bool, listing: string)
    requires IsToken(count) && IsToken(noun + ":")
    ensures Split((if verbose then count + " " + noun + ": " else "") + listing)
      == (if verbose then [count, noun + ":"] else []) + Split(listing)
  {
    if verbose {
      VerboseWords(count, noun, listing);
    } else {
      assert "" + listing == listing;
    }
  }

  lemma CommentPartWords(comment: bool, rest: string)
    ensures Split((if comment then "# " else "") + rest) == (if comment then ["#"] else []) + Split(rest)
  {
    if comment {
      CommentWords(rest);
    } else {
      assert "" + rest == rest;
    }
  }

  /** The words of a line made of the optional prefixes and a listing. */
  lemma PrefixedWords(count: string, noun: string, comment: bool, verbose: bool, listing: string)
    requires IsToken(count) && IsToken(noun + ":")
    ensures Split((if comment then "# " else "") + (if verbose then count + " " + noun + ": " else "") + listing)
      == PrefixWords(count, noun, comment, verbose) + Split(listing)
  {
    var commentPart := if comment then "# " else "";
    var verbosePart := if verbose then count + " " + noun + ": " else "";
    var commentWords: seq<string> := if comment then ["#"] else [];
    var verboseWords: seq<string> := if verbose then [count, noun + ":"] else [];
    VerbosePartWords(count, noun, verbose, listing);
    CommentPartWords(comment, verbosePart + listing);
    SeqAppendAssoc(commentPart, verbosePart, listing);
    assert PrefixWords(count, noun, comment, verbose) == commentWords + verboseWords;
    SeqAppendAssoc(commentWords, verboseWords, Split(listing));
  }

  /** Read back with split(), the line is its prefix words followed by each
      chain code exactly once, in increasing order; the noun is chain exactly
      when there is one code. */
  lemma ChainsLineWords(chains: set<string>, comment: bool, verbose: bool)
    requires forall c | c in chains :: IsToken(c)
    ensures var sorted := SortedStrings(chains);
      && Split(ChainsLine(chains, comment, verbose))
           == PrefixWords(NatToString(|Listing(chains)|), Noun(|chains|), comment, verbose) + sorted
      && StrictlySorted(sorted) && (forall c :: c in sorted <==> c in chains)
      && (Noun(|chains|) == "chain" <==> |sorted| == 1)
  {
    var sorted := SortedStrings(chains);
    SplitJoin(sorted);
    NounWord(|chains|);
    PrefixedWords(NatToString(|Listing(chains)|), Noun(|chains|), comment, verbose, Listing(chains));
  }

  /** The verbose count is the length of the listing in characters: the code
      lengths added up and one space between each two codes. */
  lemma VerboseCountIsListingLength(chains: set<string>)
    requires chains != {}
    ensures var sorted := SortedStrings(chains);
      ParseInt(NatToString(|Listing(chains)|)) == Some(TotalLength(sorted) + |sorted| - 1)
  {
    var sorted := SortedStrings(chains);
    var n := |Listing(chains)|;
    JoinLength(" ", sorted);
    assert n == TotalLength(sorted) + |sorted| - 1;
    NatToStringRoundTrip(n);
  }

  lemma {:induction false} TotalLengthOfLetters(parts: seq<string>)
    requires forall k | 0 <= k < |parts| :: |parts[k]| == 1
    ensures TotalLength(parts) == |parts|
  {
    if parts != [] {
      TotalLengthOfLetters(parts[1..]);
    }
  }

  /** As written, the count is not the number of chains: with n >= 2
      one-letter chain codes (A and B, say) it reads 2n - 1 (3 chains: A B). */
  lemma VerboseCountOfLetterChains(chains: set<string>)
    requires |chains| >= 2 && forall c | c in chains :: |c| == 1
    ensures ParseInt(NatToString(|Listing(chains)|)) == Some(2 * |chains| - 1)
    ensures 2 * |chains| - 1 != |chains|
  {
    var sorted := SortedStrings(chains);
    var n := |Listing(chains)|;
    JoinLength(" ", sorted);
    assert forall k | 0 <= k < |sorted| :: sorted[k] in chains;
    TotalLengthOfLetters(sorted);
    assert n == 2 * |chains| - 1;
    NatToStringRoundTrip(n);
  }

  /** The line with the count the message describes: the number of chains. */
  function CountedChainsLine(chains: set<string>, comment: bool, verbose: bool): string {
    var verbosePrefix := if verbose then NatToString(|chains|) + " " + Noun(|chains|) + ": " else "";
    (if comment then "# " else "") + verbosePrefix + Listing(chains)
  }

  /** With the corrected count, the count word of the verbose line reads back
      as the number of chain codes that follow the prefix. */
  lemma CountedChainsLineWords(chains: set<string>, comment: bool)
    requires forall c | c in chains :: IsToken(c)
    ensures Split(CountedChainsLine(chains, comment, true))
      == PrefixWords(NatToString(|chains|), Noun(|chains|), comment, true) + SortedStrings(chains)
    ensures ParseInt(NatToString(|chains|)) == Some(|SortedStrings(chains)|)
  {
    SplitJoin(SortedStrings(chains));
    NounWord(|chains|);
    PrefixedWords(NatToString(|chains|), Noun(|chains|), comment, true, Listing(chains));
    NatToStringRoundTrip(|chains|);
  }
}
