/**
 * The FASTA importer's helpers (src/nef/transcoders/fasta/importers/sequence.py):
 * the per-chain residue-number offsets built from the --starts values, and the
 * chain codes of the read residues in order of first appearance.
 */
module FastaSequence {
  import opened Structures
  import opened Collections

  /** list(islice(chain(values, cycle([0])), n)): the first n values, padded
      with zeros. */
  function PadWithZeros(values: seq<int>, n: nat): (r: seq<int>)
    ensures |r| == n
    ensures forall i | 0 <= i < n :: r[i] == if i < |values| then values[i] else 0
  {
    if n == 0 then []
    else if values == [] then [0] + PadWithZeros([], n - 1)
    else [values[0]] + PadWithZeros(values[1..], n - 1)
  }

  /** {k: v for k, v in zip(keys, values)} for lists of the same length: a key
      that appears twice takes its last value. */
  function ZipToMap<K, V>(keys: seq<K>, values: seq<V>): map<K, V>
    requires |keys| == |values|
  {
    if keys == [] then map[]
    else ZipToMap(keys[..|keys| - 1], values[..|values| - 1])[keys[|keys| - 1] := values[|values| - 1]]
  }

  /** keys[i] does not appear again later in keys. */
  predicate LastOccurrence<K(==)>(keys: seq<K>, i: nat)
    requires i < |keys|
  {
    forall j | i < j < |keys| :: keys[j] != keys[i]
  }

  lemma {:induction false} ZipToMapKeys<K, V>(keys: seq<K>, values: seq<V>)
    requires |keys| == |values|
    ensures ZipToMap(keys, values).Keys == set k | k in keys
  {
    if keys != [] {
      var n := |keys| - 1;
      ZipToMapKeys(keys[..n], values[..n]);
      assert keys == keys[..n] + [keys[n]];
    }
  }

  lemma {:induction false} ZipToMapLastWins<K, V>(keys: seq<K>, values: seq<V>, i: nat)
    requires |keys| == |values| && i < |keys| && LastOccurrence(keys, i)
    ensures keys[i] in ZipToMap(keys, values) && ZipToMap(keys, values)[keys[i]] == values[i]
  {
    var n := |keys| - 1;
    if i < n {
      var pk, pv := keys[..n], values[..n];
      assert pk[i] == keys[i] && pv[i] == values[i];
      assert LastOccurrence(pk, i);
      ZipToMapLastWins(pk, pv, i);
    }
  }

  /** _get_sequence_offsets: chain i is offset by starts[i] - 1, or by 0 when
      there are fewer starts than chains. */
  function SequenceOffsets(chainCodes: seq<string>, starts: seq<int>): map<string, int> {
    var offsets := seq(|starts|, i requires 0 <= i < |starts| => starts[i] - 1);
    ZipToMap(chainCodes, PadWithZeros(offsets, |chainCodes|))
  }

  /** The offsets are keyed by exactly the given chain codes; surplus starts are
      ignored, chains past the starts get 0, and a chain code given twice
      takes the offset of its last position. */
  lemma SequenceOffsetsContents(chainCodes: seq<string>, starts: seq<int>)
    ensures SequenceOffsets(chainCodes, starts).Keys == set c | c in chainCodes
    ensures forall i | 0 <= i < |chainCodes| && LastOccurrence(chainCodes, i) ::
      chainCodes[i] in SequenceOffsets(chainCodes, starts) &&
      SequenceOffsets(chainCodes, starts)[chainCodes[i]] == if i < |starts| then starts[i] - 1 else 0
  {
    var offsets := seq(|starts|, i requires 0 <= i < |starts| => starts[i] - 1);
    var padded := PadWithZeros(offsets, |chainCodes|);
    ZipToMapKeys(chainCodes, padded);
    forall i | 0 <= i < |chainCodes| && LastOccurrence(chainCodes, i)
      ensures chainCodes[i] in SequenceOffsets(chainCodes, starts)
      ensures SequenceOffsets(chainCodes, starts)[chainCodes[i]] == if i < |starts| then starts[i] - 1 else 0
    {
      ZipToMapLastWins(chainCodes, padded, i);
    }
  }

  /** With distinct chain codes every chain gets its offset. */
  lemma SequenceOffsetsDistinct(chainCodes: seq<string>, starts: seq<int>)
    requires Distinct(chainCodes)
    ensures forall i | 0 <= i < |chainCodes| ::
      chainCodes[i] in SequenceOffsets(chainCodes, starts) &&
      SequenceOffsets(chainCodes, starts)[chainCodes[i]] == if i < |starts| then starts[i] - 1 else 0
  {
    SequenceOffsetsContents(chainCodes, starts);
    assert forall i | 0 <= i < |chainCodes| :: LastOccurrence(chainCodes, i);
  }

  /** The chain code of each residue, in order. */
  function ChainsOf(residues: seq<SequenceResidue>): (chains: seq<string>)
    ensures |chains| == |residues|
  {
    seq(|residues|, i requires 0 <= i < |residues| => residues[i].chain)
  }

  /** residues_to_chain_codes: list(OrderedSet(residue chain codes)). */
  function ResiduesToChainCodes(residues: seq<SequenceResidue>): seq<string> {
    Dedupe(ChainsOf(residues))
  }

  /** Each chain code of the residues appears exactly once, and codes come in
      the order in which they first appear among the residues. */
  lemma ResiduesToChainCodesContents(residues: seq<SequenceResidue>)
    ensures var codes := ResiduesToChainCodes(residues);
      && Distinct(codes)
      && (forall c :: c in codes <==> exists i | 0 <= i < |residues| :: residues[i].chain == c)
      && (forall i, j | 0 <= i < j < |codes| ::
            FirstIndex(ChainsOf(residues), codes[i]) < FirstIndex(ChainsOf(residues), codes[j]))
  {
    var chains := ChainsOf(residues);
    DedupeKeepsFirstAppearanceOrder(chains);
    forall c | c in ResiduesToChainCodes(residues) ensures exists i | 0 <= i < |residues| :: residues[i].chain == c {
      var i :| 0 <= i < |chains| && chains[i] == c;
    }
    forall c | exists i | 0 <= i < |residues| :: residues[i].chain == c ensures c in ResiduesToChainCodes(residues) {
      var i :| 0 <= i < |residues| && residues[i].chain == c;
      assert chains[i] == c;
    }
  }
}
