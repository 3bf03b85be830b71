/**
 * The PALES template exporter (transcoders/pales/exporters/template.py): the
 * weight table read from "atom_1,atom_2,weight" options, the dummy restraints
 * built for every residue of a chain, the rows of the restraint table, and the
 * DATA SEQUENCE lines that carry the one-letter sequence.
 */
module PalesTemplate {
  import opened Wrappers
  import opened Text
  import opened Structures
  import opened NmrPipeRecords
  import opened NmrPipeReader
  import opened NmrPipeReaderProps
  import opened NmrPipeQuery
  import opened Collections

  // ---------------------------------------------------------------- weights

  /** A weight is keyed by an unordered pair of atom names, kept sorted. */
  type WeightKey = (string, string)

  /** _build_weights_key: the two names in Python's string order. */
  function BuildWeightsKey(atom1: string, atom2: string): (key: WeightKey)
    ensures multiset{key.0, key.1} == multiset{atom1, atom2}
    ensures !StrLess(key.1, key.0)
  {
    if StrLess(atom2, atom1) then
      StrLessAsymmetric(atom2, atom1);
      (atom2, atom1)
    else (atom1, atom2)
  }

  /** The key does not depend on the order the two names are given in. */
  lemma BuildWeightsKeySymmetric(atom1: string, atom2: string)
    ensures BuildWeightsKey(atom1, atom2) == BuildWeightsKey(atom2, atom1)
  {
    if atom1 != atom2 {
      StrLessTotal(atom1, atom2);
      if StrLess(atom1, atom2) {
        StrLessAsymmetric(atom1, atom2);
      } else {
        StrLessAsymmetric(atom2, atom1);
      }
    }
  }

  /** The key of the pair the PALES template defaults to. */
  const HnNKey: WeightKey := BuildWeightsKey("HN", "N")

  /** Why a weight option was refused: the source exits with a message. */
  datatype WeightError =
    | WrongFieldCount(rawWeight: string)
    | NotAFloat(rawWeight: string, rawRdcWeight: string)

  /** The option splits on commas into exactly atom_1, atom_2 and a weight the
      float parser accepts. */
  predicate WellFormedWeight(rawWeight: string, floatOf: string -> Option<real>) {
    var fields := SplitOn(rawWeight, ',');
    |fields| == 3 && floatOf(fields[2]).Some?
  }

  /** The option splits on commas into exactly three fields. */
  predicate ThreeFields(rawWeight: string) {
    |SplitOn(rawWeight, ',')| == 3
  }

  function RawKey(rawWeight: string): WeightKey
    requires ThreeFields(rawWeight)
  {
    var fields := SplitOn(rawWeight, ',');
    BuildWeightsKey(fields[0], fields[1])
  }

  function RawWeight(rawWeight: string, floatOf: string -> Option<real>): real
    requires WellFormedWeight(rawWeight, floatOf)
  {
    floatOf(SplitOn(rawWeight, ',')[2]).value
  }

  /** The error for an option that is not well formed. */
  function WeightErrorFor(rawWeight: string): WeightError {
    var fields := SplitOn(rawWeight, ',');
    if |fields| != 3 then WrongFieldCount(rawWeight) else NotAFloat(rawWeight, fields[2])
  }

  /** The options folded into the table, each one overwriting its key. */
  function AddWeights(result: map<WeightKey, real>, rawWeights: seq<string>, floatOf: string -> Option<real>)
    : Result<map<WeightKey, real>, WeightError>
    decreases |rawWeights|
  {
    if rawWeights == [] then Ok(result)
    else if !WellFormedWeight(rawWeights[0], floatOf) then Err(WeightErrorFor(rawWeights[0]))
    else AddWeights(result[RawKey(rawWeights[0]) := RawWeight(rawWeights[0], floatOf)], rawWeights[1..], floatOf)
  }

  /** The table _parse_weights returns: the options, then (HN, N) -> 1.0 when
      no option set that pair. */
  function Weights(rawWeights: seq<string>, floatOf: string -> Option<real>): Result<map<WeightKey, real>, WeightError> {
    match AddWeights(map[], rawWeights, floatOf)
    case Err(e) => Err(e)
    case Ok(table) => Ok(if HnNKey in table then table else table[HnNKey := 1.0])
  }

  /** One option folded in: its fields are checked, then its key overwritten. */
  lemma AddWeightsCons(result: map<WeightKey, real>, rawWeights: seq<string>, floatOf: string -> Option<real>)
    requires rawWeights != []
    ensures var fields := SplitOn(rawWeights[0], ',');
      AddWeights(result, rawWeights, floatOf) ==
        if |fields| != 3 then Err(WrongFieldCount(rawWeights[0]))
        else if floatOf(fields[2]).None? then Err(NotAFloat(rawWeights[0], fields[2]))
        else AddWeights(result[BuildWeightsKey(fields[0], fields[1]) := floatOf(fields[2]).value], rawWeights[1..], floatOf)
  {
  }

  /** _parse_weights, over the option strings; the float parser is a parameter. */
  method ParseWeights(rawWeights: seq<string>, floatOf: string -> Option<real>) returns (r: Result<map<WeightKey, real>, WeightError>)
    ensures r == Weights(rawWeights, floatOf)
  {
    var result: map<WeightKey, real> := map[];
    var i := 0;
    while i < |rawWeights|
      invariant 0 <= i <= |rawWeights|
      invariant AddWeights(map[], rawWeights, floatOf) == AddWeights(result, rawWeights[i..], floatOf)
    {
      var rawWeight := rawWeights[i];
      assert rawWeights[i..][1..] == rawWeights[i + 1..];
      AddWeightsCons(result, rawWeights[i..], floatOf);
      var rawWeightFields := SplitOn(rawWeight, ',');
      if |rawWeightFields| != 3 {
        return Err(WrongFieldCount(rawWeight));
      }
      var atom1, atom2, rawRdcWeight := rawWeightFields[0], rawWeightFields[1], rawWeightFields[2];
      var rdcWeight := floatOf(rawRdcWeight);
      if rdcWeight.None? {
        return Err(NotAFloat(rawWeight, rawRdcWeight));
      }
      var key := BuildWeightsKey(atom1, atom2);
      result := result[key := rdcWeight.value];
      i := i + 1;
    }
    var hnNKey := BuildWeightsKey("HN", "N");
    if hnNKey !in result {
      result := result[hnNKey := 1.0];
    }
    r := Ok(result);
  }

  /** The keys of the well-formed options. */
  function RawKeys(rawWeights: seq<string>): set<WeightKey>
    decreases |rawWeights|
  {
    if rawWeights == [] then {}
    else (if ThreeFields(rawWeights[0]) then {RawKey(rawWeights[0])} else {}) + RawKeys(rawWeights[1..])
  }

  /** A key is among the option keys exactly when some well-formed option names it. */
  lemma {:induction false} RawKeysMembers(rawWeights: seq<string>, k: WeightKey)
    ensures k in RawKeys(rawWeights) <==>
      exists i | 0 <= i < |rawWeights| && ThreeFields(rawWeights[i]) :: RawKey(rawWeights[i]) == k
    decreases |rawWeights|
  {
    if rawWeights != [] {
      var rest := rawWeights[1..];
      RawKeysMembers(rest, k);
      if exists i | 0 <= i < |rest| && ThreeFields(rest[i]) :: RawKey(rest[i]) == k {
        var i :| 0 <= i < |rest| && ThreeFields(rest[i]) && RawKey(rest[i]) == k;
        assert rawWeights[i + 1] == rest[i];
      }
      if exists i | 0 <= i < |rawWeights| && ThreeFields(rawWeights[i]) :: RawKey(rawWeights[i]) == k {
        var i :| 0 <= i < |rawWeights| && ThreeFields(rawWeights[i]) && RawKey(rawWeights[i]) == k;
        if i > 0 {
          assert rest[i - 1] == rawWeights[i];
        }
      }
    }
  }

  /** Option i is the last to name its pair. */
  predicate LastForItsKey(rawWeights: seq<string>, i: nat)
    requires i < |rawWeights| && ThreeFields(rawWeights[i])
  {
    forall j | i < j < |rawWeights| && ThreeFields(rawWeights[j]) :: RawKey(rawWeights[j]) != RawKey(rawWeights[i])
  }

  lemma {:induction false} AddWeightsOk(result: map<WeightKey, real>, rawWeights: seq<string>, floatOf: string -> Option<real>)
    ensures AddWeights(result, rawWeights, floatOf).Ok? <==> forall i | 0 <= i < |rawWeights| :: WellFormedWeight(rawWeights[i], floatOf)
    decreases |rawWeights|
  {
    if rawWeights != [] && WellFormedWeight(rawWeights[0], floatOf) {
      var rest := rawWeights[1..];
      AddWeightsOk(result[RawKey(rawWeights[0]) := RawWeight(rawWeights[0], floatOf)], rest, floatOf);
      assert forall i | 1 <= i < |rawWeights| :: rawWeights[i] == rest[i - 1];
    }
  }

  lemma {:induction false} AddWeightsKeys(result: map<WeightKey, real>, rawWeights: seq<string>, floatOf: string -> Option<real>)
    requires AddWeights(result, rawWeights, floatOf).Ok?
    ensures AddWeights(result, rawWeights, floatOf).value.Keys == result.Keys + RawKeys(rawWeights)
    decreases |rawWeights|
  {
    if rawWeights != [] {
      var first := rawWeights[0];
      AddWeightsKeys(result[RawKey(first) := RawWeight(first, floatOf)], rawWeights[1..], floatOf);
    }
  }

  lemma {:induction false} AddWeightsUntouched(result: map<WeightKey, real>, rawWeights: seq<string>, floatOf: string -> Option<real>,
                                               k: WeightKey)
    requires AddWeights(result, rawWeights, floatOf).Ok?
    requires k in result && k !in RawKeys(rawWeights)
    ensures var table := AddWeights(result, rawWeights, floatOf).value; k in table && table[k] == result[k]
    decreases |rawWeights|
  {
    AddWeightsKeys(result, rawWeights, floatOf);
    if rawWeights != [] {
      var first := rawWeights[0];
      AddWeightsUntouched(result[RawKey(first) := RawWeight(first, floatOf)], rawWeights[1..], floatOf, k);
    }
  }

  /** A table that is built accepted its first option and went on from there. */
  lemma AddWeightsFirst(result: map<WeightKey, real>, rawWeights: seq<string>, floatOf: string -> Option<real>)
    requires rawWeights != [] && AddWeights(result, rawWeights, floatOf).Ok?
    ensures WellFormedWeight(rawWeights[0], floatOf)
    ensures AddWeights(result, rawWeights, floatOf) ==
      AddWeights(result[RawKey(rawWeights[0]) := RawWeight(rawWeights[0], floatOf)], rawWeights[1..], floatOf)
  {
    AddWeightsCons(result, rawWeights, floatOf);
  }

  /** An option last for its pair stays last once the first option is dropped. */
  lemma LastForItsKeyTail(rawWeights: seq<string>, i: nat)
    requires 0 < i < |rawWeights| && ThreeFields(rawWeights[i]) && LastForItsKey(rawWeights, i)
    ensures ThreeFields(rawWeights[1..][i - 1]) && LastForItsKey(rawWeights[1..], i - 1)
  {
    var rest := rawWeights[1..];
    assert rest[i - 1] == rawWeights[i];
    forall j | i - 1 < j < |rest| && ThreeFields(rest[j])
      ensures RawKey(rest[j]) != RawKey(rest[i - 1])
    {
      assert rest[j] == rawWeights[j + 1];
    }
  }

  /** A first option last for its pair names no pair of the options after it. */
  lemma FirstKeyNotLater(rawWeights: seq<string>)
    requires rawWeights != [] && ThreeFields(rawWeights[0]) && LastForItsKey(rawWeights, 0)
    ensures RawKey(rawWeights[0]) !in RawKeys(rawWeights[1..])
  {
    var rest := rawWeights[1..];
    forall j | 0 <= j < |rest| && ThreeFields(rest[j]) ensures RawKey(rest[j]) != RawKey(rawWeights[0]) {
      assert rest[j] == rawWeights[j + 1];
    }
    RawKeysMembers(rest, RawKey(rawWeights[0]));
  }

  lemma {:induction false} AddWeightsLastWins(result: map<WeightKey, real>, rawWeights: seq<string>, floatOf: string -> Option<real>,
                                              i: nat)
    requires AddWeights(result, rawWeights, floatOf).Ok?
    requires i < |rawWeights| && WellFormedWeight(rawWeights[i], floatOf) && LastForItsKey(rawWeights, i)
    ensures var table := AddWeights(result, rawWeights, floatOf).value;
      RawKey(rawWeights[i]) in table && table[RawKey(rawWeights[i])] == RawWeight(rawWeights[i], floatOf)
    decreases |rawWeights|
  {
    AddWeightsFirst(result, rawWeights, floatOf);
    var first := rawWeights[0];
    var next := result[RawKey(first) := RawWeight(first, floatOf)];
    if i > 0 {
      LastForItsKeyTail(rawWeights, i);
      AddWeightsLastWins(next, rawWeights[1..], floatOf, i - 1);
    } else {
      FirstKeyNotLater(rawWeights);
      AddWeightsUntouched(next, rawWeights[1..], floatOf, RawKey(first));
    }
  }

  /** The table is refused exactly when some option does not split into three
      comma-separated fields or its weight is not a float. */
  lemma WeightsOkIff(rawWeights: seq<string>, floatOf: string -> Option<real>)
    ensures Weights(rawWeights, floatOf).Ok? <==> forall i | 0 <= i < |rawWeights| :: WellFormedWeight(rawWeights[i], floatOf)
  {
    AddWeightsOk(map[], rawWeights, floatOf);
  }

  /** A table that is read holds exactly the pairs the options name plus (HN, N);
      each pair takes the weight of the last option naming it, and (HN, N) is
      1.0 unless an option named it. */
  lemma WeightsContents(rawWeights: seq<string>, floatOf: string -> Option<real>)
    requires Weights(rawWeights, floatOf).Ok?
    ensures var table := Weights(rawWeights, floatOf).value;
      && table.Keys == RawKeys(rawWeights) + {HnNKey}
      && (forall i | 0 <= i < |rawWeights| && WellFormedWeight(rawWeights[i], floatOf) && LastForItsKey(rawWeights, i) ::
            RawKey(rawWeights[i]) in table && table[RawKey(rawWeights[i])] == RawWeight(rawWeights[i], floatOf))
      && (HnNKey !in RawKeys(rawWeights) ==> table[HnNKey] == 1.0)
  {
    AddWeightsKeys(map[], rawWeights, floatOf);
    var table := AddWeights(map[], rawWeights, floatOf).value;
    forall i | 0 <= i < |rawWeights| && WellFormedWeight(rawWeights[i], floatOf) && LastForItsKey(rawWeights, i)
      ensures RawKey(rawWeights[i]) in Weights(rawWeights, floatOf).value
      ensures Weights(rawWeights, floatOf).value[RawKey(rawWeights[i])] == RawWeight(rawWeights[i], floatOf)
    {
      AddWeightsLastWins(map[], rawWeights, floatOf, i);
    }
  }

  // ------------------------------------------------------- dummy restraints

  /** The atom of a residue with the given name; the residue's sequence code is
      always present. */
  function AtomOf(residue: SequenceResidue, atomName: string): AtomLabel {
    AtomLabel(residue.chain, Some(residue.sequenceCode), residue.residueName, atomName)
  }

  /** Prolines are left out when one of the template atoms is HN. */
  predicate Skipped(residue: SequenceResidue, atomNames: (string, string)) {
    residue.residueName == "PRO" && (atomNames.0 == "HN" || atomNames.1 == "HN")
  }

  /** The restraint of one residue: between its two template atoms, rdc 0.0
      and error 0.0, no weight. */
  function DummyRestraint(residue: SequenceResidue, atomNames: (string, string)): RdcRestraint {
    NewRdcRestraint(AtomOf(residue, atomNames.0), AtomOf(residue, atomNames.1), 0.0, 0.0)
  }

  /** _build_dummy_restraints as a function of the residues. */
  function DummyRestraints(sequence: seq<SequenceResidue>, atomNames: (string, string)): seq<RdcRestraint> {
    if sequence == [] then []
    else
      var previous := DummyRestraints(sequence[..|sequence| - 1], atomNames);
      var residue := sequence[|sequence| - 1];
      if Skipped(residue, atomNames) then previous else previous + [DummyRestraint(residue, atomNames)]
  }

  /** _build_dummy_restraints */
  method BuildDummyRestraints(sequence: seq<SequenceResidue>, atomNames: (string, string)) returns (restraints: seq<RdcRestraint>)
    ensures restraints == DummyRestraints(sequence, atomNames)
  {
    restraints := [];
    var i := 0;
    while i < |sequence|
      invariant 0 <= i <= |sequence|
      invariant restraints == DummyRestraints(sequence[..i], atomNames)
    {
      var residue := sequence[i];
      assert sequence[..i + 1][..i] == sequence[..i];
      if residue.residueName == "PRO" && (atomNames.0 == "HN" || atomNames.1 == "HN") {
        i := i + 1;
        continue;
      }
      var atom1 := AtomLabel(residue.chain, Some(residue.sequenceCode), residue.residueName, atomNames.0);
      var atom2 := AtomLabel(residue.chain, Some(residue.sequenceCode), residue.residueName, atomNames.1);
      var restraint := NewRdcRestraint(atom1, atom2, 0.0, 0.0);
      restraints := restraints + [restraint];
      i := i + 1;
    }
    assert sequence[..|sequence|] == sequence;
  }

  /** The restraints of two runs of residues are those of the first run, then
      those of the second: the restraints follow the sequence order. */
  lemma {:induction false} DummyRestraintsAppend(a: seq<SequenceResidue>, b: seq<SequenceResidue>, atomNames: (string, string))
    ensures DummyRestraints(a + b, atomNames) == DummyRestraints(a, atomNames) + DummyRestraints(b, atomNames)
    decreases |b|
  {
    if b == [] {
      assert a + b == a;
    } else {
      DummyRestraintsAppend(a, b[..|b| - 1], atomNames);
      assert (a + b)[..|a + b| - 1] == a + b[..|b| - 1];
      assert (a + b)[|a + b| - 1] == b[|b| - 1];
    }
  }

  /** A restraint is built exactly for each residue that is not skipped. */
  lemma {:induction false} DummyRestraintsMembers(sequence: seq<SequenceResidue>, atomNames: (string, string))
    ensures forall r :: r in DummyRestraints(sequence, atomNames) <==>
      exists i | 0 <= i < |sequence| :: !Skipped(sequence[i], atomNames) && r == DummyRestraint(sequence[i], atomNames)
  {
    if sequence != [] {
      var p := sequence[..|sequence| - 1];
      DummyRestraintsMembers(p, atomNames);
      assert forall i | 0 <= i < |p| :: p[i] == sequence[i];
    }
  }

  /** Every restraint joins the two template atoms of one residue, with rdc and
      error 0.0 and no weight; with HN among the atoms no proline appears. */
  lemma DummyRestraintsShape(sequence: seq<SequenceResidue>, atomNames: (string, string))
    ensures forall r | r in DummyRestraints(sequence, atomNames) ::
      && r.atom1.chainCode == r.atom2.chainCode
      && r.atom1.sequenceCode == r.atom2.sequenceCode && r.atom1.sequenceCode.Some?
      && r.atom1.residueName == r.atom2.residueName
      && r.atom1.atomName == atomNames.0 && r.atom2.atomName == atomNames.1
      && r.rdc == 0.0 && r.rdcError == 0.0 && r.weight.None?
      && ((atomNames.0 == "HN" || atomNames.1 == "HN") ==> r.atom1.residueName != "PRO")
  {
    DummyRestraintsMembers(sequence, atomNames);
  }

  /** Without HN among the atoms there is one restraint per residue, in order. */
  lemma {:induction false} DummyRestraintsOnePerResidue(sequence: seq<SequenceResidue>, atomNames: (string, string))
    requires atomNames.0 != "HN" && atomNames.1 != "HN"
    ensures var restraints := DummyRestraints(sequence, atomNames);
      |restraints| == |sequence| &&
      forall i | 0 <= i < |sequence| :: restraints[i] == DummyRestraint(sequence[i], atomNames)
  {
    if sequence != [] {
      var p := sequence[..|sequence| - 1];
      DummyRestraintsOnePerResidue(p, atomNames);
      assert forall i | 0 <= i < |p| :: p[i] == sequence[i];
    }
  }

  /** The residues that get a restraint, in residue order. */
  function KeptResidues(sequence: seq<SequenceResidue>, atomNames: (string, string)): seq<SequenceResidue> {
    if sequence == [] then []
    else
      var previous := KeptResidues(sequence[..|sequence| - 1], atomNames);
      var residue := sequence[|sequence| - 1];
      if Skipped(residue, atomNames) then previous else previous + [residue]
  }

  lemma {:induction false} KeptResiduesMembers(sequence: seq<SequenceResidue>, atomNames: (string, string))
    ensures forall x :: x in KeptResidues(sequence, atomNames) <==> x in sequence && !Skipped(x, atomNames)
  {
    if sequence != [] {
      var p := sequence[..|sequence| - 1];
      KeptResiduesMembers(p, atomNames);
      assert sequence == p + [sequence[|sequence| - 1]];
    }
  }

  /** The restraints are those of the kept residues, one each, in order. */
  lemma {:induction false} DummyRestraintsOfKept(sequence: seq<SequenceResidue>, atomNames: (string, string))
    ensures |DummyRestraints(sequence, atomNames)| == |KeptResidues(sequence, atomNames)|
    ensures forall i | 0 <= i < |KeptResidues(sequence, atomNames)| ::
      DummyRestraints(sequence, atomNames)[i] == DummyRestraint(KeptResidues(sequence, atomNames)[i], atomNames)
  {
    if sequence != [] {
      var p := sequence[..|sequence| - 1];
      DummyRestraintsOfKept(p, atomNames);
      var restraints, kept := DummyRestraints(p, atomNames), KeptResidues(p, atomNames);
      assert forall i | 0 <= i < |kept| :: restraints[i] == DummyRestraint(kept[i], atomNames);
    }
  }

  /** With HN among the atoms, the restraints are those of the residues that
      are not prolines, one each, in residue order. */
  lemma DummyRestraintsSkipProlines(sequence: seq<SequenceResidue>, atomNames: (string, string))
    requires atomNames.0 == "HN" || atomNames.1 == "HN"
    ensures forall x :: x in KeptResidues(sequence, atomNames) <==> x in sequence && x.residueName != "PRO"
    ensures |DummyRestraints(sequence, atomNames)| == |KeptResidues(sequence, atomNames)|
    ensures forall i | 0 <= i < |KeptResidues(sequence, atomNames)| ::
      DummyRestraints(sequence, atomNames)[i] == DummyRestraint(KeptResidues(sequence, atomNames)[i], atomNames)
  {
    KeptResiduesMembers(sequence, atomNames);
    DummyRestraintsOfKept(sequence, atomNames);
  }

  // -------------------------------------------------------- restraint table

  /** The VARS and FORMAT rows of the restraint table, as split into words. */
  const RESTRAINT_VARS: seq<string> :=
    ["VARS", "RESID_I", "RESNAME_I", "ATOMNAME_I", "RESID_J", "RESNAME_J", "ATOMNAME_J", "D", "DD", "W"]
  const RESTRAINT_FORMAT: seq<string> :=
    ["FORMAT", "%5d", "%6s", "%6s", "%5d", "%6s", "%6s", "%9.3f", "%9.3f", "%.2f"]

  /** One data row: an empty first cell, then the two atoms, D and DD (always
      0.000) and the weight. */
  datatype RestraintRow = RestraintRow(
    sequenceCode1: Option<int>, residueName1: string, atomName1: string,
    sequenceCode2: Option<int>, residueName2: string, atomName2: string,
    d: real, dd: real, weight: real)

  /** weights[key] raised KeyError: the pair of atoms has no weight. */
  datatype TableError = MissingWeight(key: WeightKey)

  /** The weight key of a restraint's two atom names. */
  function RestraintKey(restraint: RdcRestraint): WeightKey {
    BuildWeightsKey(restraint.atom1.atomName, restraint.atom2.atomName)
  }

  function RestraintRowOf(restraint: RdcRestraint, weights: map<WeightKey, real>): RestraintRow
    requires RestraintKey(restraint) in weights
  {
    var atom1, atom2 := restraint.atom1, restraint.atom2;
    RestraintRow(atom1.sequenceCode, atom1.residueName, atom1.atomName,
                 atom2.sequenceCode, atom2.residueName, atom2.atomName,
                 0.0, 0.0, weights[RestraintKey(restraint)])
  }

  /** The data rows of _print_restraints, or the first missing weight. */
  function RestraintRows(restraints: seq<RdcRestraint>, weights: map<WeightKey, real>)
    : Result<seq<RestraintRow>, TableError>
  {
    if restraints == [] then Ok([])
    else if RestraintKey(restraints[0]) !in weights then Err(MissingWeight(RestraintKey(restraints[0])))
    else
      match RestraintRows(restraints[1..], weights)
      case Err(e) => Err(e)
      case Ok(rows) => Ok([RestraintRowOf(restraints[0], weights)] + rows)
  }

  /** Rows already built, ahead of the rows (or the error) still to come. */
  function PrependRows(table: seq<RestraintRow>, r: Result<seq<RestraintRow>, TableError>): Result<seq<RestraintRow>, TableError> {
    if r.Err? then r else Ok(table + r.value)
  }

  /** The row building loop of _print_restraints. */
  method BuildRestraintRows(restraints: seq<RdcRestraint>, weights: map<WeightKey, real>)
    returns (r: Result<seq<RestraintRow>, TableError>)
    ensures r == RestraintRows(restraints, weights)
  {
    var table: seq<RestraintRow> := [];
    var i := 0;
    assert restraints[0..] == restraints;
    assert RestraintRows(restraints, weights).Ok? ==> [] + RestraintRows(restraints, weights).value == RestraintRows(restraints, weights).value;
    while i < |restraints|
      invariant 0 <= i <= |restraints|
      invariant RestraintRows(restraints, weights) == PrependRows(table, RestraintRows(restraints[i..], weights))
    {
      assert restraints[i..][1..] == restraints[i + 1..];
      var atom1 := restraints[i].atom1;
      var atom2 := restraints[i].atom2;
      var weightsKey := BuildWeightsKey(atom1.atomName, atom2.atomName);
      if weightsKey !in weights {
        return Err(MissingWeight(weightsKey));
      }
      var weight := weights[weightsKey];
      var row := RestraintRow(atom1.sequenceCode, atom1.residueName, atom1.atomName,
                              atom2.sequenceCode, atom2.residueName, atom2.atomName, 0.0, 0.0, weight);
      var tail := RestraintRows(restraints[i + 1..], weights);
      assert RestraintRows(restraints[i..], weights) == if tail.Err? then tail else Ok([row] + tail.value);
      if tail.Ok? {
        assert table + ([row] + tail.value) == table + [row] + tail.value;
      }
      table := table + [row];
      i := i + 1;
    }
    assert table + [] == table;
    r := Ok(table);
  }

  /** The row carries the restraint's two atoms, D and DD 0.0 and the weight. */
  predicate RowCarries(row: RestraintRow, restraint: RdcRestraint, weight: real) {
    && row.sequenceCode1 == restraint.atom1.sequenceCode
    && row.residueName1 == restraint.atom1.residueName
    && row.atomName1 == restraint.atom1.atomName
    && row.sequenceCode2 == restraint.atom2.sequenceCode
    && row.residueName2 == restraint.atom2.residueName
    && row.atomName2 == restraint.atom2.atomName
    && row.d == 0.0 && row.dd == 0.0
    && row.weight == weight
  }

  /** A table that is built has a weight for every restraint's pair. */
  lemma {:induction false} RestraintRowsNeedWeights(restraints: seq<RdcRestraint>, weights: map<WeightKey, real>)
    requires RestraintRows(restraints, weights).Ok?
    ensures forall i | 0 <= i < |restraints| :: RestraintKey(restraints[i]) in weights
  {
    if restraints != [] {
      var rest := restraints[1..];
      RestraintRowsNeedWeights(rest, weights);
      assert forall i | 1 <= i < |restraints| :: restraints[i] == rest[i - 1];
    }
  }

  /** With a weight for every pair, the table is built, one row per restraint. */
  lemma {:induction false} RestraintRowsCarry(restraints: seq<RdcRestraint>, weights: map<WeightKey, real>)
    requires forall i | 0 <= i < |restraints| :: RestraintKey(restraints[i]) in weights
    ensures RestraintRows(restraints, weights).Ok?
    ensures |RestraintRows(restraints, weights).value| == |restraints|
    ensures forall i | 0 <= i < |restraints| ::
      RowCarries(RestraintRows(restraints, weights).value[i], restraints[i], weights[RestraintKey(restraints[i])])
  {
    if restraints != [] {
      var rest := restraints[1..];
      assert forall i | 0 <= i < |rest| :: rest[i] == restraints[i + 1];
      RestraintRowsCarry(rest, weights);
      var rows, restRows := RestraintRows(restraints, weights).value, RestraintRows(rest, weights).value;
      assert rows == [RestraintRowOf(restraints[0], weights)] + restRows;
      forall i | 0 <= i < |restraints|
        ensures RowCarries(rows[i], restraints[i], weights[RestraintKey(restraints[i])])
      {
        if i > 0 {
          assert rows[i] == restRows[i - 1] && restraints[i] == rest[i - 1];
        }
      }
    }
  }

  /** The rows are built exactly when every restraint's pair of atoms has a
      weight; then there is one row per restraint, carrying its atoms, D and DD
      0.0 and the weight of its pair. */
  lemma RestraintRowsContents(restraints: seq<RdcRestraint>, weights: map<WeightKey, real>)
    ensures RestraintRows(restraints, weights).Ok? <==> forall i | 0 <= i < |restraints| :: RestraintKey(restraints[i]) in weights
    ensures RestraintRows(restraints, weights).Ok? ==>
      |RestraintRows(restraints, weights).value| == |restraints| &&
      forall i | 0 <= i < |restraints| ::
        RowCarries(RestraintRows(restraints, weights).value[i], restraints[i], weights[RestraintKey(restraints[i])])
  {
    if RestraintRows(restraints, weights).Ok? {
      RestraintRowsNeedWeights(restraints, weights);
    }
    if forall i | 0 <= i < |restraints| :: RestraintKey(restraints[i]) in weights {
      RestraintRowsCarry(restraints, weights);
    }
  }

  /** The template atoms' pair always has a weight when they are HN and N, so
      the table of the default template is always written. */
  lemma DefaultTemplateHasWeights(sequence: seq<SequenceResidue>, rawWeights: seq<string>, floatOf: string -> Option<real>)
    requires Weights(rawWeights, floatOf).Ok?
    ensures RestraintRows(DummyRestraints(sequence, ("HN", "N")), Weights(rawWeights, floatOf).value).Ok?
  {
    var restraints := DummyRestraints(sequence, ("HN", "N"));
    WeightsContents(rawWeights, floatOf);
    DummyRestraintsShape(sequence, ("HN", "N"));
    RestraintRowsContents(restraints, Weights(rawWeights, floatOf).value);
    assert forall i | 0 <= i < |restraints| :: restraints[i] in restraints;
  }

  /** The converters the FORMAT row of the table stands for. */
  const RESTRAINT_CONVERTERS: seq<Converter> := [IntConverter, StrConverter, StrConverter, IntConverter,
    StrConverter, StrConverter, FloatConverter, FloatConverter, FloatConverter]

  lemma RestraintFormatResolves(info: LineInfo)
    ensures AllTokens(RESTRAINT_FORMAT[1..])
    ensures ResolveFormats(RESTRAINT_FORMAT[1..], info) == Ok(RESTRAINT_CONVERTERS)
  {
    var codes := RESTRAINT_FORMAT[1..];
    assert AllTokens(codes);
    assert forall i | 0 <= i < |codes| :: ResolveCode(codes[i]) == Some(RESTRAINT_CONVERTERS[i]);
    var resolved := ResolveFormatsFrom(codes, info, 0);
    assert resolved.Ok?;
    assert resolved.value == RESTRAINT_CONVERTERS;
  }

  /** Reading the two header rows of the table (as laid out in any spacing)
      gives the column names and these converters. */
  lemma RestraintHeaderRead(varsLine: string, formatLine: string, fileName: string, floatOf: string -> Option<real>)
    requires Split(varsLine) == RESTRAINT_VARS && Split(formatLine) == RESTRAINT_FORMAT
    ensures ReadFrom(Init, [varsLine, formatLine], fileName, 1, floatOf) ==
      Ok(ReaderState([DbRecord(1, VARS, Tokens(RESTRAINT_VARS[1..])), DbRecord(1, FORMAT, Tokens(RESTRAINT_FORMAT[1..]))],
                     Some(RESTRAINT_VARS[1..]), Some(RESTRAINT_CONVERTERS), multiset{VARS, FORMAT}))
  {
    var names := RESTRAINT_VARS[1..];
    var st1 := ReaderState([DbRecord(1, VARS, Tokens(names))], Some(names), None, multiset{VARS});
    assert Step(Init, LineInfo(fileName, 1, varsLine), floatOf) == Ok(st1) by {
      assert RESTRAINT_VARS[0] == VARS;
      assert Fields(RESTRAINT_VARS) == names;
      assert multiset{} + multiset{VARS} == multiset{VARS};
      assert multiset{VARS}[VARS] == 1;
      assert Init.records + [DbRecord(1, VARS, Tokens(names))] == st1.records;
      assert VarsLine(Init, multiset{VARS}, names, LineInfo(fileName, 1, varsLine)) == Ok(st1);
    }
    var info := LineInfo(fileName, 2, formatLine);
    RestraintFormatResolves(info);
    var st2 := ReaderState(st1.records + [DbRecord(1, FORMAT, Tokens(RESTRAINT_FORMAT[1..]))], Some(names),
                           Some(RESTRAINT_CONVERTERS), multiset{VARS, FORMAT});
    assert Step(st1, info, floatOf) == Ok(st2) by {
      KeywordsAreNotInts();
      assert RESTRAINT_FORMAT[0] == FORMAT;
      assert Fields(RESTRAINT_FORMAT) == RESTRAINT_FORMAT[1..];
      assert (multiset{VARS} + multiset{FORMAT})[FORMAT] == 1;
      assert |names| == |RESTRAINT_CONVERTERS|;
      assert multiset{VARS} + multiset{FORMAT} == multiset{VARS, FORMAT};
      assert CheckVarAndFormatCount(st1.columnNames, RESTRAINT_CONVERTERS, info).None?;
      assert FormatLine(st1, multiset{VARS, FORMAT}, RESTRAINT_FORMAT[1..], info) == Ok(st2);
    }
    assert [varsLine, formatLine][1..] == [formatLine];
    assert ReadFrom(st1, [formatLine], fileName, 2, floatOf) == Ok(st2) by {
      assert [formatLine][1..] == [];
    }
    assert st2.records == [DbRecord(1, VARS, Tokens(names)), DbRecord(1, FORMAT, Tokens(RESTRAINT_FORMAT[1..]))];
  }

  /** The values the reader takes from a data row: the first cell is empty, so
      RESID_I leads the line and becomes the row's record type, and the values
      start at RESNAME_I. */
  function RowValues(row: RestraintRow): (values: seq<Value>)
    requires row.sequenceCode2.Some?
  {
    [StrValue(row.residueName1), StrValue(row.atomName1), IntValue(row.sequenceCode2.value),
     StrValue(row.residueName2), StrValue(row.atomName2), FloatValue(row.d), FloatValue(row.dd), FloatValue(row.weight)]
  }

  lemma RowConforms(row: RestraintRow)
    requires row.sequenceCode2.Some?
    ensures Conforms(RowValues(row), RESTRAINT_CONVERTERS)
  {
    var values := RowValues(row);
    assert forall i | 0 <= i < 8 :: Matches(RESTRAINT_CONVERTERS[i + 1], values[i]);
  }

  /** The rows of a dummy template fit the FORMAT row printed above them. */
  lemma TemplateRowsConform(sequence: seq<SequenceResidue>, atomNames: (string, string), weights: map<WeightKey, real>)
    requires RestraintRows(DummyRestraints(sequence, atomNames), weights).Ok?
    ensures var rows := RestraintRows(DummyRestraints(sequence, atomNames), weights).value;
      forall i | 0 <= i < |rows| :: rows[i].sequenceCode1.Some? && rows[i].sequenceCode2.Some? &&
        Conforms(RowValues(rows[i]), RESTRAINT_CONVERTERS)
  {
    var restraints := DummyRestraints(sequence, atomNames);
    DummyRestraintsShape(sequence, atomNames);
    RestraintRowsContents(restraints, weights);
    var rows := RestraintRows(restraints, weights).value;
    forall i | 0 <= i < |rows|
      ensures rows[i].sequenceCode1.Some? && rows[i].sequenceCode2.Some? && Conforms(RowValues(rows[i]), RESTRAINT_CONVERTERS)
    {
      assert restraints[i] in restraints;
      RowConforms(rows[i]);
    }
  }

  // --------------------------------------------------------- pipe sequence

  /** [''.join(chunk) for chunk in chunks]. */
  function JoinEach(chunks: seq<seq<string>>): (r: seq<string>)
    ensures |r| == |chunks|
  {
    seq(|chunks|, i requires 0 <= i < |chunks| => Concat(chunks[i]))
  }

  lemma {:induction false} ConcatJoinEach(chunks: seq<seq<string>>)
    ensures Concat(JoinEach(chunks)) == Concat(Flatten(chunks))
  {
    if chunks != [] {
      ConcatJoinEach(chunks[1..]);
      assert JoinEach(chunks) == [Concat(chunks[0])] + JoinEach(chunks[1..]);
      ConcatAppend(chunks[0], Flatten(chunks[1..]));
    }
  }

  /** Joining a list of tokens that is not empty gives a token. */
  lemma {:induction false} ConcatOfTokens(parts: seq<string>)
    requires |parts| > 0 && forall k | 0 <= k < |parts| :: IsToken(parts[k])
    ensures IsToken(Concat(parts))
  {
    if |parts| > 1 {
      ConcatOfTokens(parts[1..]);
      var r := Concat(parts);
      assert r == parts[0] + Concat(parts[1..]);
      assert forall i | 0 <= i < |r| :: if i < |parts[0]| then r[i] == parts[0][i] else r[i] == Concat(parts[1..])[i - |parts[0]|];
    } else {
      assert Concat(parts) == parts[0] + [];
    }
  }

  /** One DATA SEQUENCE line: the residue letters of a row, in groups of ten. */
  function SequenceLine(row: seq<string>): string {
    "DATA SEQUENCE " + Join(" ", JoinEach(Chunks(row, 10)))
  }

  /** One DATA SEQUENCE line per row. */
  function SequenceLines(rows: seq<seq<string>>): (lines: seq<string>)
    ensures |lines| == |rows|
  {
    seq(|rows|, i requires 0 <= i < |rows| => SequenceLine(rows[i]))
  }

  /** The lines _print_pipe_sequence prints: one per run of 100 residues. */
  function PipeSequenceLines(sequence1Let: seq<string>): seq<string> {
    SequenceLines(Chunks(sequence1Let, 100))
  }

  /** The groups of ten of a row of tokens are tokens. */
  lemma GroupsAreTokens(row: seq<string>)
    requires forall k | 0 <= k < |row| :: IsToken(row[k])
    ensures forall k | 0 <= k < |JoinEach(Chunks(row, 10))| :: IsToken(JoinEach(Chunks(row, 10))[k])
  {
    var groups := Chunks(row, 10);
    forall k | 0 <= k < |groups| ensures IsToken(JoinEach(groups)[k]) {
      var g := groups[k];
      Flatten1Member(groups, k);
      assert forall j | 0 <= j < |g| :: g[j] in row;
      ConcatOfTokens(g);
    }
  }

  /** Two words ahead of a space-joined list that is not empty. */
  lemma JoinTwoAhead(a: string, b: string, words: seq<string>)
    requires |words| > 0
    ensures Join(" ", [a, b] + words) == a + " " + b + " " + Join(" ", words)
  {
    var sp := " ";
    var rest := Join(sp, words);
    var tail := [b] + words;
    assert [a, b] + words == [a] + tail;
    assert Join(sp, tail) == b + sp + rest by { JoinCons(sp, b, words); }
    assert Join(sp, [a] + tail) == a + sp + (b + sp + rest) by { JoinCons(sp, a, tail); }
    SeqAppendAssoc(a + sp, b + sp, rest);
    SeqAppendAssoc(a + sp, b, sp);
  }

  /** The words of a sequence line: DATA, SEQUENCE and the groups of ten. */
  lemma SequenceLineWords(row: seq<string>)
    requires |row| > 0 && forall k | 0 <= k < |row| :: IsToken(row[k])
    ensures Split(SequenceLine(row)) == [DATA, SEQUENCE] + JoinEach(Chunks(row, 10))
  {
    var words := JoinEach(Chunks(row, 10));
    GroupsAreTokens(row);
    KeywordsAhead(words);
    SplitJoin([DATA, SEQUENCE] + words);
    JoinTwoAhead(DATA, SEQUENCE, words);
    SequenceLinePrefix();
  }

  lemma KeywordsAhead(words: seq<string>)
    requires forall k | 0 <= k < |words| :: IsToken(words[k])
    ensures var all := [DATA, SEQUENCE] + words; forall k | 0 <= k < |all| :: IsToken(all[k])
  {
    assert IsToken(DATA) && IsToken(SEQUENCE);
  }

  lemma SequenceLinePrefix()
    ensures "DATA SEQUENCE " == DATA + " " + SEQUENCE + " "
  {
  }

  /** The record the reader makes of a sequence line: a DATA record whose
      residue letters are the row's. */
  lemma SequenceLineStep(st: ReaderState, row: seq<string>, info: LineInfo, floatOf: string -> Option<real>)
    requires |row| > 0 && forall k | 0 <= k < |row| :: IsToken(row[k])
    requires info.line == SequenceLine(row)
    ensures var counts := st.recordCount + multiset{DATA};
      var rec := DbRecord(counts[DATA], DATA, Tokens([SEQUENCE] + JoinEach(Chunks(row, 10))));
      && Step(st, info, floatOf) == Ok(Append(st, counts, rec))
      && RecordSequence(rec) == Concat(row)
  {
    SequenceLineWords(row);
    DataLineStep(st, info, JoinEach(Chunks(row, 10)), floatOf);
    SequenceRecordLetters(DbRecord((st.recordCount + multiset{DATA})[DATA], DATA, Tokens([SEQUENCE] + JoinEach(Chunks(row, 10)))), row);
  }

  lemma SequenceRecordLetters(rec: DbRecord, row: seq<string>)
    requires rec.recordType == DATA && rec.values == Tokens([SEQUENCE] + JoinEach(Chunks(row, 10)))
    ensures RecordSequence(rec) == Concat(row)
  {
    var words := JoinEach(Chunks(row, 10));
    assert ([SEQUENCE] + words)[1..] == words;
    ConcatJoinEach(Chunks(row, 10));
  }

  /** A line whose words start with DATA is kept as a record of its words. */
  lemma DataLineStep(st: ReaderState, info: LineInfo, words: seq<string>, floatOf: string -> Option<real>)
    requires Split(info.line) == [DATA, SEQUENCE] + words
    ensures var counts := st.recordCount + multiset{DATA};
      Step(st, info, floatOf) == Ok(Append(st, counts, DbRecord(counts[DATA], DATA, Tokens([SEQUENCE] + words))))
  {
    var raw := [DATA, SEQUENCE] + words;
    assert Fields(raw) == [SEQUENCE] + words by {
      assert raw[1..] == [SEQUENCE] + words;
    }
    KeywordsAreNotInts();
    DataKeywordStep(st, info, floatOf);
  }

  /** A line led by DATA goes down the verbatim branch of Step. */
  lemma DataKeywordStep(st: ReaderState, info: LineInfo, floatOf: string -> Option<real>)
    requires |Split(info.line)| > 0 && Split(info.line)[0] == DATA && !IsInt(DATA)
    ensures var counts := st.recordCount + multiset{DATA};
      Step(st, info, floatOf) == Ok(Append(st, counts, DbRecord(counts[DATA], DATA, Tokens(Fields(Split(info.line))))))
  {
    assert DATA != VARS && DATA != FORMAT && DATA != REMARK && DATA != COMMENT;
  }

  /** Records read after a prefix that ends in rec: their letters are rec's,
      then those of the records after it. */
  lemma RecordsAfter(all: seq<DbRecord>, before: seq<DbRecord>, rec: DbRecord)
    requires |all| >= |before| + 1 && all[..|before| + 1] == before + [rec]
    ensures all[..|before|] == before
    ensures SequenceString(all[|before|..]) == RecordSequence(rec) + SequenceString(all[|before| + 1..])
  {
    var n := |before|;
    assert all[..n] == all[..n + 1][..n];
    assert all[n..] == [rec] + all[n + 1..];
    SequenceStringAppend([rec], all[n + 1..]);
    assert SequenceString([rec]) == SequenceString([]) + RecordSequence(rec);
  }

  /** Reading sequence lines appends one DATA record per line and nothing else,
      and the letters of those records are the rows' letters, in order. */
  lemma {:induction false} SequenceLinesRead(st: ReaderState, rows: seq<seq<string>>, fileName: string, lineNo: int,
                                             floatOf: string -> Option<real>)
    requires forall i | 0 <= i < |rows| :: |rows[i]| > 0 && forall k | 0 <= k < |rows[i]| :: IsToken(rows[i][k])
    ensures var r := ReadFrom(st, SequenceLines(rows), fileName, lineNo, floatOf);
      && r.Ok?
      && |r.value.records| == |st.records| + |rows|
      && r.value.records[..|st.records|] == st.records
      && SequenceString(r.value.records[|st.records|..]) == Concat(JoinEach(rows))
    decreases |rows|
  {
    var lines := SequenceLines(rows);
    if rows == [] {
      assert st.records[..|st.records|] == st.records;
    } else {
      var info := LineInfo(fileName, lineNo, lines[0]);
      SequenceLineStep(st, rows[0], info, floatOf);
      var counts := st.recordCount + multiset{DATA};
      var rec := DbRecord(counts[DATA], DATA, Tokens([SEQUENCE] + JoinEach(Chunks(rows[0], 10))));
      var next := Append(st, counts, rec);
      assert lines[1..] == SequenceLines(rows[1..]);
      SequenceLinesRead(next, rows[1..], fileName, lineNo + 1, floatOf);
      ReadFromFirstStep(st, lines, fileName, lineNo, floatOf, next);
      var r := ReadFrom(next, lines[1..], fileName, lineNo + 1, floatOf);
      RecordsAfter(r.value.records, st.records, rec);
      assert Concat(JoinEach(rows)) == Concat(rows[0]) + Concat(JoinEach(rows[1..])) by {
        assert JoinEach(rows)[1..] == JoinEach(rows[1..]);
      }
    }
  }

  /** The round trip of the sequence block: the DATA SEQUENCE lines of a
      sequence of one-letter codes, read anywhere in a gdb file, add records
      whose joined letters are the sequence again. */
  lemma PipeSequenceReadBack(st: ReaderState, sequence1Let: seq<string>, fileName: string, lineNo: int,
                             floatOf: string -> Option<real>)
    requires forall k | 0 <= k < |sequence1Let| :: IsToken(sequence1Let[k])
    ensures var r := ReadFrom(st, PipeSequenceLines(sequence1Let), fileName, lineNo, floatOf);
      && r.Ok?
      && |r.value.records| >= |st.records|
      && r.value.records[..|st.records|] == st.records
      && SequenceString(r.value.records[|st.records|..]) == Concat(sequence1Let)
  {
    var rows := Chunks(sequence1Let, 100);
    forall i | 0 <= i < |rows| ensures forall k | 0 <= k < |rows[i]| :: IsToken(rows[i][k]) {
      Flatten1Member(rows, i);
      assert forall k | 0 <= k < |rows[i]| :: rows[i][k] in sequence1Let;
    }
    SequenceLinesRead(st, rows, fileName, lineNo, floatOf);
    ConcatJoinEach(rows);
  }

  /** A file of just the sequence block reads without error, and
      gdb_to_3let_sequence translates exactly the letters written. */
  lemma PipeSequenceFileRead<R>(sequence1Let: seq<string>, fileName: string, floatOf: string -> Option<real>,
                                translate: string -> R)
    requires forall k | 0 <= k < |sequence1Let| :: IsToken(sequence1Let[k])
    ensures var r := Read(PipeSequenceLines(sequence1Let), fileName, floatOf);
      r.Ok? && GdbTo3LetSequence(r.value, translate) == translate(Concat(sequence1Let))
  {
    PipeSequenceReadBack(Init, sequence1Let, fileName, 1, floatOf);
    var r := ReadFrom(Init, PipeSequenceLines(sequence1Let), fileName, 1, floatOf);
    assert r.value.records[0..] == r.value.records;
  }
}
