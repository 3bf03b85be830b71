/**
 * The record shapes shared by the transcoders (lib/structures.py). Python
 * floats are modelled as reals, whose arithmetic the model never relies on;
 * frozen dataclasses become datatypes, whose equality is structural.
 */
module Structures {
  import opened Wrappers

  /** One residue of one chain. */
  datatype SequenceResidue = SequenceResidue(chain: string, sequenceCode: int, residueName: string)

  /** One atom in one residue of one chain; the sequence code may be absent. */
  datatype AtomLabel = AtomLabel(chainCode: string, sequenceCode: Option<int>, residueName: string, atomName: string)

  datatype PeakAxis = PeakAxis(atomLabels: seq<AtomLabel>, ppm: real, merit: string)

  datatype PeakValues = PeakValues(index: int, volume: real, intensity: real, status: bool, comment: string)

  datatype PeakListData = PeakListData(
    numAxis: int,
    axisLabels: seq<string>,
    dataSet: string,
    sweepWidths: seq<real>,
    spectrometerFrequencies: seq<real>)

  /** A peak is keyed by an axis number or by a name such as "values". */
  datatype PeakKey = AxisKey(axis: int) | NameKey(name: string)

  /** What a peak key maps to: the data of one axis, or the peak's own values. */
  datatype PeakEntry = AxisEntry(axis: PeakAxis) | ValuesEntry(values: PeakValues)

  datatype PeakList = PeakList(peakListData: PeakListData, peaks: seq<map<PeakKey, PeakEntry>>)

  /** Where a line came from: file name, 1-based line number and the raw text. */
  datatype LineInfo = LineInfo(fileName: string, lineNo: int, line: string)

  datatype ShiftData = ShiftData(atom: AtomLabel, shift: real, error: Option<real>)

  datatype ShiftList = ShiftList(shifts: seq<ShiftData>)

  datatype RdcRestraint = RdcRestraint(atom1: AtomLabel, atom2: AtomLabel, rdc: real, rdcError: real, weight: Option<real>)

  /** ShiftData(atom, shift): the error defaults to absent. */
  function NewShiftData(atom: AtomLabel, shift: real): (r: ShiftData)
    ensures r.atom == atom && r.shift == shift && r.error.None?
  {
    ShiftData(atom, shift, None)
  }

  /** RdcRestraint(atom_1, atom_2, rdc, rdc_error): the weight defaults to absent. */
  function NewRdcRestraint(atom1: AtomLabel, atom2: AtomLabel, rdc: real, rdcError: real): (r: RdcRestraint)
    ensures r.atom1 == atom1 && r.atom2 == atom2 && r.rdc == rdc && r.rdcError == rdcError
    ensures r.weight.None?
  {
    RdcRestraint(atom1, atom2, rdc, rdcError, None)
  }

  /** Frozen dataclasses compare field by field. */
  lemma AtomLabelEquality(a: AtomLabel, b: AtomLabel)
    ensures a == b <==>
      a.chainCode == b.chainCode && a.sequenceCode == b.sequenceCode &&
      a.residueName == b.residueName && a.atomName == b.atomName
  {
  }

  lemma SequenceResidueEquality(a: SequenceResidue, b: SequenceResidue)
    ensures a == b <==>
      a.chain == b.chain && a.sequenceCode == b.sequenceCode && a.residueName == b.residueName
  {
  }
}
