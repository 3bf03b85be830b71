/**
 * The isotope table (src/nef_pipelines/lib/isotope_lib.py): the isotopes by
 * member name, their printed form with the mass number first, their
 * magnetogyric ratios relative to 1H and the isotope each atom letter stands
 * for.
 */
module Isotopes {
  import opened Text

  datatype Isotope = H1 | H2 | H3 | N15 | C13 | O17 | F19 | P31

  /** The member name, element symbol then mass number. */
  function Name(isotope: Isotope): string {
    match isotope
    case H1 => "H1"
    case H2 => "H2"
    case H3 => "H3"
    case N15 => "N15"
    case C13 => "C13"
    case O17 => "O17"
    case F19 => "F19"
    case P31 => "P31"
  }

  predicate NoDigits(s: string) {
    forall i | 0 <= i < |s| :: !IsDigit(s[i])
  }

  /** s.rstrip(string.digits): s without its trailing decimal digits. */
  function RStripDigits(s: string): (r: string)
    ensures |r| <= |s| && r == s[..|r|]
    ensures AllDigits(s[|r|..])
    ensures r == [] || !IsDigit(r[|r| - 1])
  {
    if s == [] || !IsDigit(s[|s| - 1]) then s
    else
      var r := RStripDigits(s[..|s| - 1]);
      assert s[|r|..] == s[..|s| - 1][|r|..] + [s[|s| - 1]];
      r
  }

  /** The digits moved from the end of the name to its front. */
  function DigitsFirst(name: string): string {
    var element := RStripDigits(name);
    name[|element|..] + element
  }

  /** str(isotope) */
  function Str(isotope: Isotope): string {
    DigitsFirst(Name(isotope))
  }

  /** The name is its element part then its number part; the printed form is
      the number part then the element part, so it is as long as the name. */
  lemma DigitsFirstParts(name: string)
    ensures var element := RStripDigits(name);
      var number := name[|element|..];
      && name == element + number
      && AllDigits(number)
      && (element == [] || !IsDigit(element[|element| - 1]))
      && DigitsFirst(name) == number + element
      && |DigitsFirst(name)| == |name|
  {
  }

  /** The element part of a member name is its one letter, which is not a
      digit, and the number part is the rest. */
  lemma {:induction false} LetterThenDigits(letter: char, digits: string)
    requires !IsDigit(letter) && AllDigits(digits)
    ensures RStripDigits([letter] + digits) == [letter]
    ensures DigitsFirst([letter] + digits) == digits + [letter]
    decreases |digits|
  {
    if digits != [] {
      var p := digits[..|digits| - 1];
      assert ([letter] + digits)[..|digits|] == [letter] + p;
      LetterThenDigits(letter, p);
    }
  }

  /** Each member name is one element letter followed by the mass number. */
  lemma NameIsLetterThenDigits(isotope: Isotope)
    ensures |Name(isotope)| > 1
    ensures !IsDigit(Name(isotope)[0]) && AllDigits(Name(isotope)[1..])
  {
  }

  /** str(isotope) puts the mass number first (N15 prints as 15N): it is as
      long as the member name, and its element part, the last character, is
      not a digit. */
  lemma StrPutsNumberFirst(isotope: Isotope)
    ensures var name := Name(isotope);
      && |Str(isotope)| == |name|
      && Str(isotope) == name[1..] + [name[0]]
      && NoDigits(Str(isotope)[|name| - 1..])
      && AllDigits(Str(isotope)[..|name| - 1])
  {
    var name := Name(isotope);
    NameIsLetterThenDigits(isotope);
    assert name == [name[0]] + name[1..];
    LetterThenDigits(name[0], name[1..]);
  }

  /** GAMMA_RATIOS: each isotope's magnetogyric ratio divided by that of 1H. */
  const GAMMA_RATIOS: map<Isotope, real> := map[
    H1 := 1.0,
    H2 := 0.153508386,
    H3 := 1.066643718,
    C13 := 0.251503855,
    N15 := 0.101368145,
    O17 := 0.135564627,
    F19 := 0.94129576,
    P31 := 0.404791467
  ]

  /** ATOM_TO_ISOTOPE: the isotope an atom letter stands for. */
  const ATOM_TO_ISOTOPE: map<string, Isotope> := map[
    "H" := H1,
    "D" := H2,
    "T" := H3,
    "C" := C13,
    "N" := N15,
    "O" := O17,
    "F" := F19,
    "P" := P31
  ]

  /** Every isotope has a ratio, 1H's ratio is 1, and every ratio is positive
      (the signs of 15N and 17O are not kept). */
  lemma GammaRatiosComplete()
    ensures forall isotope: Isotope :: isotope in GAMMA_RATIOS && GAMMA_RATIOS[isotope] > 0.0
    ensures GAMMA_RATIOS[H1] == 1.0
  {
    forall isotope: Isotope ensures isotope in GAMMA_RATIOS && GAMMA_RATIOS[isotope] > 0.0 {
      match isotope
      case H1 => case H2 => case H3 => case N15 => case C13 => case O17 => case F19 => case P31 =>
    }
  }

  /** The atom letter that stands for an isotope. */
  function AtomLetter(isotope: Isotope): string {
    match isotope
    case H1 => "H"
    case H2 => "D"
    case H3 => "T"
    case N15 => "N"
    case C13 => "C"
    case O17 => "O"
    case F19 => "F"
    case P31 => "P"
  }

  /** AtomLetter inverts ATOM_TO_ISOTOPE: every isotope has its letter in the
      table, and every letter of the table is the letter of its isotope. */
  lemma AtomLetterInverts()
    ensures forall isotope: Isotope :: AtomLetter(isotope) in ATOM_TO_ISOTOPE && ATOM_TO_ISOTOPE[AtomLetter(isotope)] == isotope
    ensures forall a | a in ATOM_TO_ISOTOPE :: AtomLetter(ATOM_TO_ISOTOPE[a]) == a
  {
    forall isotope: Isotope ensures AtomLetter(isotope) in ATOM_TO_ISOTOPE && ATOM_TO_ISOTOPE[AtomLetter(isotope)] == isotope {
      match isotope
      case H1 => case H2 => case H3 => case N15 => case C13 => case O17 => case F19 => case P31 =>
    }
  }

  /** The eight atom letters stand for eight different isotopes, so every
      isotope has exactly one letter, and every one of them has a ratio. */
  lemma AtomToIsotopeIsOneToOne()
    ensures |ATOM_TO_ISOTOPE.Keys| == 8
    ensures forall a, b | a in ATOM_TO_ISOTOPE && b in ATOM_TO_ISOTOPE && a != b ::
      ATOM_TO_ISOTOPE[a] != ATOM_TO_ISOTOPE[b]
    ensures forall isotope: Isotope :: isotope in ATOM_TO_ISOTOPE.Values
    ensures forall a | a in ATOM_TO_ISOTOPE :: ATOM_TO_ISOTOPE[a] in GAMMA_RATIOS
  {
    AtomLetterInverts();
    GammaRatiosComplete();
    forall isotope: Isotope ensures isotope in ATOM_TO_ISOTOPE.Values {
      assert ATOM_TO_ISOTOPE[AtomLetter(isotope)] == isotope;
    }
  }
}
