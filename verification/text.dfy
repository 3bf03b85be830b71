/**
 * The parts of Python's string toolkit the core relies on: str.isspace,
 * str.split() (on runs of whitespace), str.split(c), str.strip(), str.join,
 * str.startswith, int() on a token, str(n) for a natural number and the
 * code-point ordering that sorted() uses on strings.
 */
module Text {
  import opened Wrappers

  /** Concatenation is associative. */
  lemma SeqAppendAssoc<T>(a: seq<T>, b: seq<T>, c: seq<T>)
    ensures (a + b) + c == a + (b + c)
  {
  }

  /** str.isspace: the characters that split() and strip() treat as whitespace. */
  predicate IsSpace(c: char) {
    || ('\t' <= c <= '\r')
    || ('\U{1c}' <= c <= '\U{1f}')
    || c == ' ' || c == '\U{85}' || c == '\U{a0}' || c == '\U{1680}'
    || ('\U{2000}' <= c <= '\U{200a}')
    || c == '\U{2028}' || c == '\U{2029}' || c == '\U{202f}' || c == '\U{205f}'
    || c == '\U{3000}'
  }

  predicate NoSpace(s: string) {
    forall i | 0 <= i < |s| :: !IsSpace(s[i])
  }

  /** The string is empty once stripped. */
  predicate IsBlank(s: string) {
    forall i | 0 <= i < |s| :: IsSpace(s[i])
  }

  /** A token as str.split() returns it: non-empty, no whitespace in it. */
  predicate IsToken(t: string) {
    |t| > 0 && NoSpace(t)
  }

  /** The longest prefix of s without whitespace. */
  function Word(s: string): (w: string)
    ensures |w| <= |s| && w == s[..|w|]
    ensures NoSpace(w)
    ensures |w| == |s| || IsSpace(s[|w|])
    ensures |s| > 0 && !IsSpace(s[0]) ==> |w| > 0
  {
    if s == [] || IsSpace(s[0]) then [] else [s[0]] + Word(s[1..])
  }

  /** str.split() with no argument: the maximal runs of non-whitespace, in order. */
  function Split(s: string): (r: seq<string>)
    ensures forall k | 0 <= k < |r| :: IsToken(r[k])
    decreases |s|
  {
    if s == [] then []
    else if IsSpace(s[0]) then Split(s[1..])
    else
      var w := Word(s);
      [w] + Split(s[|w|..])
  }

  /** str.lstrip() */
  function LStrip(s: string): (r: string)
    ensures |r| <= |s| && r == s[|s| - |r|..]
    ensures r == [] || !IsSpace(r[0])
  {
    if s == [] || !IsSpace(s[0]) then s else LStrip(s[1..])
  }

  /** str.rstrip() */
  function RStrip(s: string): (r: string)
    ensures |r| <= |s| && r == s[..|r|]
    ensures r == [] || !IsSpace(r[|r| - 1])
  {
    if s == [] || !IsSpace(s[|s| - 1]) then s else RStrip(s[..|s| - 1])
  }

  /** str.strip() */
  function Strip(s: string): string {
    RStrip(LStrip(s))
  }

  lemma {:induction false} SplitEmptyIffBlank(s: string)
    ensures Split(s) == [] <==> IsBlank(s)
    decreases |s|
  {
    if s != [] {
      if IsSpace(s[0]) {
        SplitEmptyIffBlank(s[1..]);
        if IsBlank(s[1..]) {
          assert forall i | 1 <= i < |s| :: s[i] == s[1..][i - 1];
        } else {
          var i :| 0 <= i < |s[1..]| && !IsSpace(s[1..][i]);
          assert !IsSpace(s[i + 1]);
        }
      } else {
        assert !IsSpace(s[0]);
      }
    }
  }

  /** A non-empty string is blank when its head is whitespace and its tail is blank. */
  lemma BlankHeadTail(s: string)
    requires s != []
    ensures IsBlank(s) <==> IsSpace(s[0]) && IsBlank(s[1..])
  {
    assert forall i | 1 <= i < |s| :: s[i] == s[1..][i - 1];
  }

  lemma {:induction false} LStripBlank(s: string)
    ensures LStrip(s) == [] <==> IsBlank(s)
    decreases |s|
  {
    if s != [] {
      BlankHeadTail(s);
      if IsSpace(s[0]) {
        LStripBlank(s[1..]);
      }
    }
  }

  lemma {:induction false} RStripEmpty(s: string)
    ensures RStrip(s) == [] <==> IsBlank(s)
    decreases |s|
  {
    if s != [] && IsSpace(s[|s| - 1]) {
      var p := s[..|s| - 1];
      RStripEmpty(p);
      if !IsBlank(p) {
        var i :| 0 <= i < |p| && !IsSpace(p[i]);
        assert !IsSpace(s[i]);
      } else {
        assert forall i | 0 <= i < |s| - 1 :: s[i] == p[i];
      }
    }
  }

  /** A line is skipped by the table reader exactly when strip() leaves nothing,
      which is exactly when split() finds no token. */
  lemma StripEmptyIffNoTokens(s: string)
    ensures Strip(s) == [] <==> IsBlank(s)
    ensures Split(s) == [] <==> IsBlank(s)
  {
    LStripBlank(s);
    RStripEmpty(LStrip(s));
    SplitEmptyIffBlank(s);
  }

  /** strip() leaves a token unchanged. */
  lemma StripToken(t: string)
    requires IsToken(t)
    ensures Strip(t) == t
  {
  }

  lemma {:induction false} SplitLStrip(s: string)
    ensures Split(LStrip(s)) == Split(s)
    decreases |s|
  {
    if s != [] && IsSpace(s[0]) {
      SplitLStrip(s[1..]);
    }
  }

  lemma {:induction false} WordTrailingSpace(p: string, c: char)
    requires IsSpace(c)
    ensures Word(p + [c]) == Word(p)
    decreases |p|
  {
    if p != [] && !IsSpace(p[0]) {
      assert (p + [c])[1..] == p[1..] + [c];
      WordTrailingSpace(p[1..], c);
    }
  }

  lemma {:induction false} SplitTrailingSpace(p: string, c: char)
    requires IsSpace(c)
    ensures Split(p + [c]) == Split(p)
    decreases |p|
  {
    if p == [] {
      assert Split([c]) == Split([c][1..]);
    } else if IsSpace(p[0]) {
      assert (p + [c])[1..] == p[1..] + [c];
      SplitTrailingSpace(p[1..], c);
    } else {
      WordTrailingSpace(p, c);
      var w := Word(p);
      assert (p + [c])[|w|..] == p[|w|..] + [c];
      SplitTrailingSpace(p[|w|..], c);
    }
  }

  lemma {:induction false} SplitRStrip(s: string)
    ensures Split(RStrip(s)) == Split(s)
    decreases |s|
  {
    if s != [] && IsSpace(s[|s| - 1]) {
      var p := s[..|s| - 1];
      SplitRStrip(p);
      assert s == p + [s[|s| - 1]];
      SplitTrailingSpace(p, s[|s| - 1]);
    }
  }

  /** line.strip().split() splits the same tokens as line.split(). */
  lemma SplitStrip(s: string)
    ensures Split(Strip(s)) == Split(s)
  {
    SplitRStrip(LStrip(s));
    SplitLStrip(s);
  }

  /** "".join(parts) */
  function Concat(parts: seq<string>): (r: string)
    ensures parts == [] ==> r == []
  {
    if parts == [] then [] else parts[0] + Concat(parts[1..])
  }

  lemma {:induction false} ConcatAppend(a: seq<string>, b: seq<string>)
    ensures Concat(a + b) == Concat(a) + Concat(b)
  {
    if a != [] {
      assert (a + b)[1..] == a[1..] + b;
      ConcatAppend(a[1..], b);
    } else {
      assert a + b == b;
    }
  }

  /** sep.join(parts) */
  function Join(sep: string, parts: seq<string>): string {
    if parts == [] then []
    else if |parts| == 1 then parts[0]
    else parts[0] + sep + Join(sep, parts[1..])
  }

  /** The lengths of the parts, added up. */
  function TotalLength(parts: seq<string>): nat {
    if parts == [] then 0 else |parts[0]| + TotalLength(parts[1..])
  }

  /** len(sep.join(parts)): the parts and one separator between each two. */
  lemma {:induction false} JoinLength(sep: string, parts: seq<string>)
    requires parts != []
    ensures |Join(sep, parts)| == TotalLength(parts) + (|parts| - 1) * |sep|
  {
    if |parts| > 1 {
      JoinLength(sep, parts[1..]);
    }
  }

  lemma {:induction false} WordOfTokenThenSpace(w: string, rest: string)
    requires IsToken(w)
    requires rest == [] || IsSpace(rest[0])
    ensures Word(w + rest) == w
    decreases |w|
  {
    if |w| > 1 {
      assert (w + rest)[1..] == w[1..] + rest;
      WordOfTokenThenSpace(w[1..], rest);
    } else {
      assert (w + rest)[1..] == rest;
    }
  }

  lemma SplitTokenThenRest(w: string, rest: string)
    requires IsToken(w)
    requires rest == [] || IsSpace(rest[0])
    ensures Split(w + rest) == [w] + Split(rest)
  {
    WordOfTokenThenSpace(w, rest);
    assert (w + rest)[|w|..] == rest;
  }

  /** split() undoes " ".join() on tokens: the words of a space-joined list of tokens are the tokens. */
  lemma {:induction false} SplitJoin(parts: seq<string>)
    requires forall k | 0 <= k < |parts| :: IsToken(parts[k])
    ensures Split(Join(" ", parts)) == parts
  {
    if |parts| == 1 {
      SplitTokenThenRest(parts[0], []);
      assert parts[0] + [] == parts[0];
    } else if |parts| > 1 {
      var sp, rest := " ", parts[1..];
      var tail := Join(sp, rest);
      SplitJoin(rest);
      assert Join(sp, parts) == parts[0] + sp + tail by {
        assert [parts[0]] + rest == parts;
        JoinCons(sp, parts[0], rest);
      }
      SeqAppendAssoc(parts[0], sp, tail);
      SplitTokenThenRest(parts[0], sp + tail);
      assert (sp + tail)[1..] == tail;
    }
  }

  /** str.split(c) for a one-character separator: always at least one part, empty parts kept. */
  function SplitOn(s: string, c: char): (r: seq<string>)
    ensures |r| >= 1
  {
    if s == [] then [[]]
    else
      var rest := SplitOn(s[1..], c);
      if s[0] == c then [[]] + rest else [[s[0]] + rest[0]] + rest[1..]
  }

  /** No part holds the separator. */
  lemma {:induction false} SplitOnPartsLackSeparator(s: string, c: char)
    ensures forall k, i | 0 <= k < |SplitOn(s, c)| && 0 <= i < |SplitOn(s, c)[k]| :: SplitOn(s, c)[k][i] != c
  {
    if s != [] {
      SplitOnPartsLackSeparator(s[1..], c);
      var rest := SplitOn(s[1..], c);
      if s[0] != c {
        var first := [s[0]] + rest[0];
        assert forall i | 1 <= i < |first| :: first[i] == rest[0][i - 1];
      }
    }
  }

  /** The number of times c occurs in s. */
  function CountChar(s: string, c: char): nat {
    multiset(s)[c]
  }

  lemma {:induction false} SplitOnCount(s: string, c: char)
    ensures |SplitOn(s, c)| == CountChar(s, c) + 1
  {
    if s != [] {
      assert s == [s[0]] + s[1..];
      assert multiset(s) == multiset{s[0]} + multiset(s[1..]);
      SplitOnCount(s[1..], c);
    }
  }

  /** Joining a list with a head puts the separator after the head. */
  lemma JoinCons(sep: string, x: string, parts: seq<string>)
    requires parts != []
    ensures Join(sep, [x] + parts) == x + sep + Join(sep, parts)
  {
    assert ([x] + parts)[1..] == parts;
  }

  lemma JoinExtendFirst(sep: string, ch: char, parts: seq<string>)
    requires |parts| >= 1
    ensures Join(sep, [[ch] + parts[0]] + parts[1..]) == [ch] + Join(sep, parts)
  {
    var r := [[ch] + parts[0]] + parts[1..];
    if |parts| > 1 {
      assert r[1..] == parts[1..];
    }
  }

  lemma {:induction false} SplitOnJoin(s: string, c: char)
    ensures Join([c], SplitOn(s, c)) == s
  {
    if s != [] {
      SplitOnJoin(s[1..], c);
      var rest := SplitOn(s[1..], c);
      if s[0] == c {
        assert Join([c], [[]] + rest) == [] + [c] + Join([c], rest);
      } else {
        JoinExtendFirst([c], s[0], rest);
      }
    }
  }

  /** str.split(c) makes one more part than there are separators, and joining
      the parts with c gives back the string. */
  lemma SplitOnParts(s: string, c: char)
    ensures |SplitOn(s, c)| == CountChar(s, c) + 1
    ensures Join([c], SplitOn(s, c)) == s
  {
    SplitOnCount(s, c);
    SplitOnJoin(s, c);
  }

  lemma {:induction false} SplitOnWithoutSeparator(s: string, c: char)
    requires c !in s
    ensures SplitOn(s, c) == [s]
  {
    if s != [] {
      SplitOnWithoutSeparator(s[1..], c);
      assert [s[0]] + s[1..] == s;
    }
  }

  /** str.split(c)[-1]: the part after the last c. */
  lemma {:induction false} SplitOnLastPart(a: string, b: string, c: char)
    requires c !in b
    ensures var parts := SplitOn(a + [c] + b, c); parts[|parts| - 1] == b
  {
    var s := a + [c] + b;
    if a == [] {
      assert s[1..] == b;
      SplitOnWithoutSeparator(b, c);
    } else {
      assert s[1..] == a[1..] + [c] + b;
      SplitOnLastPart(a[1..], b, c);
      var rest := SplitOn(s[1..], c);
      SplitOnCount(s[1..], c);
      assert s[1..][|a| - 1] == c;
      assert c in multiset(s[1..]);
    }
  }

  /** str.startswith */
  predicate StartsWith(s: string, prefix: string) {
    |prefix| <= |s| && s[..|prefix|] == prefix
  }

  predicate IsDigit(c: char) {
    '0' <= c <= '9'
  }

  predicate AllDigits(s: string) {
    forall i | 0 <= i < |s| :: IsDigit(s[i])
  }

  function DigitValue(c: char): nat
    requires IsDigit(c)
  {
    (c as int) - ('0' as int)
  }

  /** The value of a string of decimal digits, most significant first. */
  function DigitsValue(ds: string): nat
    requires AllDigits(ds)
  {
    if ds == [] then 0 else DigitsValue(ds[..|ds| - 1]) * 10 + DigitValue(ds[|ds| - 1])
  }

  /** int(t) on a token: an optional sign and at least one decimal digit. */
  function ParseInt(t: string): (r: Option<int>)
    ensures r.Some? <==> |t| > 0 && (AllDigits(t) || ((t[0] == '+' || t[0] == '-') && |t| > 1 && AllDigits(t[1..])))
    ensures r.Some? && |t| > 0 && t[0] == '-' ==> r.value <= 0
    ensures r.Some? && |t| > 0 && t[0] != '-' ==> r.value >= 0
  {
    if |t| > 0 && AllDigits(t) then Some(DigitsValue(t))
    else if |t| > 1 && (t[0] == '+' || t[0] == '-') && AllDigits(t[1..]) then
      var magnitude: int := DigitsValue(t[1..]);
      Some(if t[0] == '-' then -magnitude else magnitude)
    else None
  }

  /** True when int(t) succeeds. */
  predicate IsInt(t: string) {
    ParseInt(t).Some?
  }

  function DigitChar(d: nat): (c: char)
    requires d < 10
    ensures IsDigit(c) && DigitValue(c) == d
  {
    ['0', '1', '2', '3', '4', '5', '6', '7', '8', '9'][d]
  }

  /** str(n) for a natural number: its decimal digits, without leading zeros. */
  function NatToString(n: nat): (s: string)
    ensures |s| > 0 && AllDigits(s)
    ensures |s| > 1 ==> s[0] != '0'
  {
    if n < 10 then [DigitChar(n)] else NatToString(n / 10) + [DigitChar(n % 10)]
  }

  /** int(str(n)) == n */
  lemma {:induction false} NatToStringRoundTrip(n: nat)
    ensures DigitsValue(NatToString(n)) == n
    ensures ParseInt(NatToString(n)) == Some(n)
  {
    if n >= 10 {
      NatToStringRoundTrip(n / 10);
      var s := NatToString(n);
      assert s[..|s| - 1] == NatToString(n / 10);
    }
  }

  /** Python's ordering of strings: lexicographic by code point, a proper prefix first. */
  predicate StrLess(a: string, b: string) {
    if a == [] then b != []
    else if b == [] then false
    else if a[0] != b[0] then a[0] < b[0]
    else StrLess(a[1..], b[1..])
  }

  lemma {:induction false} StrLessIrreflexive(a: string)
    ensures !StrLess(a, a)
  {
    if a != [] {
      StrLessIrreflexive(a[1..]);
    }
  }

  lemma {:induction false} StrLessTransitive(a: string, b: string, c: string)
    requires StrLess(a, b) && StrLess(b, c)
    ensures StrLess(a, c)
  {
    if a != [] && b != [] && c != [] && a[0] == b[0] && b[0] == c[0] {
      StrLessTransitive(a[1..], b[1..], c[1..]);
    }
  }

  lemma {:induction false} StrLessTotal(a: string, b: string)
    ensures a == b || StrLess(a, b) || StrLess(b, a)
  {
    if a != [] && b != [] && a[0] == b[0] {
      StrLessTotal(a[1..], b[1..]);
      if a[1..] == b[1..] {
        assert a == [a[0]] + a[1..] && b == [b[0]] + b[1..];
      }
    }
  }

  lemma {:induction false} StrLessAsymmetric(a: string, b: string)
    requires StrLess(a, b)
    ensures !StrLess(b, a)
  {
    if a != [] && b != [] && a[0] == b[0] {
      StrLessAsymmetric(a[1..], b[1..]);
    }
  }
}
