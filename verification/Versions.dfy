/** Release versions: the text pattern MAJOR.MINOR.PATCH and the order Stable moves along. */
module Versions {
  import opened Wrappers

  // A Go int on the build hosts; a longer number fails to scan.
  const MAX_INT: int := 0x7FFF_FFFF_FFFF_FFFF

  predicate IsDigits(s: string) {
    |s| > 0 && forall i :: 0 <= i < |s| ==> '0' <= s[i] <= '9'
  }

  function Number(s: string): (n: nat)
    requires forall i :: 0 <= i < |s| ==> '0' <= s[i] <= '9'
  {
    if s == "" then 0 else 10 * Number(s[..|s| - 1]) + (s[|s| - 1] - '0') as int
  }

  /** Length of the longest prefix without a dot. */
  function BeforeDot(s: string): (n: nat)
    ensures n <= |s|
    ensures forall i :: 0 <= i < n ==> s[i] != '.'
    ensures n < |s| ==> s[n] == '.'
  {
    if s == "" || s[0] == '.' then 0 else 1 + BeforeDot(s[1..])
  }

  datatype Groups = Groups(major: string, minor: string, patch: string) {
    ghost predicate Valid() {
      IsDigits(major) && IsDigits(minor) && IsDigits(patch)
    }

    function Text(): string {
      major + "." + minor + "." + patch
    }
  }

  /** The capture groups of the release pattern, or None when the text does not match it. */
  function Match(s: string): (g: Option<Groups>)
    ensures g.Some? ==> g.value.Valid()
  {
    var i := BeforeDot(s);
    if i == |s| then None else
    var rest := s[i + 1..];
    var j := BeforeDot(rest);
    if j == |rest| then None else
    var g := Groups(s[..i], rest[..j], rest[j + 1..]);
    if IsDigits(g.major) && IsDigits(g.minor) && IsDigits(g.patch) then Some(g) else None
  }

  lemma Rejoin(s: string, i: nat)
    requires i < |s| && s[i] == '.'
    ensures s == s[..i] + ("." + s[i + 1..])
  {
  }

  lemma Reassociate(major: string, minor: string, patch: string)
    ensures major + "." + minor + "." + patch == major + ("." + (minor + ("." + patch)))
  {
  }

  /** A match is the text itself, cut at its two dots. */
  lemma MatchIsText(s: string)
    requires Match(s).Some?
    ensures Match(s).value.Text() == s
  {
    hide IsDigits, BeforeDot;
    var i := BeforeDot(s);
    var rest := s[i + 1..];
    var j := BeforeDot(rest);
    Rejoin(s, i);
    Rejoin(rest, j);
    Reassociate(s[..i], rest[..j], rest[j + 1..]);
  }

  lemma {:induction false} BeforeDotFindsFirstDot(prefix: string, rest: string)
    requires forall i :: 0 <= i < |prefix| ==> prefix[i] != '.'
    ensures BeforeDot(prefix + "." + rest) == |prefix|
  {
    if prefix == "" {
    } else {
      BeforeDotFindsFirstDot(prefix[1..], rest);
      assert (prefix + "." + rest)[1..] == prefix[1..] + "." + rest;
    }
  }

  lemma CutAtDot(prefix: string, rest: string)
    ensures (prefix + "." + rest)[..|prefix|] == prefix
    ensures (prefix + "." + rest)[|prefix| + 1..] == rest
  {
  }

  /** The pattern accepts exactly three dotted digit groups, and returns them. */
  lemma MatchInvertsText(g: Groups)
    requires g.Valid()
    ensures Match(g.Text()) == Some(g)
  {
    var rest := g.minor + "." + g.patch;
    assert g.Text() == g.major + "." + rest;
    BeforeDotFindsFirstDot(g.major, rest);
    BeforeDotFindsFirstDot(g.minor, g.patch);
    CutAtDot(g.major, rest);
    CutAtDot(g.minor, g.patch);
  }

  datatype Triple = Triple(major: nat, minor: nat, patch: nat)

  function Numbers(g: Groups): Triple
    requires g.Valid()
  {
    Triple(Number(g.major), Number(g.minor), Number(g.patch))
  }

  datatype Comparison = Decided(newer: bool) | Same

  /** One round of the comparison loop: a number too long to scan decides "not newer". */
  function CompareNumber(current: nat, next: nat): Comparison {
    if current > MAX_INT || next > MAX_INT then Decided(false)
    else if next != current then Decided(next > current)
    else Same
  }

  predicate NumbersAdvance(current: Triple, next: Triple) {
    var major := CompareNumber(current.major, next.major);
    if major.Decided? then major.newer else
    var minor := CompareNumber(current.minor, next.minor);
    if minor.Decided? then minor.newer else
    CompareNumber(current.patch, next.patch) == Decided(true)
  }

  /** Reports whether next is a strictly newer release than current. */
  predicate StableAdvances(current: string, next: string) {
    var c, n := Match(current), Match(next);
    c.Some? && n.Some? && NumbersAdvance(Numbers(c.value), Numbers(n.value))
  }

  predicate Below(a: Triple, b: Triple) {
    a.major < b.major
    || (a.major == b.major && (a.minor < b.minor || (a.minor == b.minor && a.patch < b.patch)))
  }

  predicate Representable(t: Triple) {
    t.major <= MAX_INT && t.minor <= MAX_INT && t.patch <= MAX_INT
  }

  /** On versions whose numbers fit an int, the loop decides exactly the order of the triples. */
  lemma AdvancesIsLexicographic(current: Groups, next: Groups)
    requires current.Valid() && next.Valid()
    requires Representable(Numbers(current)) && Representable(Numbers(next))
    ensures StableAdvances(current.Text(), next.Text()) <==> Below(Numbers(current), Numbers(next))
  {
    MatchInvertsText(current);
    MatchInvertsText(next);
  }

  /** For every two texts, an advance is a strict rise of the version triple. */
  lemma AdvancesRaisesTriple(current: string, next: string)
    requires StableAdvances(current, next)
    ensures Match(current).Some? && Match(next).Some?
    ensures Below(Numbers(Match(current).value), Numbers(Match(next).value))
  {
  }

  lemma AdvancesIsTransitive(a: string, b: string, c: string)
    requires StableAdvances(a, b) && StableAdvances(b, c)
    ensures StableAdvances(a, c)
  {
    NumbersAdvanceIsTransitive(
      Numbers(Match(a).value), Numbers(Match(b).value), Numbers(Match(c).value));
  }

  lemma NumbersAdvanceIsTransitive(a: Triple, b: Triple, c: Triple)
    requires NumbersAdvance(a, b) && NumbersAdvance(b, c)
    ensures NumbersAdvance(a, c)
  {
  }

  // ---------------------------------------------------------------- digits and numbers

  const DIGITS := "0123456789"

  lemma DigitExactly(c: char)
    ensures c in DIGITS <==> '0' <= c <= '9'
    ensures '0' <= c <= '9' ==> Number([c]) < 10 && DIGITS[Number([c])] == c
  {
    if '0' <= c <= '9' {
      assert Number([c][..0]) == 0;
      assert DIGITS[(c - '0') as int] == c;
    }
  }

  lemma IsDigitsExactly(s: string)
    ensures IsDigits(s) <==> s != "" && forall c :: c in s ==> c in DIGITS
  {
    forall c ensures c in DIGITS <==> '0' <= c <= '9' {
      DigitExactly(c);
    }
    assert forall i :: 0 <= i < |s| ==> s[i] in s;
  }

  /** A number with so many zeros behind it. */
  function Shifted(a: nat, n: nat): nat {
    if n == 0 then a else 10 * Shifted(a, n - 1)
  }

  lemma LastDigit(s: string, d: string)
    requires IsDigits(d) && |d| == 1 && forall i :: 0 <= i < |s| ==> '0' <= s[i] <= '9'
    ensures forall i :: 0 <= i < |s + d| ==> '0' <= (s + d)[i] <= '9'
    ensures Number(s + d) == 10 * Number(s) + Number(d)
  {
    assert (s + d)[..|s|] == s && d[..0] == "" && Number("") == 0;
    assert Number(d) == 10 * Number(d[..0]) + (d[0] - '0') as int;
  }

  /** Digits are read in the decimal system. */
  lemma {:induction false} NumberIsDecimal(a: string, b: string)
    requires IsDigits(a) && IsDigits(b)
    ensures IsDigits(a + b) && Number(a + b) == Shifted(Number(a), |b|) + Number(b)
    decreases |b|
  {
    hide Number;
    var n := |b| - 1;
    var front, last := b[..n], b[n..];
    assert b == front + last;
    LastDigit(front, last);
    LastDigit(a + front, last);
    assert a + b == a + front + last;
    if n == 0 {
      assert a + front == a && front == "";
      NumberOfNothing();
    } else {
      NumberIsDecimal(a, front);
    }
  }

  lemma NumberOfNothing()
    ensures Number("") == 0
  {
  }

  /** Both numbers fit an int. */
  predicate Scan(a: nat, b: nat) {
    a <= 0x7FFF_FFFF_FFFF_FFFF && b <= 0x7FFF_FFFF_FFFF_FFFF
  }

  /** For all versions: the first number that differs rises, and it and those before it can be scanned. */
  lemma AdvancesExactly(current: Groups, next: Groups)
    requires current.Valid() && next.Valid()
    ensures var c, n := Numbers(current), Numbers(next);
      StableAdvances(current.Text(), next.Text()) <==>
        && Scan(c.major, n.major)
        && (n.major > c.major
            || (n.major == c.major && Scan(c.minor, n.minor)
                && (n.minor > c.minor
                    || (n.minor == c.minor && Scan(c.patch, n.patch) && n.patch > c.patch))))
  {
    MatchInvertsText(current);
    MatchInvertsText(next);
  }
}
