/** Lower-case hexadecimal text: digests, fingerprints and revisions. */
module Hex {
  predicate IsHex(s: string) {
    forall i :: 0 <= i < |s| ==> '0' <= s[i] <= '9' || 'a' <= s[i] <= 'f'
  }

  predicate IsSha256(s: string) {
    |s| == 64 && IsHex(s)
  }

  const DIGITS := "0123456789abcdef"

  lemma DigitExactly(c: char)
    ensures c in DIGITS <==> '0' <= c <= '9' || 'a' <= c <= 'f'
  {
    if '0' <= c <= '9' {
      assert DIGITS[c as int - '0' as int] == c;
    }
    if 'a' <= c <= 'f' {
      assert DIGITS[c as int - 'a' as int + 10] == c;
    }
  }

  /** Hexadecimal text is made of the sixteen digits, and a digest is 64 of them. */
  lemma IsHexExactly(s: string)
    ensures IsHex(s) <==> forall c :: c in s ==> c in DIGITS
    ensures IsSha256(s) <==> |s| == 64 && forall c :: c in s ==> c in DIGITS
  {
    forall c ensures c in DIGITS <==> '0' <= c <= '9' || 'a' <= c <= 'f' {
      DigitExactly(c);
    }
    assert forall i :: 0 <= i < |s| ==> s[i] in s;
  }
}
