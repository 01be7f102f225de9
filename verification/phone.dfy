/** The E.164 phone pattern `^\+[1-9]\d{9,14}$`: a plus sign, a non-zero
    leading digit, then nine to fourteen more digits, and nothing else. */
module PhoneNumbers {
  import opened Text

  /** The fewest and the most digits the pattern allows after the leading
      one. */
  const MIN_TAIL: nat := 9
  const MAX_TAIL: nat := 14

  /** The pattern, stated piece by piece: `+`, then `[1-9]`, then
      `\d{9,14}`, anchored at both ends. */
  predicate IsE164(s: string) {
    |s| >= 2 && s[0] == '+' && '1' <= s[1] <= '9' &&
    MIN_TAIL <= |s| - 2 <= MAX_TAIL && AllDigits(s[2..])
  }

  /** The matcher, reading the string once from left to right the way the
      anchored pattern does: it expects the plus sign, then the leading
      digit, then counts further digits and gives up as soon as a character
      is not a digit or the count passes fourteen. */
  method Matches(s: string) returns (ok: bool)
    ensures ok <==> IsE164(s)
  {
    if |s| == 0 || s[0] != '+' {
      return false;
    }
    if |s| == 1 || !('1' <= s[1] <= '9') {
      return false;
    }
    var count := 0;
    var i := 2;
    while i < |s|
      invariant 2 <= i <= |s|
      invariant count == i - 2 && count <= MAX_TAIL
      invariant AllDigits(s[2..i])
    {
      if !IsDigit(s[i]) {
        assert !AllDigits(s[2..]) by {
          assert s[2..][i - 2] == s[i];
        }
        return false;
      }
      if count == MAX_TAIL {
        return false;
      }
      assert s[2..i + 1] == s[2..i] + [s[i]];
      count := count + 1;
      i := i + 1;
    }
    assert s[2..i] == s[2..];
    ok := count >= MIN_TAIL;
  }

  /** Every accepted number is eleven to sixteen characters long, has no
      leading zero and holds nothing but the plus sign and digits. */
  lemma AcceptedShape(s: string)
    requires IsE164(s)
    ensures 11 <= |s| <= 16
    ensures s[1] != '0'
    ensures forall i :: 1 <= i < |s| ==> IsDigit(s[i])
    ensures forall i :: 1 <= i < |s| ==> s[i] != '+'
  {
    forall i | 2 <= i < |s|
      ensures IsDigit(s[i])
    {
      assert s[2..][i - 2] == s[i];
    }
  }

  /** The pattern read the way the field's documentation puts it: a plus
      sign followed by ten to fifteen digits, the first of which is not
      zero. */
  lemma DocumentedForm(s: string)
    ensures IsE164(s) <==> |s| >= 2 && s[0] == '+' && 10 <= |s| - 1 <= 15 && AllDigits(s[1..]) && s[1] != '0'
  {
    if |s| >= 2 {
      assert s[1..][0] == s[1];
      assert forall i :: 2 <= i < |s| ==> s[2..][i - 2] == s[i] && s[1..][i - 1] == s[i];
    }
  }

  /** A plus sign, a non-zero digit and a run of digits make a number
      exactly when the run has nine to fourteen digits. */
  lemma Compose(d: char, tail: string)
    requires '1' <= d <= '9' && AllDigits(tail)
    ensures IsE164(['+', d] + tail) <==> MIN_TAIL <= |tail| <= MAX_TAIL
  {
    assert (['+', d] + tail)[2..] == tail;
  }

  /** Accepted examples from the crate's tests: a US, a UK and a Russian number. */
  lemma AcceptedExamples()
    ensures IsE164("+14155551234") && IsE164("+442071234567") && IsE164("+79991234567")
  {
    assert "+14155551234"[2..] == "4155551234";
    assert "+442071234567"[2..] == "42071234567";
    assert "+79991234567"[2..] == "9991234567";
  }

  /** Refused examples from the crate's tests: no plus sign, too short, a leading
      zero, not a number at all. */
  lemma RefusedExamples()
    ensures !IsE164("14155551234") && !IsE164("+1234") && !IsE164("+0123456789")
    ensures !IsE164("not a phone")
  {
  }
}
