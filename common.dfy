/** Small value types shared by the client and the server models, and the
    JavaScript string search (`String.prototype.includes`) the client relies on. */
module Common {

  /** A value that may be absent (a missing JSON member, a `null` id). */
  datatype Option<+T> = None | Some(value: T)

  /** The outcome of a call into code that is not modelled: it returns, or it
      throws an exception carrying a message. */
  datatype Outcome = Pass | Fail(message: string)

  /** `s.includes(pat)`: `pat` occurs in `s` as a contiguous run. */
  predicate Contains(s: string, pat: string)
    decreases |s|
  {
    |pat| <= |s| && (s[..|pat|] == pat || Contains(s[1..], pat))
  }

  /** `pat` occurs in `s` starting at position `i`. */
  ghost predicate OccursAt(s: string, pat: string, i: int)
  {
    0 <= i && i + |pat| <= |s| && s[i..i + |pat|] == pat
  }

  /** The scan in `Contains` finds `pat` exactly when `pat` occurs at some position. */
  lemma {:induction false} ContainsIff(s: string, pat: string)
    ensures Contains(s, pat) <==> exists i :: OccursAt(s, pat, i)
    decreases |s|
  {
    if |pat| <= |s| {
      if s[..|pat|] == pat {
        assert OccursAt(s, pat, 0);
      } else {
        ContainsIff(s[1..], pat);
        if Contains(s[1..], pat) {
          var i :| OccursAt(s[1..], pat, i);
          assert s[1..][i..i + |pat|] == s[i + 1..i + 1 + |pat|];
          assert OccursAt(s, pat, i + 1);
        } else {
          forall i | 1 <= i && i + |pat| <= |s| ensures !OccursAt(s, pat, i) {
            assert s[1..][i - 1..i - 1 + |pat|] == s[i..i + |pat|];
            assert !OccursAt(s[1..], pat, i - 1);
          }
        }
      }
    }
  }

  /** A run found at a known position is found by the scan. */
  lemma ContainsAt(s: string, pat: string, i: int)
    requires OccursAt(s, pat, i)
    ensures Contains(s, pat)
  {
    ContainsIff(s, pat);
  }

  /** A pattern whose first character is at no position where it could start
      is not found. */
  lemma {:induction false} MissingFirstCharacter(s: string, pat: string)
    requires pat != []
    requires forall i :: 0 <= i && i + |pat| <= |s| ==> s[i] != pat[0]
    ensures !Contains(s, pat)
    decreases |s|
  {
    if |pat| <= |s| {
      assert s[..|pat|][0] != pat[0];
      MissingFirstCharacter(s[1..], pat);
    }
  }

  /** A pattern longer than the text is never found. */
  lemma {:induction false} NotContainsLonger(s: string, pat: string)
    requires |s| < |pat|
    ensures !Contains(s, pat)
  {
  }
}
