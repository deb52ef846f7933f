/** The nonce format test of the attestation endpoint: the regular expression
    `[a-f0-9]{40}` used with `regexp.MatchString`, which searches for the
    pattern anywhere in the input (it is not anchored). */
module NoncePattern {
  import opened Hex

  /** `nonceLen`: the number of hex digits in a nonce. */
  const NonceLen: nat := 40

  /** `s[i..i+n]` is a run of lower-case hex digits, i.e. `[a-f0-9]{n}`
      matches at offset `i`. */
  predicate RunAt(s: string, i: nat, n: nat) {
    i + n <= |s| && forall k :: i <= k < i + n ==> IsLowerHexDigit(s[k])
  }

  /** What `regexp.MatchString(nonceRegExp, s)` reports: some window of
      `NonceLen` consecutive characters is all lower-case hex. */
  predicate MatchesNonceRegExp(s: string) {
    exists i :: 0 <= i <= |s| - NonceLen && RunAt(s, i, NonceLen)
  }

  /** The format the error message and the constant describe: exactly
      `NonceLen` lower-case hex digits (the anchored `^[a-f0-9]{40}$`). */
  predicate IsExactNonce(s: string) {
    |s| == NonceLen && AllLowerHex(s)
  }

  /** A left-to-right scan that counts the current run of lower-case hex
      digits and reports a match as soon as it reaches `NonceLen`; it decides
      exactly the unanchored match. */
  method MatchString(s: string) returns (matched: bool)
    ensures matched <==> MatchesNonceRegExp(s)
  {
    var i, run := 0, 0;
    while i < |s|
      invariant 0 <= run <= i <= |s|
      invariant run < NonceLen
      invariant RunAt(s, i - run, run)
      invariant i - run > 0 ==> !IsLowerHexDigit(s[i - run - 1])
      invariant forall j :: 0 <= j <= i - NonceLen ==> !RunAt(s, j, NonceLen)
    {
      if IsLowerHexDigit(s[i]) {
        run := run + 1;
        if run == NonceLen {
          assert RunAt(s, i + 1 - NonceLen, NonceLen);
          return true;
        }
      } else {
        run := 0;
      }
      i := i + 1;
      if i - NonceLen >= 0 {
        var j := i - NonceLen;
        assert !IsLowerHexDigit(s[i - run - 1]);
        assert !RunAt(s, j, NonceLen);
      }
    }
    return false;
  }

  /** A nonce of the documented format passes the regular expression. */
  lemma ExactNonceMatches(s: string)
    requires IsExactNonce(s)
    ensures MatchesNonceRegExp(s)
  {
    assert RunAt(s, 0, NonceLen);
  }

  /** Every string that passes contains `NonceLen` lower-case hex digits in a
      row, so it is at least that long. */
  lemma MatchIsLongEnough(s: string)
    requires MatchesNonceRegExp(s)
    ensures |s| >= NonceLen
  {
  }

  /** Surrounding text does not stop a match: a run anywhere inside the
      input is found. */
  lemma MatchInsideLongerInput(pre: string, run: string, post: string)
    requires IsExactNonce(run)
    ensures MatchesNonceRegExp(pre + run + post)
  {
    var s := pre + run + post;
    assert forall k :: |pre| <= k < |pre| + NonceLen ==> s[k] == run[k - |pre|];
    assert RunAt(s, |pre|, NonceLen);
  }
}
