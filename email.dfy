/** The email recogniser `email_pattern` (main.py line 22),
    `[a-z0-9#%$*!][a-z0-9.#$!_%+-]+@[a-z0-9.-]+\.[a-z]{2,63}` compiled with
    IGNORECASE, read as a full match on a candidate string. The source
    compiles it and never calls it. */
module EmailPattern {
  import opened Text

  /** `[a-z0-9#%$*!]`, any case: the first character. */
  predicate LocalStart(c: char) {
    IsLetter(c) || IsDigit(c) || c in "#%$*!"
  }

  /** `[a-z0-9.#$!_%+-]`, any case: the rest of the local part. */
  predicate LocalChar(c: char) {
    IsLetter(c) || IsDigit(c) || c in ".#$!_%+-"
  }

  /** `[a-z0-9.-]`, any case: the domain before the final dot. */
  predicate DomainChar(c: char) {
    IsLetter(c) || IsDigit(c) || c == '.' || c == '-'
  }

  /** The pattern's pieces, with the `@` at index `at` and the final `\.` at
      index `dot`: one start character, at least one more local character, the
      `@`, at least one domain character, the dot, then 2 to 63 letters. */
  ghost predicate EmailParts(s: string, at: int, dot: int) {
    && 2 <= at && at + 1 < dot && dot + 3 <= |s| <= dot + 64
    && LocalStart(s[0])
    && (forall k :: 1 <= k < at ==> LocalChar(s[k]))
    && s[at] == '@'
    && (forall k :: at < k < dot ==> DomainChar(s[k]))
    && s[dot] == '.'
    && (forall k :: dot < k < |s| ==> IsLetter(s[k]))
  }

  /** The whole string matches `email_pattern`. */
  ghost predicate EmailMatch(s: string) {
    exists at, dot :: EmailParts(s, at, dot)
  }

  /** Decides `email_pattern` with four scans: the first `@`, the local part,
      the trailing run of letters, and the domain. */
  method CheckEmail(s: string) returns (ok: bool)
    ensures ok <==> EmailMatch(s)
  {
    var at := 0;
    while at < |s| && s[at] != '@'
      invariant 0 <= at <= |s|
      invariant forall m :: 0 <= m < at ==> s[m] != '@'
    {
      at := at + 1;
    }
    var k := 1;
    while k < at && LocalChar(s[k])
      invariant 1 <= k && (k <= at || k == 1)
      invariant forall m :: 1 <= m < k ==> LocalChar(s[m])
    {
      k := k + 1;
    }
    var e := |s|;
    while e > at + 1 && IsLetter(s[e - 1])
      invariant e <= |s| && (at + 1 <= e || e == |s|)
      invariant forall m :: e <= m < |s| ==> IsLetter(s[m])
    {
      e := e - 1;
    }
    var dot := e - 1;
    var d := at + 1;
    while d < dot && DomainChar(s[d])
      invariant at + 1 <= d && (d == at + 1 || d <= dot)
      invariant forall m :: at < m < d ==> DomainChar(s[m])
    {
      d := d + 1;
    }
    ok := at < |s| && 2 <= at && LocalStart(s[0]) && k == at &&
          at + 1 < dot && s[dot] == '.' && 2 <= |s| - e <= 63 && d == dot;
    if ok {
      assert EmailParts(s, at, dot);
    }
    forall a, b | EmailParts(s, a, b) ensures ok {
      assert a == at by {
        assert !LocalStart('@') && !LocalChar('@');
      }
      assert e == b + 1 by {
        assert !IsLetter(s[b]);
      }
      assert k == at;
      assert d == dot;
    }
  }

  /** What every match looks like (main.py line 22): it starts with a
      character of `[a-z0-9#%$*!]`, its local part before the `@` has at least
      two characters, it has exactly one `@`, and it ends with a dot followed
      by 2 to 63 letters. */
  lemma EmailShape(s: string)
    requires EmailMatch(s)
    ensures |s| > 0 && LocalStart(s[0])
    ensures Count(s, '@') == 1
    ensures IndexOf(s, '@') >= 2
    ensures exists dot ::
      (0 <= dot && |s| - 64 <= dot <= |s| - 3 && s[dot] == '.' &&
       forall m :: dot < m < |s| ==> IsLetter(s[m]))
  {
    var at, dot :| EmailParts(s, at, dot);
    assert '@' !in s[..at] by {
      assert !LocalStart('@') && !LocalChar('@');
    }
    assert '@' !in s[at + 1..] by {
      assert !DomainChar('@') && !IsLetter('@');
    }
    OccursOnce(s, '@', at);
    assert |s| - 64 <= dot <= |s| - 3 && s[dot] == '.';
  }

  /** The pattern is compiled with IGNORECASE: strings equal up to ASCII case
      match together. */
  lemma CaseInsensitive(s: string, t: string)
    requires FoldEq(s, t)
    requires EmailMatch(s)
    ensures EmailMatch(t)
  {
    var at, dot :| EmailParts(s, at, dot);
    forall k | 0 <= k < |s| ensures s[k] == t[k] || (IsLetter(s[k]) && IsLetter(t[k])) {
      FoldSame(s[k], t[k]);
    }
    assert EmailParts(t, at, dot);
  }
}
