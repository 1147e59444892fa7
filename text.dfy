/** String helpers shared by the recognisers and the extractor: ASCII case
    folding (the part of Python's re.IGNORECASE this model covers), Python's
    `sub in s`, and Python's `str.split(sep)` for a one-character separator. */
module Text {

  /** An ASCII letter, `[a-zA-Z]`. */
  predicate IsLetter(c: char) {
    'a' <= c <= 'z' || 'A' <= c <= 'Z'
  }

  /** An ASCII decimal digit, `[0-9]`. */
  predicate IsDigit(c: char) {
    '0' <= c <= '9'
  }

  /** Lower-cases an ASCII upper-case letter and leaves every other character alone. */
  function Lower(c: char): (d: char)
    ensures IsLetter(c) <==> IsLetter(d)
    ensures !('A' <= c <= 'Z') ==> d == c
  {
    if 'A' <= c <= 'Z' then (c as int - 'A' as int + 'a' as int) as char else c
  }

  /** Two characters that fold to the same character are equal or are both letters. */
  lemma FoldSame(c: char, d: char)
    requires Lower(c) == Lower(d)
    ensures c == d || (IsLetter(c) && IsLetter(d))
  {
  }

  /** `a` and `b` are equal ignoring ASCII case. */
  predicate FoldEq(a: string, b: string) {
    |a| == |b| && forall k :: 0 <= k < |a| ==> Lower(a[k]) == Lower(b[k])
  }

  /** `pat` occurs in `s` at index `i`, ignoring ASCII case. */
  predicate OccursAtFold(s: string, pat: string, i: int) {
    0 <= i && i + |pat| <= |s| && FoldEq(s[i..i + |pat|], pat)
  }

  /** An occurrence ignoring case survives a change of case in `s`. */
  lemma OccursAtFoldEq(s: string, t: string, pat: string, i: int)
    requires FoldEq(s, t) && OccursAtFold(s, pat, i)
    ensures OccursAtFold(t, pat, i)
  {
    forall k | 0 <= k < |pat| ensures Lower(t[i..i + |pat|][k]) == Lower(pat[k]) {
      assert t[i..i + |pat|][k] == t[i + k] && s[i..i + |pat|][k] == s[i + k];
    }
  }

  /** `pat` occurs in `s` at index `i`, case-sensitively. */
  predicate OccursAt(s: string, pat: string, i: int) {
    0 <= i && i + |pat| <= |s| && s[i..i + |pat|] == pat
  }

  /** Python's `sub in s`: a case-sensitive substring test. */
  predicate Contains(s: string, sub: string) {
    exists i | 0 <= i <= |s| - |sub| :: OccursAt(s, sub, i)
  }

  /** The number of occurrences of `c` in `s`. */
  function Count(s: string, c: char): nat {
    if s == [] then 0 else (if s[0] == c then 1 else 0) + Count(s[1..], c)
  }

  lemma {:induction false} CountAppend(a: string, b: string, c: char)
    ensures Count(a + b, c) == Count(a, c) + Count(b, c)
  {
    if a == [] {
      assert a + b == b;
    } else {
      assert (a + b)[1..] == a[1..] + b;
      CountAppend(a[1..], b, c);
    }
  }

  lemma {:induction false} CountAbsent(s: string, c: char)
    ensures c !in s <==> Count(s, c) == 0
  {
    if s != [] {
      CountAbsent(s[1..], c);
      assert s == [s[0]] + s[1..];
    }
  }

  /** The index of the first occurrence of `c` in `s`. */
  function IndexOf(s: string, c: char): (i: nat)
    requires c in s
    ensures i < |s| && s[i] == c && c !in s[..i]
  {
    if s[0] == c then 0
    else
      assert c in s[1..] by { assert s == [s[0]] + s[1..]; }
      var j := IndexOf(s[1..], c);
      assert s[..j + 1] == [s[0]] + s[1..][..j];
      j + 1
  }

  /** The first occurrence is the only index with no earlier occurrence. */
  lemma IndexOfUnique(s: string, c: char, i: nat)
    requires i < |s| && s[i] == c && c !in s[..i]
    ensures IndexOf(s, c) == i
  {
  }

  /** A character found at `at` and nowhere else occurs once, first at `at`. */
  lemma OccursOnce(s: string, c: char, at: int)
    requires 0 <= at < |s| && s[at] == c && c !in s[..at] && c !in s[at + 1..]
    ensures Count(s, c) == 1 && IndexOf(s, c) == at
  {
    IndexOfUnique(s, c, at);
    assert s == s[..at] + [s[at]] + s[at + 1..];
    CountAppend(s[..at] + [s[at]], s[at + 1..], c);
    CountAppend(s[..at], [s[at]], c);
    CountAbsent(s[..at], c);
    CountAbsent(s[at + 1..], c);
  }

  /** Python's `sep.join(parts)`, written the other way round. */
  function Join(parts: seq<string>, sep: char): string
    requires |parts| >= 1
  {
    if |parts| == 1 then parts[0] else parts[0] + [sep] + Join(parts[1..], sep)
  }

  /** Python's `s.split(sep)` for a one-character separator: the pieces of `s`
      between consecutive occurrences of `sep`, one more piece than there are
      separators, none of them containing `sep`, and joining them back gives `s`. */
  function Split(s: string, sep: char): (parts: seq<string>)
    ensures |parts| == Count(s, sep) + 1
    ensures forall k :: 0 <= k < |parts| ==> sep !in parts[k]
    ensures Join(parts, sep) == s
    decreases |s|
  {
    if sep !in s then
      CountAbsent(s, sep);
      [s]
    else
      var i := IndexOf(s, sep);
      var rest := Split(s[i + 1..], sep);
      assert s == s[..i] + [sep] + s[i + 1..];
      CountAppend(s[..i] + [sep], s[i + 1..], sep);
      CountAppend(s[..i], [sep], sep);
      CountAbsent(s[..i], sep);
      [s[..i]] + rest
  }

  /** Splitting at the first separator, found at index `k`. */
  lemma SplitFirst(s: string, sep: char, k: int)
    requires 0 <= k < |s| && s[k] == sep && sep !in s[..k]
    ensures Split(s, sep) == [s[..k]] + Split(s[k + 1..], sep)
  {
    IndexOfUnique(s, sep, k);
  }

  /** A string without the separator splits into itself alone. */
  lemma SplitNone(s: string, sep: char)
    requires sep !in s
    ensures Split(s, sep) == [s]
  {
  }

  /** Splitting a join of separator-free pieces gives the pieces back. */
  lemma {:induction false} SplitJoin(parts: seq<string>, sep: char)
    requires |parts| >= 1
    requires forall k :: 0 <= k < |parts| ==> sep !in parts[k]
    ensures Split(Join(parts, sep), sep) == parts
  {
    var s := Join(parts, sep);
    if |parts| > 1 {
      var head, rest := parts[0], Join(parts[1..], sep);
      assert s == head + [sep] + rest;
      assert s[..|head|] == head;
      IndexOfUnique(s, sep, |head|);
      assert s[|head| + 1..] == rest;
      SplitJoin(parts[1..], sep);
      assert Split(s, sep) == [head] + Split(rest, sep);
      assert parts == [head] + parts[1..];
    }
  }

  /** The first piece of a join ends at the end of the string or at a separator. */
  lemma JoinHead(parts: seq<string>, sep: char)
    requires |parts| >= 1
    ensures |parts[0]| <= |Join(parts, sep)|
    ensures Join(parts, sep)[..|parts[0]|] == parts[0]
    ensures |parts| == 1 <==> |parts[0]| == |Join(parts, sep)|
    ensures |parts| > 1 ==> Join(parts, sep)[|parts[0]|] == sep
  {
    if |parts| > 1 {
      var s := Join(parts, sep);
      assert s == parts[0] + [sep] + Join(parts[1..], sep);
      assert s[..|parts[0]|] == parts[0];
    }
  }

  /** The first piece of a split runs up to the first separator or the end. */
  lemma SplitHead(t: string, sep: char)
    ensures var v := Split(t, sep)[0];
      |v| <= |t| && t[..|v|] == v && (|v| == |t| || t[|v|] == sep)
  {
    JoinHead(Split(t, sep), sep);
  }

  /** The second piece of a split is the first piece of what follows the
      first separator. */
  lemma SplitSecond(s: string, sep: char)
    requires sep in s
    ensures |Split(s, sep)| >= 2
    ensures Split(s, sep)[1] == Split(s[IndexOf(s, sep) + 1..], sep)[0]
  {
    SplitFirst(s, sep, IndexOf(s, sep));
  }
}
