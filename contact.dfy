/** The contact-link test of `Concraper.__init__` (main.py line 23): a
    case-insensitive `re.search` for the escaped seed URL, then `.*`, then one
    of the words `contact`, `reach` or `support`. */
module ContactPattern {
  import opened Text

  /** One of the three keywords starts at index `j` of `s`, ignoring case. */
  predicate KeywordAt(s: string, j: int) {
    OccursAtFold(s, "contact", j) || OccursAtFold(s, "reach", j) || OccursAtFold(s, "support", j)
  }

  /** `s[from..to]` can be crossed by `.`, which matches anything but a newline. */
  predicate NoNewline(s: string, from: int, to: int)
    requires 0 <= from <= to <= |s|
  {
    forall k :: from <= k < to ==> s[k] != '\n'
  }

  /** What the regular expression accepts, read off the pattern: the seed URL
      occurs at `i`, a keyword starts at `j` at or after the end of that
      occurrence, and no newline lies in between. */
  ghost predicate ContactMatch(href: string, url: string) {
    exists i, j ::
      0 <= i && i + |url| <= j <= |href| &&
      OccursAtFold(href, url, i) && KeywordAt(href, j) && NoNewline(href, i + |url|, j)
  }

  /** Whether a keyword starts somewhere in `s[j..]` before the first newline. */
  function KeywordOnLine(s: string, j: nat): (r: bool)
    requires j <= |s|
    ensures r <==> exists m :: j <= m <= |s| && KeywordAt(s, m) && NoNewline(s, j, m)
    decreases |s| - j
  {
    if j == |s| then false
    else if KeywordAt(s, j) then
      assert NoNewline(s, j, j);
      true
    else if s[j] == '\n' then false
    else
      var r := KeywordOnLine(s, j + 1);
      assert forall m :: j + 1 <= m <= |s| ==> (NoNewline(s, j, m) <==> NoNewline(s, j + 1, m));
      r
  }

  /** Whether some occurrence of the seed at or after `i` is followed on its line by a keyword. */
  function SearchFrom(href: string, url: string, i: nat): (r: bool)
    requires i <= |href|
    ensures r <==> exists i', j ::
      i <= i' && i' + |url| <= j <= |href| &&
      OccursAtFold(href, url, i') && KeywordAt(href, j) && NoNewline(href, i' + |url|, j)
    decreases |href| - i
  {
    if i + |url| > |href| then false
    else if OccursAtFold(href, url, i) && KeywordOnLine(href, i + |url|) then true
    else if i == |href| then false
    else SearchFrom(href, url, i + 1)
  }

  /** `href and self.contact_pattern(href, url)` (main.py lines 23 and 69): the
      href is selected exactly when the regular expression finds a match; in
      particular a selected href contains the seed URL, ignoring case. */
  function IsContactLink(href: string, url: string): (r: bool)
    ensures r <==> ContactMatch(href, url)
    ensures r ==> exists i :: OccursAtFold(href, url, i)
  {
    href != "" && SearchFrom(href, url, 0)
  }

  /** A keyword anywhere after the seed, with no newline in between, selects the href. */
  lemma SeedThenKeyword(url: string, path: string, keyword: string)
    requires keyword in ["contact", "reach", "support"]
    requires '\n' !in path
    ensures IsContactLink(url + path + keyword, url)
  {
    var href := url + path + keyword;
    var j := |url| + |path|;
    assert href[0..|url|] == url;
    assert OccursAtFold(href, url, 0);
    assert href[j..j + |keyword|] == keyword;
    assert KeywordAt(href, j);
    assert forall k :: |url| <= k < j ==> href[k] == path[k - |url|];
    assert NoNewline(href, |url|, j);
  }

  /** Matching ignores case in the href: hrefs equal up to ASCII case are
      selected together. */
  lemma {:induction false} CaseInsensitiveHref(href: string, other: string, url: string)
    requires FoldEq(href, other)
    requires ContactMatch(href, url)
    ensures ContactMatch(other, url)
  {
    var i, j :| 0 <= i && i + |url| <= j <= |href| &&
      OccursAtFold(href, url, i) && KeywordAt(href, j) && NoNewline(href, i + |url|, j);
    forall k | i + |url| <= k < j ensures other[k] != '\n' {
      FoldSame(href[k], other[k]);
    }
    assert NoNewline(other, i + |url|, j);
    OccursAtFoldEq(href, other, url, i);
    if OccursAtFold(href, "contact", j) {
      OccursAtFoldEq(href, other, "contact", j);
    } else if OccursAtFold(href, "reach", j) {
      OccursAtFoldEq(href, other, "reach", j);
    } else {
      OccursAtFoldEq(href, other, "support", j);
    }
    assert KeywordAt(other, j);
  }

  /** Matching ignores case in the seed URL as well. */
  lemma {:induction false} CaseInsensitiveUrl(href: string, url: string, other: string)
    requires FoldEq(url, other)
    requires ContactMatch(href, url)
    ensures ContactMatch(href, other)
  {
    var i, j :| 0 <= i && i + |url| <= j <= |href| &&
      OccursAtFold(href, url, i) && KeywordAt(href, j) && NoNewline(href, i + |url|, j);
    assert OccursAtFold(href, other, i);
  }

  /** When a newline follows every occurrence of the seed, nothing after it
      counts: `.` does not cross the newline, so the href is not selected. */
  lemma NewlineBlocks(href: string, url: string)
    requires forall i :: OccursAtFold(href, url, i) ==> i + |url| < |href| && href[i + |url|] == '\n'
    ensures !IsContactLink(href, url)
  {
    forall i, j | 0 <= i && i + |url| <= j <= |href| &&
      OccursAtFold(href, url, i) && NoNewline(href, i + |url|, j)
      ensures !KeywordAt(href, j)
    {
      assert href[i + |url|] == '\n';
      assert j == i + |url|;
      NoKeywordAtNewline(href, j);
    }
    assert !ContactMatch(href, url);
  }

  /** No keyword starts with a newline. */
  lemma NoKeywordAtNewline(s: string, j: int)
    requires 0 <= j < |s| && s[j] == '\n'
    ensures !KeywordAt(s, j)
  {
    assert Lower(s[j]) == '\n';
  }
}
