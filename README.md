# Concraper in Dafny

Concraper takes a seed website and gathers its contact details. It fetches
the seed page and, when asked to crawl, every link on it that looks like a
contact page (an href holding the seed URL followed on the same line by
`contact`, `reach` or `support`, ignoring case). From each page it keeps
the `mailto:` anchors (as the text between the first and the second colon
of the href) and the `tel:` anchors (as the whole href). A response that is
not ok adds a row to a `failed` CSV file. The class also compiles an email
pattern and a phone pattern that it never applies.

The model has six modules:

- `Text`: the string operations Python provides (`str.split` on one
  character, `in`, ASCII case folding) with their laws.
- `ContactPattern`: the contact-link regular expression of main.py line 23,
  both as a predicate read off the pattern (`ContactMatch`) and as a
  decision function (`IsContactLink`), proved equal.
- `Anchors`: what one page yields: contact links, emails, phone numbers.
- `EmailPattern` and `PhonePattern`: the two compiled patterns as full-match
  recognisers, each a loop-based decision procedure proved equal to a
  predicate read off the pattern, plus the shape every match has.
- `Scraper`: the `Concraper` object. The network is a fixed table from URL
  to response. `extract_info` is a method that records every fetch in the
  ghost history `fetched` and every failed row in the field `failedLog`.

Things the code does that a reader might not expect:

- `requests.get` failing (here: a URL missing from the table) is not caught
  anywhere; the exception ends the whole crawl, including the parent call.
- A response that is not ok is logged and its body is still parsed; the
  call does not stop there.
- The phone value of a `tel:` anchor is the whole href, `tel:` included.
- The emails and phone numbers of the contact pages are lost: lines 78-79
  call `union` and drop its result, so a crawl returns the seed page's own
  values only (`Scraper.SubPageResultsDropped` shows this on a two-page site).

## Model

| member | source | states |
|---|---|---|
| Text.Split | main.py:86 | `str.split` on one character: one more piece than separators, no piece holds the separator, joining the pieces with it gives the string back |
| Text.SplitJoin | main.py:86 | splitting a join of separator-free pieces gives the pieces back |
| Text.SplitSecond | main.py:86 | the piece at index 1 is the first piece of the text after the first separator |
| ContactPattern.KeywordOnLine | main.py:23 | true exactly when `contact`, `reach` or `support` (any case) starts after the given index with no newline before it |
| ContactPattern.SearchFrom | main.py:23 | true exactly when some occurrence of the seed URL at or after the index is followed on its line by a keyword |
| ContactPattern.IsContactLink | main.py:23 | the href is selected exactly when the regular expression has a match in it, as read off the pattern by `ContactMatch`; a selected href contains the seed URL ignoring case |
| ContactPattern.SeedThenKeyword | main.py:23 | the seed URL, any newline-free text, then a keyword is always selected |
| ContactPattern.CaseInsensitiveHref | main.py:23 | hrefs equal up to ASCII case are selected together |
| ContactPattern.CaseInsensitiveUrl | main.py:23 | seed URLs equal up to ASCII case select the same hrefs |
| ContactPattern.NewlineBlocks | main.py:23 | when a newline follows every occurrence of the seed URL the href is not selected, since `.` does not cross a newline |
| Anchors.MailtoValue | main.py:86 | the stored email of a `mailto:` href has no colon and is the text after the first colon of the href up to the next colon or the end |
| Anchors.MailtoAddress | main.py:86 | `mailto:` followed by a colon-free address yields exactly that address |
| Anchors.EmailValuesMembers | main.py:82-86 | the email set `EmailValues` of a page: each href containing `mailto:` (case-sensitively) contributes its mailto value, every email comes from such an href, and no email holds a colon |
| Anchors.PhoneValuesMembers | main.py:83-87 | the phone set `PhoneValues` of a page is exactly the hrefs containing `tel:`, whole |
| Anchors.ContactLinksMembers | main.py:69-70 | the contact-link set `ContactLinks` of a page is exactly the page's hrefs the contact pattern matches, and each contains the seed URL ignoring case |
| Anchors.ContactLinksBound | main.py:69-70 | a page has no more distinct contact links than anchors |
| EmailPattern.CheckEmail | main.py:22 | answers true exactly when the whole string matches the email pattern, as read off it by `EmailMatch` |
| EmailPattern.EmailShape | main.py:22 | a match starts with a character of `[a-z0-9#%$*!]`, has exactly one `@` at index 2 or later, and ends with a dot and 2 to 63 letters |
| EmailPattern.CaseInsensitive | main.py:22 | strings equal up to ASCII case match together |
| PhonePattern.MatchPieces | main.py:24 | true exactly when the string splits into one stretch per pattern piece, each of an allowed length and class |
| PhonePattern.TryLengths | main.py:24 | true exactly when the first piece can take some length at least `n` and the other pieces the rest |
| PhonePattern.CheckList | main.py:24 | answers true exactly when the string is a comma-joined list of derived numbers |
| PhonePattern.CheckPhone | main.py:24 | answers true exactly when the whole string matches the phone pattern, as read off it by `PhoneMatch` |
| PhonePattern.ListMatchSplit | main.py:24 | a list matches exactly when every piece between commas is one number |
| PhonePattern.NumberPieces | main.py:24 | one number allows 5 to 24 digits, and `+` only in its first piece, at most once |
| PhonePattern.DigitBounds | main.py:24 | a derived number has between the least and the most digits its pieces allow |
| PhonePattern.PlusOnlyFirst | main.py:24 | `+` can only be the first character of a number |
| PhonePattern.PhoneShape | main.py:24 | a match holds only digits, whitespace, `+()-.,`; each comma-separated number has 5 to 24 digits and `+` only at its start |
| Scraper.FailedRows | main.py:62-63 | every row names a fetched URL whose response is not ok and carries that response's status code, and there are no more rows than fetches |
| Scraper.FailedRowsComplete | main.py:62-63 | every fetched URL whose response is not ok has a row carrying its status code |
| Scraper.FailedRowsAppend | main.py:62-63 | the rows of consecutive fetches are appended in fetch order |
| Scraper.Concraper.constructor | main.py:14-24 | a new scraper has the given search limit, an empty failed log and has fetched nothing |
| Scraper.Concraper.ExtractInfo | main.py:51-95 | fetches the URL first; logs one failed row per non-ok fetch in order; with crawl it fetches each contact link once and nothing else, raises exactly when the URL or one of its contact links is unreachable, and otherwise returns the page's own emails and phone numbers |
| Scraper.Concraper.VisitContacts | main.py:73-79 | fetches distinct links only, each by a call without crawl; stops with the unreachable link exactly when some link is unreachable, and otherwise has fetched them all |
| Scraper.SubPageResultsDropped | main.py:73-95 | a contact page alone yields its address, yet a crawl of the seed that links to it yields no email and no phone number |

## Left out

- HTTP: `requests.get`, its headers (main.py line 17) and the response body
  become a table from URL to (ok flag, status code, anchor hrefs); a URL
  missing from the table stands for any exception `requests.get` raises.
- HTML parsing: a page is the sequence of its anchors' href values in
  document order; anchors without an href are not in it.
- `write_row` (main.py lines 28-38): the CSV files, the date in their names
  and the working directory. The `failed` rows are kept as the sequence
  `failedLog`; the header rows and the `result` file are not modelled.
- `google_it` and `get_from_search` (main.py lines 42-47 and 99-109): the
  search engine is an outside service; `searchLimit` is only stored.
- `script_dir` (main.py line 19), every `print`, and the module-level
  instance on line 111.
- The iteration order of a Python set: the contact links are visited in an
  arbitrary order, so the model fixes which links are fetched, not in which
  order.
- Unicode: `\d`, `\s` and IGNORECASE are modelled on ASCII characters only
  (for `\s` these are space, tab, newline, carriage return, vertical tab,
  form feed and U+001C to U+001F). Python also folds characters such as
  U+212A KELVIN SIGN to `k` and accepts non-ASCII digits and whitespace
  such as U+00A0.
- `$` in the phone pattern also matches before one trailing newline; the
  model reads the pattern as matching the whole string.
- The email and phone patterns are compiled but never applied by the
  source; they are modelled as full-match recognisers of what they accept.
- Scraper.SubPageResultsDropped: states the contact page's emails only, not
  its phone numbers, because those depend on whether the address itself
  contains `tel:`.
