/** The `Concraper` object of main.py and its `extract_info` driver (lines
    51-95). The network is a fixed table from URL to response: `requests.get`
    on a URL outside the table raises, and nothing in `extract_info` catches
    that. Every other call into a library is replaced by its result: the page
    BeautifulSoup parses is the sequence of its anchors' href values. */
module Scraper {
  import opened Text
  import opened ContactPattern
  import opened Anchors

  /** What `requests.get(url)` gives back for a URL the network answers: the
      `ok` flag, the status code and the href values of the page's anchors,
      in document order. */
  datatype Response = Response(ok: bool, statusCode: int, hrefs: seq<string>)

  /** A row of the `failed` CSV file, `[url, response.status_code]`. */
  datatype FailedRow = FailedRow(website: string, code: int)

  datatype Option<T> = None | Some(value: T)

  /** The end of one `extract_info` call: the pair of sets it returns, or the
      exception `requests.get` raised for `url`. */
  datatype Outcome = Extracted(emails: set<string>, phones: set<string>) | Raised(url: string)

  /** The rows that fetching `urls` in this order appends to the `failed`
      file: one row for each answered URL whose response is not ok, carrying
      that response's status code. */
  function FailedRows(web: map<string, Response>, urls: seq<string>): (rows: seq<FailedRow>)
    ensures |rows| <= |urls|
    ensures forall row :: row in rows ==>
      row.website in urls && row.website in web &&
      !web[row.website].ok && row.code == web[row.website].statusCode
  {
    if urls == [] then []
    else
      var u := urls[0];
      (if u in web && !web[u].ok then [FailedRow(u, web[u].statusCode)] else []) + FailedRows(web, urls[1..])
  }

  /** Every fetched URL whose response is not ok gets its row. */
  lemma {:induction false} FailedRowsComplete(web: map<string, Response>, urls: seq<string>)
    ensures forall u :: u in urls && u in web && !web[u].ok ==> FailedRow(u, web[u].statusCode) in FailedRows(web, urls)
  {
    if urls != [] {
      FailedRowsComplete(web, urls[1..]);
      assert forall u :: u in urls ==> u == urls[0] || u in urls[1..];
    }
  }

  /** The failed rows of consecutive fetches are appended in order. */
  lemma {:induction false} FailedRowsAppend(web: map<string, Response>, a: seq<string>, b: seq<string>)
    ensures FailedRows(web, a + b) == FailedRows(web, a) + FailedRows(web, b)
  {
    if a == [] {
      assert a + b == b;
    } else {
      assert (a + b)[0] == a[0];
      assert (a + b)[1..] == a[1..] + b;
      FailedRowsAppend(web, a[1..], b);
    }
  }

  /** One more fetch extends the failed log by that fetch's rows. */
  lemma LogStep(log0: seq<FailedRow>, log1: seq<FailedRow>, log2: seq<FailedRow>,
                web: map<string, Response>, urls: seq<string>, next: string)
    requires log1 == log0 + FailedRows(web, urls)
    requires log2 == log1 + FailedRows(web, [next])
    ensures log2 == log0 + FailedRows(web, urls + [next])
  {
    FailedRowsAppend(web, urls, [next]);
  }

  /** The seed's rows come before those of the contact pages fetched after it. */
  lemma LogStitch(log0: seq<FailedRow>, log1: seq<FailedRow>, log2: seq<FailedRow>,
                  web: map<string, Response>, url: string, visits: seq<string>)
    requires log1 == log0 + FailedRows(web, [url])
    requires log2 == log1 + FailedRows(web, visits)
    ensures log2 == log0 + FailedRows(web, [url] + visits)
  {
    FailedRowsAppend(web, [url], visits);
  }

  /** A call that pushed `url` and then let a callee extend the history. */
  lemma FetchStitch(h0: seq<string>, h1: seq<string>, h2: seq<string>, url: string)
    requires h1 == h0 + [url]
    requires |h2| >= |h1| && h2[..|h1|] == h1
    ensures |h2| > |h0| && h2[..|h0|] == h0 && h2[|h0|] == url
    ensures h2[|h0|..] == [url] + h2[|h1|..]
  {
    assert h2[..|h0|] == h1[..|h0|];
  }

  /** No URL occurs twice. */
  predicate Distinct(s: seq<string>) {
    forall i, j :: 0 <= i < j < |s| ==> s[i] != s[j]
  }

  /** Visiting one more pending link keeps the visits distinct, and the
      visited links are still exactly the links no longer pending. */
  lemma VisitStep(visits: seq<string>, links: set<string>, pending: set<string>, next: string)
    requires Distinct(visits) && next !in visits
    requires forall v :: v in visits <==> v in links && v !in pending + {next}
    requires next in links && next !in pending
    ensures Distinct(visits + [next])
    ensures forall v :: v in visits + [next] <==> v in links && v !in pending
  {
  }

  class Concraper {
    /** The network as `requests.get` sees it. */
    const web: map<string, Response>
    /** How many search results `google_it` asks for. */
    const searchLimit: int
    /** The rows appended to the `failed` CSV file, in order. */
    var failedLog: seq<FailedRow>
    /** Every URL `requests.get` was called with, in order. */
    ghost var fetched: seq<string>

    /** `__init__` (main.py lines 14-24): the patterns are the functions of
        ContactPattern, EmailPattern and PhonePattern. */
    constructor (web: map<string, Response>, searchLimit: int)
      ensures this.web == web && this.searchLimit == searchLimit
      ensures failedLog == [] && fetched == []
    {
      this.web := web;
      this.searchLimit := searchLimit;
      failedLog := [];
      fetched := [];
    }

    /** `extract_info(url, crawl)` (main.py lines 51-95). It fetches `url`
        first. A response that is not ok appends one failed row and extraction
        goes on with its body anyway. With `crawl`, every distinct contact link
        of the page is fetched once, by a call with `crawl = False`, which
        fetches nothing more. The sets it returns come from the page's own
        anchors only: the sub-page results are unioned into a new set that is
        then dropped (lines 78-79). An unreachable URL, the seed or a contact
        link, raises out of the whole call. */
    method ExtractInfo(url: string, crawl: bool) returns (r: Outcome)
      modifies this
      decreases if crawl then 2 else 0
      ensures |fetched| > |old(fetched)| && fetched[..|old(fetched)|] == old(fetched)
      ensures fetched[|old(fetched)|] == url
      ensures !crawl ==> fetched == old(fetched) + [url]
      ensures !crawl ==> failedLog == old(failedLog) + FailedRows(web, [url])
      ensures failedLog == old(failedLog) + FailedRows(web, fetched[|old(fetched)|..])
      ensures Distinct(fetched[|old(fetched)| + 1..])
      ensures forall v :: v in fetched[|old(fetched)| + 1..] ==>
        crawl && url in web && v in ContactLinks(web[url].hrefs, url)
      ensures r.Raised? <==>
        url !in web || (crawl && exists l :: l in ContactLinks(web[url].hrefs, url) && l !in web)
      ensures r.Raised? ==> r.url !in web && r.url in fetched[|old(fetched)|..]
      ensures r.Extracted? ==>
        r.emails == EmailValues(web[url].hrefs) && r.phones == PhoneValues(web[url].hrefs)
      ensures r.Extracted? && crawl ==>
        forall l :: l in ContactLinks(web[url].hrefs, url) ==> l in fetched[|old(fetched)| + 1..]
    {
      ghost var start := |fetched|;
      fetched := fetched + [url];
      if url !in web {
        assert fetched[start..] == [url];
        return Raised(url);
      }
      var response := web[url];
      if !response.ok {
        failedLog := failedLog + [FailedRow(url, response.statusCode)];
      }
      assert failedLog == old(failedLog) + FailedRows(web, [url]);
      var allEmails: set<string> := {};
      var allPhones: set<string> := {};
      if crawl {
        var contactLinks := ContactLinks(response.hrefs, url);
        ghost var logBefore, fetchedBefore := failedLog, fetched;
        var failure := VisitContacts(contactLinks, allEmails, allPhones);
        FetchStitch(old(fetched), fetchedBefore, fetched, url);
        LogStitch(old(failedLog), logBefore, failedLog, web, url, fetched[start + 1..]);
        if failure.Some? {
          return Raised(failure.value);
        }
      } else {
        assert fetched[start..] == [url];
        assert fetched[start + 1..] == [];
      }
      var emails := EmailValues(response.hrefs);
      var phones := PhoneValues(response.hrefs);
      allEmails := allEmails + emails;
      allPhones := allPhones + phones;
      return Extracted(allEmails, allPhones);
    }

    /** The loop of main.py lines 73-79: each link of `links`, in some order,
        is fetched by `extract_info(contact, crawl=False)`. An exception from
        one of those calls ends the loop and carries the unreachable URL out.
        The unions on lines 78-79 build new sets that nobody keeps, so the
        sets passed in come out of the loop as they went in. */
    method VisitContacts(links: set<string>, allEmails: set<string>, allPhones: set<string>)
      returns (failure: Option<string>)
      modifies this
      decreases 1
      ensures |fetched| >= |old(fetched)| && fetched[..|old(fetched)|] == old(fetched)
      ensures failedLog == old(failedLog) + FailedRows(web, fetched[|old(fetched)|..])
      ensures Distinct(fetched[|old(fetched)|..])
      ensures forall v :: v in fetched[|old(fetched)|..] ==> v in links
      ensures failure.Some? <==> exists l :: l in links && l !in web
      ensures failure.Some? ==> failure.value !in web && failure.value in fetched[|old(fetched)|..]
      ensures failure.None? ==> forall l :: l in links ==> l in fetched[|old(fetched)|..]
    {
      ghost var visits: seq<string> := [];
      var pending := links;
      while pending != {}
        invariant pending <= links
        invariant fetched == old(fetched) + visits
        invariant failedLog == old(failedLog) + FailedRows(web, visits)
        invariant Distinct(visits)
        invariant forall v :: v in visits <==> v in links && v !in pending
        invariant forall v :: v in visits ==> v in web
        decreases pending
      {
        var contact :| contact in pending;
        pending := pending - {contact};
        assert contact !in visits;
        ghost var logBefore := failedLog;
        var sub := ExtractInfo(contact, false);
        LogStep(old(failedLog), logBefore, failedLog, web, visits, contact);
        VisitStep(visits, links, pending, contact);
        visits := visits + [contact];
        if sub.Raised? {
          assert fetched[|old(fetched)|..] == visits;
          return Some(contact);
        }
        // `all_emails.union(emails)` builds a new set and drops it.
        var _ := allEmails + sub.emails;
        var _ := allPhones + sub.phones;
      }
      assert fetched[|old(fetched)|..] == visits;
      return None;
    }
  }

  /** What a page with a single anchor yields. */
  lemma OneAnchor(href: string, url: string)
    ensures EmailValues([href]) == if Contains(href, "mailto:") then {MailtoValue(href)} else {}
    ensures PhoneValues([href]) == if Contains(href, "tel:") then {href} else {}
    ensures ContactLinks([href], url) == if IsContactLink(href, url) then {href} else {}
  {
    assert [href][1..] == [];
  }

  /** A seed page whose only link is its contact page, which holds a `mailto:`
      anchor: the contact page on its own yields that address, yet the crawl
      from the seed returns no email (main.py lines 73-79 and 90-95). */
  method SubPageResultsDropped(seed: string, path: string, address: string)
    returns (alone: Outcome, crawled: Outcome)
    requires '\n' !in path && ':' !in address
    requires !Contains(seed + path + "contact", "mailto:") && !Contains(seed + path + "contact", "tel:")
    ensures alone.Extracted? && alone.emails == {address}
    ensures crawled == Extracted({}, {})
  {
    var contactPage, mailto := seed + path + "contact", "mailto:" + address;
    var web := map[
      seed := Response(true, 200, [contactPage]),
      contactPage := Response(true, 200, [mailto])
    ];
    MailtoAddress(address);
    OneAnchor(mailto, seed);
    OneAnchor(contactPage, seed);
    SeedThenKeyword(seed, path, "contact");
    var c := new Concraper(web, 20);
    alone := c.ExtractInfo(contactPage, false);
    crawled := c.ExtractInfo(seed, true);
  }
}
