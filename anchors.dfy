/** What `extract_info` keeps from a page's anchors (main.py lines 69-70 and
    82-87). A page is the sequence of its anchors' href values, in document
    order; an anchor without an href is not in it. */
module Anchors {
  import opened Text
  import opened ContactPattern

  /** The stored email of a `mailto:` href, `href.split(':')[1]` (main.py line
      86): the text after the FIRST colon of the whole href, up to the next
      colon or the end. It never contains a colon, and a query such as
      `?subject=` after the address stays in it. */
  function MailtoValue(href: string): (v: string)
    requires Contains(href, "mailto:")
    ensures ':' !in v
    ensures ':' in href
    ensures var rest := href[IndexOf(href, ':') + 1..];
      |v| <= |rest| && rest[..|v|] == v && (|v| == |rest| || rest[|v|] == ':')
  {
    MailtoHasColon(href);
    SplitSecond(href, ':');
    SplitHead(href[IndexOf(href, ':') + 1..], ':');
    Split(href, ':')[1]
  }

  lemma MailtoHasColon(href: string)
    requires Contains(href, "mailto:")
    ensures ':' in href
  {
    var k :| 0 <= k <= |href| - 7 && OccursAt(href, "mailto:", k);
    assert href[k + 6] == "mailto:"[6];
  }

  /** The emails of one page (main.py lines 82 and 86): the mailto value of
      every href that contains `mailto:` (case-sensitively), gathered into a
      set. */
  function EmailValues(hrefs: seq<string>): set<string> {
    if hrefs == [] then {}
    else
      (if Contains(hrefs[0], "mailto:") then {MailtoValue(hrefs[0])} else {}) + EmailValues(hrefs[1..])
  }

  /** Every `mailto:` href of the page contributes its mailto value, every
      email comes from one of them, and no email holds a colon. */
  lemma {:induction false} EmailValuesMembers(hrefs: seq<string>)
    ensures forall h :: h in hrefs && Contains(h, "mailto:") ==> MailtoValue(h) in EmailValues(hrefs)
    ensures forall e :: e in EmailValues(hrefs) ==>
      exists h :: h in hrefs && Contains(h, "mailto:") && e == MailtoValue(h)
    ensures forall e :: e in EmailValues(hrefs) ==> ':' !in e
  {
    if hrefs != [] {
      EmailValuesMembers(hrefs[1..]);
      assert hrefs == [hrefs[0]] + hrefs[1..];
    }
  }

  /** The phone numbers of one page (main.py lines 83 and 87): every href that
      contains `tel:` (case-sensitively), whole and unstripped, gathered into
      a set. */
  function PhoneValues(hrefs: seq<string>): set<string> {
    if hrefs == [] then {}
    else (if Contains(hrefs[0], "tel:") then {hrefs[0]} else {}) + PhoneValues(hrefs[1..])
  }

  /** The phone numbers are exactly the hrefs that contain `tel:`. */
  lemma {:induction false} PhoneValuesMembers(hrefs: seq<string>)
    ensures forall p :: p in PhoneValues(hrefs) <==> p in hrefs && Contains(p, "tel:")
  {
    if hrefs != [] {
      PhoneValuesMembers(hrefs[1..]);
      assert hrefs == [hrefs[0]] + hrefs[1..];
    }
  }

  /** The contact links of one page (main.py lines 69-70): the hrefs the
      contact pattern selects for the seed URL, gathered into a set. */
  function ContactLinks(hrefs: seq<string>, url: string): set<string> {
    if hrefs == [] then {}
    else (if IsContactLink(hrefs[0], url) then {hrefs[0]} else {}) + ContactLinks(hrefs[1..], url)
  }

  /** The contact links are exactly the hrefs that the regular expression
      matches; each contains the seed URL ignoring case. */
  lemma ContactLinksMembers(hrefs: seq<string>, url: string)
    ensures forall h :: h in ContactLinks(hrefs, url) <==> h in hrefs && ContactMatch(h, url)
    ensures forall h :: h in ContactLinks(hrefs, url) ==> exists i :: OccursAtFold(h, url, i)
  {
    ContactLinksSelect(hrefs, url);
  }

  lemma {:induction false} ContactLinksSelect(hrefs: seq<string>, url: string)
    ensures forall h :: h in ContactLinks(hrefs, url) <==> h in hrefs && IsContactLink(h, url)
  {
    if hrefs != [] {
      ContactLinksSelect(hrefs[1..], url);
      assert hrefs == [hrefs[0]] + hrefs[1..];
    }
  }

  /** There are no more contact links than anchors. */
  lemma {:induction false} ContactLinksBound(hrefs: seq<string>, url: string)
    ensures |ContactLinks(hrefs, url)| <= |hrefs|
  {
    if hrefs != [] {
      ContactLinksBound(hrefs[1..], url);
    }
  }

  /** A `mailto:` anchor whose address has no colon yields that address exactly. */
  lemma MailtoAddress(address: string)
    requires ':' !in address
    ensures Contains("mailto:" + address, "mailto:")
    ensures MailtoValue("mailto:" + address) == address
  {
    var href := "mailto:" + address;
    assert OccursAt(href, "mailto:", 0);
    assert href[6] == ':' && ':' !in href[..6];
    IndexOfUnique(href, ':', 6);
    assert href[7..] == address;
  }
}
