/**
 Hostnames and the two root-domain heuristics of the extension.

 The background scripts reduce a hostname with `getRootDomain`
 (src/background/utils.js, twinned in background.js); the popup reduces a
 whole URL with its own, different `getRootDomain` (dataFormatter.js).
 `new URL` itself is not modelled: it is a parameter `parse` that either
 yields the protocol and hostname or fails, as the constructor throws.
 */
module Domains {
  import opened Values
  import opened Strings

  /** The parts of a parsed URL the extension reads. */
  datatype Url = Url(protocol: string, hostname: string)

  /** `new URL(s)`: `None` when the constructor throws a `TypeError`. */
  type Parser = string -> Option<Url>

  /** The labels `getRootDomain` treats as second-level under a country code. */
  const SecondLevelDomains: seq<string> := ["co", "com", "net", "org", "gov", "ac"]

  /**
   `getRootDomain(hostname)` of the background scripts, as written: the
   labels are reversed; with three or more labels the result is built
   from the second to fourth labels from the end, with two labels the
   hostname comes back, and a hostname without a dot is returned as is.
   */
  function RootDomain(hostname: string): string {
    var parts := Reverse(Split(hostname, '.'));
    if |parts| >= 3 then
      if parts[1] in SecondLevelDomains && |parts| >= 4 then parts[3] + "." + parts[2] + "." + parts[1]
      else parts[2] + "." + parts[1]
    else if |parts| == 2 then parts[1] + "." + parts[0]
    else hostname
  }

  /** The labels the root domain keeps, as a slice of the hostname's labels. */
  function KeptLabels(labels: seq<string>): seq<string>
    requires |labels| >= 3
  {
    var n := |labels|;
    if labels[n - 2] in SecondLevelDomains && n >= 4 then labels[n - 4..n - 1] else labels[n - 3..n - 1]
  }

  lemma DotJoinTwo(a: string, b: string)
    ensures a + "." + b == Join([a, b], '.')
  {
    JoinTwo(a, b, '.');
  }

  lemma DotJoinThree(a: string, b: string, c: string)
    ensures a + "." + b + "." + c == Join([a, b, c], '.')
  {
    JoinThree(a, b, c, '.');
  }

  /** A hostname without a dot is its own root domain. */
  lemma RootDomainNoDot(h: string)
    requires '.' !in h
    ensures RootDomain(h) == h
  {
    SplitNoSep(h, '.');
  }

  /** A two-label hostname is its own root domain: the reversed labels are re-joined in the original order. */
  lemma RootDomainTwoLabels(h: string)
    requires |Split(h, '.')| == 2
    ensures RootDomain(h) == h
  {
    var labels := Split(h, '.');
    SplitPieces(h, '.');
    assert Join(labels, '.') == labels[0] + ['.'] + Join(labels[1..], '.');
    DotJoinTwo(labels[0], labels[1]);
  }

  /**
   With three or more labels the root domain consists of the labels two to
   four places from the end: the last (top-level) label is always dropped,
   and a third label is kept only under a listed second-level label when
   there are at least four.
   */
  lemma RootDomainLabels(h: string)
    requires |Split(h, '.')| >= 3
    ensures Split(RootDomain(h), '.') == KeptLabels(Split(h, '.'))
    ensures 2 <= |Split(RootDomain(h), '.')| <= 3
  {
    var labels := Split(h, '.');
    SplitPieces(h, '.');
    RootDomainIsJoin(h);
    KeptLabelsSplit(labels);
  }

  /** The root domain is the kept labels joined with dots. */
  lemma RootDomainIsJoin(h: string)
    requires |Split(h, '.')| >= 3
    ensures RootDomain(h) == Join(KeptLabels(Split(h, '.')), '.')
  {
    ReversedPick(Split(h, '.'));
  }

  /** What `getRootDomain` builds from the reversed labels is the kept slice, joined. */
  lemma ReversedPick(labels: seq<string>)
    requires |labels| >= 3
    ensures var parts := Reverse(labels);
            (if parts[1] in SecondLevelDomains && |parts| >= 4 then parts[3] + "." + parts[2] + "." + parts[1]
             else parts[2] + "." + parts[1]) == Join(KeptLabels(labels), '.')
  {
    var n := |labels|;
    var parts := Reverse(labels);
    assert parts[1] == labels[n - 2] && parts[2] == labels[n - 3];
    if labels[n - 2] in SecondLevelDomains && n >= 4 {
      assert parts[3] == labels[n - 4];
      assert KeptLabels(labels) == [labels[n - 4], labels[n - 3], labels[n - 2]];
      DotJoinThree(labels[n - 4], labels[n - 3], labels[n - 2]);
    } else {
      assert KeptLabels(labels) == [labels[n - 3], labels[n - 2]];
      DotJoinTwo(labels[n - 3], labels[n - 2]);
    }
  }

  /** Dot-free labels, once joined, split back into themselves. */
  lemma KeptLabelsSplit(labels: seq<string>)
    requires |labels| >= 3
    requires forall i :: 0 <= i < |labels| ==> '.' !in labels[i]
    ensures Split(Join(KeptLabels(labels), '.'), '.') == KeptLabels(labels)
    ensures 2 <= |KeptLabels(labels)| <= 3
  {
    var n := |labels|;
    var kept := KeptLabels(labels);
    var lo := if labels[n - 2] in SecondLevelDomains && n >= 4 then n - 4 else n - 3;
    assert kept == labels[lo..n - 1];
    forall i | 0 <= i < |kept| ensures '.' !in kept[i] {
      assert kept[i] == labels[lo + i];
    }
    SplitJoin(kept, '.');
  }

  /** `mail.google.com` loses its top-level label. */
  lemma RootDomainMailGoogle(h: string)
    requires h == "mail.google.com"
    ensures RootDomain(h) == "mail.google"
  {
    assert h == "mail" + "." + "google" + "." + "com";
    ThreeLabels("mail", "google", "com");
    assert "google" !in SecondLevelDomains;
  }

  /** `news.bbc.co.uk` keeps three labels, but still loses `uk`. */
  lemma RootDomainNewsBbc(h: string)
    requires h == "news.bbc.co.uk"
    ensures RootDomain(h) == "news.bbc.co"
  {
    assert h == "news" + "." + "bbc" + "." + "co" + "." + "uk";
    FourLabels("news", "bbc", "co", "uk");
    assert "co" in SecondLevelDomains;
  }

  /** Reducing twice can reduce further, so a root domain need not be its own root domain. */
  lemma RootDomainNotIdempotent(h: string)
    requires h == "news.bbc.co.uk"
    ensures RootDomain(RootDomain(h)) != RootDomain(h)
  {
    RootDomainNewsBbc(h);
    var r := RootDomain(h);
    assert r == "news" + "." + "bbc" + "." + "co";
    ThreeLabels("news", "bbc", "co");
    assert "bbc" !in SecondLevelDomains;
    assert RootDomain(r) == "news" + "." + "bbc";
    assert |RootDomain(r)| == 8 != |r|;
  }

  lemma ThreeLabels(a: string, b: string, c: string)
    requires '.' !in a && '.' !in b && '.' !in c
    ensures Split(a + "." + b + "." + c, '.') == [a, b, c]
    ensures b !in SecondLevelDomains ==> RootDomain(a + "." + b + "." + c) == a + "." + b
  {
    DotJoinThree(a, b, c);
    SplitJoin([a, b, c], '.');
    var parts := Reverse([a, b, c]);
    assert parts == [c, b, a];
  }

  lemma DotJoinFour(a: string, b: string, c: string, d: string)
    ensures a + "." + b + "." + c + "." + d == Join([a, b, c, d], '.')
  {
    DotJoinThree(b, c, d);
    assert [a, b, c, d][1..] == [b, c, d];
  }

  lemma FourLabels(a: string, b: string, c: string, d: string)
    requires '.' !in a && '.' !in b && '.' !in c && '.' !in d
    ensures Split(a + "." + b + "." + c + "." + d, '.') == [a, b, c, d]
    ensures c in SecondLevelDomains ==> RootDomain(a + "." + b + "." + c + "." + d) == a + "." + b + "." + c
  {
    DotJoinFour(a, b, c, d);
    SplitJoin([a, b, c, d], '.');
    var parts := Reverse([a, b, c, d]);
    assert parts == [d, c, b, a];
  }

  // ---- Subdomain keys ----

  /** A `subdomains` key `d` covers hostname `h`: `h === d || h.endsWith("." + d)`. */
  predicate SubdomainMatches(h: string, d: string) {
    h == d || EndsWith(h, "." + d)
  }

  /** A key covers exactly itself and the hostnames that end in a dot followed by it. */
  lemma SubdomainMatchesIff(h: string, d: string)
    ensures SubdomainMatches(h, d) <==> h == d || exists p :: h == p + "." + d
  {
    if EndsWith(h, "." + d) {
      var p := h[..|h| - |d| - 1];
      assert h == p + "." + d;
    }
    if exists p :: h == p + "." + d {
      var p :| h == p + "." + d;
      assert h[|h| - |"." + d|..] == "." + d;
    }
  }

  /** A key never covers a hostname that merely ends with its text. */
  lemma BadExampleDoesNotMatch()
    ensures !SubdomainMatches("badexample.com", "example.com")
  {
    var h := "badexample.com";
    assert h[|h| - 12..][0] == 'd';
  }

  // ---- The popup's variants ----

  /**
   `getRootDomain(url)` of src/popup/dataFormatter.js: the last two labels
   of the URL's hostname when there are more than two, the hostname
   otherwise, and `""` when the URL does not parse.
   */
  function PopupRootDomain(parse: Parser, url: string): (r: string)
    ensures parse(url).None? ==> r == ""
  {
    match parse(url)
    case None => ""
    case Some(u) =>
      var parts := Split(u.hostname, '.');
      if |parts| > 2 then Join(parts[|parts| - 2..], '.') else u.hostname
  }

  /** For a parsed URL the popup keeps at most the last two labels, in order. */
  lemma PopupRootDomainLabels(parse: Parser, url: string)
    requires parse(url).Some?
    ensures var labels := Split(parse(url).value.hostname, '.');
            Split(PopupRootDomain(parse, url), '.') == if |labels| > 2 then labels[|labels| - 2..] else labels
  {
    var h := parse(url).value.hostname;
    var labels := Split(h, '.');
    SplitPieces(h, '.');
    if |labels| > 2 {
      SplitJoin(labels[|labels| - 2..], '.');
    }
  }

  lemma PopupThreeLabels(parse: Parser, url: string, a: string, b: string, c: string)
    requires parse(url).Some? && parse(url).value.hostname == a + "." + b + "." + c
    requires '.' !in a && '.' !in b && '.' !in c
    ensures PopupRootDomain(parse, url) == b + "." + c
  {
    ThreeLabels(a, b, c);
    var labels := [a, b, c];
    assert labels[|labels| - 2..] == [b, c];
    DotJoinTwo(b, c);
  }

  /**
   The popup and the background disagree on `mail.google.com`: the popup
   groups it under `google.com`, the background under `mail.google`.
   */
  lemma PopupAndBackgroundDisagree(parse: Parser, url: string, h: string)
    requires h == "mail.google.com"
    requires parse(url).Some? && parse(url).value.hostname == h
    ensures PopupRootDomain(parse, url) == "google.com"
    ensures RootDomain(h) == "mail.google"
  {
    assert h == "mail" + "." + "google" + "." + "com";
    PopupThreeLabels(parse, url, "mail", "google", "com");
    RootDomainMailGoogle(h);
  }

  /** `getDomainFromUrl(url)`: the hostname, or the input itself when it does not parse. */
  function DomainFromUrl(parse: Parser, url: string): (r: string)
    ensures parse(url).None? ==> r == url
    ensures parse(url).Some? ==> r == parse(url).value.hostname
  {
    match parse(url)
    case None => url
    case Some(u) => u.hostname
  }

  /**
   The hostname the background scripts compare: `new URL(url.toLowerCase())`
   then `hostname.toLowerCase()`. `None` when the constructor throws.
   */
  function HostOf(parse: Parser, url: string): (r: Option<string>)
    ensures r.Some? <==> parse(Lower(url)).Some?
    ensures r.Some? ==> IsLower(r.value)
  {
    match parse(Lower(url))
    case None => None
    case Some(u) =>
      LowerIsLower(u.hostname);
      Some(Lower(u.hostname))
  }
}
