/**
 The tracking state machine of src/background/timeTracker.js and its
 legacy twin in src/background/background.js: a session that is either
 idle or timing one URL since `startTime`, flushed into the ledger when
 the tab changes, the window loses focus, the machine idles or the date
 rolls over.

 The clock is a parameter: `now` stands for `Date.now()` and `today` for
 `getCurrentDate()` at the moment the handler runs. A handler that throws
 is an `Err`; every throw happens before the first write, so an `Err`
 means the session and the ledger are as they were.
 */
module Tracker {
  import opened Values
  import opened Strings
  import opened OrderedMaps
  import opened Domains
  import opened Preferences
  import opened Resolver
  import opened Ledgers

  /** The two builds of the background script. */
  datatype Version = Modular | Legacy

  datatype Session = Session(active: bool, startTime: int, currentUrl: string, currentDate: string)

  /** The state a handler reads and writes. */
  datatype State = State(session: Session, ledger: Ledger)

  /**
   The category a flush files the current URL under. The modular build
   falls back to `"uncategorized"` only when the resolved category is
   falsy; the legacy build falls back when the category is `"neutral"`
   and no preference applies.
   */
  function Bucket(v: Version, parse: Parser, p: Prefs, url: string): (r: Result<string>)
    ensures v == Modular && r.Ok? ==> r.value != ""
  {
    match v
    case Modular =>
      (match CategoryFor(parse, p, url)
       case Err(e) => Err(e)
       case Ok(c) => Ok(if Truthy(c) then c else Uncategorized))
    case Legacy =>
      match LegacyCategoryFor(parse, p, url)
      case Err(e) => Err(e)
      case Ok(c) =>
        if c == "neutral" then
          match LegacyIsCategorized(parse, p, url)
          case Err(e) => Err(e)
          case Ok(b) => Ok(if b then c else Uncategorized)
        else Ok(c)
  }

  /**
   The modular fallback rule: a truthy resolved category is kept, a falsy
   one becomes `"uncategorized"`, and the category is missing exactly when
   `getCategoryForUrl` throws.
   */
  lemma ModularFallback(parse: Parser, p: Prefs, url: string)
    ensures Bucket(Modular, parse, p, url).Err? <==> CategoryFor(parse, p, url).Err?
    ensures CategoryFor(parse, p, url).Ok? && Truthy(CategoryFor(parse, p, url).value) ==>
            Bucket(Modular, parse, p, url) == CategoryFor(parse, p, url)
    ensures CategoryFor(parse, p, url) == Ok("") ==> Bucket(Modular, parse, p, url) == Ok(Uncategorized)
  {
  }

  /**
   The falsy branch is reachable: a `subdomains` key covering the host
   answers with its value whatever it is, so an entry whose value is the
   empty string resolves to `""` and the flush files under `"uncategorized"`.
   */
  lemma EmptySubdomainFallsBack(parse: Parser, url: string, h: string)
    requires HostOf(parse, url) == Some(h)
    ensures CategoryFor(parse, Prefs([], [], [(h, "")], []), url) == Ok("")
    ensures Bucket(Modular, parse, Prefs([], [], [(h, "")], []), url) == Ok(Uncategorized)
  {
    var p := Prefs([], [], [(h, "")], []);
    assert SubdomainMatches(h, h);
    assert FirstSubdomainMatch(p.subdomains, h) == Some(0);
    assert Resolve(p, Lower(url), h) == "";
  }

  /**
   In the modular build a URL no preference applies to is filed under
   `"neutral"`: the resolver's default is truthy, so the fallback never
   fires for it.
   */
  lemma ModularFilesUnmatchedAsNeutral(parse: Parser, p: Prefs, url: string)
    requires IsCategorized(parse, p, url) == Ok(false)
    ensures Bucket(Modular, parse, p, url) == Ok("neutral")
  {
    NotCategorizedMeansNeutral(parse, p, url);
  }

  /**
   The legacy build files a URL under `"uncategorized"` exactly when no
   preference applies; a categorized URL keeps its category, even an
   explicit `"neutral"`.
   */
  lemma LegacyFallback(parse: Parser, p: Prefs, url: string)
    ensures LegacyIsCategorized(parse, p, url) == Ok(false) ==> Bucket(Legacy, parse, p, url) == Ok(Uncategorized)
    ensures LegacyIsCategorized(parse, p, url) == Ok(true) ==> Bucket(Legacy, parse, p, url) == LegacyCategoryFor(parse, p, url)
  {
    LegacyAgrees(parse, p, url);
    if LegacyIsCategorized(parse, p, url) == Ok(false) {
      NotCategorizedMeansNeutral(parse, p, url);
    }
    if LegacyIsCategorized(parse, p, url) == Ok(true) && !Truthy(Lookup(p.urls, Lower(url))) {
      assert parse(Lower(url)).Some?;
    }
  }

  /** So the builds file an unmatched URL differently. */
  lemma BuildsDisagreeOnUnmatched(parse: Parser, p: Prefs, url: string)
    requires IsCategorized(parse, p, url) == Ok(false)
    ensures Bucket(Modular, parse, p, url) == Ok("neutral")
    ensures Bucket(Legacy, parse, p, url) == Ok(Uncategorized)
  {
    ModularFilesUnmatchedAsNeutral(parse, p, url);
    LegacyAgrees(parse, p, url);
    LegacyFallback(parse, p, url);
  }

  /**
   The ledger step of `handleTabInactive()`, given the category the
   running URL resolves to: when active, credit `now - startTime` to
   `ledger[today][bucket][currentUrl]` and go idle; when idle, nothing.
   */
  function Flush(st: State, bucket: Result<string>, now: int, today: string): (r: Result<State>)
    ensures !st.session.active ==> r == Ok(st)
    ensures r.Ok? ==> r.value.session == st.session.(active := false)
    ensures r.Err? <==> st.session.active && bucket.Err?
  {
    var s := st.session;
    if !s.active then Ok(st)
    else
      match bucket
      case Err(e) => Err(e)
      case Ok(cat) => Ok(State(s.(active := false), Credit(st.ledger, today, cat, s.currentUrl, now - s.startTime)))
  }

  /** `handleTabInactive()` of either build. */
  function HandleTabInactive(v: Version, parse: Parser, p: Prefs, st: State, now: int, today: string): Result<State> {
    Flush(st, Bucket(v, parse, p, st.session.currentUrl), now, today)
  }

  /**
   A flush of an active session adds exactly the elapsed time to the one
   leaf `ledger[today][bucket][currentUrl]`, reading a missing leaf as 0;
   every other leaf is unchanged and the total grows by the elapsed time.
   */
  lemma FlushCredits(st: State, cat: string, now: int, today: string, d: string, c: string, u: string)
    requires st.session.active
    ensures Flush(st, Ok(cat), now, today).Ok?
    ensures Leaf(Flush(st, Ok(cat), now, today).value.ledger, d, c, u) ==
            if (d, c, u) == (today, cat, st.session.currentUrl)
            then Some(Leaf(st.ledger, d, c, u).GetOr(0) + now - st.session.startTime)
            else Leaf(st.ledger, d, c, u)
    ensures Total(Flush(st, Ok(cat), now, today).value.ledger) == Total(st.ledger) + now - st.session.startTime
  {
    var url, ms := st.session.currentUrl, now - st.session.startTime;
    var l' := Credit(st.ledger, today, cat, url, ms);
    assert Flush(st, Ok(cat), now, today).value.ledger == l';
    CreditLeaf(st.ledger, today, cat, url, ms, d, c, u);
    assert Leaf(l', d, c, u) == if (d, c, u) == (today, cat, url) then Some(Leaf(st.ledger, d, c, u).GetOr(0) + ms) else Leaf(st.ledger, d, c, u);
    CreditTotal(st.ledger, today, cat, url, ms);
  }

  /** A flush leaves the session idle, so flushing again changes nothing. */
  lemma FlushIdempotent(st: State, b: Result<string>, b': Result<string>, now: int, now': int, today: string, today': string)
    requires Flush(st, b, now, today).Ok?
    ensures Flush(Flush(st, b, now, today).value, b', now', today') == Flush(st, b, now, today)
  {
  }

  /**
   `checkDateChange()`: on a new date, flush (keyed by the clock's date at
   that moment, which is already the new date), then record the new date
   and stay idle. Both builds do the same; the modular one also saves.
   */
  function CheckDateChange(st: State, bucket: Result<string>, now: int, today: string): (r: Result<State>)
    ensures today == st.session.currentDate ==> r == Ok(st)
    ensures r.Ok? && today != st.session.currentDate ==>
            r.value.session == st.session.(active := false, currentDate := today)
  {
    if today == st.session.currentDate then Ok(st)
    else
      match Flush(st, bucket, now, today)
      case Err(e) => Err(e)
      case Ok(st1) => Ok(st1.(session := st1.session.(currentDate := today, active := false)))
  }

  /**
   The time flushed at a rollover lands under the new date; the entries of
   the date the session was started on are not touched.
   */
  lemma RolloverKeyedByNewDate(st: State, cat: string, now: int, today: string, c: string, u: string)
    requires st.session.active && today != st.session.currentDate
    ensures CheckDateChange(st, Ok(cat), now, today).Ok?
    ensures Leaf(CheckDateChange(st, Ok(cat), now, today).value.ledger, today, cat, st.session.currentUrl) ==
            Some(Leaf(st.ledger, today, cat, st.session.currentUrl).GetOr(0) + now - st.session.startTime)
    ensures Leaf(CheckDateChange(st, Ok(cat), now, today).value.ledger, st.session.currentDate, c, u) ==
            Leaf(st.ledger, st.session.currentDate, c, u)
  {
    FlushCredits(st, cat, now, today, today, cat, st.session.currentUrl);
    FlushCredits(st, cat, now, today, st.session.currentDate, c, u);
  }

  // ---- Which tabs are tracked ----

  const ProhibitedProtocols: seq<string> := ["chrome:", "about:", "file:", "data:", "javascript:", "extensions:"]
  const ProhibitedDomains: seq<string> := ["chrome.google.com"]

  /** `isValidUrl(url)`: parses, and neither the protocol nor the lower-cased host is on the block lists. */
  predicate IsValidUrl(parse: Parser, url: string) {
    match parse(url)
    case None => false
    case Some(u) => u.protocol !in ProhibitedProtocols && Lower(u.hostname) !in ProhibitedDomains
  }

  /** What a tab change leaves behind: the new state and whether the categorization prompt was sent. */
  datatype TabChange = TabChange(state: State, prompted: bool)

  /** `isUrlCategorized(url)` of either build. */
  function IsCategorizedIn(v: Version, parse: Parser, p: Prefs, url: string): Result<bool> {
    match v
    case Modular => IsCategorized(parse, p, url)
    case Legacy => LegacyIsCategorized(parse, p, url)
  }

  /**
   `handleTabChange(tab)`: ignore a tab without a URL or with a URL that
   may not be tracked; otherwise send the prompt when the URL is not
   categorized, flush the running session and start timing the new URL.
   */
  function HandleTabChange(v: Version, parse: Parser, p: Prefs, st: State, url: string, now: int, today: string): (r: Result<TabChange>)
    ensures url == "" || !IsValidUrl(parse, url) ==> r == Ok(TabChange(st, false))
    ensures r.Ok? && url != "" && IsValidUrl(parse, url) ==>
            r.value.state.session == Session(true, now, url, st.session.currentDate)
  {
    if url == "" || !IsValidUrl(parse, url) then Ok(TabChange(st, false))
    else TrackNew(st, IsCategorizedIn(v, parse, p, url), Bucket(v, parse, p, st.session.currentUrl), url, now, today)
  }

  /** The part of `handleTabChange` after the URL checks: prompt, flush, restart. */
  function TrackNew(st: State, categorized: Result<bool>, bucket: Result<string>, url: string, now: int, today: string): (r: Result<TabChange>)
    ensures r.Ok? ==> r.value.state.session == Session(true, now, url, st.session.currentDate)
  {
    match categorized
    case Err(e) => Err(e)
    case Ok(b) =>
      match Flush(st, bucket, now, today)
      case Err(e) => Err(e)
      case Ok(st1) => Ok(TabChange(State(Session(true, now, url, st1.session.currentDate), st1.ledger), !b))
  }

  /**
   On a trackable URL the prompt goes out exactly when the URL is not
   categorized, and the previous session's time has been flushed into the
   ledger.
   */
  lemma TrackNewPromptsAndFlushes(st: State, categorized: Result<bool>, bucket: Result<string>, url: string, now: int, today: string)
    requires TrackNew(st, categorized, bucket, url, now, today).Ok?
    ensures TrackNew(st, categorized, bucket, url, now, today).value.prompted <==> categorized == Ok(false)
    ensures Total(TrackNew(st, categorized, bucket, url, now, today).value.state.ledger) ==
            Total(st.ledger) + (if st.session.active then now - st.session.startTime else 0)
  {
    if st.session.active {
      FlushCredits(st, bucket.value, now, today, today, "", "");
    }
  }

  /** A URL that does not parse, has a blocked protocol or is the blocked host is never tracked. */
  lemma BlockedUrlsIgnored(v: Version, parse: Parser, p: Prefs, st: State, url: string, now: int, today: string)
    requires parse(url).None? || parse(url).value.protocol in ProhibitedProtocols ||
             Lower(parse(url).value.hostname) == "chrome.google.com"
    ensures HandleTabChange(v, parse, p, st, url, now, today) == Ok(TabChange(st, false))
  {
  }
}
