/**
 Retroactive reallocation, `reallocateTime(url, newCategory, scope)` of
 src/background/background.js (and, as written, of
 src/background/timeTracker.js): after the user categorizes a URL, every
 `uncategorized` ledger entry that the new preference covers moves to the
 new category, on every date.

 For each date in ledger order that has an `uncategorized` bucket, the
 matching sites are collected first (parsing each site URL, which throws
 on a malformed one), then each is added to `newCategory` and deleted
 from `uncategorized`, and finally an empty `uncategorized` bucket is
 deleted. A throw aborts the loop: earlier dates keep their changes,
 later ones are untouched. `Outcome.completed` records whether the loop
 ran to the end.
 */
module Reallocation {
  import opened Values
  import opened Strings
  import opened OrderedMaps
  import opened Domains
  import opened Preferences
  import opened Resolver
  import opened Ledgers

  /** The ledger after the call, and whether it returned rather than threw. */
  datatype Outcome = Outcome(ledger: Ledger, completed: bool)

  /**
   Whether a site with lower-cased URL `siteNu` and hostname `siteHost` is
   covered by a preference saved for `nu` (hostname `host`) under `scope`.
   */
  predicate ScopeMatches(scope: string, nu: string, host: string, siteNu: string, siteHost: string) {
    if scope == "url" then siteNu == nu
    else if scope == "exact" then siteHost == host
    else if scope == "subdomains" then SubdomainMatches(siteHost, host)
    else if scope == "domain" then RootDomain(siteHost) == RootDomain(host)
    else false
  }

  /** A site key matches when it parses and its scope test holds. */
  predicate SiteMatches(parse: Parser, scope: string, nu: string, host: string, site: string) {
    match HostOf(parse, site)
    case None => false
    case Some(sh) => ScopeMatches(scope, nu, host, Lower(site), sh)
  }

  /** Some site key of `sites` does not parse. */
  predicate SomeUnparsable(parse: Parser, sites: Sites) {
    exists i :: 0 <= i < |sites| && HostOf(parse, sites[i].0).None?
  }

  /**
   `sitesToReallocate`: the matching entries of the `uncategorized` bucket,
   in order, or `None` when some site URL throws.
   */
  function MatchedSites(parse: Parser, scope: string, nu: string, host: string, sites: Sites): (r: Option<Sites>)
    ensures r.None? <==> SomeUnparsable(parse, sites)
    ensures r.Some? ==> forall i :: 0 <= i < |r.value| ==> r.value[i] in sites && SiteMatches(parse, scope, nu, host, r.value[i].0)
    ensures r.Some? ==> forall i :: 0 <= i < |sites| && SiteMatches(parse, scope, nu, host, sites[i].0) ==> sites[i] in r.value
  {
    if |sites| == 0 then Some([])
    else
      match HostOf(parse, sites[0].0)
      case None => None
      case Some(sh) =>
        var rest := MatchedSites(parse, scope, nu, host, sites[1..]);
        if rest.None? then
          assert forall i :: 0 <= i < |sites| - 1 ==> sites[1..][i] == sites[i + 1];
          None
        else
          var m := if ScopeMatches(scope, nu, host, Lower(sites[0].0), sh) then [sites[0]] + rest.value else rest.value;
          assert !SomeUnparsable(parse, sites) by {
            forall i | 0 <= i < |sites| ensures HostOf(parse, sites[i].0).Some? {
              if i > 0 { assert sites[i] == sites[1..][i - 1]; }
            }
          }
          assert forall i :: 0 <= i < |sites| && SiteMatches(parse, scope, nu, host, sites[i].0) ==> sites[i] in m by {
            forall i | 0 <= i < |sites| && SiteMatches(parse, scope, nu, host, sites[i].0) ensures sites[i] in m {
              if i > 0 { assert sites[i] == sites[1..][i - 1]; }
            }
          }
          Some(m)
  }

  /** Distinct site keys stay distinct in `sitesToReallocate`. */
  lemma {:induction false} MatchedSitesValid(parse: Parser, scope: string, nu: string, host: string, sites: Sites)
    requires Valid(sites) && MatchedSites(parse, scope, nu, host, sites).Some?
    ensures Valid(MatchedSites(parse, scope, nu, host, sites).value)
    decreases |sites|
  {
    if |sites| > 0 {
      var rest := MatchedSites(parse, scope, nu, host, sites[1..]).value;
      assert Valid(sites[1..]);
      MatchedSitesValid(parse, scope, nu, host, sites[1..]);
      forall i | 0 <= i < |rest| ensures rest[i].0 != sites[0].0 {
        var j :| 0 <= j < |sites| - 1 && sites[1..][j] == rest[i];
        assert sites[j + 1] == rest[i];
      }
      var sh := HostOf(parse, sites[0].0).value;
      if ScopeMatches(scope, nu, host, Lower(sites[0].0), sh) {
        ValidCons(sites[0], rest);
      }
    }
  }

  /** Move one site's time: add it to `newCategory` (creating levels at 0), then delete it from `uncategorized`. */
  function MoveOne(day: Day, fromCat: string, newCat: string, site: string, t: int): Day {
    var d1 := CreditDay(day, newCat, site, t);
    Put(d1, fromCat, Remove(GetOr(d1, fromCat, []), site))
  }

  /** The move loop over `sitesToReallocate`, in order. */
  function MoveAll(day: Day, fromCat: string, newCat: string, moves: Sites): Day
    decreases |moves|
  {
    if |moves| == 0 then day else MoveAll(MoveOne(day, fromCat, newCat, moves[0].0, moves[0].1), fromCat, newCat, moves[1..])
  }

  /** `if (Object.keys(day.uncategorized).length === 0) delete day.uncategorized`. */
  function DropEmpty(day: Day, fromCat: string): Day {
    if Get(day, fromCat) == Some([]) then Remove(day, fromCat) else day
  }

  /** One date of the loop; `None` when a site URL throws before anything is moved. */
  function ReallocateDay(parse: Parser, scope: string, nu: string, host: string, fromCat: string, newCat: string, day: Day): Option<Day> {
    match Get(day, fromCat)
    case None => Some(day)
    case Some(u) =>
      match MatchedSites(parse, scope, nu, host, u)
      case None => None
      case Some(moves) => Some(DropEmpty(MoveAll(day, fromCat, newCat, moves), fromCat))
  }

  /** The loop over the dates, in ledger order, stopping at the first throw. */
  function ReallocateEntries(parse: Parser, scope: string, nu: string, host: string, fromCat: string, newCat: string, l: Ledger): (r: Outcome)
    ensures |r.ledger| == |l| && forall i :: 0 <= i < |l| ==> r.ledger[i].0 == l[i].0
    decreases |l|
  {
    if |l| == 0 then Outcome([], true)
    else
      match ReallocateDay(parse, scope, nu, host, fromCat, newCat, l[0].1)
      case None => Outcome(l, false)
      case Some(d) =>
        var rest := ReallocateEntries(parse, scope, nu, host, fromCat, newCat, l[1..]);
        Outcome([(l[0].0, d)] + rest.ledger, rest.completed)
  }

  /**
   `reallocateTime(url, newCategory, scope)` as background.js runs it: the
   lower-cased URL must parse, which throws before any change.
   */
  function Reallocate(parse: Parser, l: Ledger, url: string, newCat: string, scope: string): (r: Outcome)
    ensures parse(Lower(url)).None? ==> r == Outcome(l, false)
  {
    match HostOf(parse, url)
    case None => Outcome(l, false)
    case Some(h) => ReallocateEntries(parse, scope, Lower(url), h, Uncategorized, newCat, l)
  }

  /**
   `reallocateTime` as src/background/timeTracker.js writes it: after
   parsing the URL it calls `this.getRootDomain(hostname)`, a method the
   class does not have, so every call throws before the loop.
   */
  function ModularReallocate(parse: Parser, l: Ledger, url: string, newCat: string, scope: string): (r: Outcome)
    ensures r == Outcome(l, false)
  {
    match HostOf(parse, url)
    case None => Outcome(l, false)
    case Some(_) => Outcome(l, false)   // TypeError: this.getRootDomain is not a function
  }

  // ---- One date ----

  lemma MoveOneFacts(day: Day, fromCat: string, newCat: string, site: string, t: int)
    requires newCat != fromCat
    ensures Get(MoveOne(day, fromCat, newCat, site, t), fromCat) == Some(Remove(GetOr(day, fromCat, []), site))
    ensures Get(MoveOne(day, fromCat, newCat, site, t), newCat) == Some(CreditSites(GetOr(day, newCat, []), site, t))
    ensures forall c :: c != newCat && c != fromCat ==> Get(MoveOne(day, fromCat, newCat, site, t), c) == Get(day, c)
  {
  }

  /** The move loop touches no category but the two involved. */
  lemma {:induction false} MoveAllOthers(day: Day, fromCat: string, newCat: string, moves: Sites, c: string)
    requires newCat != fromCat && c != newCat && c != fromCat
    ensures Get(MoveAll(day, fromCat, newCat, moves), c) == Get(day, c)
    decreases |moves|
  {
    if |moves| > 0 {
      MoveOneFacts(day, fromCat, newCat, moves[0].0, moves[0].1);
      MoveAllOthers(MoveOne(day, fromCat, newCat, moves[0].0, moves[0].1), fromCat, newCat, moves[1..], c);
    }
  }

  /** Each moved site leaves `uncategorized`; the others stay as they were. */
  lemma {:induction false} MoveAllSource(day: Day, fromCat: string, newCat: string, moves: Sites, x: string)
    requires newCat != fromCat
    ensures Get(GetOr(MoveAll(day, fromCat, newCat, moves), fromCat, []), x) ==
            if HasKey(moves, x) then None else Get(GetOr(day, fromCat, []), x)
    decreases |moves|
  {
    if |moves| > 0 {
      var (site, t) := moves[0];
      MoveOneFacts(day, fromCat, newCat, site, t);
      MoveAllSource(MoveOne(day, fromCat, newCat, site, t), fromCat, newCat, moves[1..], x);
      GetRemove(GetOr(day, fromCat, []), site, x);
      HasKeyCons(moves, x);
    }
  }

  /** The time `moves` carries for `x`, over every entry with that key. */
  function TimeFor(moves: Sites, x: string): int
    decreases |moves|
  {
    if |moves| == 0 then 0 else (if moves[0].0 == x then moves[0].1 else 0) + TimeFor(moves[1..], x)
  }

  /** With distinct keys, that is the one entry's time. */
  lemma {:induction false} TimeForValid(moves: Sites, x: string)
    requires Valid(moves)
    ensures TimeFor(moves, x) == GetOr(moves, x, 0)
    decreases |moves|
  {
    if |moves| > 0 {
      assert Valid(moves[1..]);
      TimeForValid(moves[1..], x);
      GetUnfold(moves, x);
      HasKeyCons(moves, x);
      if moves[0].0 == x {
        assert GetOr(moves[1..], x, 0) == 0;
      }
    }
  }

  /** The credits the move loop makes to the `newCategory` bucket, in order. */
  function CreditAll(s: Sites, moves: Sites): Sites
    decreases |moves|
  {
    if |moves| == 0 then s else CreditAll(CreditSites(s, moves[0].0, moves[0].1), moves[1..])
  }

  lemma {:induction false} CreditAllGet(s: Sites, moves: Sites, x: string)
    ensures GetOr(CreditAll(s, moves), x, 0) == GetOr(s, x, 0) + TimeFor(moves, x)
    ensures HasKey(CreditAll(s, moves), x) <==> HasKey(s, x) || HasKey(moves, x)
    decreases |moves|
  {
    if |moves| > 0 {
      var s1 := CreditSites(s, moves[0].0, moves[0].1);
      CreditAllGet(s1, moves[1..], x);
      HasKeyCons(moves, x);
    }
  }

  lemma {:induction false} TimeForAbsent(moves: Sites, x: string)
    requires !HasKey(moves, x)
    ensures TimeFor(moves, x) == 0
    decreases |moves|
  {
    if |moves| > 0 {
      HasKeyCons(moves, x);
      TimeForAbsent(moves[1..], x);
    }
  }

  lemma {:induction false} MoveAllBucket(day: Day, fromCat: string, newCat: string, moves: Sites)
    requires newCat != fromCat
    ensures GetOr(MoveAll(day, fromCat, newCat, moves), newCat, []) == CreditAll(GetOr(day, newCat, []), moves)
    decreases |moves|
  {
    if |moves| > 0 {
      MoveOneFacts(day, fromCat, newCat, moves[0].0, moves[0].1);
      MoveAllBucket(MoveOne(day, fromCat, newCat, moves[0].0, moves[0].1), fromCat, newCat, moves[1..]);
    }
  }

  /** Each moved site's time is added to its `newCategory` entry, a missing entry counting as 0. */
  lemma {:induction false} MoveAllNewCategory(day: Day, fromCat: string, newCat: string, moves: Sites, x: string)
    requires newCat != fromCat
    ensures GetOr(GetOr(MoveAll(day, fromCat, newCat, moves), newCat, []), x, 0) ==
            GetOr(GetOr(day, newCat, []), x, 0) + TimeFor(moves, x)
    ensures HasKey(GetOr(MoveAll(day, fromCat, newCat, moves), newCat, []), x) <==>
            HasKey(GetOr(day, newCat, []), x) || HasKey(moves, x)
  {
    var b := GetOr(day, newCat, []);
    var r := GetOr(MoveAll(day, fromCat, newCat, moves), newCat, []);
    MoveAllBucket(day, fromCat, newCat, moves);
    assert r == CreditAll(b, moves);
    CreditAllGet(b, moves, x);
  }

  /** What remains in `uncategorized` was there before and was not moved. */
  lemma {:induction false} MoveAllRemaining(day: Day, fromCat: string, newCat: string, moves: Sites)
    requires newCat != fromCat
    ensures forall e :: e in GetOr(MoveAll(day, fromCat, newCat, moves), fromCat, []) ==>
                        e in GetOr(day, fromCat, []) && !HasKey(moves, e.0)
    ensures Get(MoveAll(day, fromCat, newCat, moves), fromCat).Some? <==> Get(day, fromCat).Some? || |moves| > 0
    decreases |moves|
  {
    if |moves| > 0 {
      var (site, t) := moves[0];
      var d1 := MoveOne(day, fromCat, newCat, site, t);
      MoveOneFacts(day, fromCat, newCat, site, t);
      MoveAllRemaining(d1, fromCat, newCat, moves[1..]);
      forall e | e in GetOr(MoveAll(day, fromCat, newCat, moves), fromCat, [])
        ensures e in GetOr(day, fromCat, []) && !HasKey(moves, e.0)
      {
        assert e in Remove(GetOr(day, fromCat, []), site);
        HasKeyCons(moves, e.0);
      }
    }
  }

  lemma MoveOneTotal(day: Day, fromCat: string, newCat: string, site: string, t: int)
    requires newCat != fromCat && DayWellFormed(day)
    requires Get(GetOr(day, fromCat, []), site) == Some(t)
    ensures DayTotal(MoveOne(day, fromCat, newCat, site, t)) == DayTotal(day)
    ensures DayWellFormed(MoveOne(day, fromCat, newCat, site, t))
  {
    var u := GetOr(day, fromCat, []);
    var i := Find(day, fromCat);
    assert i >= 0 && u == day[i].1;
    var d1 := CreditDay(day, newCat, site, t);
    DayTotalCredit(day, newCat, site, t);
    DayWellFormedCredit(day, newCat, site, t);
    assert Get(d1, fromCat) == Some(u);
    SumByRemove(u, site, IntValue);
    SumByPut(d1, fromCat, Remove(u, site), Sum);
    ValidRemove(u, site);
    ValidPut(d1, fromCat, Remove(u, site));
    PutEntries(d1, fromCat, Remove(u, site));
  }

  /** With a `newCategory` other than `uncategorized`, the move loop keeps the date's total. */
  lemma {:induction false} MoveAllTotal(day: Day, fromCat: string, newCat: string, moves: Sites)
    requires newCat != fromCat && DayWellFormed(day) && Valid(moves)
    requires forall j :: 0 <= j < |moves| ==> Get(GetOr(day, fromCat, []), moves[j].0) == Some(moves[j].1)
    ensures DayTotal(MoveAll(day, fromCat, newCat, moves)) == DayTotal(day)
    ensures DayWellFormed(MoveAll(day, fromCat, newCat, moves))
    decreases |moves|
  {
    if |moves| > 0 {
      var (site, t) := moves[0];
      var d1 := MoveOne(day, fromCat, newCat, site, t);
      var rest := moves[1..];
      MoveOneTotal(day, fromCat, newCat, site, t);
      MoveOneFacts(day, fromCat, newCat, site, t);
      forall j | 0 <= j < |rest| ensures Get(GetOr(d1, fromCat, []), rest[j].0) == Some(rest[j].1) {
        assert rest[j] == moves[j + 1];
        GetRemove(GetOr(day, fromCat, []), site, rest[j].0);
      }
      MoveAllTotal(d1, fromCat, newCat, rest);
    }
  }

  /** The entries of a valid map read back through `Get`. */
  lemma EntriesReadBack(u: Sites, moves: Sites)
    requires Valid(u) && forall j :: 0 <= j < |moves| ==> moves[j] in u
    ensures forall j :: 0 <= j < |moves| ==> Get(u, moves[j].0) == Some(moves[j].1)
  {
    forall j | 0 <= j < |moves| ensures Get(u, moves[j].0) == Some(moves[j].1) {
      var i :| 0 <= i < |u| && u[i] == moves[j];
      GetIndex(u, i);
    }
  }

  lemma DropEmptyTotal(day: Day, fromCat: string)
    requires DayWellFormed(day)
    ensures DayTotal(DropEmpty(day, fromCat)) == DayTotal(day)
    ensures DayWellFormed(DropEmpty(day, fromCat))
  {
    if Get(day, fromCat) == Some([]) {
      SumByRemove(day, fromCat, Sum);
      ValidRemove(day, fromCat);
    }
  }

  /** Reallocating one date keeps its total when `newCategory` is not `uncategorized`. */
  lemma ReallocateDayTotal(parse: Parser, scope: string, nu: string, host: string, fromCat: string, newCat: string, day: Day)
    requires newCat != fromCat && DayWellFormed(day)
    requires ReallocateDay(parse, scope, nu, host, fromCat, newCat, day).Some?
    ensures DayTotal(ReallocateDay(parse, scope, nu, host, fromCat, newCat, day).value) == DayTotal(day)
    ensures DayWellFormed(ReallocateDay(parse, scope, nu, host, fromCat, newCat, day).value)
  {
    if Get(day, fromCat).Some? {
      var u := Get(day, fromCat).value;
      var i := Find(day, fromCat);
      assert Valid(u) by { assert u == day[i].1; }
      var moves := MatchedSites(parse, scope, nu, host, u).value;
      MatchedSitesValid(parse, scope, nu, host, u);
      EntriesReadBack(u, moves);
      MoveAllTotal(day, fromCat, newCat, moves);
      DropEmptyTotal(MoveAll(day, fromCat, newCat, moves), fromCat);
    }
  }

  /** `sitesToReallocate` holds exactly the matching sites of the bucket, with their times. */
  lemma MatchedSitesKeys(parse: Parser, scope: string, nu: string, host: string, u: Sites, moves: Sites, x: string)
    requires Valid(u) && MatchedSites(parse, scope, nu, host, u) == Some(moves)
    ensures HasKey(moves, x) <==> HasKey(u, x) && SiteMatches(parse, scope, nu, host, x)
    ensures HasKey(moves, x) ==> GetOr(moves, x, 0) == GetOr(u, x, 0)
  {
    MatchedSitesValid(parse, scope, nu, host, u);
    if HasKey(moves, x) {
      var i :| 0 <= i < |moves| && moves[i].0 == x;
      assert moves[i] in u;
      var j :| 0 <= j < |u| && u[j] == moves[i];
      GetIndex(moves, i);
      GetIndex(u, j);
    }
    if HasKey(u, x) && SiteMatches(parse, scope, nu, host, x) {
      var j :| 0 <= j < |u| && u[j].0 == x;
      assert u[j] in moves;
    }
  }

  /** Whether reallocation moves `x` out of the `fromCat` bucket of `day`. */
  predicate Moved(parse: Parser, scope: string, nu: string, host: string, fromCat: string, day: Day, x: string) {
    HasKey(GetOr(day, fromCat, []), x) && SiteMatches(parse, scope, nu, host, x)
  }

  /** Dropping an empty bucket changes no reading. */
  lemma DropEmptyGet(day: Day, fromCat: string, c: string, x: string)
    ensures c != fromCat ==> Get(DropEmpty(day, fromCat), c) == Get(day, c)
    ensures Get(GetOr(DropEmpty(day, fromCat), c, []), x) == Get(GetOr(day, c, []), x)
    ensures Get(DropEmpty(day, fromCat), fromCat) != Some([])
  {
    if Get(day, fromCat) == Some([]) {
      GetRemove(day, fromCat, c);
    }
  }

  /**
   What reallocating one date does: each matching site of the `fromCat`
   bucket leaves it and its time is added to the same site under
   `newCategory`; every other reading is unchanged, and no empty `fromCat`
   bucket is left behind.
   */
  lemma ReallocateDayEffect(parse: Parser, scope: string, nu: string, host: string, fromCat: string, newCat: string, day: Day, x: string)
    requires newCat != fromCat && DayWellFormed(day)
    requires ReallocateDay(parse, scope, nu, host, fromCat, newCat, day).Some?
    ensures var day' := ReallocateDay(parse, scope, nu, host, fromCat, newCat, day).value;
            var moved := Moved(parse, scope, nu, host, fromCat, day, x);
            && Get(GetOr(day', fromCat, []), x) == (if moved then None else Get(GetOr(day, fromCat, []), x))
            && GetOr(GetOr(day', newCat, []), x, 0) ==
               GetOr(GetOr(day, newCat, []), x, 0) + (if moved then GetOr(GetOr(day, fromCat, []), x, 0) else 0)
            && (HasKey(GetOr(day', newCat, []), x) <==> HasKey(GetOr(day, newCat, []), x) || moved)
            && Get(day', fromCat) != Some([])
  {
    if Get(day, fromCat).Some? {
      var u := Get(day, fromCat).value;
      var i := Find(day, fromCat);
      assert Valid(u) by { assert u == day[i].1; }
      var moves := MatchedSites(parse, scope, nu, host, u).value;
      var m := MoveAll(day, fromCat, newCat, moves);
      MatchedSitesKeys(parse, scope, nu, host, u, moves, x);
      MatchedSitesValid(parse, scope, nu, host, u);
      TimeForValid(moves, x);
      MoveAllSource(day, fromCat, newCat, moves, x);
      MoveAllNewCategory(day, fromCat, newCat, moves, x);
      DropEmptyGet(m, fromCat, fromCat, x);
      DropEmptyGet(m, fromCat, newCat, x);
      if !HasKey(moves, x) {
        TimeForAbsent(moves, x);
      }
    }
  }

  /** Categories other than the two involved are untouched. */
  lemma ReallocateDayOthers(parse: Parser, scope: string, nu: string, host: string, fromCat: string, newCat: string, day: Day, c: string)
    requires newCat != fromCat && c != fromCat && c != newCat
    requires ReallocateDay(parse, scope, nu, host, fromCat, newCat, day).Some?
    ensures Get(ReallocateDay(parse, scope, nu, host, fromCat, newCat, day).value, c) == Get(day, c)
  {
    if Get(day, fromCat).Some? {
      var moves := MatchedSites(parse, scope, nu, host, Get(day, fromCat).value).value;
      MoveAllOthers(day, fromCat, newCat, moves, c);
      DropEmptyGet(MoveAll(day, fromCat, newCat, moves), fromCat, c, "");
    }
  }

  /** A bucket none of whose sites match yields no moves. */
  lemma {:induction false} MatchedSitesNone(parse: Parser, scope: string, nu: string, host: string, u: Sites)
    requires MatchedSites(parse, scope, nu, host, u).Some?
    requires forall e :: e in u ==> !SiteMatches(parse, scope, nu, host, e.0)
    ensures MatchedSites(parse, scope, nu, host, u) == Some([])
    decreases |u|
  {
    if |u| > 0 {
      assert u[0] in u;
      assert forall e :: e in u[1..] ==> e in u;
      MatchedSitesNone(parse, scope, nu, host, u[1..]);
    }
  }

  /** What a bucket keeps after its matching sites are moved out matches nothing. */
  lemma LeftoverUnmatched(parse: Parser, scope: string, nu: string, host: string, u: Sites, moves: Sites, u': Sites)
    requires MatchedSites(parse, scope, nu, host, u) == Some(moves)
    requires forall e :: e in u' ==> e in u && !HasKey(moves, e.0)
    ensures MatchedSites(parse, scope, nu, host, u') == Some([])
  {
    forall e | e in u'
      ensures HostOf(parse, e.0).Some? && !SiteMatches(parse, scope, nu, host, e.0)
    {
      var i :| 0 <= i < |u| && u[i] == e;
      EntryHasKey(moves, e);
    }
    assert !SomeUnparsable(parse, u') by {
      forall i | 0 <= i < |u'| ensures HostOf(parse, u'[i].0).Some? {
        assert u'[i] in u';
      }
    }
    MatchedSitesNone(parse, scope, nu, host, u');
  }

  /** Reallocating a date a second time changes nothing: what is left in `fromCat` does not match. */
  lemma ReallocateDayTwice(parse: Parser, scope: string, nu: string, host: string, fromCat: string, newCat: string, day: Day)
    requires newCat != fromCat
    requires ReallocateDay(parse, scope, nu, host, fromCat, newCat, day).Some?
    ensures var day' := ReallocateDay(parse, scope, nu, host, fromCat, newCat, day).value;
            ReallocateDay(parse, scope, nu, host, fromCat, newCat, day') == Some(day')
  {
    var day' := ReallocateDay(parse, scope, nu, host, fromCat, newCat, day).value;
    if Get(day, fromCat).Some? && Get(day', fromCat).Some? {
      var u := Get(day, fromCat).value;
      var moves := MatchedSites(parse, scope, nu, host, u).value;
      var m := MoveAll(day, fromCat, newCat, moves);
      MoveAllRemaining(day, fromCat, newCat, moves);
      DropEmptyGet(m, fromCat, fromCat, "");
      var u' := Get(day', fromCat).value;
      assert u' == GetOr(m, fromCat, []);
      LeftoverUnmatched(parse, scope, nu, host, u, moves, u');
    }
  }

  // ---- All dates ----

  /** The index of the first date whose reallocation throws, or `|l|` when none does. */
  function FirstFailure(parse: Parser, scope: string, nu: string, host: string, fromCat: string, newCat: string, l: Ledger): (k: nat)
    ensures k <= |l|
    ensures forall i :: 0 <= i < k ==> ReallocateDay(parse, scope, nu, host, fromCat, newCat, l[i].1).Some?
    ensures k < |l| ==> ReallocateDay(parse, scope, nu, host, fromCat, newCat, l[k].1).None?
    decreases |l|
  {
    if |l| == 0 then 0
    else if ReallocateDay(parse, scope, nu, host, fromCat, newCat, l[0].1).None? then 0
    else 1 + FirstFailure(parse, scope, nu, host, fromCat, newCat, l[1..])
  }

  /**
   The loop reallocates every date before the first throwing one and
   leaves that date and all later ones as they were; it completes exactly
   when no date throws.
   */
  lemma {:induction false} ReallocateEntriesPrefix(parse: Parser, scope: string, nu: string, host: string, fromCat: string, newCat: string, l: Ledger)
    ensures var r := ReallocateEntries(parse, scope, nu, host, fromCat, newCat, l);
            var k := FirstFailure(parse, scope, nu, host, fromCat, newCat, l);
            && (r.completed <==> k == |l|)
            && (forall i :: 0 <= i < k ==> ReallocateDay(parse, scope, nu, host, fromCat, newCat, l[i].1) == Some(r.ledger[i].1))
            && r.ledger[k..] == l[k..]
    decreases |l|
  {
    if |l| > 0 && ReallocateDay(parse, scope, nu, host, fromCat, newCat, l[0].1).Some? {
      var r := ReallocateEntries(parse, scope, nu, host, fromCat, newCat, l);
      var rest := ReallocateEntries(parse, scope, nu, host, fromCat, newCat, l[1..]);
      var k' := FirstFailure(parse, scope, nu, host, fromCat, newCat, l[1..]);
      ReallocateEntriesPrefix(parse, scope, nu, host, fromCat, newCat, l[1..]);
      assert r.ledger[1..] == rest.ledger;
      forall i | 0 < i < k' + 1
        ensures ReallocateDay(parse, scope, nu, host, fromCat, newCat, l[i].1) == Some(r.ledger[i].1)
      {
        assert l[i] == l[1..][i - 1] && r.ledger[i] == rest.ledger[i - 1];
      }
      assert r.ledger[k' + 1..] == rest.ledger[k'..];
      assert l[k' + 1..] == l[1..][k'..];
    }
  }

  /** When the loop completes, each date reads as its reallocated day. */
  lemma {:induction false} ReallocateEntriesGet(parse: Parser, scope: string, nu: string, host: string, fromCat: string, newCat: string, l: Ledger, d: string)
    requires ReallocateEntries(parse, scope, nu, host, fromCat, newCat, l).completed
    ensures Get(ReallocateEntries(parse, scope, nu, host, fromCat, newCat, l).ledger, d) ==
            match Get(l, d)
            case None => None
            case Some(day) => ReallocateDay(parse, scope, nu, host, fromCat, newCat, day)
    decreases |l|
  {
    if |l| > 0 {
      var r := ReallocateEntries(parse, scope, nu, host, fromCat, newCat, l);
      var rest := ReallocateEntries(parse, scope, nu, host, fromCat, newCat, l[1..]);
      assert r.ledger[1..] == rest.ledger;
      ReallocateEntriesGet(parse, scope, nu, host, fromCat, newCat, l[1..], d);
      GetUnfold(l, d);
      GetUnfold(r.ledger, d);
    }
  }

  /**
   Whether or not the loop completes, the ledger's total is kept and it
   stays well formed, as long as `newCategory` differs from `fromCat`.
   */
  lemma {:induction false} ReallocateEntriesTotal(parse: Parser, scope: string, nu: string, host: string, fromCat: string, newCat: string, l: Ledger)
    requires newCat != fromCat && WellFormed(l)
    ensures Total(ReallocateEntries(parse, scope, nu, host, fromCat, newCat, l).ledger) == Total(l)
    ensures WellFormed(ReallocateEntries(parse, scope, nu, host, fromCat, newCat, l).ledger)
    decreases |l|
  {
    if |l| > 0 && ReallocateDay(parse, scope, nu, host, fromCat, newCat, l[0].1).Some? {
      var r := ReallocateEntries(parse, scope, nu, host, fromCat, newCat, l);
      var rest := ReallocateEntries(parse, scope, nu, host, fromCat, newCat, l[1..]);
      assert WellFormed(l[1..]) by {
        forall i | 0 <= i < |l| - 1 ensures DayWellFormed(l[1..][i].1) {
          assert l[1..][i] == l[i + 1];
        }
      }
      ReallocateEntriesTotal(parse, scope, nu, host, fromCat, newCat, l[1..]);
      ReallocateDayTotal(parse, scope, nu, host, fromCat, newCat, l[0].1);
      assert r.ledger[1..] == rest.ledger;
      forall i | 0 <= i < |r.ledger| ensures DayWellFormed(r.ledger[i].1) {
        if i > 0 { assert r.ledger[i] == rest.ledger[i - 1]; }
      }
    }
  }

  /** Running the loop again over a completed result changes nothing. */
  lemma {:induction false} ReallocateEntriesTwice(parse: Parser, scope: string, nu: string, host: string, fromCat: string, newCat: string, l: Ledger)
    requires newCat != fromCat
    requires ReallocateEntries(parse, scope, nu, host, fromCat, newCat, l).completed
    ensures var r := ReallocateEntries(parse, scope, nu, host, fromCat, newCat, l).ledger;
            ReallocateEntries(parse, scope, nu, host, fromCat, newCat, r) == Outcome(r, true)
    decreases |l|
  {
    if |l| > 0 {
      var r := ReallocateEntries(parse, scope, nu, host, fromCat, newCat, l);
      var rest := ReallocateEntries(parse, scope, nu, host, fromCat, newCat, l[1..]);
      assert r.ledger[1..] == rest.ledger;
      ReallocateDayTwice(parse, scope, nu, host, fromCat, newCat, l[0].1);
      ReallocateEntriesTwice(parse, scope, nu, host, fromCat, newCat, l[1..]);
      assert [r.ledger[0]] + r.ledger[1..] == r.ledger;
    }
  }

  /**
   With `newCategory` equal to the bucket being emptied, a move credits the
   site and then deletes it: its time is lost instead of moved.
   */
  lemma MoveOneSameCategory(day: Day, cat: string, site: string, t: int)
    ensures Get(GetOr(MoveOne(day, cat, cat, site, t), cat, []), site) == None
  {
    var d1 := CreditDay(day, cat, site, t);
    GetRemove(GetOr(d1, cat, []), site, site);
  }

  // ---- The whole call ----

  /** `timeData[date][category][url]`, reading a missing level as empty. */
  lemma LeafGetOr(l: Ledger, d: string, c: string, x: string)
    ensures Leaf(l, d, c, x) == Get(GetOr(GetOr(l, d, []), c, []), x)
  {
  }

  /** A well-formed ledger's days are well formed. */
  lemma DayOfWellFormed(l: Ledger, d: string)
    requires WellFormed(l)
    ensures DayWellFormed(GetOr(l, d, []))
  {
    var i := Find(l, d);
    if i >= 0 {
      assert GetOr(l, d, []) == l[i].1;
    }
  }

  /** Whether `reallocateTime(url, newCategory, scope)` moves site `x` on date `d`. */
  predicate MovedAt(parse: Parser, l: Ledger, url: string, scope: string, d: string, x: string)
    requires HostOf(parse, url).Some?
  {
    Moved(parse, scope, Lower(url), HostOf(parse, url).value, Uncategorized, GetOr(l, d, []), x)
  }

  /**
   The effect of a completed reallocation on every leaf: a matching site
   recorded as uncategorized on a date is no longer, and its time is added
   to the same site under `newCategory` on that date; all other leaves read
   as before.
   */
  lemma ReallocateLeaves(parse: Parser, l: Ledger, url: string, newCat: string, scope: string, d: string, c: string, x: string)
    requires WellFormed(l) && newCat != Uncategorized
    requires Reallocate(parse, l, url, newCat, scope).completed
    ensures HostOf(parse, url).Some?
    ensures var r := Reallocate(parse, l, url, newCat, scope).ledger;
            var moved := MovedAt(parse, l, url, scope, d, x);
            && Leaf(r, d, Uncategorized, x) == (if moved then None else Leaf(l, d, Uncategorized, x))
            && Leaf(r, d, newCat, x).GetOr(0) ==
               Leaf(l, d, newCat, x).GetOr(0) + (if moved then Leaf(l, d, Uncategorized, x).value else 0)
            && (Leaf(r, d, newCat, x).Some? <==> Leaf(l, d, newCat, x).Some? || moved)
            && (c != Uncategorized && c != newCat ==> Leaf(r, d, c, x) == Leaf(l, d, c, x))
  {
    var h := HostOf(parse, url).value;
    var nu := Lower(url);
    var r := Reallocate(parse, l, url, newCat, scope).ledger;
    ReallocateEntriesGet(parse, scope, nu, h, Uncategorized, newCat, l, d);
    LeafGetOr(l, d, Uncategorized, x);
    LeafGetOr(l, d, newCat, x);
    LeafGetOr(r, d, Uncategorized, x);
    LeafGetOr(r, d, newCat, x);
    LeafGetOr(l, d, c, x);
    LeafGetOr(r, d, c, x);
    if Get(l, d).Some? {
      var day := Get(l, d).value;
      DayOfWellFormed(l, d);
      ReallocateDayEffect(parse, scope, nu, h, Uncategorized, newCat, day, x);
      if c != Uncategorized && c != newCat {
        ReallocateDayOthers(parse, scope, nu, h, Uncategorized, newCat, day, c);
      }
    }
  }

  /** Reallocation never changes the ledger's total, even when it aborts part-way. */
  lemma ReallocateTotal(parse: Parser, l: Ledger, url: string, newCat: string, scope: string)
    requires WellFormed(l) && newCat != Uncategorized
    ensures Total(Reallocate(parse, l, url, newCat, scope).ledger) == Total(l)
    ensures WellFormed(Reallocate(parse, l, url, newCat, scope).ledger)
  {
    if HostOf(parse, url).Some? {
      ReallocateEntriesTotal(parse, scope, Lower(url), HostOf(parse, url).value, Uncategorized, newCat, l);
    }
  }

  /** Repeating a completed reallocation changes nothing. */
  lemma ReallocateTwice(parse: Parser, l: Ledger, url: string, newCat: string, scope: string)
    requires newCat != Uncategorized
    requires Reallocate(parse, l, url, newCat, scope).completed
    ensures var r := Reallocate(parse, l, url, newCat, scope).ledger;
            Reallocate(parse, r, url, newCat, scope) == Outcome(r, true)
  {
    ReallocateEntriesTwice(parse, scope, Lower(url), HostOf(parse, url).value, Uncategorized, newCat, l);
  }

  /**
   The sites reallocation moves are exactly those the saved preference
   covers: after saving a non-empty category for `url` under `scope`, every
   site that scope matches counts as categorized.
   */
  lemma MatchedSiteIsCategorized(parse: Parser, p: Prefs, url: string, category: string, scope: string, site: string)
    requires SaveCategorization(parse, p, url, category, scope).Ok? && Truthy(category)
    requires SiteMatches(parse, scope, Lower(url), HostOf(parse, url).value, site)
    ensures IsCategorized(parse, SaveCategorization(parse, p, url, category, scope).value, site) == Ok(true)
  {
    var q := SaveCategorization(parse, p, url, category, scope).value;
    var h := HostOf(parse, url).value;
    var sh := HostOf(parse, site).value;
    var (name, key) := Target(scope, Lower(url), h).value;
    SaveWritesOneEntry(parse, p, url, category, scope);
    assert Get(MapOf(q, name), key) == Some(category);
    match name
    case Urls =>
      assert Lookup(q.urls, Lower(site)) == category;
    case ExactDomains =>
      assert Lookup(q.exactDomains, sh) == category;
    case Subdomains =>
      var i := Find(q.subdomains, h);
      assert SubdomainMatches(sh, q.subdomains[i].0);
    case RootDomains =>
      assert Lookup(q.rootDomains, RootDomain(sh)) == category;
  }

  /**
   The modular `reallocateTime` never moves anything: where the legacy
   function moves a matching uncategorized leaf, the modular one leaves it
   in place.
   */
  lemma ModularLeavesUncategorized(parse: Parser, l: Ledger, url: string, newCat: string, scope: string, d: string, x: string)
    requires WellFormed(l) && newCat != Uncategorized
    requires Reallocate(parse, l, url, newCat, scope).completed
    requires Leaf(l, d, Uncategorized, x).Some?
    requires SiteMatches(parse, scope, Lower(url), HostOf(parse, url).value, x)
    ensures Leaf(Reallocate(parse, l, url, newCat, scope).ledger, d, Uncategorized, x) == None
    ensures Leaf(ModularReallocate(parse, l, url, newCat, scope).ledger, d, Uncategorized, x) == Leaf(l, d, Uncategorized, x)
  {
    ReallocateLeaves(parse, l, url, newCat, scope, d, newCat, x);
    LeafGetOr(l, d, Uncategorized, x);
  }
}
