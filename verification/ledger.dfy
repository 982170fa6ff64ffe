/**
 The time ledger, `timeData[date][category][url] = milliseconds`, kept by
 the background scripts and read by the popup and the logs page.

 Each level is a JavaScript object, modelled as an insertion-ordered map.
 Milliseconds are `int`: a flush adds `Date.now() - startTime`, which is
 negative if the clock went backwards.
 */
module Ledgers {
  import opened Values
  import opened OrderedMaps

  type Sites = OMap<int>
  type Day = OMap<Sites>
  type Ledger = OMap<Day>

  /** The category time is filed under when no preference applies. */
  const Uncategorized: string := "uncategorized"

  /** `timeData[date][category][url]`, `None` where any level is `undefined`. */
  function Leaf(l: Ledger, date: string, cat: string, url: string): Option<int> {
    match Get(l, date)
    case None => None
    case Some(day) =>
      match Get(day, cat)
      case None => None
      case Some(sites) => Get(sites, url)
  }

  /** `sites[url] = (sites[url] || 0) + ms`. */
  function CreditSites(s: Sites, url: string, ms: int): (r: Sites)
    ensures Get(r, url) == Some(GetOr(s, url, 0) + ms)
    ensures forall u :: u != url ==> Get(r, u) == Get(s, u)
  {
    Put(s, url, GetOr(s, url, 0) + ms)
  }

  /** The category level of a credit: the bucket is created as `{}` when missing. */
  function CreditDay(day: Day, cat: string, url: string, ms: int): (r: Day)
    ensures Get(r, cat) == Some(CreditSites(GetOr(day, cat, []), url, ms))
    ensures forall c :: c != cat ==> Get(r, c) == Get(day, c)
  {
    Put(day, cat, CreditSites(GetOr(day, cat, []), url, ms))
  }

  /**
   The accumulation at the heart of a flush: missing levels are created
   (`{}` and then `0`) and `ms` is added to the leaf.
   */
  function Credit(l: Ledger, date: string, cat: string, url: string, ms: int): (r: Ledger)
    ensures Get(r, date) == Some(CreditDay(GetOr(l, date, []), cat, url, ms))
    ensures forall d :: d != date ==> Get(r, d) == Get(l, d)
  {
    Put(l, date, CreditDay(GetOr(l, date, []), cat, url, ms))
  }

  /**
   A credit adds `ms` to its own leaf, counting a missing leaf as 0, and
   every other leaf reads as before.
   */
  lemma CreditLeaf(l: Ledger, date: string, cat: string, url: string, ms: int, d: string, c: string, u: string)
    ensures Leaf(Credit(l, date, cat, url, ms), d, c, u) ==
            if (d, c, u) == (date, cat, url) then Some(Leaf(l, date, cat, url).GetOr(0) + ms) else Leaf(l, d, c, u)
  {
    var r := Credit(l, date, cat, url, ms);
    if d == date {
      var day := GetOr(l, date, []);
      var day' := CreditDay(day, cat, url, ms);
      assert Get(r, d) == Some(day');
      if c == cat {
        var s := GetOr(day, cat, []);
        assert Get(day', c) == Some(CreditSites(s, url, ms));
        assert Leaf(l, d, c, u) == Get(s, u);
      } else {
        assert Get(day', c) == Get(day, c);
        assert Leaf(l, d, c, u) == match Get(day, c) case None => None case Some(x) => Get(x, u);
      }
    }
  }

  lemma PutPut<V>(m: OMap<V>, k: string, v: V, w: V)
    ensures Put(Put(m, k, v), k, w) == Put(m, k, w)
  {
    var i := Find(m, k);
    PutShape(m, k, v);
    PutShape(m, k, w);
    var m1 := Put(m, k, v);
    PutShape(m1, k, w);
    if i < 0 {
      FindSamePrefix(m1, k, |m|);
      assert m1[|m| := (k, w)] == m + [(k, w)];
    } else {
      FindSamePrefix(m1, k, i);
      assert m1[i := (k, w)] == m[i := (k, w)];
    }
  }

  lemma CreditSitesTwice(s: Sites, url: string, a: int, b: int)
    ensures CreditSites(CreditSites(s, url, a), url, b) == CreditSites(s, url, a + b)
  {
    var s1 := CreditSites(s, url, a);
    assert GetOr(s1, url, 0) == GetOr(s, url, 0) + a;
    assert CreditSites(s1, url, b) == Put(s1, url, GetOr(s, url, 0) + a + b);
    PutPut(s, url, GetOr(s, url, 0) + a, GetOr(s, url, 0) + a + b);
  }

  lemma CreditDayTwice(day: Day, cat: string, url: string, a: int, b: int)
    ensures CreditDay(CreditDay(day, cat, url, a), cat, url, b) == CreditDay(day, cat, url, a + b)
  {
    var s := GetOr(day, cat, []);
    CreditSitesTwice(s, url, a, b);
    PutPut(day, cat, CreditSites(s, url, a), CreditSites(s, url, a + b));
  }

  /** Two consecutive credits of the same leaf are one credit of the sum. */
  lemma CreditTwice(l: Ledger, date: string, cat: string, url: string, a: int, b: int)
    ensures Credit(Credit(l, date, cat, url, a), date, cat, url, b) == Credit(l, date, cat, url, a + b)
  {
    var day := GetOr(l, date, []);
    CreditDayTwice(day, cat, url, a, b);
    PutPut(l, date, CreditDay(day, cat, url, a), CreditDay(day, cat, url, a + b));
  }

  /** A well-formed day: distinct categories, each with distinct URLs. */
  ghost predicate DayWellFormed(day: Day) {
    Valid(day) && forall j :: 0 <= j < |day| ==> Valid(day[j].1)
  }

  /** Every level has distinct keys, as JavaScript objects do. */
  ghost predicate WellFormed(l: Ledger) {
    Valid(l) && forall i :: 0 <= i < |l| ==> DayWellFormed(l[i].1)
  }

  lemma DayWellFormedCredit(day: Day, cat: string, url: string, ms: int)
    requires DayWellFormed(day)
    ensures DayWellFormed(CreditDay(day, cat, url, ms))
  {
    var s := GetOr(day, cat, []);
    var i := Find(day, cat);
    assert Valid(s) by { if i >= 0 { assert s == day[i].1; } }
    ValidPut(s, url, GetOr(s, url, 0) + ms);
    ValidPut(day, cat, CreditSites(s, url, ms));
    PutEntries(day, cat, CreditSites(s, url, ms));
  }

  lemma WellFormedCredit(l: Ledger, date: string, cat: string, url: string, ms: int)
    requires WellFormed(l)
    ensures WellFormed(Credit(l, date, cat, url, ms))
  {
    var day := GetOr(l, date, []);
    var i := Find(l, date);
    assert DayWellFormed(day) by { if i >= 0 { assert day == l[i].1; } }
    DayWellFormedCredit(day, cat, url, ms);
    ValidPut(l, date, CreditDay(day, cat, url, ms));
    PutEntries(l, date, CreditDay(day, cat, url, ms));
  }

  // ---- Totals ----

  function DayTotal(day: Day): int { SumBy(day, Sum) }

  /** All milliseconds in the ledger. */
  function Total(l: Ledger): int { SumBy(l, DayTotal) }

  lemma SumCreditSites(s: Sites, url: string, ms: int)
    ensures Sum(CreditSites(s, url, ms)) == Sum(s) + ms
  {
    SumByPut(s, url, GetOr(s, url, 0) + ms, IntValue);
  }

  lemma DayTotalCredit(day: Day, cat: string, url: string, ms: int)
    ensures DayTotal(CreditDay(day, cat, url, ms)) == DayTotal(day) + ms
  {
    var s := GetOr(day, cat, []);
    SumCreditSites(s, url, ms);
    SumByPut(day, cat, CreditSites(s, url, ms), Sum);
  }

  /** A credit of `ms` raises the total by exactly `ms`. */
  lemma CreditTotal(l: Ledger, date: string, cat: string, url: string, ms: int)
    ensures Total(Credit(l, date, cat, url, ms)) == Total(l) + ms
  {
    var day := GetOr(l, date, []);
    DayTotalCredit(day, cat, url, ms);
    SumByPut(l, date, CreditDay(day, cat, url, ms), DayTotal);
  }

  // ---- Leaves ----

  function SitesCount(s: Sites): int { |s| }

  function DayCount(day: Day): int { SumBy(day, SitesCount) }

  /** The number of (date, category, url) leaves. */
  function LeafCount(l: Ledger): int { SumBy(l, DayCount) }

  // ---- Storage events ----

  /** Loading (both versions) and the legacy change handler: `data.timeData || {}`. */
  function LoadTimeData(incoming: Option<Ledger>): (r: Ledger)
    ensures incoming.None? ==> r == []
    ensures incoming.Some? ==> r == incoming.value
  {
    incoming.GetOr([])
  }

  /** The modular change handler keeps the in-memory ledger when the new value is absent. */
  function ModularTimeDataChange(incoming: Option<Ledger>, current: Ledger): (r: Ledger)
    ensures incoming.None? ==> r == current
    ensures incoming.Some? ==> r == incoming.value
  {
    incoming.GetOr(current)
  }
}
