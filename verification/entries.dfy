/**
 The ledger read back as a flat list, the way the logs page and the CSV
 export walk it: `Object.entries` of each level in turn, one entry per
 (category, url) leaf of a day and one per (date, category, url) leaf of
 the ledger.
 */
module Entries {
  import opened Values
  import opened OrderedMaps
  import opened Ledgers

  /** The `{ url, time, category }` object the logs page collects per leaf. */
  datatype LogEntry = LogEntry(url: string, time: int, category: string)

  /** The leaves of one category, in site order. */
  function SitesEntries(cat: string, sites: Sites): (r: seq<LogEntry>)
    ensures |r| == |sites|
    decreases |sites|
  {
    if |sites| == 0 then []
    else [LogEntry(sites[0].0, sites[0].1, cat)] + SitesEntries(cat, sites[1..])
  }

  /** The leaves of one day: category by category, site by site. */
  function DayEntries(day: Day): seq<LogEntry>
    decreases |day|
  {
    if |day| == 0 then []
    else SitesEntries(day[0].0, day[0].1) + DayEntries(day[1..])
  }

  /** The leaves of the ledger with their dates, date by date. */
  function LedgerEntries(l: Ledger): seq<(string, LogEntry)>
    decreases |l|
  {
    if |l| == 0 then []
    else Dated(l[0].0, DayEntries(l[0].1)) + LedgerEntries(l[1..])
  }

  function Dated(date: string, es: seq<LogEntry>): (r: seq<(string, LogEntry)>)
    ensures |r| == |es|
    ensures forall i :: 0 <= i < |es| ==> r[i] == (date, es[i])
  {
    seq(|es|, i requires 0 <= i < |es| => (date, es[i]))
  }

  /** `dateData[cat][url]`, `None` where either level is `undefined`. */
  function DayLeaf(day: Day, cat: string, url: string): Option<int> {
    match Get(day, cat)
    case None => None
    case Some(sites) => Get(sites, url)
  }

  // ---- Counting ----

  lemma {:induction false} DayEntriesCount(day: Day)
    ensures |DayEntries(day)| == DayCount(day)
    decreases |day|
  {
    if |day| > 0 {
      DayEntriesCount(day[1..]);
    }
  }

  /** One entry per leaf of the day. */
  lemma {:induction false} LedgerEntriesCount(l: Ledger)
    ensures |LedgerEntries(l)| == LeafCount(l)
    decreases |l|
  {
    if |l| > 0 {
      DayEntriesCount(l[0].1);
      LedgerEntriesCount(l[1..]);
    }
  }

  // ---- Exactly the leaves ----

  lemma {:induction false} SitesEntriesIff(cat: string, sites: Sites, e: LogEntry)
    requires Valid(sites)
    ensures e in SitesEntries(cat, sites) <==> e.category == cat && Get(sites, e.url) == Some(e.time)
    decreases |sites|
  {
    if |sites| > 0 {
      var rest := sites[1..];
      HasKeyTail(sites, e.url);
      SitesEntriesIff(cat, rest, e);
      assert SitesEntries(cat, sites) == [LogEntry(sites[0].0, sites[0].1, cat)] + SitesEntries(cat, rest);
    }
  }

  /** A day's entries are exactly its leaves, each with its time and category. */
  lemma {:induction false} DayEntriesIff(day: Day, e: LogEntry)
    requires DayWellFormed(day)
    ensures e in DayEntries(day) <==> DayLeaf(day, e.category, e.url) == Some(e.time)
    decreases |day|
  {
    if |day| > 0 {
      var rest := day[1..];
      HasKeyTail(day, e.category);
      assert DayWellFormed(rest) by {
        forall j | 0 <= j < |rest| ensures Valid(rest[j].1) {
          assert rest[j] == day[j + 1];
        }
      }
      assert Valid(day[0].1);
      SitesEntriesIff(day[0].0, day[0].1, e);
      DayEntriesIff(rest, e);
      if e.category == day[0].0 {
        assert DayLeaf(rest, e.category, e.url) == None;
      }
    }
  }

  lemma DatedIff(date: string, es: seq<LogEntry>, d: string, e: LogEntry)
    ensures (d, e) in Dated(date, es) <==> d == date && e in es
  {
    if d == date && e in es {
      var i :| 0 <= i < |es| && es[i] == e;
      assert Dated(date, es)[i] == (d, e);
    }
  }

  /** The ledger's entries are exactly its leaves, each with its date. */
  lemma {:induction false} LedgerEntriesIff(l: Ledger, d: string, e: LogEntry)
    requires WellFormed(l)
    ensures (d, e) in LedgerEntries(l) <==> Leaf(l, d, e.category, e.url) == Some(e.time)
    decreases |l|
  {
    if |l| > 0 {
      var rest := l[1..];
      HasKeyTail(l, d);
      assert WellFormed(rest) by {
        forall j | 0 <= j < |rest| ensures DayWellFormed(rest[j].1) {
          assert rest[j] == l[j + 1];
        }
      }
      assert DayWellFormed(l[0].1);
      DatedIff(l[0].0, DayEntries(l[0].1), d, e);
      DayEntriesIff(l[0].1, e);
      LedgerEntriesIff(rest, d, e);
      if d == l[0].0 {
        assert Leaf(rest, d, e.category, e.url) == None;
      }
    }
  }
}
