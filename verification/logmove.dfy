/**
 The "Move Selected" button of the logs page (`moveSelectedLogs` in
 src/logs/logs.js): every checked URL is taken out of the bucket its
 checkbox names and filed under the chosen category for the selected
 date. Modelled as written, where the target's time for the URL is
 overwritten, and corrected, where the moved time is added to it.
 */
module LogMoves {
  import opened Values
  import opened OrderedMaps
  import opened Ledgers
  import opened Entries

  /** One checked box: its `dataset.url` and `dataset.category`. */
  datatype Selected = Selected(url: string, oldCategory: string)

  /** How a press of "Move Selected" ends. */
  datatype MoveOutcome =
    | NoTarget           // "Please select a target category to move the selected URLs."
    | NothingSelected    // "Please select at least one URL to move."
    | Cancelled          // the confirmation was declined
    | NoData             // "No data found for the selected date."
    | Failed             // the loop threw; nothing is saved
    | Saved(timeData: Ledger)

  /**
   `delete bucket[url]`, then the bucket itself when that leaves it
   without keys. A missing bucket is left missing.
   */
  function TakeOut<V>(day: OMap<OMap<V>>, oldCat: string, url: string): OMap<OMap<V>> {
    match Get(day, oldCat)
    case None => day
    case Some(bucket) =>
      var rest := Remove(bucket, url);
      if |rest| == 0 then Remove(day, oldCat) else Put(day, oldCat, rest)
  }

  function LeafOr(day: Day, cat: string, url: string): int {
    match DayLeaf(day, cat, url)
    case Some(v) => v
    case None => 0
  }

  /** Taking a URL out of a bucket removes that one leaf and no other. */
  lemma TakeOutLeaf(day: Day, oldCat: string, url: string, c: string, u: string)
    ensures DayLeaf(TakeOut(day, oldCat, url), c, u) == if c == oldCat && u == url then None else DayLeaf(day, c, u)
  {
    match Get(day, oldCat)
    case None =>
    case Some(bucket) =>
      var rest := Remove(bucket, url);
      GetRemove(bucket, url, u);
      if |rest| == 0 {
        GetRemove(day, oldCat, c);
        assert !HasKey(rest, u);
      }
  }

  /** A credit adds to its own leaf, counting a missing leaf as 0, and leaves the others. */
  lemma CreditDayLeaf(day: Day, cat: string, url: string, ms: int, c: string, u: string)
    ensures DayLeaf(CreditDay(day, cat, url, ms), c, u) ==
            if c == cat && u == url then Some(LeafOr(day, cat, url) + ms) else DayLeaf(day, c, u)
  {
    var s := GetOr(day, cat, []);
    var r := CreditDay(day, cat, url, ms);
    if c == cat {
      var s' := CreditSites(s, url, ms);
      assert Get(r, c) == Some(s');
      assert Get(s, url) == DayLeaf(day, cat, url);
      if u != url {
        assert Get(s', u) == Get(s, u);
      }
    } else {
      assert Get(r, c) == Get(day, c);
    }
  }

  /** Taking a leaf out lowers the day's total by its time. */
  lemma TakeOutTotal(day: Day, oldCat: string, url: string)
    requires DayWellFormed(day)
    ensures DayTotal(TakeOut(day, oldCat, url)) == DayTotal(day) - LeafOr(day, oldCat, url)
  {
    match Get(day, oldCat)
    case None =>
    case Some(bucket) =>
      var rest := Remove(bucket, url);
      var i := Find(day, oldCat);
      assert Valid(bucket) by { assert bucket == day[i].1; }
      SumByRemove(bucket, url, IntValue);
      if |rest| == 0 {
        SumByRemove(day, oldCat, Sum);
      } else {
        SumByPut(day, oldCat, rest, Sum);
      }
  }

  lemma TakeOutWellFormed(day: Day, oldCat: string, url: string)
    requires DayWellFormed(day)
    ensures DayWellFormed(TakeOut(day, oldCat, url))
  {
    match Get(day, oldCat)
    case None =>
    case Some(bucket) =>
      var rest := Remove(bucket, url);
      var i := Find(day, oldCat);
      assert Valid(bucket) by { assert bucket == day[i].1; }
      ValidRemove(bucket, url);
      if |rest| == 0 {
        ValidRemove(day, oldCat);
      } else {
        ValidPut(day, oldCat, rest);
        PutEntries(day, oldCat, rest);
      }
  }

  // As written: the live object, where a leaf may hold `undefined`.

  type LiveSites = OMap<Option<int>>
  type LiveDay = OMap<LiveSites>

  /** The day as read from storage: every leaf defined. */
  function Live(day: Day): (r: LiveDay)
    ensures |r| == |day|
  {
    seq(|day|, i requires 0 <= i < |day| => (day[i].0, seq(|day[i].1|, j requires 0 <= j < |day[i].1| => (day[i].1[j].0, Some(day[i].1[j].1)))))
  }

  /** A bucket as saved: properties holding `undefined` are not stored. */
  function StoreSites(s: LiveSites): (r: Sites)
    ensures |r| <= |s|
    decreases |s|
  {
    if |s| == 0 then []
    else
      match s[0].1
      case None => StoreSites(s[1..])
      case Some(v) => [(s[0].0, v)] + StoreSites(s[1..])
  }

  /** The day as saved; a bucket left empty is saved as `{}`. */
  function Store(d: LiveDay): (r: Day)
    ensures |r| == |d|
  {
    seq(|d|, i requires 0 <= i < |d| => (d[i].0, StoreSites(d[i].1)))
  }

  /**
   One pass of the `forEach` as written: reading `timeData[date][oldCat][url]`
   throws when the bucket is missing (`None`); otherwise the time read,
   `undefined` if the URL is not there, overwrites whatever the target
   bucket held for the URL.
   */
  function MoveLogLive(d: LiveDay, url: string, oldCat: string, target: string): (r: Option<LiveDay>)
    ensures r.None? <==> !HasKey(d, oldCat)
  {
    match Get(d, oldCat)
    case None => None
    case Some(bucket) =>
      var time := match Get(bucket, url) case Some(t) => t case None => None;
      var d1 := TakeOut(d, oldCat, url);
      Some(Put(d1, target, Put(GetOr(d1, target, []), url, time)))
  }

  /** The whole `forEach`; a throw anywhere abandons the batch. */
  function MoveLogsLive(d: LiveDay, selected: seq<Selected>, target: string): Option<LiveDay>
    decreases |selected|
  {
    if |selected| == 0 then Some(d)
    else
      match MoveLogLive(d, selected[0].url, selected[0].oldCategory, target)
      case None => None
      case Some(d1) => MoveLogsLive(d1, selected[1..], target)
  }

  /**
   The "Move Selected" button and `moveSelectedLogs(targetCategory)` as
   written: `target` is the chosen category (the button refuses an empty
   choice), `date` the date input's value and `confirmed` the answer to
   the confirmation.
   */
  function MoveSelectedLogsAsWritten(stored: Option<Ledger>, date: string, selected: seq<Selected>, target: string, confirmed: bool): (r: MoveOutcome)
    ensures r.NoTarget? <==> target == ""
    ensures r.NothingSelected? <==> target != "" && |selected| == 0
    ensures r.Cancelled? <==> target != "" && |selected| > 0 && !confirmed
    ensures r.NoData? <==> target != "" && |selected| > 0 && confirmed && !HasKey(LoadTimeData(stored), date)
    ensures r.Saved? ==> forall d :: d != date ==> Get(r.timeData, d) == Get(LoadTimeData(stored), d)
  {
    if target == "" then NoTarget
    else if |selected| == 0 then NothingSelected
    else if !confirmed then Cancelled
    else
      var l := LoadTimeData(stored);
      match Get(l, date)
      case None => NoData
      case Some(day) =>
        match MoveLogsLive(Live(day), selected, target)
        case None => Failed
        case Some(d) => Saved(Put(l, date, Store(d)))
  }

  /** A checked log whose bucket is missing makes the whole batch fail. */
  lemma MissingBucketFails(stored: Option<Ledger>, date: string, selected: seq<Selected>, target: string)
    requires target != "" && |selected| > 0 && Get(LoadTimeData(stored), date).Some?
    requires !HasKey(Get(LoadTimeData(stored), date).value, selected[0].oldCategory)
    ensures MoveSelectedLogsAsWritten(stored, date, selected, target, true) == Failed
  {
    var day := Get(LoadTimeData(stored), date).value;
    var oldCat := selected[0].oldCategory;
    assert !HasKey(Live(day), oldCat) by {
      forall j | 0 <= j < |Live(day)| ensures Live(day)[j].0 != oldCat {
        assert Live(day)[j].0 == day[j].0;
      }
    }
  }

  /**
   What one pass does when the checked URL is in its bucket: the target's
   entry for the URL becomes the moved time, whatever it held before, and
   the URL leaves the old bucket, which disappears if that empties it.
   */
  lemma MoveLogLiveOverwrites(d: LiveDay, url: string, oldCat: string, target: string, t: Option<int>)
    requires Get(d, oldCat).Some? && Get(Get(d, oldCat).value, url) == Some(t)
    ensures MoveLogLive(d, url, oldCat, target).Some?
    ensures Get(GetOr(MoveLogLive(d, url, oldCat, target).value, target, []), url) == Some(t)
    ensures oldCat != target ==> Get(GetOr(MoveLogLive(d, url, oldCat, target).value, oldCat, []), url) == None
    ensures oldCat != target && |Remove(Get(d, oldCat).value, url)| == 0 ==> !HasKey(MoveLogLive(d, url, oldCat, target).value, oldCat)
  {
    var bucket := Get(d, oldCat).value;
    var rest := Remove(bucket, url);
    var d1 := TakeOut(d, oldCat, url);
    var r := Put(d1, target, Put(GetOr(d1, target, []), url, t));
    assert MoveLogLive(d, url, oldCat, target) == Some(r);
    if oldCat != target {
      assert Get(r, oldCat) == Get(d1, oldCat);
      GetRemove(bucket, url, url);
      if |rest| == 0 {
        GetRemove(d, oldCat, oldCat);
      }
    }
  }

  /** A saved bucket holds a URL exactly when some entry for it is defined. */
  lemma {:induction false} StoreSitesHasKey(s: LiveSites, url: string)
    ensures HasKey(StoreSites(s), url) <==> exists i :: 0 <= i < |s| && s[i].0 == url && s[i].1.Some?
    decreases |s|
  {
    if |s| > 0 {
      StoreSitesHasKey(s[1..], url);
      var t := StoreSites(s[1..]);
      if s[0].1.Some? {
        var r := StoreSites(s);
        assert r == [(s[0].0, s[0].1.value)] + t;
        assert r[1..] == t;
        HasKeyCons(r, url);
      }
      if exists i :: 0 <= i < |s| && s[i].0 == url && s[i].1.Some? {
        var i :| 0 <= i < |s| && s[i].0 == url && s[i].1.Some?;
        if i > 0 {
          assert s[1..][i - 1] == s[i];
        }
      }
      if exists i :: 0 <= i < |s| - 1 && s[1..][i].0 == url && s[1..][i].1.Some? {
        var i :| 0 <= i < |s| - 1 && s[1..][i].0 == url && s[1..][i].1.Some?;
        assert s[i + 1] == s[1..][i];
      }
    }
  }

  /**
   A box whose bucket exists but holds nothing under its URL, as for a log
   stored under another category and listed as `uncategorized` on a day
   that has an `uncategorized` bucket: nothing throws, the bucket keeps
   what it held, and the target's entry for the URL becomes `undefined`,
   which the save drops. The log does not move.
   */
  lemma MoveLogLiveAbsent(d: LiveDay, url: string, oldCat: string, target: string)
    requires Get(d, oldCat).Some? && |Get(d, oldCat).value| > 0 && !HasKey(Get(d, oldCat).value, url)
    requires target != oldCat && Valid(GetOr(d, target, []))
    ensures MoveLogLive(d, url, oldCat, target).Some?
    ensures Get(MoveLogLive(d, url, oldCat, target).value, oldCat) == Get(d, oldCat)
    ensures Get(GetOr(MoveLogLive(d, url, oldCat, target).value, target, []), url) == Some(None)
    ensures !HasKey(StoreSites(GetOr(MoveLogLive(d, url, oldCat, target).value, target, [])), url)
  {
    var bucket := Get(d, oldCat).value;
    RemoveAbsent(bucket, url);
    var d1 := TakeOut(d, oldCat, url);
    assert d1 == Put(d, oldCat, bucket);
    var tb := Put(GetOr(d1, target, []), url, None);
    assert GetOr(d1, target, []) == GetOr(d, target, []);
    var r := Put(d1, target, tb);
    assert MoveLogLive(d, url, oldCat, target) == Some(r);
    assert Get(r, oldCat) == Get(d1, oldCat);
    ValidPut(GetOr(d, target, []), url, None);
    StoreSitesHasKey(tb, url);
    forall i | 0 <= i < |tb| && tb[i].0 == url ensures tb[i].1.None? {
      GetIndex(tb, i);
    }
  }

  /**
   Moving `a` from productive (5 ms) to entertainment, which already holds
   7 ms for `a`: the code saves 5 ms, and the day's 12 ms become 5.
   */
  lemma OverwriteLosesTime()
    ensures var before := [("2024-05-01", [("productive", [("a", 5)]), ("entertainment", [("a", 7)])])];
            var r := MoveSelectedLogsAsWritten(Some(before), "2024-05-01", [Selected("a", "productive")], "entertainment", true);
            && r == Saved([("2024-05-01", [("entertainment", [("a", 5)])])])
            && Total(before) == 12 && Total(r.timeData) == 5
  {
    var day: Day := [("productive", [("a", 5)]), ("entertainment", [("a", 7)])];
    var p: LiveSites := [("a", Some(5))];
    var e: LiveSites := [("a", Some(7))];
    var live := Live(day);
    assert live[0].1 == p && live[1].1 == e;
    assert live == [("productive", p), ("entertainment", e)];
    GetUnfold(live, "productive");
    GetUnfold(p, "a");
    assert p[1..] == [];
    assert Remove(p, "a") == [];
    assert live[1..] == [("entertainment", e)];
    assert Remove(live, "productive") == [("entertainment", e)];
    var d1: LiveDay := [("entertainment", e)];
    assert TakeOut(live, "productive", "a") == d1;
    GetUnfold(d1, "entertainment");
    var e': LiveSites := [("a", Some(5))];
    assert GetOr(d1, "entertainment", []) == e;
    PutShape(e, "a", Some(5));
    assert Put(e, "a", Some(5)) == e';
    PutShape(d1, "entertainment", e');
    var moved: LiveDay := [("entertainment", e')];
    assert Put(d1, "entertainment", e') == moved;
    assert Get(live, "productive") == Some(p);
    assert Get(p, "a") == Some(Some(5));
    assert MoveLogLive(live, "a", "productive", "entertainment") == Some(moved);
    assert MoveLogsLive(live, [Selected("a", "productive")], "entertainment") == Some(moved);
    assert e'[1..] == [];
    assert StoreSites(e') == [("a", 5)];
    assert Store(moved) == [("entertainment", [("a", 5)])];
    var before := [("2024-05-01", day)];
    PutShape(before, "2024-05-01", Store(moved));
  }

  // Corrected: the moved time is added to what the target holds.

  /**
   One checked log moved: its time leaves the old bucket (and the bucket
   when emptied) and is credited to the target. A box that names no
   stored leaf changes nothing.
   */
  function MoveLog(day: Day, url: string, oldCat: string, target: string): Day {
    match DayLeaf(day, oldCat, url)
    case None => day
    case Some(t) => CreditDay(TakeOut(day, oldCat, url), target, url, t)
  }

  function MoveLogs(day: Day, selected: seq<Selected>, target: string): Day
    decreases |selected|
  {
    if |selected| == 0 then day
    else MoveLogs(MoveLog(day, selected[0].url, selected[0].oldCategory, target), selected[1..], target)
  }

  /** `moveSelectedLogs` with the overwrite replaced by a credit; it never throws. */
  function MoveSelectedLogs(stored: Option<Ledger>, date: string, selected: seq<Selected>, target: string, confirmed: bool): (r: MoveOutcome)
    ensures r.NoTarget? <==> target == ""
    ensures r.NothingSelected? <==> target != "" && |selected| == 0
    ensures r.Cancelled? <==> target != "" && |selected| > 0 && !confirmed
    ensures r.NoData? <==> target != "" && |selected| > 0 && confirmed && !HasKey(LoadTimeData(stored), date)
    ensures !r.Failed?
    ensures r.Saved? ==> forall d :: d != date ==> Get(r.timeData, d) == Get(LoadTimeData(stored), d)
  {
    if target == "" then NoTarget
    else if |selected| == 0 then NothingSelected
    else if !confirmed then Cancelled
    else
      var l := LoadTimeData(stored);
      match Get(l, date)
      case None => NoData
      case Some(day) => Saved(Put(l, date, MoveLogs(day, selected, target)))
  }

  /**
   The effect of one move on every leaf: the target's leaf for the URL
   gains the moved time, the old leaf is gone, and no other leaf changes.
   */
  lemma MoveLogLeaves(day: Day, url: string, oldCat: string, target: string, c: string, u: string)
    ensures DayLeaf(MoveLog(day, url, oldCat, target), c, u) ==
            if DayLeaf(day, oldCat, url).None? then DayLeaf(day, c, u)
            else if c == target && u == url then Some((if oldCat == target then 0 else LeafOr(day, target, url)) + DayLeaf(day, oldCat, url).value)
            else if c == oldCat && u == url then None
            else DayLeaf(day, c, u)
  {
    match DayLeaf(day, oldCat, url)
    case None =>
    case Some(t) =>
      var d1 := TakeOut(day, oldCat, url);
      assert MoveLog(day, url, oldCat, target) == CreditDay(d1, target, url, t);
      CreditDayLeaf(d1, target, url, t, c, u);
      TakeOutLeaf(day, oldCat, url, c, u);
      TakeOutLeaf(day, oldCat, url, target, url);
      assert LeafOr(d1, target, url) == if oldCat == target then 0 else LeafOr(day, target, url);
  }

  /** A move keeps the day's total and its distinct keys. */
  lemma MoveLogKeeps(day: Day, url: string, oldCat: string, target: string)
    requires DayWellFormed(day)
    ensures DayWellFormed(MoveLog(day, url, oldCat, target))
    ensures DayTotal(MoveLog(day, url, oldCat, target)) == DayTotal(day)
  {
    match DayLeaf(day, oldCat, url)
    case None =>
    case Some(t) =>
      TakeOutTotal(day, oldCat, url);
      TakeOutWellFormed(day, oldCat, url);
      DayTotalCredit(TakeOut(day, oldCat, url), target, url, t);
      DayWellFormedCredit(TakeOut(day, oldCat, url), target, url, t);
  }

  lemma {:induction false} MoveLogsKeeps(day: Day, selected: seq<Selected>, target: string)
    requires DayWellFormed(day)
    ensures DayWellFormed(MoveLogs(day, selected, target))
    ensures DayTotal(MoveLogs(day, selected, target)) == DayTotal(day)
    decreases |selected|
  {
    if |selected| > 0 {
      MoveLogKeeps(day, selected[0].url, selected[0].oldCategory, target);
      MoveLogsKeeps(MoveLog(day, selected[0].url, selected[0].oldCategory, target), selected[1..], target);
    }
  }

  /** Saving a move keeps the ledger well formed and its total unchanged. */
  lemma MoveSelectedKeepsTotal(stored: Option<Ledger>, date: string, selected: seq<Selected>, target: string, confirmed: bool)
    requires WellFormed(LoadTimeData(stored))
    requires MoveSelectedLogs(stored, date, selected, target, confirmed).Saved?
    ensures WellFormed(MoveSelectedLogs(stored, date, selected, target, confirmed).timeData)
    ensures Total(MoveSelectedLogs(stored, date, selected, target, confirmed).timeData) == Total(LoadTimeData(stored))
  {
    var l := LoadTimeData(stored);
    var i := Find(l, date);
    var day := l[i].1;
    assert DayWellFormed(day);
    MoveLogsKeeps(day, selected, target);
    var day' := MoveLogs(day, selected, target);
    SumByPut(l, date, day', DayTotal);
    ValidPut(l, date, day');
    PutEntries(l, date, day');
  }

  /** Moving a stored leaf to another category: it leaves its bucket and the target gains its time. */
  lemma MoveLeaf(day: Day, url: string, oldCat: string, t: int, target: string)
    requires DayLeaf(day, oldCat, url) == Some(t) && target != oldCat
    ensures DayLeaf(MoveLog(day, url, oldCat, target), oldCat, url) == None
    ensures DayLeaf(MoveLog(day, url, oldCat, target), target, url) == Some(LeafOr(day, target, url) + t)
  {
    var d1 := TakeOut(day, oldCat, url);
    assert MoveLog(day, url, oldCat, target) == CreditDay(d1, target, url, t);
    TakeOutLeaf(day, oldCat, url, oldCat, url);
    TakeOutLeaf(day, oldCat, url, target, url);
    assert LeafOr(d1, target, url) == LeafOr(day, target, url);
    CreditDayLeaf(d1, target, url, t, oldCat, url);
    CreditDayLeaf(d1, target, url, t, target, url);
  }

  /** The same move as in `OverwriteLosesTime`, corrected: entertainment keeps all 12 ms. */
  lemma CreditKeepsTime()
    ensures var before := [("2024-05-01", [("productive", [("a", 5)]), ("entertainment", [("a", 7)])])];
            MoveSelectedLogs(Some(before), "2024-05-01", [Selected("a", "productive")], "entertainment", true)
              == Saved([("2024-05-01", [("entertainment", [("a", 12)])])])
  {
    var p: Sites := [("a", 5)];
    var e: Sites := [("a", 7)];
    var day: Day := [("productive", p), ("entertainment", e)];
    GetUnfold(day, "productive");
    GetUnfold(p, "a");
    assert DayLeaf(day, "productive", "a") == Some(5);
    assert p[1..] == [];
    assert Remove(p, "a") == [];
    assert day[1..] == [("entertainment", e)];
    assert Remove(day, "productive") == [("entertainment", e)];
    var d1: Day := [("entertainment", e)];
    assert TakeOut(day, "productive", "a") == d1;
    GetUnfold(d1, "entertainment");
    GetUnfold(e, "a");
    PutShape(e, "a", 12);
    var e': Sites := [("a", 12)];
    assert CreditSites(e, "a", 5) == e';
    PutShape(d1, "entertainment", e');
    var moved: Day := [("entertainment", e')];
    assert MoveLog(day, "a", "productive", "entertainment") == moved;
    assert MoveLogs(day, [Selected("a", "productive")], "entertainment") == moved;
    var before := [("2024-05-01", day)];
    PutShape(before, "2024-05-01", moved);
  }
}
