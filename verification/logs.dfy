/**
 The logs page (src/logs/logs.js): the leaves of one day listed in four
 columns, most time first, and the "Move Selected" button that refiles
 checked URLs under another category.
 */
module LogsPage {
  import opened Values
  import opened Strings
  import opened OrderedMaps
  import opened Ledgers
  import opened Entries
  import opened Sorting

  // ---- Loading a day ----

  /** The own properties of `categorizedLogs`, in column order. */
  const Columns: seq<string> := ["productive", "neutral", "entertainment", "uncategorized"]

  /** The column a log is listed in: its lower-cased category when that names a column, else `uncategorized`. */
  function Column(category: string): (c: string)
    ensures c in Columns
    ensures Lower(category) in Columns ==> c == Lower(category)
    ensures Lower(category) !in Columns ==> c == Uncategorized
  {
    var lowered := Lower(category);
    if lowered in Columns then lowered else Uncategorized
  }

  function EntryTime(e: LogEntry): int { e.time }

  /** `allLogs.sort((a, b) => b.time - a.time)`. */
  function SortedLogs(day: Day): seq<LogEntry> {
    Sort(DayEntries(day), ByKeyDesc(EntryTime))
  }

  /** The logs of one column, in the order they were sorted. */
  function InColumn(logs: seq<LogEntry>, col: string): (r: seq<LogEntry>)
    ensures |r| <= |logs|
    decreases |logs|
  {
    if |logs| == 0 then []
    else if Column(logs[0].category) == col then [logs[0]] + InColumn(logs[1..], col)
    else InColumn(logs[1..], col)
  }

  /** What the page shows for a date. */
  datatype LogsView =
    | NoDateSelected
    | NoLogs
    | Listed(productive: seq<LogEntry>, neutral: seq<LogEntry>, entertainment: seq<LogEntry>, uncategorized: seq<LogEntry>)

  /**
   The "Load Logs" button and `loadLogs(date)`: an empty date input is
   refused; a date without a day, or a day without leaves, shows "No logs
   available"; otherwise the sorted logs are dealt into the four columns.
   */
  function LoadLogs(stored: Option<Ledger>, date: string): (v: LogsView)
    ensures date == "" <==> v.NoDateSelected?
    ensures v.NoLogs? <==> date != "" && (Get(LoadTimeData(stored), date).None? || |DayEntries(Get(LoadTimeData(stored), date).value)| == 0)
  {
    if date == "" then NoDateSelected
    else
      match Get(LoadTimeData(stored), date)
      case None => NoLogs
      case Some(day) =>
        var logs := SortedLogs(day);
        if |logs| == 0 then NoLogs
        else Listed(InColumn(logs, "productive"), InColumn(logs, "neutral"), InColumn(logs, "entertainment"), InColumn(logs, Uncategorized))
  }

  /** A log is in a column exactly when it is among the logs and that is its column. */
  lemma {:induction false} InColumnIff(logs: seq<LogEntry>, col: string, e: LogEntry)
    ensures e in InColumn(logs, col) <==> e in logs && Column(e.category) == col
    decreases |logs|
  {
    if |logs| > 0 {
      InColumnIff(logs[1..], col, e);
      assert logs == [logs[0]] + logs[1..];
    }
  }

  /** Every log lands in exactly one of the four columns, so none is lost or doubled. */
  lemma {:induction false} ColumnsPartition(logs: seq<LogEntry>)
    ensures |InColumn(logs, "productive")| + |InColumn(logs, "neutral")| +
            |InColumn(logs, "entertainment")| + |InColumn(logs, Uncategorized)| == |logs|
    decreases |logs|
  {
    if |logs| > 0 {
      ColumnsPartition(logs[1..]);
      var c := Column(logs[0].category);
      assert c == "productive" || c == "neutral" || c == "entertainment" || c == Uncategorized;
    }
  }

  /** A column keeps the order of the sorted list. */
  lemma {:induction false} InColumnSorted(logs: seq<LogEntry>, col: string, le: (LogEntry, LogEntry) -> bool)
    requires Sorted(logs, le)
    ensures Sorted(InColumn(logs, col), le)
    decreases |logs|
  {
    if |logs| > 0 {
      var rest := logs[1..];
      TailSorted(logs, le);
      InColumnSorted(rest, col, le);
      if Column(logs[0].category) == col {
        var tail := InColumn(rest, col);
        forall j | 0 <= j < |tail| ensures le(logs[0], tail[j]) {
          InColumnIff(rest, col, tail[j]);
          var k :| 0 <= k < |rest| && rest[k] == tail[j];
          assert logs[k + 1] == tail[j];
        }
        ConsSorted(logs[0], tail, le);
      }
    }
  }

  /**
   Each column lists, most time first, exactly the day's leaves whose
   category belongs to it, and the four columns together hold one entry
   per leaf of the day.
   */
  lemma LoadLogsColumns(stored: Option<Ledger>, date: string, e: LogEntry)
    requires date != "" && Get(LoadTimeData(stored), date).Some?
    requires DayWellFormed(Get(LoadTimeData(stored), date).value)
    requires LoadLogs(stored, date).Listed?
    ensures var day := Get(LoadTimeData(stored), date).value;
            var v := LoadLogs(stored, date);
            && |v.productive| + |v.neutral| + |v.entertainment| + |v.uncategorized| == DayCount(day)
            && Sorted(v.productive, ByKeyDesc(EntryTime)) && Sorted(v.neutral, ByKeyDesc(EntryTime))
            && Sorted(v.entertainment, ByKeyDesc(EntryTime)) && Sorted(v.uncategorized, ByKeyDesc(EntryTime))
            && (e in InColumn(SortedLogs(day), Column(e.category)) <==> DayLeaf(day, e.category, e.url) == Some(e.time))
  {
    var day := Get(LoadTimeData(stored), date).value;
    var logs := SortedLogs(day);
    ColumnsPartition(logs);
    DayEntriesCount(day);
    ByKeyDescTotal(EntryTime);
    SortSorted(DayEntries(day), ByKeyDesc(EntryTime));
    InColumnSorted(logs, "productive", ByKeyDesc(EntryTime));
    InColumnSorted(logs, "neutral", ByKeyDesc(EntryTime));
    InColumnSorted(logs, "entertainment", ByKeyDesc(EntryTime));
    InColumnSorted(logs, Uncategorized, ByKeyDesc(EntryTime));
    InColumnIff(logs, Column(e.category), e);
    assert e in logs <==> e in multiset(DayEntries(day));
    DayEntriesIff(day, e);
  }

  // ---- Checkboxes ----

  /**
   A checkbox records the column a log is shown in, not the category it is
   stored under; the two agree exactly for the four column names, which are
   the only categories the extension's own writers store.
   */
  lemma CheckboxCategory(category: string)
    ensures Column(category) == category <==> category in Columns
  {
    if category in Columns {
      assert Lower("productive") == "productive";
      assert Lower("neutral") == "neutral";
      assert Lower("entertainment") == "entertainment";
      assert Lower("uncategorized") == "uncategorized";
    }
  }
}
