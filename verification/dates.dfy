/**
 The popup's date keys: `formatDateForStorage` writes a `Date` as
 `YYYY-MM-DD` and `parseStoredDate` reads such a key back.
 */
module Dates {
  import opened Values
  import opened Strings
  import opened Numerals

  /** A `Date` as the popup reads it: `getFullYear()`, `getMonth()` (0-based) and `getDate()`. */
  datatype CalendarDate = CalendarDate(year: int, month0: int, day: int)

  /** The ranges `getMonth()` and `getDate()` return in. */
  predicate InRange(d: CalendarDate) {
    0 <= d.month0 < 12 && 1 <= d.day <= 31
  }

  /** `String(n).padStart(2, '0')`. */
  function TwoDigits(n: nat): string {
    PadStart(NatToString(n), 2, '0')
  }

  lemma TwoDigitsLength(n: nat)
    requires n < 100
    ensures |TwoDigits(n)| == 2
  {
    if n >= 10 {
      assert n / 10 < 10;
    }
  }

  /** A padded number is a digit string whose value is the number. */
  lemma TwoDigitsValue(n: nat)
    ensures AllDigits(TwoDigits(n)) && '-' !in TwoDigits(n)
    ensures ParseNumber(TwoDigits(n)) == Some(n)
  {
    var s := NatToString(n);
    if |s| < 2 {
      assert TwoDigits(n) == ['0'] + s;
      LeadingZero(s);
    }
  }

  /**
   `` `${year}-${month}-${day}` `` with the 1-based month and the day
   zero-padded: the key ends in `-MM-DD`, two characters each.
   */
  function FormatDateForStorage(year: int, month0: nat, day: nat): string {
    IntToString(year) + ['-'] + TwoDigits(month0 + 1) + ['-'] + TwoDigits(day)
  }

  /** `s` ends in `-`, the two characters `mm`, `-`, the two characters `dd`. */
  predicate EndsInMonthDay(s: string, mm: string, dd: string) {
    |s| >= 6 && s[|s| - 6] == '-' && s[|s| - 3] == '-' && s[|s| - 5..|s| - 3] == mm && s[|s| - 2..] == dd
  }

  /** For a month and day `Date` can hold, the key ends in `-MM-DD` after the year. */
  lemma DateKeyShape(year: int, month0: nat, day: nat)
    requires month0 < 12 && 1 <= day <= 31
    ensures |FormatDateForStorage(year, month0, day)| == |IntToString(year)| + 6
    ensures EndsInMonthDay(FormatDateForStorage(year, month0, day), TwoDigits(month0 + 1), TwoDigits(day))
  {
    var y, m, dd := IntToString(year), TwoDigits(month0 + 1), TwoDigits(day);
    TwoDigitsLength(month0 + 1);
    TwoDigitsLength(day);
    assert FormatDateForStorage(year, month0, day) == y + ['-'] + m + ['-'] + dd;
    PiecesAtEnd(y, m, dd);
  }

  lemma PiecesAtEnd(y: string, mm: string, dd: string)
    requires |mm| == 2 && |dd| == 2
    ensures |y + ['-'] + mm + ['-'] + dd| == |y| + 6
    ensures EndsInMonthDay(y + ['-'] + mm + ['-'] + dd, mm, dd)
  {
  }

  /**
   The year `new Date(year, monthIndex, day)` takes: a year from 0 to 99
   means 1900 to 1999, any other year is kept.
   */
  function FullYear(y: nat): (r: nat)
    ensures r >= 100
    ensures y >= 100 ==> r == y
    ensures y < 100 ==> r - 1900 == y
  {
    if y <= 99 then 1900 + y else y
  }

  /**
   `dateString.split('-').map(Number)` destructured as year, month and
   day, then `new Date(year, month - 1, day)`. `None` when a component is
   missing or is not a numeral this model reads.
   */
  function ParseStoredDate(s: string): (r: Option<CalendarDate>)
    ensures r.Some? <==> |Split(s, '-')| >= 3 && AllDigits(Split(s, '-')[0]) &&
                         AllDigits(Split(s, '-')[1]) && AllDigits(Split(s, '-')[2])
    ensures r.Some? ==> r.value == CalendarDate(FullYear(DigitsValue(Split(s, '-')[0])),
                                                DigitsValue(Split(s, '-')[1]) - 1,
                                                DigitsValue(Split(s, '-')[2]))
  {
    var parts := Split(s, '-');
    if |parts| < 3 then None
    else
      var year := ParseNumber(parts[0]);
      var month := ParseNumber(parts[1]);
      var day := ParseNumber(parts[2]);
      if year.Some? && month.Some? && day.Some? then Some(CalendarDate(FullYear(year.value), month.value as int - 1, day.value))
      else None
  }

  /** A leading `'0'` does not change a digit string's value. */
  lemma {:induction false} LeadingZero(s: string)
    requires AllDigits(s)
    ensures AllDigits(['0'] + s) && DigitsValue(['0'] + s) == DigitsValue(s)
    decreases |s|
  {
    var t := ['0'] + s;
    if |s| > 0 {
      assert t[..|t| - 1] == ['0'] + s[..|s| - 1];
      LeadingZero(s[..|s| - 1]);
    } else {
      assert t[..0] == [];
    }
  }

  /** `Number` on each of three digit pieces, as `parseStoredDate` reads them. */
  lemma ReadPieces(s: string, y: string, m: string, dd: string)
    requires Split(s, '-') == [y, m, dd]
    requires AllDigits(y) && AllDigits(m) && AllDigits(dd)
    ensures ParseStoredDate(s) == Some(CalendarDate(FullYear(DigitsValue(y)), DigitsValue(m) - 1, DigitsValue(dd)))
  {
    assert ParseNumber(y) == Some(DigitsValue(y));
    assert ParseNumber(m) == Some(DigitsValue(m));
    assert ParseNumber(dd) == Some(DigitsValue(dd));
  }

  lemma DigitsHaveNoDash(s: string)
    requires AllDigits(s)
    ensures '-' !in s
  {
    assert forall i :: 0 <= i < |s| ==> s[i] != '-';
  }

  /** Reading a key back gives the date it was written from, for years from 100 on. */
  lemma DateRoundTrip(d: CalendarDate)
    requires InRange(d) && d.year >= 100
    ensures ParseStoredDate(FormatDateForStorage(d.year, d.month0, d.day)) == Some(d)
  {
    ReadBack(d);
  }

  /** A year from 0 to 99 is written without padding and read back by `new Date` as 1900 to 1999. */
  lemma TwoDigitYearShifted(d: CalendarDate)
    requires InRange(d) && 0 <= d.year < 100
    ensures ParseStoredDate(FormatDateForStorage(d.year, d.month0, d.day)) == Some(d.(year := 1900 + d.year))
  {
    ReadBack(d);
  }

  lemma ReadBack(d: CalendarDate)
    requires InRange(d) && d.year >= 0
    ensures ParseStoredDate(FormatDateForStorage(d.year, d.month0, d.day)) == Some(d.(year := FullYear(d.year)))
  {
    var y := NatToString(d.year);
    var m := TwoDigits(d.month0 + 1);
    var dd := TwoDigits(d.day);
    TwoDigitsValue(d.month0 + 1);
    TwoDigitsValue(d.day);
    DigitsHaveNoDash(y);
    SplitThree(y, m, dd, '-');
    ReadPieces(FormatDateForStorage(d.year, d.month0, d.day), y, m, dd);
  }

  lemma LeadingSeparator<T>(y: seq<T>, sep: T, m: seq<T>, dd: seq<T>)
    ensures ([sep] + y) + [sep] + m + [sep] + dd == [] + [sep] + (y + [sep] + m + [sep] + dd)
  {
  }

  /**
   A negative year starts the key with `-`, so the split yields an empty
   first piece in place of the year, and the date does not read back.
   */
  lemma NegativeYearMisread(d: CalendarDate)
    requires InRange(d) && d.year < 0
    ensures ParseStoredDate(FormatDateForStorage(d.year, d.month0, d.day)) != Some(d)
  {
    var s := FormatDateForStorage(d.year, d.month0, d.day);
    var rest := NatToString(-d.year) + ['-'] + TwoDigits(d.month0 + 1) + ['-'] + TwoDigits(d.day);
    LeadingSeparator(NatToString(-d.year), '-', TwoDigits(d.month0 + 1), TwoDigits(d.day));
    SplitCons([], '-', rest);
    assert Split(s, '-')[0] == [];
  }
}

/**
 The date the popup opens on (`initialize` in src/popup/uiManager.js and
 the load handler of src/popup/popup.js): today's key when stored,
 otherwise the greatest stored key.
 */
module OpeningDate {
  import opened Values
  import opened Sorting

  /** The default `sort()` order of strings: lexicographic by character. */
  predicate StrLe(a: string, b: string) {
    if |a| == 0 then true
    else if |b| == 0 then false
    else if a[0] != b[0] then a[0] < b[0]
    else StrLe(a[1..], b[1..])
  }

  lemma {:induction false} StrLeTotal(a: string, b: string)
    ensures StrLe(a, b) || StrLe(b, a)
    decreases |a|
  {
    if |a| > 0 && |b| > 0 && a[0] == b[0] {
      StrLeTotal(a[1..], b[1..]);
    }
  }

  lemma {:induction false} StrLeTrans(a: string, b: string, c: string)
    requires StrLe(a, b) && StrLe(b, c)
    ensures StrLe(a, c)
    decreases |a|
  {
    if |a| > 0 && |b| > 0 && |c| > 0 && a[0] == b[0] && b[0] == c[0] {
      StrLeTrans(a[1..], b[1..], c[1..]);
    }
  }

  lemma {:induction false} StrLeAntisymmetric(a: string, b: string)
    requires StrLe(a, b) && StrLe(b, a)
    ensures a == b
    decreases |a|
  {
    if |a| > 0 && |b| > 0 {
      StrLeAntisymmetric(a[1..], b[1..]);
      assert a == [a[0]] + a[1..] && b == [b[0]] + b[1..];
    }
  }

  lemma StrLeTotalPreorder()
    ensures TotalPreorder(StrLe)
  {
    forall a, b ensures StrLe(a, b) || StrLe(b, a) {
      StrLeTotal(a, b);
    }
    forall a, b, c | StrLe(a, b) && StrLe(b, c) ensures StrLe(a, c) {
      StrLeTrans(a, b, c);
    }
  }

  /**
   `initialize`: with no stored dates there is nothing to show; today's
   key when it is stored; otherwise the last of the keys sorted.
   */
  function InitialDateKey(keys: seq<string>, today: string): (r: Option<string>)
    ensures r.None? <==> |keys| == 0
    ensures r.Some? ==> r.value in keys
    ensures today in keys ==> r == Some(today)
  {
    if |keys| == 0 then None
    else if today in keys then Some(today)
    else
      var sorted := Sort(keys, StrLe);
      assert sorted[|sorted| - 1] in multiset(keys);
      Some(sorted[|sorted| - 1])
  }

  /** When today is not stored, the popup opens on the greatest stored key. */
  lemma InitialDateIsGreatest(keys: seq<string>, today: string)
    requires today !in keys && |keys| > 0
    ensures forall k :: k in keys ==> StrLe(k, InitialDateKey(keys, today).value)
  {
    var sorted := Sort(keys, StrLe);
    StrLeTotalPreorder();
    SortSorted(keys, StrLe);
    SortedLastIsGreatest(sorted, StrLe);
    forall k | k in keys ensures StrLe(k, sorted[|sorted| - 1]) {
      assert k in multiset(sorted);
    }
  }

  /** The greatest key is the only stored key above every other. */
  lemma GreatestIsUnique(keys: seq<string>, g: string, g': string)
    requires g in keys && g' in keys
    requires forall k :: k in keys ==> StrLe(k, g)
    requires forall k :: k in keys ==> StrLe(k, g')
    ensures g == g'
  {
    StrLeAntisymmetric(g, g');
  }
}
