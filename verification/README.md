# Website Time Tracker: a Dafny model of the categorisation and time ledger

This project models in Dafny the core of the Website Time Tracker browser extension:

- **Category lookup.** The lookup decides which category a visited URL belongs to. A preference can be saved for the exact URL, the hostname, every subdomain of a hostname, or a root domain. When no preference applies, the answer is `"neutral"`.
- **Ledger.** The time ledger `timeData[date][category][url]` holds milliseconds. The tracking session credits time to it when a tab loses focus, when the active tab changes, or when the date rolls over.
- **Retroactive reallocation.** This runs after the user categorises a page and moves its past `uncategorized` time.
- **Loading preferences.** Both background builds lower-case the keys of the stored preferences when they load them.
- **Popup report.** Per-category and overall totals, sites grouped under a root domain, the top five groups, duration and date formatting, the opening date and the CSV export.
- **Logs page.** A day's leaves listed in four columns, and "Move Selected".
- **Preferences page.** Deletes the checked preferences.

Each JavaScript object used as a dictionary is modelled as an insertion-ordered sequence of entries (`OrderedMaps.OMap`). This keeps `for...in` and `Object.entries` order explicit. That order decides which `subdomains` key wins, how key-case collisions resolve, and the order of CSV rows.

A thrown exception is an `Err` (or `None`). The most common one is the `TypeError` of `new URL` on an unparsable string. The following are parameters:

- `new URL` itself: `parse: string -> Option<Url>`;
- the clock: `now` for `Date.now()` and `today` for `getCurrentDate()`;
- the user's answer to a confirmation: `confirmed`;
- the checkboxes a user ticked: `selected` / `sel`.

There are two builds of the background script:

- the modular one: `src/background/{utils,categorizationManager,storageManager,timeTracker}.js`;
- the legacy single file: `src/background/background.js`.

Where the two differ, both are modelled (`Tracker.Version`) and the difference is proved.

Modules, in dependency order:

- `Values`: `Option` and `Result`.
- `Strings`: `toLowerCase`, `split`, `join`.
- `Numerals`: `toString`, `padStart`, `Number`.
- `OrderedMaps`: JavaScript objects as dictionaries.
- `Ledgers`: the ledger and crediting.
- `TimeFormat`: `formatTime`.
- `Domains`: the root-domain heuristics and subdomain keys.
- `Preferences`: key normalisation.
- `Resolver`: lookup and saving.
- `Tracker`: the session state machine.
- `Reallocation`: `reallocateTime`.
- `Messages`: the save message.
- `Sorting`: insertion sort with a comparator.
- `Dates` and `OpeningDate`: date keys and the popup's first date.
- `Popup`: totals, grouping and the top five.
- `Entries`: the ledger flattened.
- `Csv`: the CSV export.
- `LogsPage`: the logs page's columns.
- `LogMoves`: "Move Selected".
- `PreferencesPage`: the preferences page.

## Model

| member | source | states |
|---|---|---|
| TimeFormat.Decompose | src/background/utils.js:8-13 | For a non-negative duration, the hours, minutes and seconds are the mixed-radix digits of the whole seconds: minutes and seconds lie in 0..59 and h·3600 + m·60 + s = ⌊ms/1000⌋. |
| TimeFormat.JsRem | src/background/utils.js:11-13 | JavaScript `%` by a positive divisor: it agrees with the mathematical remainder on non-negative dividends and stays strictly between -b and b. |
| TimeFormat.FormatTimeRoundTrip | src/background/utils.js:8-22 | Reading back what `formatTime` prints for a non-negative duration gives its whole seconds. There are three components exactly when there are hours, two when there are minutes but no hours, and one otherwise. `FormatTime` is the model of `formatTime`. |
| TimeFormat.FormatClockRoundTrip | src/background/utils.js:15-21 | Each of the three printed shapes reads back as h·3600 + m·60 + s, with the number of components fixed by which fields are non-zero. `FormatClock` is the template. |
| TimeFormat.ComponentRoundTrip | src/background/utils.js:24-26 | A zero-padded number followed by its unit letter reads back as that number. |
| TimeFormat.PopupFormatTimeAgrees | src/popup/dataFormatter.js:35-49 | The popup's `formatTime`, with its extra `% 3600`, prints the same string as the background's on every input. `PopupFormatTime` is the popup's copy. |
| Numerals.PadZero | src/background/utils.js:24-26 | `padZero` always has at least two characters, and for a non-negative number it is a digit string whose value is the number. |
| Numerals.PadZeroIsPadStart | src/background/utils.js:25 | The model's case split agrees with `toString().padStart(2, "0")` on every integer, negative ones included. |
| Domains.RootDomainLabels | src/background/utils.js:29-35 | With three or more labels, the root domain consists of the labels two to four places from the end. The top-level label is always dropped. A third label is kept only under a listed second-level label when there are at least four. The result has two or three labels. `RootDomain` is the model of `getRootDomain`. |
| Domains.RootDomainIsJoin | src/background/utils.js:29-35 | With three or more labels, the root domain is the kept labels (`KeptLabels`: the two before the last, or three when the one before the last is a listed second-level label and there are at least four) joined with dots. |
| Domains.RootDomainTwoLabels | src/background/utils.js:36-37 | A two-label hostname is its own root domain. |
| Domains.RootDomainNoDot | src/background/utils.js:39 | A hostname without a dot is returned unchanged. |
| Domains.ThreeLabels | src/background/utils.js:29-35 | `a.b.c` with `b` not a listed second-level label reduces to `a.b`. |
| Domains.FourLabels | src/background/utils.js:31-33 | `a.b.c.d` with `c` a listed second-level label reduces to `a.b.c`. |
| Domains.RootDomainMailGoogle | src/background/utils.js:28-40 | `mail.google.com` reduces to `mail.google`. |
| Domains.RootDomainNewsBbc | src/background/utils.js:28-40 | `news.bbc.co.uk` reduces to `news.bbc.co`. |
| Domains.RootDomainNotIdempotent | src/background/utils.js:28-40 | Reducing a root domain again can change it, so the heuristic is not idempotent. |
| Domains.SubdomainMatchesIff | src/background/categorizationManager.js:50-55 | A `subdomains` key covers exactly itself and the hostnames ending in a dot followed by the key. `SubdomainMatches` is the covering test. |
| Domains.BadExampleDoesNotMatch | src/background/categorizationManager.js:51 | `example.com` does not cover `badexample.com`. |
| Domains.PopupRootDomain | src/popup/dataFormatter.js:70-83 | A URL that does not parse yields `""`. |
| Domains.PopupRootDomainLabels | src/popup/dataFormatter.js:70-83 | For a parsed URL, the popup keeps the last two hostname labels when there are more than two, and the hostname otherwise. |
| Domains.PopupThreeLabels | src/popup/dataFormatter.js:74-77 | `a.b.c` groups under `b.c` in the popup. |
| Domains.PopupAndBackgroundDisagree | src/popup/dataFormatter.js:70-83 | The popup groups `mail.google.com` under `google.com`, while the background files it under `mail.google`. |
| Domains.DomainFromUrl | src/popup/dataFormatter.js:60-68 | The hostname of a URL that parses, or the input unchanged when it does not. |
| Domains.HostOf | src/background/categorizationManager.js:35-37 | The compared hostname exists exactly when the lower-cased URL parses, and it is lower case. |
| Preferences.NormalizeKeys | src/background/storageManager.js:36-47 | The copied object has distinct keys, all of them lower case. |
| Preferences.NormalizeKeysGet | src/background/storageManager.js:36-47 | The value under a key of the copy is the value of the last input key that lower-cases to it. |
| Preferences.NormalizeKeysHasKey | src/background/storageManager.js:38-44 | A key is present after normalisation exactly when some input key lower-cases to it. |
| Preferences.NormalizeKeysIdempotent | src/background/storageManager.js:36-47 | A valid dictionary whose keys are already lower case comes back unchanged. |
| Preferences.NormalizeKeysTwice | src/background/storageManager.js:27-47 | Normalising twice equals normalising once. |
| Preferences.NormalizePrefs | src/background/storageManager.js:27-34 | After `normalizeCategoryPreferences`, all four dictionaries have distinct lower-case keys. |
| Preferences.Fill | src/background/background.js:15-18 | Each missing stored dictionary reads as empty. |
| Preferences.ModularApply | src/background/storageManager.js:17-25 | The result is normalised, and a dictionary missing from the incoming value comes out empty. |
| Preferences.ModularApplyKeeps | src/background/storageManager.js:53-54 | A change event without a new value keeps the current preferences, once they are normalised. |
| Preferences.LegacyRenameLower | src/background/background.js:20-45 | During the in-place renaming, every key is lower case or still waiting for its visit, so at the end every key is lower case. |
| Preferences.LegacyNormalizeKeysLower | src/background/background.js:20-45 | After the legacy loops, every key is lower case. |
| Preferences.LastRenamedSome | src/background/background.js:20-25 | Some key gets renamed into `x` exactly when some input key other than `x` lower-cases to `x`. |
| Preferences.LegacyRenameGet | src/background/background.js:20-25 | While the loop runs, a key ends up holding the last pending rename into it. Failing that, a key that is not lower case and still waits for its visit is deleted. Any other key keeps its current value. `LegacyRename` is this loop. |
| Preferences.LegacyNormalizeKeysGet | src/background/background.js:20-45 | After the legacy loops, a key that is not lower case is absent. A lower-case key holds the value of the last key renamed into it, or else its own original value. `LegacyNormalizeKeys` runs the loop over the dictionary's own entries. |
| Preferences.LegacyNormalizeKeysHasKey | src/background/background.js:20-45 | After the legacy loops, a key is present exactly when some input key lower-cases to it, the same key set the modular copy produces. |
| Preferences.LegacyRenameValid | src/background/background.js:20-45 | Overwriting and deleting keep the keys distinct. |
| Preferences.LegacyNormalizeKeysRenamed | src/background/background.js:20-45 | The legacy loops give a dictionary with lower-case keys, and distinct keys when the input's were distinct. Every key reads as described above. |
| Preferences.LastLoweredAt | src/background/storageManager.js:38-45 | In the modular copy, the last key that lower-cases to `x` supplies `x`'s value. |
| Preferences.LastRenamedAt | src/background/background.js:20-25 | In the legacy loops, the last renamed key that lower-cases to `x` supplies `x`'s value. |
| Preferences.LegacyAgreesWithCopy | src/background/background.js:20-45 | When no two input keys lower-case alike, the legacy rename and the modular copy give every key the same value. |
| Preferences.LegacyApply | src/background/background.js:12-50 | An absent value gives the four empty dictionaries, and a missing dictionary comes out empty. Each dictionary is otherwise the stored one after the in-place renaming: keys lower case, distinct when the stored keys were, and each value as the renaming leaves it. |
| Preferences.NormalizeCollision | src/background/background.js:20-25 | When `A` precedes `a`, the modular copy keeps `a`'s value, while the legacy in-place rename keeps `A`'s. |
| Preferences.CopyCollision | src/background/storageManager.js:38-45 | When two keys collide, the modular copy keeps the value of the key iterated last. |
| Preferences.RenameCollision | src/background/background.js:20-25 | When two keys collide, the legacy rename keeps the value of the renamed upper-case key. |
| Resolver.FirstSubdomainMatch | src/background/categorizationManager.js:80-84 | Returns the earliest `subdomains` key covering the hostname, with no covering key before it, or `None` exactly when no key covers it. |
| Resolver.ResolvePrecedence | src/background/categorizationManager.js:66-91 | The precedence holds rule by rule, in this order: a truthy `urls` entry, then a truthy `exactDomains` entry, then the first covering `subdomains` key whatever its value, then a truthy `rootDomains` entry, then `"neutral"`. `Resolve` is this lookup. `Lookup` reads an entry, with `undefined` as `""`. `Truthy` is JavaScript truthiness of a category. |
| Resolver.UncategorizedIsNeutral | src/background/categorizationManager.js:62-63 | A URL no preference applies to resolves to `"neutral"`. A categorised URL without a subdomain hit resolves to a truthy category. |
| Resolver.CategoryFor | src/background/categorizationManager.js:66-70 | `getCategoryForUrl` throws exactly when the lower-cased URL does not parse. |
| Resolver.IsCategorized | src/background/categorizationManager.js:34-38 | `isUrlCategorized` throws exactly when the lower-cased URL does not parse. |
| Resolver.NotCategorizedMeansNeutral | src/background/categorizationManager.js:34-91 | When `isUrlCategorized` returns false, `getCategoryForUrl` returns `"neutral"`. |
| Resolver.CaseInsensitive | src/background/categorizationManager.js:35 | In both builds, URLs that lower-case alike get the same category and the same categorised answer. |
| Resolver.LegacyCategoryFor | src/background/background.js:372-401 | A truthy `urls` entry answers before `new URL` runs. |
| Resolver.LegacyIsCategorized | src/background/background.js:213-247 | A truthy `urls` entry means categorised, before parsing. |
| Resolver.LegacyAgrees | src/background/background.js:213-247 | The two builds agree whenever the lower-cased URL parses. Otherwise the legacy build still answers from a truthy `urls` entry, where the modular one throws. |
| Resolver.SaveCategorization | src/background/categorizationManager.js:10-32 | Saving throws, writing nothing, exactly when the lower-cased URL does not parse. |
| Resolver.SaveWritesOneEntry | src/background/categorizationManager.js:15-29 | The key the scope selects now holds the category, and every other key of every dictionary reads as before. An unknown scope writes nothing. |
| Resolver.CategorizedIffApplies | src/background/categorizationManager.js:34-64 | A URL is categorised exactly when some entry applies to it: a truthy own-key entry, or any covering `subdomains` key. `Categorized` is the test `isUrlCategorized` applies. |
| Resolver.SaveThenResolve | src/background/categorizationManager.js:10-64 | After saving a non-empty category under a known scope, the URL is categorised. Under `url` scope it also resolves to that category. |
| Ledgers.CreditSites | src/background/timeTracker.js:151-155 | The URL's time grows by `ms`, counting a missing entry as 0. No other site changes. |
| Ledgers.CreditDay | src/background/timeTracker.js:148-155 | The category bucket is created when missing and credited. Other categories are unchanged. |
| Ledgers.Credit | src/background/timeTracker.js:145-155 | The date, category and URL levels are created as needed and credited. Other dates are unchanged. |
| Ledgers.CreditLeaf | src/background/timeTracker.js:145-155 | A credit adds `ms` to its own leaf, counting a missing leaf as 0, and every other leaf reads as before. |
| Ledgers.CreditTwice | src/background/timeTracker.js:151-155 | Two consecutive credits of one leaf equal one credit of their sum. |
| Ledgers.WellFormedCredit | src/background/timeTracker.js:145-155 | Crediting keeps every level's keys distinct. |
| Ledgers.CreditTotal | src/background/timeTracker.js:155 | A credit of `ms` raises the ledger's total by exactly `ms`. |
| Ledgers.LoadTimeData | src/background/storageManager.js:20 | An absent stored `timeData` reads as `{}`. |
| Ledgers.ModularTimeDataChange | src/background/storageManager.js:57-60 | A change without a new value keeps the in-memory ledger. |
| Tracker.Bucket | src/background/timeTracker.js:137-141 | In the modular build, the category a flush files under is never empty. Tracker.ModularFallback states the modular rule, and Tracker.LegacyFallback the legacy one. |
| Tracker.ModularFallback | src/background/timeTracker.js:137-141 | In the modular build, a truthy resolved category is kept and a falsy one becomes `"uncategorized"`. The flush has no category exactly when `getCategoryForUrl` throws. |
| Tracker.EmptySubdomainFallsBack | src/background/categorizationManager.js:80-84 | A `subdomains` entry whose value is `""` and whose key covers the host resolves to `""`, so the modular flush files under `"uncategorized"`. |
| Tracker.ModularFilesUnmatchedAsNeutral | src/background/timeTracker.js:137-141 | The modular build files a URL no preference applies to under `"neutral"`, because the fallback never fires. |
| Tracker.LegacyFallback | src/background/background.js:250-282 | The legacy build files under `"uncategorized"` exactly when no preference applies. Otherwise it uses the resolved category. |
| Tracker.BuildsDisagreeOnUnmatched | src/background/timeTracker.js:137-141 | The two builds file an unmatched URL under different categories. |
| Tracker.Flush | src/background/timeTracker.js:132-163 | An idle session changes nothing. A flush leaves the session idle. It throws only when active and the lookup throws. `HandleTabInactive` is this step applied to the category `Bucket` gives for the running URL. |
| Tracker.FlushCredits | src/background/timeTracker.js:132-163 | Flushing an active session adds exactly `now - startTime` to the one leaf `today`/category/`currentUrl`. Every other leaf is unchanged, and the total grows by the elapsed time. |
| Tracker.FlushIdempotent | src/background/timeTracker.js:133 | A flush leaves the session idle, so a second flush changes nothing. |
| Tracker.CheckDateChange | src/background/timeTracker.js:165-176 | The same date changes nothing. On a new date, the session is idle and records the new date. |
| Tracker.RolloverKeyedByNewDate | src/background/timeTracker.js:165-176 | The time flushed at a rollover lands under the new date, and the leaves of the session's old date are untouched. |
| Tracker.HandleTabChange | src/background/timeTracker.js:89-130 | A tab without a URL, or with an untrackable one, changes nothing and sends no prompt. Otherwise the session times the new URL from `now`. |
| Tracker.TrackNew | src/background/timeTracker.js:103-129 | After the checks, the session is active on the new URL since `now`. |
| Tracker.TrackNewPromptsAndFlushes | src/background/timeTracker.js:103-125 | The prompt goes out exactly when the URL is not categorised. The previous session's elapsed time is added to the total. `IsCategorizedIn` picks the build's `isUrlCategorized`. |
| Tracker.BlockedUrlsIgnored | src/background/timeTracker.js:178-194 | A URL that does not parse, has a blocked protocol or is `chrome.google.com` is never tracked. The test is `IsValidUrl`, the model of `isValidUrl`. |
| Reallocation.MatchedSites | src/background/background.js:434-462 | `sitesToReallocate` throws exactly when some site URL does not parse. Otherwise it holds only entries of the bucket that the scope matches. |
| Reallocation.MatchedSitesKeys | src/background/background.js:434-462 | A site is collected exactly when it is in the bucket and matched, with its time. `ScopeMatches` and `SiteMatches` are the per-site scope tests. |
| Reallocation.Reallocate | src/background/background.js:419-425 | A URL that does not parse throws before any change. |
| Reallocation.ModularReallocate | src/background/timeTracker.js:196-200 | The modular `reallocateTime` always throws before the loop and leaves the ledger as it was. |
| Reallocation.ReallocateLeaves | src/background/background.js:419-496 | After a completed reallocation, on every date, each matching `uncategorized` leaf is gone and its time is added to the same site under the new category. Every other leaf reads as before. The per-date step `ReallocateDay` is built from `MoveOne`, `MoveAll` and `DropEmpty`. |
| Reallocation.ReallocateTotal | src/background/background.js:464-490 | Reallocation never changes the ledger's total or its well-formedness, even when it aborts part-way. |
| Reallocation.ReallocateTwice | src/background/background.js:419-496 | Repeating a completed reallocation completes and changes nothing. |
| Reallocation.ReallocateDayTwice | src/background/background.js:427-490 | After one date is reallocated, what is left in `uncategorized` matches nothing. |
| Reallocation.ReallocateEntriesPrefix | src/background/background.js:427-493 | A throw at some date leaves the earlier dates reallocated and the rest untouched. |
| Reallocation.ReallocateEntriesGet | src/background/background.js:427-493 | Each date's day is the reallocated day, or unchanged after a throw. |
| Reallocation.ReallocateEntries | src/background/background.js:427-493 | The loop over the dates keeps every date in its place: the same dates in the same order, whether it completes or throws. |
| Reallocation.MoveOneSameCategory | src/background/background.js:465-479 | With `newCategory` equal to `uncategorized`, a moved site is credited and then deleted, so its time is lost. |
| Reallocation.MatchedSiteIsCategorized | src/background/background.js:186-210 | Every site the scope matches counts as categorised after the matching save. |
| Reallocation.ModularLeavesUncategorized | src/background/timeTracker.js:196-264 | Where the legacy function moves a matching leaf, the modular one leaves it under `uncategorized`. |
| Messages.HandleSaveMessage | src/background/timeTracker.js:81-87 | A URL that does not parse changes nothing. Otherwise the preferences are saved. In the modular build, the ledger is left as it was. |
| Messages.LegacySaveMovesTime | src/background/background.js:175-183 | In the legacy build, a save message moves each matching uncategorised leaf to the chosen category. The page is categorised afterwards and the total is unchanged. |
| Messages.ModularSaveKeepsTime | src/background/timeTracker.js:81-87 | In the modular build, the page is categorised afterwards but its past time stays put. |
| Popup.Capitalize | src/popup/popup.js:51-53 | Capitalising upper-cases the first character and keeps the rest and the length. |
| Popup.FormatterCapitalize | src/popup/dataFormatter.js:55-58 | A value that is not a string gives `""`. |
| Popup.CapitalizeKeepsLetters | src/popup/popup.js:51-53 | Capitalising changes nothing but case. |
| Popup.CapitalizeTwice | src/popup/popup.js:51-53 | Capitalising is idempotent. |
| Popup.CalculateTotalTime | src/popup/listManager.js:305-311 | The loop computes the sum of the category's site times. |
| Popup.CalculateOverallTotal | src/popup/listManager.js:318-326 | The loop computes the day's total over every category. |
| Popup.AddCategorySites | src/popup/uiManager.js:124-127 | Each site time is added to its category's total and to the overall total. Other categories are untouched. |
| Popup.CategoryTotals | src/popup/uiManager.js:116-128 | Each category's total is the sum of its sites. There is a total for exactly the day's categories, and the totals add up to `totalTime`, the day's total. |
| Popup.AddSite | src/popup/listManager.js:16-36 | One step of `aggregateDomains`: the site's group gains the time in its total and in its own entry. Other groups are unchanged. |
| Popup.AggregateAddsUp | src/popup/listManager.js:16-36 | Every group's `totalTime` is the sum of its `subdomains`. |
| Popup.AggregateTotal | src/popup/listManager.js:16-36 | The groups' totals add up to the category's total. |
| Popup.AggregateRoots | src/popup/listManager.js:18-23 | There is a group for a root exactly when some site has that root. |
| Popup.AggregateGroupsSites | src/popup/listManager.js:16-36 | A root's `subdomains` are exactly the sites with that root, with their times, in category order. |
| Popup.AggregatePlacesSites | src/popup/listManager.js:16-36 | Every site lands in the one group its root names, with its time, and in no other. |
| Popup.SortedDomains | src/popup/listManager.js:65 | The sorted list is a permutation of the groups. |
| Sorting.Sort | src/popup/listManager.js:65 | The sorted list is a permutation of the input, of the same length. |
| Sorting.SortSorted | src/logs/logs.js:92 | For a total preorder, the result is ordered by it. |
| Popup.ShownCount | src/popup/listManager.js:6 | At most five groups are shown: all of them when there are fewer. |
| Popup.SplitIsPermutation | src/popup/listManager.js:65-69 | The shown and hidden groups are together every group once, and the shown part has `min(5, n)` groups. |
| Popup.SplitDomainsOrdered | src/popup/listManager.js:65-69 | The list is in decreasing total time, and every shown group has at least the time of every hidden one. |
| Dates.DateRoundTrip | src/popup/dataFormatter.js:9-33 | For years from 100 on, parsing a stored date key gives back the date it was written from. |
| Dates.TwoDigitYearShifted | src/popup/dataFormatter.js:9-33 | A key written for a year from 0 to 99 reads back as the same date in 1900 to 1999. |
| Dates.ReadPieces | src/popup/dataFormatter.js:9-12 | Three digit pieces read as the year (through `FullYear`), the month less one, and the day. |
| Dates.NegativeYearMisread | src/popup/dataFormatter.js:9-12 | A negative year does not read back, because its leading `-` splits off an empty piece. |
| Dates.DateKeyShape | src/popup/dataFormatter.js:28-33 | A key is the year followed by `-MM-DD`, two digits each. `FormatDateForStorage` is the model of `formatDateForStorage`. |
| Dates.TwoDigitsValue | src/popup/dataFormatter.js:30-31 | A padded month or day is a digit string whose value is the number. |
| Dates.ParseStoredDate | src/popup/dataFormatter.js:9-12 | A key parses exactly when it has at least three `-`-separated pieces and the first three are digit strings. The date then has the numeric month less one, the numeric day, and the numeric year, with 0 to 99 read as 1900 to 1999 (`FullYear`), as `new Date` does. |
| OpeningDate.InitialDateKey | src/popup/uiManager.js:21-34 | No stored dates means nothing is shown. Otherwise the result is a stored key, and today's key whenever it is stored. |
| OpeningDate.InitialDateIsGreatest | src/popup/uiManager.js:29-32 | When today is not stored, the popup opens on the greatest stored key. |
| OpeningDate.GreatestIsUnique | src/popup/popup.js:84-94 | The greatest stored key is unique. |
| Entries.LedgerEntriesIff | src/popup/popup.js:355-357 | The flattened ledger holds exactly its leaves, each with its date. `LedgerEntries` flattens every date. |
| Entries.DayEntriesIff | src/logs/logs.js:76-87 | A day's flattened entries are exactly its leaves, each with its time and category. `DayEntries` flattens one day. |
| Entries.LedgerEntriesCount | src/popup/popup.js:355-357 | There is one entry per leaf. |
| Csv.QuoteRoundTrip | src/popup/popup.js:359 | Unquoting the quoted URL field recovers the URL exactly, quotes and commas included. `EscapeQuotes` doubles each quote, and `QuoteField` wraps the result in quotes. |
| Csv.ParseFormatRow | src/popup/popup.js:359-361 | A row reads back as its date, capitalised category, URL and time when the date and category hold no comma. `FormatRow` writes the row. |
| Csv.ExportCsv | src/popup/popup.js:350-353 | The file starts with the header line. |
| Csv.CsvRowCount | src/popup/uiManager.js:230-237 | There is one row per leaf of the ledger. |
| Csv.CsvRowIsLeaf | src/popup/uiManager.js:230-237 | Every row reads back as a leaf of the ledger with its date, category, URL and time. |
| Csv.CsvLeafHasRow | src/popup/uiManager.js:230-237 | Every leaf of the ledger has its row. |
| Csv.ParseIntToString | src/popup/popup.js:360 | The printed time reads back as the same integer, negative ones included. |
| LogsPage.Column | src/logs/logs.js:115-122 | A log's column is its lower-cased category when that is one of the four columns, and `uncategorized` otherwise. |
| LogsPage.LoadLogs | src/logs/logs.js:15-22 | An empty date is refused. A date without a day, or a day without leaves, shows no logs. |
| LogsPage.LoadLogsColumns | src/logs/logs.js:76-127 | The columns hold one entry per leaf of the day in total, each sorted by decreasing time. A log is in its column exactly when it is a leaf of the day. |
| LogsPage.ColumnsPartition | src/logs/logs.js:115-122 | Every log lands in exactly one column. |
| LogsPage.InColumnIff | src/logs/logs.js:115-122 | A log is in a column exactly when it is listed and that is its column. |
| LogsPage.InColumn | src/logs/logs.js:115-122 | A column holds no more logs than the page lists. |
| LogsPage.InColumnSorted | src/logs/logs.js:92 | Dealing the logs into columns keeps the sorted order. `SortedLogs` is the sort by decreasing time. |
| LogsPage.CheckboxCategory | src/logs/logs.js:158-159 | The checkbox's category equals the stored category exactly for the four column names. |
| LogMoves.TakeOutLeaf | src/logs/logs.js:214-218 | Taking a URL out removes that one leaf and no other. `TakeOut` is the deletion with its empty-bucket cleanup. |
| LogMoves.TakeOutTotal | src/logs/logs.js:214-218 | Taking a leaf out lowers the day's total by its time. |
| LogMoves.MoveLogLive | src/logs/logs.js:211-225 | One pass throws exactly when the checked box's bucket is missing. |
| LogMoves.MoveSelectedLogsAsWritten | src/logs/logs.js:180-237 | The press outcomes: refused without a target, refused without a ticked box, cancelled without confirmation, no data without the date. A save changes no other date. `MoveLogsLive` is the loop as written. |
| LogMoves.MissingBucketFails | src/logs/logs.js:212 | A checked log whose bucket is missing makes the whole batch throw before saving. |
| LogMoves.MoveLogLiveOverwrites | src/logs/logs.js:220-224 | The target's entry for the URL becomes the moved time, whatever it held. The URL leaves the old bucket, which is deleted once empty. |
| LogMoves.MoveLogLiveAbsent | src/logs/logs.js:211-225 | When the old bucket exists, is not empty and holds nothing under the URL, the move still succeeds. The old bucket is left as it was. The target's entry for the URL becomes `undefined`, and the saved target bucket does not hold the URL. |
| LogMoves.StoreSitesHasKey | src/logs/logs.js:224 | A saved bucket holds a URL exactly when some entry for it is defined; `undefined` entries are dropped by the save. |
| OrderedMaps.RemoveAbsent | src/logs/logs.js:215 | Deleting a key the object does not hold leaves it unchanged. |
| LogMoves.OverwriteLosesTime | src/logs/logs.js:224 | Moving `a` (5 ms) onto a target already holding 7 ms for `a` saves 5 ms, so the day's 12 ms become 5. |
| LogMoves.MoveSelectedLogs | src/logs/logs.js:180-237 | The same outcomes, with the overwrite replaced by a credit. It never throws, and a save changes no other date. |
| LogMoves.MoveLogLeaves | src/logs/logs.js:211-225 | One corrected move: the target's leaf gains the moved time, the old leaf is gone, and no other leaf changes. `MoveLog` is this move. |
| LogMoves.MoveLeaf | src/logs/logs.js:211-225 | A stored leaf moved to another category leaves its bucket, and the target gains its time. |
| LogMoves.MoveLogKeeps | src/logs/logs.js:211-225 | One corrected move keeps the day's total and distinct keys. |
| LogMoves.MoveLogsKeeps | src/logs/logs.js:210-230 | Moving the ticked logs one by one with the corrected move keeps the day well formed and its total unchanged. |
| LogMoves.MoveSelectedKeepsTotal | src/logs/logs.js:210-230 | A corrected save keeps the ledger well formed and its total unchanged. |
| LogMoves.CreditKeepsTime | src/logs/logs.js:220-224 | The same move, corrected, gives entertainment all 12 ms. |
| PreferencesPage.PageLoad | src/logs/preferences.js:21-28 | Absent stored preferences read as four empty dictionaries. |
| PreferencesPage.DeleteOne | src/logs/preferences.js:114-120 | One checked box deletes its entry only when the dictionary exists and the value is truthy. Otherwise nothing changes. |
| PreferencesPage.DeleteOneGet | src/logs/preferences.js:114-120 | After one deletion, every other entry reads as before. |
| PreferencesPage.DeleteAllGet | src/logs/preferences.js:114-120 | After the deletions, an entry is gone exactly when it was checked and deletable. Every other entry keeps its value. |
| PreferencesPage.DeleteSelectedPreferences | src/logs/preferences.js:86-127 | Storage is written exactly when a box is ticked and the user confirms. No dictionary appears or disappears. |
| PreferencesPage.DeleteNeverCategorizes | src/logs/preferences.js:114-120 | Deleting preferences never categorises a URL that was not categorised before. |
| PreferencesPage.DeleteApplyingUncategorizes | src/logs/preferences.js:102 | Deleting every applying entry makes the URL uncategorised again, so it is prompted for on the next visit. |
| PreferencesPage.AppliesBefore | src/logs/preferences.js:114-120 | An entry that applies after the deletions applied before them and was not deleted. |
| PreferencesPage.EmptySubdomainEntryStays | src/logs/preferences.js:116 | A `subdomains` entry with an empty value still covers its hostnames but can never be deleted. |

## Left out

- **I/O and the browser.** The DOM, `alert`, `chrome.storage`, `chrome.tabs`, messaging to the content script, `console.log`, the charts, `Intl` date display, `Blob` downloads and the percentage column are left out. Values read from storage, the user's answers and the ticked boxes are parameters.
- **`new URL`.** It is a parameter (`Domains.Parser`): URL syntax is outside the model. The tracked fields are the protocol and hostname it yields.
- **Clocks.** `Date.now()` and `getCurrentDate()` are the parameters `now` and `today`. The popup's `Date` is modelled by its year, 0-based month and day.
- **Case mapping.** `toLowerCase`/`toUpperCase` are modelled on ASCII letters only; other characters are left unchanged.
- **String order.** The default `sort()` compares UTF-16 code units. The model compares characters (`OpeningDate.StrLe`), which differs only outside the Basic Multilingual Plane.
- **Integer-like keys.** JavaScript orders integer-like property names first in `for...in`. The model keeps plain insertion order, which is right for URLs, hostnames, categories and `YYYY-MM-DD` dates.
- **Inherited properties.** In the source, a dictionary read such as `exactDomains[h]` also sees the properties `Object.prototype` supplies, so a key such as `constructor` reads as truthy there and a host named that way gets categorised. `Resolver.Lookup` and every other map read in the model see only the object's own keys.
- **Date values.** `new Date(year, month - 1, day)` normalises out-of-range months and days; the model keeps the raw fields. `Dates.ParseStoredDate` reads only plain digit strings as numbers (`Number` accepts more, such as whitespace and exponents).
- Dates.DateRoundTrip: promised only from year 100 on. `new Date` reads the years 0 to 99 of a key as 1900 to 1999, as Dates.TwoDigitYearShifted states. Keys written from the clock never carry such years.
- **Sort stability.** `Array.prototype.sort` is stable. The model's insertion sort is stable by construction, but stability is not stated as a property.
- Popup.AddCategorySites: requires the category's running total to exist already. `CategoryTotals` always sets `categoryTotals[category] = 0` first.
- Csv.ParseFormatRow: reads a row back only when the date and category hold no comma. These fields are not quoted, so a comma in them is ambiguous in any reader.
- LogMoves.MoveSelectedLogs: a corrected move skips a box that names no stored leaf. The code as written stores `undefined` for such a box, which `chrome.storage` drops when saving. `LogMoves.StoreSites` models that drop for the as-written version.
- **Checkbox categories.** A checkbox records its column, not the stored category (`LogsPage.CheckboxCategory`). A log stored under, say, `Work` is listed as `uncategorized`. Moving it throws when the day has no `uncategorized` bucket. Otherwise the pass stores `undefined` under the target, which the save drops, and the log stays where it was (`LogMoves.MoveLogLiveAbsent`). The extension's own writers only store the four column names in lower case, so the moves modelled take the checkbox's category as the bucket.
- **Debug-only code.** `src/options/options.js`, `src/logs/categories.js` and `dump/options.js` are not part of this model. Nor are the content script's prompt and the popup's "Clear Data" and "Reset Settings" buttons, which only clear storage.
- **Tab events.** The window-focus, idle and suspend handlers only call `handleTabInactive`/`handleTabChange` on the active tab, which the model covers. Which tab is active is a parameter.

## Findings

| source | as written | input that shows it | evidently intended | confidence | as-written member | corrected member |
|---|---|---|---|---|---|---|
| src/background/timeTracker.js:200 | `reallocateTime` calls `this.getRootDomain(hostname)`. The class has no such method; `getRootDomain` is imported from `utils.js`. So every call throws a `TypeError` before the loop, and the modular build never reallocates past time. | Any save message whose URL parses, e.g. a `uncategorized` leaf for `https://a.com/` and a save of `productive` for it with scope `url` | Call the imported `getRootDomain`, so that matching `uncategorized` leaves move to the new category, as background.js does | not executed | Reallocation.ModularLeavesUncategorized | Reallocation.ReallocateLeaves |
| src/logs/logs.js:224 | "Move Selected" assigns `timeData[date][target][url] = time`. This overwrites what the target category already held for that URL, and a log whose checkbox names no stored leaf writes `undefined`. | Day `{productive: {a: 5}, entertainment: {a: 7}}`: move `a` from productive to entertainment | Add the moved time to the target's entry, so the day's total is kept (12 ms, not 5) | not executed | LogMoves.OverwriteLosesTime | LogMoves.MoveSelectedKeepsTotal |
