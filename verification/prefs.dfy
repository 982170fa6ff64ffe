/**
 The category preferences: four dictionaries from a key (a lower-cased URL,
 a hostname, a subdomain or a root domain) to a category name, and the way
 both versions of the background script bring them into memory with every
 key lower-cased.
 */
module Preferences {
  import opened Values
  import opened Strings
  import opened OrderedMaps

  datatype Prefs = Prefs(
    urls: OMap<string>,
    exactDomains: OMap<string>,
    subdomains: OMap<string>,
    rootDomains: OMap<string>)

  const EmptyPrefs := Prefs([], [], [], [])

  /** The preferences as stored: any of the four dictionaries may be missing. */
  datatype StoredPrefs = StoredPrefs(
    urls: Option<OMap<string>>,
    exactDomains: Option<OMap<string>>,
    subdomains: Option<OMap<string>>,
    rootDomains: Option<OMap<string>>)

  /** Every key is unchanged by `toLowerCase`. */
  predicate KeysLower<V>(m: OMap<V>) {
    forall i :: 0 <= i < |m| ==> IsLower(m[i].0)
  }

  ghost predicate PrefsNormal(p: Prefs) {
    Valid(p.urls) && Valid(p.exactDomains) && Valid(p.subdomains) && Valid(p.rootDomains) &&
    KeysLower(p.urls) && KeysLower(p.exactDomains) && KeysLower(p.subdomains) && KeysLower(p.rootDomains)
  }

  // ---- The modular version: copy into a fresh object ----

  /**
   `normalizeKeys(obj)` of src/background/storageManager.js: a fresh object
   filled in `for...in` order with `normalized[key.toLowerCase()] = obj[key]`
   (both branches of the source's `if` do this). Written as a fold whose
   last step is the last entry.
   */
  function NormalizeKeys<V>(m: OMap<V>): (r: OMap<V>)
    ensures Valid(r) && KeysLower(r)
    decreases |m|
  {
    if |m| == 0 then []
    else
      var init := NormalizeKeys(m[..|m| - 1]);
      var (k, v) := m[|m| - 1];
      ValidPut(init, Lower(k), v);
      LowerIsLower(k);
      var r := Put(init, Lower(k), v);
      PutKeys(init, Lower(k), v);
      assert forall i :: 0 <= i < |r| ==> r[i].0 == Keys(r)[i];
      r
  }

  /** The value of the last entry, scanning from the end, whose key lower-cases to `k`. */
  function LastLowered<V>(m: OMap<V>, k: string): Option<V>
    decreases |m|
  {
    if |m| == 0 then None
    else if Lower(m[|m| - 1].0) == k then Some(m[|m| - 1].1)
    else LastLowered(m[..|m| - 1], k)
  }

  /**
   The keys of the normalised map are the lower-cased keys of the input,
   and when several keys lower-case alike the one iterated last wins.
   */
  lemma {:induction false} NormalizeKeysGet<V>(m: OMap<V>, k: string)
    ensures Get(NormalizeKeys(m), k) == LastLowered(m, k)
    decreases |m|
  {
    if |m| > 0 {
      NormalizeKeysGet(m[..|m| - 1], k);
    }
  }

  /** A key is present after normalisation exactly when some input key lower-cases to it. */
  lemma NormalizeKeysHasKey<V>(m: OMap<V>, k: string)
    ensures HasKey(NormalizeKeys(m), k) <==> exists i :: 0 <= i < |m| && Lower(m[i].0) == k
  {
    NormalizeKeysGet(m, k);
    LastLoweredSome(m, k);
  }

  lemma {:induction false} LastLoweredSome<V>(m: OMap<V>, k: string)
    ensures LastLowered(m, k).Some? <==> exists i :: 0 <= i < |m| && Lower(m[i].0) == k
    decreases |m|
  {
    if |m| > 0 {
      LastLoweredSome(m[..|m| - 1], k);
      if Lower(m[|m| - 1].0) != k {
        forall i | 0 <= i < |m| - 1 ensures m[..|m| - 1][i] == m[i] { }
      }
    }
  }

  /** The last entry is written last. */
  lemma NormalizeKeysLast<V>(m: OMap<V>)
    requires |m| > 0
    ensures NormalizeKeys(m) == Put(NormalizeKeys(m[..|m| - 1]), Lower(m[|m| - 1].0), m[|m| - 1].1)
  {
  }

  lemma KeysLowerPrefix<V>(m: OMap<V>, n: nat)
    requires KeysLower(m) && n <= |m|
    ensures KeysLower(m[..n])
  {
    forall i | 0 <= i < n ensures m[..n][i] == m[i] { }
  }

  /** Normalising a valid map whose keys are already lower case gives it back unchanged. */
  lemma {:induction false} NormalizeKeysIdempotent<V>(m: OMap<V>)
    requires Valid(m) && KeysLower(m)
    ensures NormalizeKeys(m) == m
    decreases |m|
  {
    if |m| > 0 {
      var n := |m| - 1;
      var init := m[..n];
      var k := m[n].0;
      var v := m[n].1;
      assert m == init + [m[n]];
      assert m[n] == (k, v);
      ValidPrefix(m, n);
      KeysLowerPrefix(m, n);
      NormalizeKeysIdempotent(init);
      NormalizeKeysLast(m);
      assert IsLower(k);
      FreshInPrefix(m, n);
      PutShape(init, k, v);
    }
  }

  /** So normalising twice is normalising once. */
  lemma NormalizeKeysTwice<V>(m: OMap<V>)
    ensures NormalizeKeys(NormalizeKeys(m)) == NormalizeKeys(m)
  {
    NormalizeKeysIdempotent(NormalizeKeys(m));
  }

  /** `normalizeCategoryPreferences()`: every dictionary normalised. */
  function NormalizePrefs(p: Prefs): (r: Prefs)
    ensures PrefsNormal(r)
  {
    Prefs(NormalizeKeys(p.urls), NormalizeKeys(p.exactDomains),
          NormalizeKeys(p.subdomains), NormalizeKeys(p.rootDomains))
  }

  /** The stored object with its missing dictionaries read as empty, as `for...in` over `undefined` visits nothing. */
  function Fill(s: StoredPrefs): (p: Prefs)
    ensures s.urls.None? ==> p.urls == []
    ensures s.exactDomains.None? ==> p.exactDomains == []
    ensures s.subdomains.None? ==> p.subdomains == []
    ensures s.rootDomains.None? ==> p.rootDomains == []
  {
    Prefs(s.urls.GetOr([]), s.exactDomains.GetOr([]), s.subdomains.GetOr([]), s.rootDomains.GetOr([]))
  }

  /**
   `loadInitialData` and the `categoryPreferences` change listener of
   src/background/storageManager.js: take the incoming object, or keep the
   current one when there is none, then normalise. A missing dictionary
   comes out empty, and an absent incoming value keeps the current
   preferences (once normalised, unchanged).
   */
  function ModularApply(incoming: Option<StoredPrefs>, current: Prefs): (r: Prefs)
    ensures PrefsNormal(r)
    ensures incoming.Some? && incoming.value.urls.None? ==> r.urls == []
    ensures incoming.Some? && incoming.value.exactDomains.None? ==> r.exactDomains == []
    ensures incoming.Some? && incoming.value.subdomains.None? ==> r.subdomains == []
    ensures incoming.Some? && incoming.value.rootDomains.None? ==> r.rootDomains == []
  {
    NormalizePrefs(match incoming case Some(s) => Fill(s) case None => current)
  }

  /** A change event without a new value keeps the current, already normalised, preferences. */
  lemma ModularApplyKeeps(current: Prefs)
    requires PrefsNormal(current)
    ensures ModularApply(None, current) == current
  {
    NormalizeKeysIdempotent(current.urls);
    NormalizeKeysIdempotent(current.exactDomains);
    NormalizeKeysIdempotent(current.subdomains);
    NormalizeKeysIdempotent(current.rootDomains);
  }

  // ---- The legacy version: rename in place ----

  /**
   The in-place loops of src/background/background.js: for each key of the
   snapshot `for...in` takes, in order, a key that `toLowerCase` changes is
   copied to its lower-cased key (overwriting in place, or appending) and
   then deleted. The value copied is the entry's original value: the loop
   only ever writes to lower-case keys and only deletes the key it visits,
   so a key that still has to be visited keeps its value until then.
   */
  function LegacyRename<V>(cur: OMap<V>, entries: OMap<V>): OMap<V>
    decreases |entries|
  {
    if |entries| == 0 then cur
    else
      var (k, v) := entries[0];
      if Lower(k) != k then LegacyRename(Remove(Put(cur, Lower(k), v), k), entries[1..])
      else LegacyRename(cur, entries[1..])
  }

  function LegacyNormalizeKeys<V>(m: OMap<V>): OMap<V> {
    LegacyRename(m, m)
  }

  /** While renaming, every key is lower case or still waiting for its visit. */
  lemma {:induction false} LegacyRenameLower<V>(cur: OMap<V>, entries: OMap<V>)
    requires forall i :: 0 <= i < |cur| ==> IsLower(cur[i].0) || exists j :: 0 <= j < |entries| && entries[j].0 == cur[i].0
    ensures KeysLower(LegacyRename(cur, entries))
    decreases |entries|
  {
    if |entries| > 0 {
      var (k, v) := entries[0];
      var rest := entries[1..];
      if Lower(k) != k {
        var put := Put(cur, Lower(k), v);
        PutKeys(cur, Lower(k), v);
        var next := Remove(put, k);
        LowerIsLower(k);
        forall i | 0 <= i < |next|
          ensures IsLower(next[i].0) || exists j :: 0 <= j < |rest| && rest[j].0 == next[i].0
        {
          var key := next[i].0;
          assert next[i] in put && key != k;
          var p :| 0 <= p < |put| && put[p] == next[i];
          assert Keys(put)[p] == key;
          if !IsLower(key) {
            assert key != Lower(k);
            assert key in Keys(cur);
            var c :| 0 <= c < |cur| && Keys(cur)[c] == key;
            var j :| 0 <= j < |entries| && entries[j].0 == cur[c].0;
            assert j != 0;
            assert rest[j - 1].0 == key;
          }
        }
        LegacyRenameLower(next, rest);
      } else {
        forall i | 0 <= i < |cur|
          ensures IsLower(cur[i].0) || exists j :: 0 <= j < |rest| && rest[j].0 == cur[i].0
        {
          if !IsLower(cur[i].0) {
            var j :| 0 <= j < |entries| && entries[j].0 == cur[i].0;
            assert j != 0;
            assert rest[j - 1].0 == cur[i].0;
          }
        }
        LegacyRenameLower(cur, rest);
      }
    }
  }

  /** After the in-place loops every key is lower case. */
  lemma LegacyNormalizeKeysLower<V>(m: OMap<V>)
    ensures KeysLower(LegacyNormalizeKeys(m))
  {
    forall i | 0 <= i < |m| ensures IsLower(m[i].0) || exists j :: 0 <= j < |m| && m[j].0 == m[i].0 {
    }
    LegacyRenameLower(m, m);
  }

  /** The value of the last entry, in iteration order, whose key `toLowerCase` changes into `x`. */
  function LastRenamed<V>(m: OMap<V>, x: string): Option<V>
    decreases |m|
  {
    if |m| == 0 then None
    else if LastRenamed(m[1..], x).Some? then LastRenamed(m[1..], x)
    else if Lower(m[0].0) == x && m[0].0 != x then Some(m[0].1)
    else None
  }

  /**
   What the in-place loops leave under a key `x`: nothing when `x` is not
   lower case; otherwise the last renamed key that lower-cases to `x`, and
   failing that the entry `x` already had. A renamed key wins over the
   lower-case key wherever the two stand.
   */
  function LegacyValue<V>(m: OMap<V>, x: string): Option<V> {
    if !IsLower(x) then None
    else match LastRenamed(m, x)
      case Some(v) => Some(v)
      case None => Get(m, x)
  }

  /** `r` is what the in-place loops make of `m`, read key by key. */
  ghost predicate LegacyRenamedFrom<V>(r: OMap<V>, m: OMap<V>) {
    KeysLower(r) && (Valid(m) ==> Valid(r)) && forall x :: Get(r, x) == LegacyValue(m, x)
  }

  lemma {:induction false} LastRenamedSome<V>(m: OMap<V>, x: string)
    ensures LastRenamed(m, x).Some? <==> exists i :: 0 <= i < |m| && Lower(m[i].0) == x && m[i].0 != x
    decreases |m|
  {
    if |m| > 0 {
      LastRenamedSome(m[1..], x);
      if exists i :: 0 <= i < |m| && Lower(m[i].0) == x && m[i].0 != x {
        var i :| 0 <= i < |m| && Lower(m[i].0) == x && m[i].0 != x;
        if i > 0 {
          assert m[1..][i - 1] == m[i];
        }
      }
    }
  }

  /**
   While renaming, a key reads as the last pending rename into it; failing
   that, a key that is not lower case and still waiting for its visit is
   gone by the end; any other key keeps what it has now.
   */
  lemma {:induction false} LegacyRenameGet<V>(cur: OMap<V>, entries: OMap<V>, x: string)
    ensures Get(LegacyRename(cur, entries), x) ==
            if LastRenamed(entries, x).Some? then LastRenamed(entries, x)
            else if HasKey(entries, x) && !IsLower(x) then None
            else Get(cur, x)
    decreases |entries|
  {
    if |entries| > 0 {
      var (k, v) := entries[0];
      var rest := entries[1..];
      HasKeyCons(entries, x);
      LowerIsLower(k);
      if Lower(k) != k {
        var put := Put(cur, Lower(k), v);
        GetRemove(put, k, x);
        LegacyRenameGet(Remove(put, k), rest, x);
      } else {
        LegacyRenameGet(cur, rest, x);
      }
    }
  }

  /** After the in-place loops each key reads as `LegacyValue` says. */
  lemma LegacyNormalizeKeysGet<V>(m: OMap<V>, x: string)
    ensures Get(LegacyNormalizeKeys(m), x) == LegacyValue(m, x)
  {
    LegacyRenameGet(m, m, x);
    LastRenamedSome(m, x);
    if LastRenamed(m, x).Some? {
      var i :| 0 <= i < |m| && Lower(m[i].0) == x && m[i].0 != x;
      LowerIsLower(m[i].0);
    }
  }

  /** A key is present after the in-place loops exactly when some input key lower-cases to it, as with the copy. */
  lemma LegacyNormalizeKeysHasKey<V>(m: OMap<V>, x: string)
    ensures HasKey(LegacyNormalizeKeys(m), x) <==> exists i :: 0 <= i < |m| && Lower(m[i].0) == x
  {
    LegacyNormalizeKeysGet(m, x);
    LastRenamedSome(m, x);
    if exists i :: 0 <= i < |m| && Lower(m[i].0) == x {
      var i :| 0 <= i < |m| && Lower(m[i].0) == x;
      LowerIsLower(m[i].0);
      if m[i].0 == x {
        assert HasKey(m, x);
      }
    }
    if HasKey(m, x) && IsLower(x) {
      var i :| 0 <= i < |m| && m[i].0 == x;
      assert Lower(m[i].0) == x;
    }
  }

  /** Overwriting and deleting keep the keys distinct. */
  lemma {:induction false} LegacyRenameValid<V>(cur: OMap<V>, entries: OMap<V>)
    requires Valid(cur)
    ensures Valid(LegacyRename(cur, entries))
    decreases |entries|
  {
    if |entries| > 0 {
      var (k, v) := entries[0];
      if Lower(k) != k {
        ValidPut(cur, Lower(k), v);
        ValidRemove(Put(cur, Lower(k), v), k);
        LegacyRenameValid(Remove(Put(cur, Lower(k), v), k), entries[1..]);
      } else {
        LegacyRenameValid(cur, entries[1..]);
      }
    }
  }

  /** The in-place loops deliver what `LegacyRenamedFrom` describes. */
  lemma LegacyNormalizeKeysRenamed<V>(m: OMap<V>)
    ensures LegacyRenamedFrom(LegacyNormalizeKeys(m), m)
  {
    LegacyNormalizeKeysLower(m);
    if Valid(m) {
      LegacyRenameValid(m, m);
    }
    forall x ensures Get(LegacyNormalizeKeys(m), x) == LegacyValue(m, x) {
      LegacyNormalizeKeysGet(m, x);
    }
  }

  /** No two keys lower-case alike. */
  predicate NoCaseCollision<V>(m: OMap<V>) {
    forall i, j :: 0 <= i < j < |m| ==> Lower(m[i].0) != Lower(m[j].0)
  }

  lemma {:induction false} LastLoweredAt<V>(m: OMap<V>, x: string, i: nat)
    requires i < |m| && Lower(m[i].0) == x
    requires forall j :: i < j < |m| ==> Lower(m[j].0) != x
    ensures LastLowered(m, x) == Some(m[i].1)
    decreases |m|
  {
    if i < |m| - 1 {
      var init := m[..|m| - 1];
      assert init[i] == m[i];
      forall j | i < j < |init| ensures Lower(init[j].0) != x {
        assert init[j] == m[j];
      }
      LastLoweredAt(init, x, i);
    }
  }

  lemma {:induction false} LastRenamedAt<V>(m: OMap<V>, x: string, i: nat)
    requires i < |m| && Lower(m[i].0) == x && m[i].0 != x
    requires forall j :: i < j < |m| ==> Lower(m[j].0) != x
    ensures LastRenamed(m, x) == Some(m[i].1)
    decreases |m|
  {
    LastRenamedSome(m[1..], x);
    if i > 0 {
      assert m[1..][i - 1] == m[i];
      forall j | i - 1 < j < |m| - 1 ensures Lower(m[1..][j].0) != x {
        assert m[1..][j] == m[j + 1];
      }
      LastRenamedAt(m[1..], x, i - 1);
    } else {
      forall j | 0 <= j < |m| - 1 ensures Lower(m[1..][j].0) != x {
        assert m[1..][j] == m[j + 1];
      }
    }
  }

  /**
   When no two keys lower-case alike, the in-place rename and the fresh
   copy agree on every key; they differ only on case collisions.
   */
  lemma LegacyAgreesWithCopy<V>(m: OMap<V>, x: string)
    requires NoCaseCollision(m)
    ensures Get(LegacyNormalizeKeys(m), x) == Get(NormalizeKeys(m), x)
  {
    LegacyNormalizeKeysGet(m, x);
    NormalizeKeysGet(m, x);
    LastLoweredSome(m, x);
    LastRenamedSome(m, x);
    if exists i :: 0 <= i < |m| && Lower(m[i].0) == x {
      var i :| 0 <= i < |m| && Lower(m[i].0) == x;
      LowerIsLower(m[i].0);
      forall j | i < j < |m| ensures Lower(m[j].0) != x { }
      LastLoweredAt(m, x, i);
      if m[i].0 != x {
        LastRenamedAt(m, x, i);
      } else {
        forall j | 0 <= j < i ensures m[j].0 != x { }
        FindSamePrefix(m, x, i);
        assert LastRenamed(m, x).None? by {
          forall j | 0 <= j < |m| && Lower(m[j].0) == x ensures m[j].0 == x {
            assert j == i;
          }
        }
      }
    }
  }

  /**
   The two versions resolve a case collision differently: with a key `big`
   that lower-cases to `small`, placed before `small` itself, the copy keeps
   the value of the later key `small`, the in-place rename the value of the
   renamed key `big` (for example `A` and `a`).
   */
  lemma NormalizeCollision<V>(big: string, small: string, x: V, y: V)
    requires Lower(big) == small && big != small
    ensures NormalizeKeys([(big, y), (small, x)]) == [(small, x)]
    ensures LegacyNormalizeKeys([(big, y), (small, x)]) == [(small, y)]
  {
    CopyCollision(big, small, x, y);
    RenameCollision(big, small, x, y);
  }

  lemma CopyCollision<V>(big: string, small: string, x: V, y: V)
    requires Lower(big) == small && big != small
    ensures NormalizeKeys([(big, y), (small, x)]) == [(small, x)]
  {
    var m := [(big, y), (small, x)];
    LowerIsLower(big);
    assert m[..1] == [(big, y)] && m[..1][..0] == [];
    assert NormalizeKeys(m[..1]) == [(small, y)];
    assert Find([(small, y)], small) == 0;
  }

  lemma RenameCollision<V>(big: string, small: string, x: V, y: V)
    requires Lower(big) == small && big != small
    ensures LegacyNormalizeKeys([(big, y), (small, x)]) == [(small, y)]
  {
    var m := [(big, y), (small, x)];
    LowerIsLower(big);
    var put := Put(m, small, y);
    assert Find(m, small) == 1;
    assert put == [(big, y), (small, y)];
    assert Remove(put, big) == [(small, y)] by {
      assert put[1..] == [(small, y)];
      assert put[1..][1..] == [];
    }
    assert m[1..] == [(small, x)] && m[1..][1..] == [];
    assert Lower(small) == small;
    assert LegacyRename([(small, y)], m[1..]) == LegacyRename([(small, y)], m[1..][1..]);
    assert LegacyRename(m, m) == LegacyRename(Remove(put, big), m[1..]);
  }

  /**
   The load and change handlers of src/background/background.js: the
   incoming object or `{}`, each missing dictionary filled with `{}`, then
   the keys renamed in place. An absent incoming value empties the
   preferences, where the modular version keeps them.
   */
  function LegacyApply(incoming: Option<StoredPrefs>): (r: Prefs)
    ensures KeysLower(r.urls) && KeysLower(r.exactDomains) && KeysLower(r.subdomains) && KeysLower(r.rootDomains)
    ensures incoming.None? ==> r == EmptyPrefs
    ensures incoming.Some? && incoming.value.urls.None? ==> r.urls == []
    ensures incoming.Some? && incoming.value.exactDomains.None? ==> r.exactDomains == []
    ensures incoming.Some? && incoming.value.subdomains.None? ==> r.subdomains == []
    ensures incoming.Some? && incoming.value.rootDomains.None? ==> r.rootDomains == []
    ensures var p := Fill(incoming.GetOr(StoredPrefs(None, None, None, None)));
            LegacyRenamedFrom(r.urls, p.urls) && LegacyRenamedFrom(r.exactDomains, p.exactDomains) &&
            LegacyRenamedFrom(r.subdomains, p.subdomains) && LegacyRenamedFrom(r.rootDomains, p.rootDomains)
  {
    var p := Fill(incoming.GetOr(StoredPrefs(None, None, None, None)));
    LegacyNormalizeKeysRenamed(p.urls);
    LegacyNormalizeKeysRenamed(p.exactDomains);
    LegacyNormalizeKeysRenamed(p.subdomains);
    LegacyNormalizeKeysRenamed(p.rootDomains);
    Prefs(LegacyNormalizeKeys(p.urls), LegacyNormalizeKeys(p.exactDomains),
          LegacyNormalizeKeys(p.subdomains), LegacyNormalizeKeys(p.rootDomains))
  }
}
