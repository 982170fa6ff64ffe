/**
 JavaScript plain objects used as dictionaries, with their property order.

 A `for...in` loop and `Object.entries` visit string keys in insertion order;
 assigning to an existing key keeps its place, a new key goes to the end and
 `delete` removes the key. An `OMap` is the sequence of entries in that order.
 */
module OrderedMaps {
  import opened Values

  type OMap<V> = seq<(string, V)>

  /** The keys are pairwise distinct, as in any JavaScript object. */
  ghost predicate Valid<V>(m: OMap<V>) {
    forall i, j :: 0 <= i < j < |m| ==> m[i].0 != m[j].0
  }

  predicate HasKey<V>(m: OMap<V>, k: string) {
    exists i :: 0 <= i < |m| && m[i].0 == k
  }

  function Keys<V>(m: OMap<V>): (ks: seq<string>)
    ensures |ks| == |m|
    ensures forall i :: 0 <= i < |m| ==> ks[i] == m[i].0
  {
    seq(|m|, i requires 0 <= i < |m| => m[i].0)
  }

  /** Position of the first entry with key `k`, or -1. */
  function Find<V>(m: OMap<V>, k: string): (i: int)
    ensures -1 <= i < |m|
    ensures 0 <= i ==> m[i].0 == k
    ensures forall j :: 0 <= j < |m| && (i < 0 || j < i) ==> m[j].0 != k
  {
    if |m| == 0 then -1
    else if m[0].0 == k then 0
    else
      var j := Find(m[1..], k);
      if j < 0 then -1 else j + 1
  }

  /** `obj[k]`: the value under `k`, or `None` for `undefined`. */
  function Get<V>(m: OMap<V>, k: string): (r: Option<V>)
    ensures r.Some? <==> HasKey(m, k)
  {
    var i := Find(m, k);
    if i < 0 then None else Some(m[i].1)
  }

  /** `obj[k] || d`, for values where only `undefined` is falsy. */
  function GetOr<V>(m: OMap<V>, k: string, d: V): V {
    Get(m, k).GetOr(d)
  }

  /** `obj[k] = v`: overwrite in place, or append a new key. */
  function Put<V>(m: OMap<V>, k: string, v: V): (r: OMap<V>)
    ensures Get(r, k) == Some(v)
    ensures forall k' :: k' != k ==> Get(r, k') == Get(m, k')
  {
    var i := Find(m, k);
    if i >= 0 then
      var r := m[i := (k, v)];
      FindSamePrefix(r, k, i);
      forall k' | k' != k ensures Get(r, k') == Get(m, k') {
        FindSameKeys(m, r, k');
      }
      r
    else
      var r := m + [(k, v)];
      FindSamePrefix(r, k, |m|);
      forall k' | k' != k ensures Get(r, k') == Get(m, k') {
        FindAppendOther(m, k, v, k');
      }
      r
  }

  /** A new key goes to the end; an existing key keeps its place. */
  lemma PutKeys<V>(m: OMap<V>, k: string, v: V)
    ensures Keys(Put(m, k, v)) == if HasKey(m, k) then Keys(m) else Keys(m) + [k]
  {
  }

  /** `Put` overwrites the first entry under `k` in place, or appends. */
  lemma PutShape<V>(m: OMap<V>, k: string, v: V)
    ensures Put(m, k, v) == if Find(m, k) >= 0 then m[Find(m, k) := (k, v)] else m + [(k, v)]
  {
  }

  /** `delete obj[k]`: the entries under other keys, in order. */
  function Remove<V>(m: OMap<V>, k: string): (r: OMap<V>)
    ensures forall i :: 0 <= i < |r| ==> r[i] in m && r[i].0 != k
    ensures forall i :: 0 <= i < |m| && m[i].0 != k ==> m[i] in r
    ensures |r| <= |m|
  {
    if |m| == 0 then []
    else if m[0].0 == k then Remove(m[1..], k)
    else [m[0]] + Remove(m[1..], k)
  }

  /** Looking up in a non-empty map inspects the first entry, then the rest. */
  lemma GetUnfold<V>(m: OMap<V>, k: string)
    requires |m| > 0
    ensures Get(m, k) == if m[0].0 == k then Some(m[0].1) else Get(m[1..], k)
  {
  }

  lemma GetCons<V>(e: (string, V), t: OMap<V>, k: string)
    ensures Get([e] + t, k) == if e.0 == k then Some(e.1) else Get(t, k)
  {
    assert ([e] + t)[1..] == t;
    GetUnfold([e] + t, k);
  }

  lemma {:induction false} GetRemove<V>(m: OMap<V>, k: string, k': string)
    ensures Get(Remove(m, k), k') == if k' == k then None else Get(m, k')
    decreases |m|
  {
    if |m| > 0 {
      GetRemove(m[1..], k, k');
      GetUnfold(m, k');
      if m[0].0 != k {
        GetCons(m[0], Remove(m[1..], k), k');
      }
    }
  }

  /** Deleting a key the map does not hold changes nothing. */
  lemma {:induction false} RemoveAbsent<V>(m: OMap<V>, k: string)
    requires !HasKey(m, k)
    ensures Remove(m, k) == m
    decreases |m|
  {
    if |m| > 0 {
      HasKeyCons(m, k);
      RemoveAbsent(m[1..], k);
      assert m == [m[0]] + m[1..];
    }
  }

  // ---- Find over related sequences ----

  lemma FindSamePrefix<V>(r: OMap<V>, k: string, i: nat)
    requires i < |r| && r[i].0 == k
    requires forall j :: 0 <= j < i ==> r[j].0 != k
    ensures Find(r, k) == i
  {
  }

  lemma {:induction false} FindSameKeys<V>(m: OMap<V>, r: OMap<V>, k: string)
    requires |m| == |r|
    requires forall j :: 0 <= j < |m| ==> (m[j].0 == k <==> r[j].0 == k)
    ensures Find(m, k) == Find(r, k)
    decreases |m|
  {
    if |m| > 0 {
      FindSameKeys(m[1..], r[1..], k);
    }
  }

  lemma {:induction false} FindAppendOther<V>(m: OMap<V>, k: string, v: V, k': string)
    requires k' != k
    ensures Find(m + [(k, v)], k') == Find(m, k')
    decreases |m|
  {
    if |m| > 0 {
      assert (m + [(k, v)])[1..] == m[1..] + [(k, v)];
      FindAppendOther(m[1..], k, v, k');
    }
  }

  lemma GetIndex<V>(m: OMap<V>, i: nat)
    requires Valid(m) && i < |m|
    ensures Get(m, m[i].0) == Some(m[i].1)
  {
  }

  /** Every entry of `Put(m, k, v)` is an entry of `m` under another key, or `(k, v)`. */
  lemma PutEntries<V>(m: OMap<V>, k: string, v: V)
    requires Valid(m)
    ensures forall i :: 0 <= i < |Put(m, k, v)| ==> Put(m, k, v)[i] == (k, v) || (Put(m, k, v)[i] in m && Put(m, k, v)[i].0 != k)
  {
  }

  lemma ValidCons<V>(e: (string, V), m: OMap<V>)
    requires Valid(m) && forall i :: 0 <= i < |m| ==> m[i].0 != e.0
    ensures Valid([e] + m)
  {
    forall i, j | 0 <= i < j < |[e] + m| ensures ([e] + m)[i].0 != ([e] + m)[j].0 {
      if i > 0 { assert ([e] + m)[i] == m[i - 1]; }
      assert ([e] + m)[j] == m[j - 1];
    }
  }

  lemma ValidPut<V>(m: OMap<V>, k: string, v: V)
    requires Valid(m)
    ensures Valid(Put(m, k, v))
  {
    var r := Put(m, k, v);
    PutKeys(m, k, v);
    forall i, j | 0 <= i < j < |r| ensures r[i].0 != r[j].0 {
      assert Keys(r)[i] == r[i].0 && Keys(r)[j] == r[j].0;
    }
  }

  lemma ValidRemove<V>(m: OMap<V>, k: string)
    requires Valid(m)
    ensures Valid(Remove(m, k))
  {
    if |m| > 0 && m[0].0 != k {
      ValidRemove(m[1..], k);
      var r := Remove(m, k);
      forall j | 0 < j < |r| ensures r[0].0 != r[j].0 {
        assert r[j] in Remove(m[1..], k);
        assert r[j] in m[1..];
      }
    } else if |m| > 0 {
      ValidRemove(m[1..], k);
    }
  }

  // ---- Sums of the values ----

  /** The sum of `f` over the values, in entry order. */
  function SumBy<V>(m: OMap<V>, f: V -> int): int {
    if |m| == 0 then 0 else f(m[0].1) + SumBy(m[1..], f)
  }

  function IntValue(x: int): int { x }

  /** The sum of a dictionary of numbers (`Object.values(o)` added up). */
  function Sum(m: OMap<int>): int {
    SumBy(m, IntValue)
  }

  lemma {:induction false} SumByConcat<V>(a: OMap<V>, b: OMap<V>, f: V -> int)
    ensures SumBy(a + b, f) == SumBy(a, f) + SumBy(b, f)
    decreases |a|
  {
    if |a| > 0 {
      assert (a + b)[0] == a[0] && (a + b)[1..] == a[1..] + b;
      SumByConcat(a[1..], b, f);
    } else {
      assert a + b == b;
    }
  }

  lemma SumBySplit<V>(m: OMap<V>, i: nat, f: V -> int)
    requires i < |m|
    ensures SumBy(m, f) == SumBy(m[..i], f) + f(m[i].1) + SumBy(m[i + 1..], f)
  {
    assert m == m[..i] + [m[i]] + m[i + 1..];
    SumByConcat(m[..i] + [m[i]], m[i + 1..], f);
    SumByConcat(m[..i], [m[i]], f);
  }

  /** Overwriting one entry changes the sum by the difference. */
  lemma SumByPut<V>(m: OMap<V>, k: string, v: V, f: V -> int)
    ensures SumBy(Put(m, k, v), f) ==
            SumBy(m, f) + f(v) - (match Get(m, k) case Some(w) => f(w) case None => 0)
  {
    var i := Find(m, k);
    if i >= 0 {
      var r := m[i := (k, v)];
      SumBySplit(m, i, f);
      SumBySplit(r, i, f);
      assert r[..i] == m[..i] && r[i + 1..] == m[i + 1..];
    } else {
      SumByConcat(m, [(k, v)], f);
    }
  }

  /** Deleting a key of a valid map subtracts its value. */
  lemma {:induction false} SumByRemove<V>(m: OMap<V>, k: string, f: V -> int)
    requires Valid(m)
    ensures SumBy(Remove(m, k), f) ==
            SumBy(m, f) - (match Get(m, k) case Some(w) => f(w) case None => 0)
    decreases |m|
  {
    if |m| > 0 {
      SumByRemove(m[1..], k, f);
      if m[0].0 == k {
        forall j | 0 <= j < |m| - 1 ensures m[1..][j].0 != k {
          assert m[0].0 != m[j + 1].0;
        }
      } else {
        assert Get(m, k) == Get(m[1..], k);
      }
    }
  }
  // ---- Prefixes and tails ----

  /** A valid map read as its first entry followed by the rest. */
  lemma HasKeyTail<V>(m: OMap<V>, k: string)
    requires Valid(m) && |m| > 0
    ensures Valid(m[1..])
    ensures HasKey(m, k) <==> k == m[0].0 || HasKey(m[1..], k)
    ensures k == m[0].0 ==> !HasKey(m[1..], k)
    ensures Get(m, k) == if k == m[0].0 then Some(m[0].1) else Get(m[1..], k)
  {
    GetUnfold(m, k);
    if HasKey(m, k) && k != m[0].0 {
      var j :| 0 <= j < |m| && m[j].0 == k;
      assert m[1..][j - 1].0 == k;
    }
    if HasKey(m[1..], k) {
      var j :| 0 <= j < |m| - 1 && m[1..][j].0 == k;
      assert m[j + 1].0 == k;
    }
  }

  /** Any map read as its first entry followed by the rest. */
  lemma HasKeyCons<V>(m: OMap<V>, k: string)
    requires |m| > 0
    ensures HasKey(m, k) <==> k == m[0].0 || HasKey(m[1..], k)
  {
    if HasKey(m, k) && k != m[0].0 {
      var j :| 0 <= j < |m| && m[j].0 == k;
      assert m[1..][j - 1].0 == k;
    }
    if HasKey(m[1..], k) {
      var j :| 0 <= j < |m| - 1 && m[1..][j].0 == k;
      assert m[j + 1].0 == k;
    }
  }

  /** The keys of the first `i + 1` entries are those of the first `i` and the `i`-th. */
  lemma HasKeyPrefix<V>(m: OMap<V>, i: nat, k: string)
    requires i < |m|
    ensures HasKey(m[..i + 1], k) <==> HasKey(m[..i], k) || m[i].0 == k
  {
    if HasKey(m[..i + 1], k) && m[i].0 != k {
      var j :| 0 <= j < i + 1 && m[..i + 1][j].0 == k;
      assert m[..i][j].0 == k;
    }
    if HasKey(m[..i], k) {
      var j :| 0 <= j < i && m[..i][j].0 == k;
      assert m[..i + 1][j].0 == k;
    }
    if m[i].0 == k {
      assert m[..i + 1][i].0 == k;
    }
  }

  /** An entry's key is a key of the map. */
  lemma EntryHasKey<V>(m: OMap<V>, e: (string, V))
    ensures e in m ==> HasKey(m, e.0)
  {
    if e in m {
      var j :| 0 <= j < |m| && m[j] == e;
      assert m[j].0 == e.0;
    }
  }

  lemma ValidPrefix<V>(m: OMap<V>, n: nat)
    requires Valid(m) && n <= |m|
    ensures Valid(m[..n])
  {
    forall i, j | 0 <= i < j < n ensures m[..n][i].0 != m[..n][j].0 {
      assert m[..n][i] == m[i] && m[..n][j] == m[j];
    }
  }

  /** In a valid map the `i`-th key does not occur before position `i`. */
  lemma FreshInPrefix<V>(m: OMap<V>, i: nat)
    requires Valid(m) && i < |m|
    ensures !HasKey(m[..i], m[i].0)
  {
    forall j | 0 <= j < i ensures m[..i][j].0 != m[i].0 {
      assert m[..i][j] == m[j];
    }
  }

  /** The sum over the first `i + 1` entries. */
  lemma SumByPrefix<V>(m: OMap<V>, i: nat, f: V -> int)
    requires i < |m|
    ensures SumBy(m[..i + 1], f) == SumBy(m[..i], f) + f(m[i].1)
  {
    assert m[..i + 1] == m[..i] + [m[i]];
    SumByConcat(m[..i], [m[i]], f);
  }
}
