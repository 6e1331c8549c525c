/** Generic operations over a store kept as a sequence of records: the
    in-order filter, the first-match scan and `max(..., default=0)`. */
module SeqStore {
  import opened Common

  /** The records of `s` that satisfy `p`, in store order. */
  function Filter<T>(s: seq<T>, p: T -> bool): (r: seq<T>)
    ensures |r| <= |s|
    ensures forall i :: 0 <= i < |r| ==> r[i] in s && p(r[i])
    ensures forall i :: 0 <= i < |s| && p(s[i]) ==> s[i] in r
  {
    if |s| == 0 then []
    else (if p(s[0]) then [s[0]] else []) + Filter(s[1..], p)
  }

  /** Filtering distributes over concatenation: it never reorders records. */
  lemma {:induction false} FilterAppend<T>(a: seq<T>, b: seq<T>, p: T -> bool)
    ensures Filter(a + b, p) == Filter(a, p) + Filter(b, p)
  {
    if |a| == 0 {
      assert a + b == b;
    } else {
      assert (a + b)[0] == a[0];
      assert (a + b)[1..] == a[1..] + b;
      FilterAppend(a[1..], b, p);
    }
  }

  /** One more record at the end is kept at the end exactly when it passes. */
  lemma FilterSnoc<T>(s: seq<T>, x: T, p: T -> bool)
    ensures Filter(s + [x], p) == Filter(s, p) + (if p(x) then [x] else [])
  {
    FilterAppend(s, [x], p);
    assert [x][1..] == [];
  }

  /** Filtering keeps the relative order of the records: keys that increase
      strictly along the store still do along the filtered records. */
  lemma {:induction false} FilterKeepsIncreasing<T>(s: seq<T>, p: T -> bool, key: T -> int)
    requires forall i, j :: 0 <= i < j < |s| ==> key(s[i]) < key(s[j])
    ensures forall i, j :: 0 <= i < j < |Filter(s, p)| ==> key(Filter(s, p)[i]) < key(Filter(s, p)[j])
  {
    if |s| > 0 {
      var tail := s[1..];
      assert forall i, j :: 0 <= i < j < |tail| ==> key(tail[i]) < key(tail[j]) by {
        forall i, j | 0 <= i < j < |tail| ensures key(tail[i]) < key(tail[j]) {
          assert tail[i] == s[i + 1] && tail[j] == s[j + 1];
        }
      }
      FilterKeepsIncreasing(tail, p, key);
      var ft := Filter(tail, p);
      forall k | 0 <= k < |ft| ensures key(s[0]) < key(ft[k]) {
        var m :| 0 <= m < |tail| && tail[m] == ft[k];
        assert tail[m] == s[m + 1];
      }
    }
  }

  /** A filter that keeps every record keeps the store as it is. */
  lemma {:induction false} FilterAll<T>(s: seq<T>, p: T -> bool)
    requires forall i :: 0 <= i < |s| ==> p(s[i])
    ensures Filter(s, p) == s
  {
    if |s| > 0 {
      FilterAll(s[1..], p);
    }
  }

  /** A filter that rejects every record leaves nothing. */
  lemma {:induction false} FilterNone<T>(s: seq<T>, p: T -> bool)
    requires forall i :: 0 <= i < |s| ==> !p(s[i])
    ensures Filter(s, p) == []
  {
    if |s| > 0 {
      FilterNone(s[1..], p);
    }
  }

  /** When exactly the first `k` records satisfy `p`, the filter keeps that prefix. */
  lemma FilterPrefix<T>(s: seq<T>, k: nat, p: T -> bool)
    requires k <= |s|
    requires forall i :: 0 <= i < k ==> p(s[i])
    requires forall i :: k <= i < |s| ==> !p(s[i])
    ensures Filter(s, p) == s[..k]
  {
    assert s == s[..k] + s[k..];
    FilterAppend(s[..k], s[k..], p);
    FilterAll(s[..k], p);
    FilterNone(s[k..], p);
  }

  /** When exactly the records from `k` on satisfy `p`, the filter keeps that suffix. */
  lemma FilterSuffix<T>(s: seq<T>, k: nat, p: T -> bool)
    requires k <= |s|
    requires forall i :: 0 <= i < k ==> !p(s[i])
    requires forall i :: k <= i < |s| ==> p(s[i])
    ensures Filter(s, p) == s[k..]
  {
    assert s == s[..k] + s[k..];
    FilterAppend(s[..k], s[k..], p);
    FilterNone(s[..k], p);
    FilterAll(s[k..], p);
  }

  /** The filter keeps the full length exactly when every record passes. */
  lemma {:induction false} FilterLengthIff<T>(s: seq<T>, p: T -> bool)
    ensures |Filter(s, p)| == |s| <==> forall i :: 0 <= i < |s| ==> p(s[i])
  {
    if |s| > 0 {
      FilterLengthIff(s[1..], p);
      assert forall i :: 1 <= i < |s| ==> s[i] == s[1..][i - 1];
      if !p(s[0]) {
        assert |Filter(s, p)| == |Filter(s[1..], p)| <= |s| - 1;
      }
    }
  }

  /** The index of the first record satisfying `p`, as a `for` loop with an
      early `return` finds it. */
  function FindFirst<T>(s: seq<T>, p: T -> bool): (r: Option<nat>)
    ensures r.Some? ==> r.value < |s| && p(s[r.value])
    ensures r.Some? ==> forall j :: 0 <= j < r.value ==> !p(s[j])
    ensures r.None? ==> forall j :: 0 <= j < |s| ==> !p(s[j])
  {
    if |s| == 0 then None
    else if p(s[0]) then Some(0)
    else match FindFirst(s[1..], p)
      case None => None
      case Some(k) => Some(k + 1)
  }

  /** Appending a record that satisfies `p` to a store where none does makes
      it the first match. */
  lemma FindFirstAppendFresh<T>(s: seq<T>, x: T, p: T -> bool)
    requires forall i :: 0 <= i < |s| ==> !p(s[i])
    requires p(x)
    ensures FindFirst(s + [x], p) == Some(|s|)
  {
    var t := s + [x];
    assert t[|s|] == x;
    assert forall i :: 0 <= i < |s| ==> t[i] == s[i];
  }

  /** Replaces every record satisfying `p` by `x`, in place. */
  function ReplaceWhere<T>(s: seq<T>, p: T -> bool, x: T): (r: seq<T>)
    ensures |r| == |s|
    ensures forall i :: 0 <= i < |s| ==> r[i] == (if p(s[i]) then x else s[i])
  {
    seq(|s|, i requires 0 <= i < |s| => if p(s[i]) then x else s[i])
  }

  /** `max(xs, default=0)`. */
  function MaxOrZero(xs: seq<int>): (m: int)
    ensures forall i :: 0 <= i < |xs| ==> xs[i] <= m
    ensures |xs| > 0 ==> exists i :: 0 <= i < |xs| && xs[i] == m
    ensures |xs| == 0 ==> m == 0
  {
    if |xs| == 0 then 0
    else if |xs| == 1 then xs[0]
    else
      var rest := MaxOrZero(xs[1..]);
      assert forall i :: 1 <= i < |xs| ==> xs[i] == xs[1..][i-1];
      if xs[0] >= rest then xs[0] else rest
  }

  /** Removes position `i`, as `del records[i]` does. */
  function RemoveAt<T>(s: seq<T>, i: nat): (r: seq<T>)
    requires i < |s|
    ensures |r| == |s| - 1
    ensures forall j :: 0 <= j < i ==> r[j] == s[j]
    ensures forall j :: i <= j < |r| ==> r[j] == s[j + 1]
  {
    s[..i] + s[i + 1..]
  }

  /** The id the CSV repositories assign on create: `max(ids, default=0) + 1`. */
  function NextId<T>(s: seq<T>, key: T -> int): (n: int)
    ensures forall i :: 0 <= i < |s| ==> key(s[i]) < n
    ensures |s| == 0 ==> n == 1
    ensures |s| > 0 ==> exists i :: 0 <= i < |s| && key(s[i]) == n - 1
  {
    var ids := seq(|s|, i requires 0 <= i < |s| => key(s[i]));
    assert forall i :: 0 <= i < |s| ==> ids[i] == key(s[i]);
    MaxOrZero(ids) + 1
  }

  /** The keys of `m` in `[lo, hi)`, ascending: the order in which a dict
      whose keys were inserted in increasing order yields them. */
  function KeysBetween<V>(m: map<int, V>, lo: int, hi: int): (ks: seq<int>)
    ensures forall i :: 0 <= i < |ks| ==> ks[i] in m && lo <= ks[i] < hi
    ensures forall i, j :: 0 <= i < j < |ks| ==> ks[i] < ks[j]
    ensures forall k :: k in m && lo <= k < hi ==> k in ks
    decreases hi - lo
  {
    if lo >= hi then []
    else (if lo in m then [lo] else []) + KeysBetween(m, lo + 1, hi)
  }

  /** No two records share a key. */
  ghost predicate UniqueKeys<T>(s: seq<T>, key: T -> int)
  {
    forall i, j :: 0 <= i < j < |s| ==> key(s[i]) != key(s[j])
  }

  /** Appending a record under `NextId` keeps the keys unique. */
  lemma AppendNextIdUnique<T>(s: seq<T>, key: T -> int, x: T)
    requires UniqueKeys(s, key)
    requires key(x) == NextId(s, key)
    ensures UniqueKeys(s + [x], key)
  {
    var t := s + [x];
    forall i, j | 0 <= i < j < |t| ensures key(t[i]) != key(t[j]) {
      if j == |s| {
        assert t[i] == s[i];
      } else {
        assert t[i] == s[i] && t[j] == s[j];
      }
    }
  }
}
