/** The round-robin cursor both generators keep over their ordered list of
    subtypes (`current_type_index`). */
module Rotation {

  /** `_get_next_*_type`: the subtype under the cursor and the advanced cursor. */
  function Next<T>(types: seq<T>, index: nat): (r: (T, nat))
    requires index < |types|
    ensures r.0 == types[index]
    ensures r.1 < |types|
    ensures r.1 == if index == |types| - 1 then 0 else index + 1
  {
    (types[index], (index + 1) % |types|)
  }

  /** The cursor after `k` calls of `Next` from `index`. */
  function IndexAfter<T>(types: seq<T>, index: nat, k: nat): (r: nat)
    requires index < |types|
    ensures r < |types|
    decreases k
  {
    if k == 0 then index else IndexAfter(types, Next(types, index).1, k - 1)
  }

  /** The subtypes handed out by `k` successive calls of `Next` from `index`. */
  function Produced<T>(types: seq<T>, index: nat, k: nat): (out: seq<T>)
    requires index < |types|
    ensures |out| == k
    decreases k
  {
    if k == 0 then [] else [Next(types, index).0] + Produced(types, Next(types, index).1, k - 1)
  }

  /** Within one pass the cursor moves one place per call and wraps once. */
  lemma {:induction false} IndexAfterWraps<T>(types: seq<T>, index: nat, k: nat)
    requires index < |types| && k <= |types|
    ensures IndexAfter(types, index, k)
         == if index + k < |types| then index + k else index + k - |types|
    decreases k
  {
    if k > 0 {
      IndexAfterWraps(types, Next(types, index).1, k - 1);
    }
  }

  /** The `j`-th subtype handed out is the one under the cursor after `j` calls. */
  lemma {:induction false} ProducedAt<T>(types: seq<T>, index: nat, k: nat, j: nat)
    requires index < |types| && j < k
    ensures Produced(types, index, k)[j] == types[IndexAfter(types, index, j)]
    decreases k
  {
    if j > 0 {
      ProducedAt(types, Next(types, index).1, k - 1, j - 1);
    }
  }

  /** Calls compose: `a + b` calls are `a` calls followed by `b` more. */
  lemma {:induction false} ProducedSplit<T>(types: seq<T>, index: nat, a: nat, b: nat)
    requires index < |types|
    ensures Produced(types, index, a + b)
         == Produced(types, index, a) + Produced(types, IndexAfter(types, index, a), b)
    decreases a
  {
    if a > 0 {
      var next := Next(types, index).1;
      ProducedSplit(types, next, a - 1, b);
      assert a + b - 1 == (a - 1) + b;
    }
  }

  /** One full round hands out the list rotated to start at the cursor, and
      leaves the cursor where it started. */
  lemma FullRound<T>(types: seq<T>, index: nat)
    requires index < |types|
    ensures Produced(types, index, |types|) == types[index..] + types[..index]
    ensures IndexAfter(types, index, |types|) == index
  {
    var n := |types|;
    var rot := types[index..] + types[..index];
    forall j | 0 <= j < n
      ensures Produced(types, index, n)[j] == rot[j]
    {
      ProducedAt(types, index, n, j);
      IndexAfterWraps(types, index, j);
    }
    IndexAfterWraps(types, index, n);
  }

  /** `m` copies of a multiset. */
  function MultisetTimes<T>(s: multiset<T>, m: nat): multiset<T>
  {
    if m == 0 then multiset{} else s + MultisetTimes(s, m - 1)
  }

  lemma {:induction false} MultisetTimesCount<T>(s: multiset<T>, m: nat, x: T)
    ensures MultisetTimes(s, m)[x] == m * s[x]
  {
    if m > 0 {
      MultisetTimesCount(s, m - 1, x);
      assert MultisetTimes(s, m)[x] == s[x] + MultisetTimes(s, m - 1)[x];
      MulPred(m, s[x]);
    }
  }

  /** Over `m` full rounds every subtype is handed out `m` times as often as
      it is listed. */
  lemma {:induction false} RoundsCount<T>(types: seq<T>, index: nat, m: nat)
    requires index < |types|
    ensures multiset(Produced(types, index, m * |types|)) == MultisetTimes(multiset(types), m)
  {
    if m > 0 {
      var round := types[index..] + types[..index];
      var more := Produced(types, index, (m - 1) * |types|);
      var all := Produced(types, index, m * |types|);
      var once := multiset(types);
      RoundUnfold(types, index, m);
      assert all == round + more;
      RoundsCount(types, index, m - 1);
      assert multiset(more) == MultisetTimes(once, m - 1);
      RotatedSame(types, index);
      assert multiset(all) == multiset(round) + multiset(more);
      assert MultisetTimes(once, m) == once + MultisetTimes(once, m - 1);
    }
  }

  lemma RotatedSame<T>(types: seq<T>, index: nat)
    requires index <= |types|
    ensures multiset(types[index..] + types[..index]) == multiset(types)
  {
    assert types[..index] + types[index..] == types;
  }

  /** `m` rounds are one round followed by `m - 1` rounds. */
  lemma RoundUnfold<T>(types: seq<T>, index: nat, m: nat)
    requires index < |types| && m > 0
    ensures Produced(types, index, m * |types|)
         == (types[index..] + types[..index]) + Produced(types, index, (m - 1) * |types|)
  {
    var n := |types|;
    var rest := (m - 1) * n;
    assert m * n == n + rest by { MulPred(m, n); }
    ProducedSplit(types, index, n, rest);
    FullRound(types, index);
  }

  lemma MulPred(m: nat, n: nat)
    requires m > 0
    ensures m * n == n + (m - 1) * n
  {
  }

  /** With distinct subtypes, `m` full rounds produce each exactly `m` times. */
  lemma RoundsFair<T>(types: seq<T>, index: nat, m: nat, j: nat)
    requires index < |types| && j < |types|
    requires forall a, b :: 0 <= a < b < |types| ==> types[a] != types[b]
    ensures multiset(Produced(types, index, m * |types|))[types[j]] == m
  {
    RoundsCount(types, index, m);
    MultisetTimesCount(multiset(types), m, types[j]);
    DistinctCountOne(types, j);
  }

  lemma {:induction false} DistinctCountOne<T>(types: seq<T>, j: nat)
    requires j < |types|
    requires forall a, b :: 0 <= a < b < |types| ==> types[a] != types[b]
    ensures multiset(types)[types[j]] == 1
  {
    var x := types[j];
    assert types == types[..j] + [x] + types[j + 1..];
    assert x !in types[..j];
    assert x !in types[j + 1..];
  }
}
