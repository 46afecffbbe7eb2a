/** Sequence utilities shared by the invoice components: an Option type,
    the iteration order of a JavaScript `Set` (first appearance), keyed sums
    kept in the insertion order of a JavaScript `Map`, and the stable
    descending sort used for the "most purchased items" ranking. */
module Collections {

  datatype Option<+T> = None | Some(value: T)

  predicate NoDuplicates<T(==)>(s: seq<T>) {
    forall i, j :: 0 <= i < j < |s| ==> s[i] != s[j]
  }

  /** The position of the first occurrence of x in s. */
  function FirstIndex<T(==)>(s: seq<T>, x: T): (i: nat)
    requires x in s
    ensures i < |s| && s[i] == x
    ensures forall j :: 0 <= j < i ==> s[j] != x
  {
    if s[0] == x then 0 else 1 + FirstIndex(s[1..], x)
  }

  /** The position of the last occurrence of x in s. */
  function LastIndex<T(==)>(s: seq<T>, x: T): (i: nat)
    requires x in s
    ensures i < |s| && s[i] == x
    ensures forall j :: i < j < |s| ==> s[j] != x
  {
    if s[|s| - 1] == x then |s| - 1
    else
      assert x in s[..|s| - 1] by {
        var k :| 0 <= k < |s| && s[k] == x;
        assert s[..|s| - 1][k] == x;
      }
      LastIndex(s[..|s| - 1], x)
  }

  /** Number of occurrences of x in s. */
  function Occurrences<T(==)>(s: seq<T>, x: T): nat
  {
    if |s| == 0 then 0
    else Occurrences(s[..|s| - 1], x) + (if s[|s| - 1] == x then 1 else 0)
  }

  /** The elements of s, each once, in order of first appearance: what
      `Array.from(new Set(s))` yields, since adding a value a Set already
      holds leaves its iteration order unchanged. */
  function Distinct<T(==)>(s: seq<T>): (r: seq<T>)
    ensures NoDuplicates(r)
  {
    if |s| == 0 then []
    else
      var d := Distinct(s[..|s| - 1]);
      if s[|s| - 1] in d then d else d + [s[|s| - 1]]
  }

  /** `Distinct` keeps exactly the elements of s. */
  lemma {:induction false} DistinctMembers<T>(s: seq<T>)
    ensures forall i :: 0 <= i < |Distinct(s)| ==> Distinct(s)[i] in s
    ensures forall i :: 0 <= i < |s| ==> s[i] in Distinct(s)
  {
    if |s| > 0 {
      var init := s[..|s| - 1];
      DistinctMembers(init);
      assert forall i :: 0 <= i < |s| - 1 ==> s[i] == init[i];
    }
  }

  lemma FirstIndexOfPrefix<T>(p: seq<T>, q: seq<T>, x: T)
    requires x in p
    ensures FirstIndex(p + q, x) == FirstIndex(p, x)
  {
    var i, k := FirstIndex(p + q, x), FirstIndex(p, x);
    assert (p + q)[k] == x;
  }

  /** `Distinct` lists the elements in the order of their first occurrence in s. */
  lemma {:induction false} DistinctFirstAppearance<T>(s: seq<T>)
    ensures forall i :: 0 <= i < |Distinct(s)| ==> Distinct(s)[i] in s
    ensures forall i, j :: 0 <= i < j < |Distinct(s)| ==>
              FirstIndex(s, Distinct(s)[i]) < FirstIndex(s, Distinct(s)[j])
  {
    DistinctMembers(s);
    if |s| > 0 {
      var init, y := s[..|s| - 1], s[|s| - 1];
      DistinctFirstAppearance(init);
      DistinctMembers(init);
      var d := Distinct(init);
      assert s == init + [y];
      forall i | 0 <= i < |d|
        ensures FirstIndex(s, d[i]) == FirstIndex(init, d[i]) < |init|
      {
        FirstIndexOfPrefix(init, [y], d[i]);
      }
      if y !in d {
        assert y !in init;
        assert FirstIndex(s, y) == |s| - 1;
        assert Distinct(s) == d + [y];
      }
    }
  }

  /** A list without duplicates is as long as the set of its elements. */
  lemma {:induction false} NoDuplicatesCardinality<T>(s: seq<T>)
    requires NoDuplicates(s)
    ensures |set x | x in s| == |s|
  {
    if |s| > 0 {
      var init, y := s[..|s| - 1], s[|s| - 1];
      assert s == init + [y];
      NoDuplicatesCardinality(init);
      assert (set x | x in s) == (set x | x in init) + {y};
      assert y !in (set x | x in init);
    }
  }

  /** For a duplicate-free list, each listed value occurs exactly once. */
  lemma {:induction false} OccurrencesNoDuplicates<T>(s: seq<T>, x: T)
    requires NoDuplicates(s)
    ensures Occurrences(s, x) == if x in s then 1 else 0
  {
    if |s| > 0 {
      var init := s[..|s| - 1];
      assert s == init + [s[|s| - 1]];
      OccurrencesNoDuplicates(init, x);
    }
  }

  lemma {:induction false} OccurrencesAbsent<T>(s: seq<T>, x: T)
    requires x !in s
    ensures Occurrences(s, x) == 0
  {
    if |s| > 0 {
      assert s == s[..|s| - 1] + [s[|s| - 1]];
      OccurrencesAbsent(s[..|s| - 1], x);
    }
  }

  /** Sum, over a list of keys, of each key's number of occurrences in s. */
  function OccurrencesOver<T(==)>(keys: seq<T>, s: seq<T>): nat
  {
    if |keys| == 0 then 0
    else OccurrencesOver(keys[..|keys| - 1], s) + Occurrences(s, keys[|keys| - 1])
  }

  lemma {:induction false} OccurrencesOverSnoc<T>(keys: seq<T>, s: seq<T>, y: T)
    ensures OccurrencesOver(keys, s + [y]) == OccurrencesOver(keys, s) + Occurrences(keys, y)
  {
    if |keys| > 0 {
      OccurrencesOverSnoc(keys[..|keys| - 1], s, y);
      assert (s + [y])[..|s|] == s;
    }
  }

  /** Counting each distinct value's occurrences accounts for every element once. */
  lemma {:induction false} DistinctOccurrencesPartition<T>(s: seq<T>)
    ensures OccurrencesOver(Distinct(s), s) == |s|
  {
    if |s| > 0 {
      var init, y := s[..|s| - 1], s[|s| - 1];
      assert s == init + [y];
      var d := Distinct(init);
      DistinctOccurrencesPartition(init);
      OccurrencesOverSnoc(d, init, y);
      OccurrencesNoDuplicates(d, y);
      if y !in d {
        assert (d + [y])[..|d|] == d;
        DistinctMembers(init);
        OccurrencesAbsent(init, y);
      }
    }
  }

  // ---------------------------------------------------------------------
  // Keyed sums in insertion order (a JavaScript Map<K, number>)
  // ---------------------------------------------------------------------

  datatype Bucket<K> = Bucket(key: K, amount: real)

  function Keys<K>(bs: seq<Bucket<K>>): (ks: seq<K>)
    ensures |ks| == |bs|
    ensures forall i :: 0 <= i < |bs| ==> ks[i] == bs[i].key
  {
    seq(|bs|, i requires 0 <= i < |bs| => bs[i].key)
  }

  /** Sum of all amounts. */
  function Total<K>(bs: seq<Bucket<K>>): real
  {
    if |bs| == 0 then 0.0 else Total(bs[..|bs| - 1]) + bs[|bs| - 1].amount
  }

  /** Sum of the amounts carrying key k. */
  function AmountFor<K(==)>(bs: seq<Bucket<K>>, k: K): real
  {
    if |bs| == 0 then 0.0
    else AmountFor(bs[..|bs| - 1], k) + (if bs[|bs| - 1].key == k then bs[|bs| - 1].amount else 0.0)
  }

  /** `map.get(k) || 0` on a map with unique keys. */
  function GetOrZero<K(==)>(bs: seq<Bucket<K>>, k: K): real
  {
    if k in Keys(bs) then bs[FirstIndex(Keys(bs), k)].amount else 0.0
  }

  /** `map.set(k, a)`: an existing key keeps its position, a new key goes last. */
  function Put<K(==)>(bs: seq<Bucket<K>>, k: K, a: real): seq<Bucket<K>>
  {
    if k in Keys(bs) then bs[FirstIndex(Keys(bs), k) := Bucket(k, a)] else bs + [Bucket(k, a)]
  }

  lemma {:induction false} TotalUpdate<K>(bs: seq<Bucket<K>>, i: nat, b: Bucket<K>)
    requires i < |bs|
    ensures Total(bs[i := b]) == Total(bs) - bs[i].amount + b.amount
  {
    var n := |bs| - 1;
    if i < n {
      TotalUpdate(bs[..n], i, b);
      assert bs[i := b][..n] == bs[..n][i := b];
    } else {
      assert bs[i := b][..n] == bs[..n];
    }
  }

  lemma {:induction false} TotalSnoc<K>(bs: seq<Bucket<K>>, b: Bucket<K>)
    ensures Total(bs + [b]) == Total(bs) + b.amount
  {
    assert (bs + [b])[..|bs|] == bs;
  }

  lemma {:induction false} AmountForAbsent<K>(bs: seq<Bucket<K>>, k: K)
    requires k !in Keys(bs)
    ensures AmountFor(bs, k) == 0.0
  {
    if |bs| > 0 {
      var init := bs[..|bs| - 1];
      assert Keys(bs) == Keys(init) + [bs[|bs| - 1].key];
      AmountForAbsent(init, k);
    }
  }

  /** The reduction `for (b of bs) m.set(b.key, (m.get(b.key) || 0) + b.amount)`
      starting from an empty Map: one bucket per distinct key, in order of first
      appearance, holding that key's sum. */
  function Tally<K(==)>(bs: seq<Bucket<K>>): (t: seq<Bucket<K>>)
    ensures Keys(t) == Distinct(Keys(bs))
    ensures forall i :: 0 <= i < |t| ==> t[i].amount == AmountFor(bs, t[i].key)
    ensures Total(t) == Total(bs)
  {
    if |bs| == 0 then []
    else
      var init, b := bs[..|bs| - 1], bs[|bs| - 1];
      var acc := Tally(init);
      assert bs == init + [b];
      var x := GetOrZero(acc, b.key) + b.amount;
      TallyStepKeys(init, b, acc, x);
      TallyStepAmounts(init, b, acc);
      TallyStepTotal(init, b, acc);
      Put(acc, b.key, x)
  }

  lemma DistinctSnoc<T>(s: seq<T>, x: T)
    ensures Distinct(s + [x]) == if x in Distinct(s) then Distinct(s) else Distinct(s) + [x]
  {
    assert (s + [x])[..|s|] == s;
  }

  lemma KeysSnoc<K>(bs: seq<Bucket<K>>, b: Bucket<K>)
    ensures Keys(bs + [b]) == Keys(bs) + [b.key]
  {
  }

  lemma KeysPut<K>(acc: seq<Bucket<K>>, k: K, x: real)
    ensures Keys(Put(acc, k, x)) == if k in Keys(acc) then Keys(acc) else Keys(acc) + [k]
  {
  }

  lemma TallyStepKeys<K>(init: seq<Bucket<K>>, b: Bucket<K>, acc: seq<Bucket<K>>, x: real)
    requires Keys(acc) == Distinct(Keys(init))
    ensures Keys(Put(acc, b.key, x)) == Distinct(Keys(init + [b]))
  {
    KeysSnoc(init, b);
    DistinctSnoc(Keys(init), b.key);
    KeysPut(acc, b.key, x);
  }

  lemma AmountForSnoc<K>(bs: seq<Bucket<K>>, b: Bucket<K>, k: K)
    ensures AmountFor(bs + [b], k) == AmountFor(bs, k) + (if b.key == k then b.amount else 0.0)
  {
    assert (bs + [b])[..|bs|] == bs;
  }

  lemma TallyStepAmounts<K>(init: seq<Bucket<K>>, b: Bucket<K>, acc: seq<Bucket<K>>)
    requires Keys(acc) == Distinct(Keys(init))
    requires forall i :: 0 <= i < |acc| ==> acc[i].amount == AmountFor(init, acc[i].key)
    ensures var r := Put(acc, b.key, GetOrZero(acc, b.key) + b.amount);
      forall i :: 0 <= i < |r| ==> r[i].amount == AmountFor(init + [b], r[i].key)
  {
    var r := Put(acc, b.key, GetOrZero(acc, b.key) + b.amount);
    forall i | 0 <= i < |r|
      ensures r[i].amount == AmountFor(init + [b], r[i].key)
    {
      TallyStepAmountAt(init, b, acc, i);
    }
  }

  lemma TallyStepAmountAt<K>(init: seq<Bucket<K>>, b: Bucket<K>, acc: seq<Bucket<K>>, i: nat)
    requires Keys(acc) == Distinct(Keys(init))
    requires forall i :: 0 <= i < |acc| ==> acc[i].amount == AmountFor(init, acc[i].key)
    requires i < |Put(acc, b.key, GetOrZero(acc, b.key) + b.amount)|
    ensures var r := Put(acc, b.key, GetOrZero(acc, b.key) + b.amount);
      r[i].amount == AmountFor(init + [b], r[i].key)
  {
    var r := Put(acc, b.key, GetOrZero(acc, b.key) + b.amount);
    AmountForSnoc(init, b, r[i].key);
    if b.key in Keys(acc) {
      var j := FirstIndex(Keys(acc), b.key);
      if i != j {
        assert Keys(acc)[i] != Keys(acc)[j];
      }
    } else if i == |acc| {
      DistinctMembers(Keys(init));
      AmountForAbsent(init, b.key);
    }
  }

  lemma TallyStepTotal<K>(init: seq<Bucket<K>>, b: Bucket<K>, acc: seq<Bucket<K>>)
    requires forall i :: 0 <= i < |acc| ==> acc[i].amount == AmountFor(init, acc[i].key)
    requires Total(acc) == Total(init)
    ensures Total(Put(acc, b.key, GetOrZero(acc, b.key) + b.amount)) == Total(init + [b])
  {
    TotalSnoc(init, b);
    if b.key in Keys(acc) {
      var i := FirstIndex(Keys(acc), b.key);
      TotalUpdate(acc, i, Bucket(b.key, GetOrZero(acc, b.key) + b.amount));
    } else {
      TotalSnoc(acc, Bucket(b.key, b.amount));
    }
  }

  /** Sum, over a list of keys, of each key's amount in bs. */
  function AmountOver<K(==)>(keys: seq<K>, bs: seq<Bucket<K>>): real
  {
    if |keys| == 0 then 0.0
    else AmountOver(keys[..|keys| - 1], bs) + AmountFor(bs, keys[|keys| - 1])
  }

  lemma {:induction false} TotalIsAmountOverKeys<K>(t: seq<Bucket<K>>, bs: seq<Bucket<K>>)
    requires forall i :: 0 <= i < |t| ==> t[i].amount == AmountFor(bs, t[i].key)
    ensures Total(t) == AmountOver(Keys(t), bs)
  {
    if |t| > 0 {
      var init := t[..|t| - 1];
      assert Keys(t)[..|t| - 1] == Keys(init);
      TotalIsAmountOverKeys(init, bs);
    }
  }

  /** Summing each distinct key's amount accounts for every bucket once. */
  lemma DistinctAmountPartition<K>(bs: seq<Bucket<K>>)
    ensures AmountOver(Distinct(Keys(bs)), bs) == Total(bs)
  {
    TotalIsAmountOverKeys(Tally(bs), bs);
  }

  // ---------------------------------------------------------------------
  // Stable descending sort by amount
  // ---------------------------------------------------------------------

  predicate NonIncreasing<K>(bs: seq<Bucket<K>>) {
    forall i, j :: 0 <= i < j < |bs| ==> bs[i].amount >= bs[j].amount
  }

  /** The buckets whose amount is exactly q, in their order in bs. */
  function WithAmount<K>(bs: seq<Bucket<K>>, q: real): seq<Bucket<K>>
  {
    if |bs| == 0 then []
    else WithAmount(bs[..|bs| - 1], q) + (if bs[|bs| - 1].amount == q then [bs[|bs| - 1]] else [])
  }

  lemma {:induction false} WithAmountAppend<K>(a: seq<Bucket<K>>, b: seq<Bucket<K>>, q: real)
    ensures WithAmount(a + b, q) == WithAmount(a, q) + WithAmount(b, q)
  {
    if |b| > 0 {
      var bi := b[..|b| - 1];
      assert (a + b)[..|a + b| - 1] == a + bi;
      WithAmountAppend(a, bi, q);
    } else {
      assert a + b == a;
    }
  }

  lemma {:induction false} WithAmountAllBelow<K>(bs: seq<Bucket<K>>, q: real)
    requires forall i :: 0 <= i < |bs| ==> bs[i].amount < q
    ensures WithAmount(bs, q) == []
  {
    if |bs| > 0 {
      WithAmountAllBelow(bs[..|bs| - 1], q);
    }
  }

  /** Inserts b after every bucket whose amount is at least b's. */
  function InsertDescending<K>(sorted: seq<Bucket<K>>, b: Bucket<K>): (r: seq<Bucket<K>>)
    requires NonIncreasing(sorted)
    ensures NonIncreasing(r)
    ensures multiset(r) == multiset(sorted) + multiset{b}
    ensures forall q :: WithAmount(r, q) == WithAmount(sorted, q) + WithAmount([b], q)
  {
    var k := CountAtLeast(sorted, b.amount);
    var r := sorted[..k] + [b] + sorted[k..];
    assert sorted == sorted[..k] + sorted[k..];
    forall q ensures WithAmount(r, q) == WithAmount(sorted, q) + WithAmount([b], q) {
      InsertWithAmount(sorted[..k], b, sorted[k..], q);
    }
    r
  }

  /** Placing b between a and c moves it past the buckets of c, none of
      which shares its amount. */
  lemma InsertWithAmount<K>(a: seq<Bucket<K>>, b: Bucket<K>, c: seq<Bucket<K>>, q: real)
    requires forall i :: 0 <= i < |c| ==> c[i].amount < b.amount
    ensures WithAmount(a + [b] + c, q) == WithAmount(a + c, q) + WithAmount([b], q)
  {
    WithAmountAppend(a + [b], c, q);
    WithAmountAppend(a, [b], q);
    WithAmountAppend(a, c, q);
    if b.amount == q {
      WithAmountAllBelow(c, q);
    } else {
      WithAmountSingle(b, q);
    }
    Regroup(WithAmount(a + [b] + c, q), WithAmount(a + c, q), WithAmount(a, q), WithAmount([b], q), WithAmount(c, q));
  }

  /** Sequence algebra kept apart from the filter terms it is applied to. */
  lemma Regroup<T>(x: seq<T>, y: seq<T>, u: seq<T>, v: seq<T>, w: seq<T>)
    requires x == u + v + w && y == u + w
    requires v == [] || w == []
    ensures x == y + v
  {
  }

  lemma WithAmountSingle<K>(b: Bucket<K>, q: real)
    requires b.amount != q
    ensures WithAmount([b], q) == []
  {
    assert [b][..0] == [];
  }

  /** Length of the prefix of a non-increasing list whose amounts are at least q. */
  function CountAtLeast<K>(sorted: seq<Bucket<K>>, q: real): (k: nat)
    requires NonIncreasing(sorted)
    ensures k <= |sorted|
    ensures forall i :: 0 <= i < k ==> sorted[i].amount >= q
    ensures forall i :: k <= i < |sorted| ==> sorted[i].amount < q
  {
    if |sorted| == 0 || sorted[0].amount < q then 0
    else 1 + CountAtLeast(sorted[1..], q)
  }

  /** What `Array.prototype.sort((a, b) => b.amount - a.amount)` yields: the
      sort is stable, so buckets with equal amounts keep their relative order. */
  function SortDescending<K>(bs: seq<Bucket<K>>): (r: seq<Bucket<K>>)
    ensures NonIncreasing(r)
    ensures multiset(r) == multiset(bs)
    ensures |r| == |bs|
    ensures forall q :: WithAmount(r, q) == WithAmount(bs, q)
  {
    if |bs| == 0 then []
    else
      var init, b := bs[..|bs| - 1], bs[|bs| - 1];
      assert bs == init + [b];
      var r := InsertDescending(SortDescending(init), b);
      assert |r| == |multiset(r)|;
      forall q ensures WithAmount(r, q) == WithAmount(bs, q) {
        WithAmountAppend(init, [b], q);
      }
      r
  }

  // ---------------------------------------------------------------------
  // Stability: equal amounts keep their input order
  // ---------------------------------------------------------------------

  /** The position bs[i] takes among the buckets of bs with amount q. */
  function Rank<K>(bs: seq<Bucket<K>>, q: real, i: nat): nat
    requires i <= |bs|
  {
    |WithAmount(bs[..i], q)|
  }

  lemma WithAmountPrefixSnoc<K>(bs: seq<Bucket<K>>, q: real, i: nat)
    requires i < |bs|
    ensures WithAmount(bs[..i + 1], q) == WithAmount(bs[..i], q) + (if bs[i].amount == q then [bs[i]] else [])
  {
    assert bs[..i + 1][..i] == bs[..i];
  }

  /** A bucket with amount q sits in WithAmount at its rank. */
  lemma WithAmountAt<K>(bs: seq<Bucket<K>>, q: real, i: nat)
    requires i < |bs| && bs[i].amount == q
    ensures Rank(bs, q, i) < |WithAmount(bs, q)| && WithAmount(bs, q)[Rank(bs, q, i)] == bs[i]
  {
    assert bs == bs[..i + 1] + bs[i + 1..];
    WithAmountAppend(bs[..i + 1], bs[i + 1..], q);
    WithAmountPrefixSnoc(bs, q, i);
  }

  /** Later buckets have strictly larger ranks than an earlier one with amount q. */
  lemma RankIncreases<K>(bs: seq<Bucket<K>>, q: real, i: nat, j: nat)
    requires i < j <= |bs| && bs[i].amount == q
    ensures Rank(bs, q, i) < Rank(bs, q, j)
  {
    var p := bs[..j];
    assert p == p[..i + 1] + p[i + 1..];
    WithAmountAppend(p[..i + 1], p[i + 1..], q);
    assert p[..i + 1] == bs[..i + 1];
    WithAmountPrefixSnoc(bs, q, i);
  }

  /** Every entry of WithAmount comes from a bucket with amount q at that rank. */
  lemma {:induction false} WithAmountSource<K>(bs: seq<Bucket<K>>, q: real, r: nat) returns (k: nat)
    requires r < |WithAmount(bs, q)|
    ensures k < |bs| && bs[k].amount == q && Rank(bs, q, k) == r && bs[k] == WithAmount(bs, q)[r]
  {
    var n := |bs| - 1;
    var init := bs[..n];
    if r < |WithAmount(init, q)| {
      k := WithAmountSource(init, q, r);
      assert init[..k] == bs[..k];
    } else {
      k := n;
    }
  }

  /** `SortDescending` is stable: two buckets with equal amounts come out in
      the order they went in. */
  lemma SortDescendingStable<K>(bs: seq<Bucket<K>>, i: nat, j: nat)
    requires i < j < |SortDescending(bs)|
    requires SortDescending(bs)[i].amount == SortDescending(bs)[j].amount
    ensures exists ki: nat, kj: nat :: ki < kj < |bs| && bs[ki] == SortDescending(bs)[i] && bs[kj] == SortDescending(bs)[j]
  {
    var r := SortDescending(bs);
    var q := r[i].amount;
    WithAmountAt(r, q, i);
    WithAmountAt(r, q, j);
    RankIncreases(r, q, i, j);
    var ki := WithAmountSource(bs, q, Rank(r, q, i));
    var kj := WithAmountSource(bs, q, Rank(r, q, j));
    if kj < ki {
      RankIncreases(bs, q, kj, ki);
    }
    assert ki < kj;
  }

  // ---------------------------------------------------------------------
  // Keys under permutation
  // ---------------------------------------------------------------------

  /** Two equal entries at different positions count twice. */
  lemma MultisetTwice<T>(s: seq<T>, i: nat, j: nat)
    requires i < j < |s| && s[i] == s[j]
    ensures multiset(s)[s[i]] >= 2
  {
    assert s == s[..i] + [s[i]] + s[i + 1..j] + [s[j]] + s[j + 1..];
  }

  /** With distinct keys, no bucket occurs twice. */
  lemma {:induction false} DistinctKeysOnce<K>(bs: seq<Bucket<K>>, b: Bucket<K>)
    requires NoDuplicates(Keys(bs))
    ensures multiset(bs)[b] <= 1
  {
    if |bs| > 0 {
      var n := |bs| - 1;
      assert Keys(bs[..n]) == Keys(bs)[..n];
      DistinctKeysOnce(bs[..n], b);
      assert bs == bs[..n] + [bs[n]];
    }
  }

  /** A permutation of buckets with distinct keys has distinct keys. */
  lemma PermutationDistinctKeys<K>(a: seq<Bucket<K>>, b: seq<Bucket<K>>)
    requires multiset(a) == multiset(b) && NoDuplicates(Keys(b))
    ensures NoDuplicates(Keys(a))
  {
    forall i, j | 0 <= i < j < |a| ensures a[i].key != a[j].key {
      if a[i].key == a[j].key {
        assert a[i] in multiset(b) && a[j] in multiset(b);
        var ki :| 0 <= ki < |b| && b[ki] == a[i];
        var kj :| 0 <= kj < |b| && b[kj] == a[j];
        assert Keys(b)[ki] == Keys(b)[kj];
        MultisetTwice(a, i, j);
        DistinctKeysOnce(b, a[i]);
      }
    }
  }

  // ---------------------------------------------------------------------
  // Amount lists
  // ---------------------------------------------------------------------

  /** The amounts of the buckets, in order. */
  function Amounts<K>(bs: seq<Bucket<K>>): (xs: seq<real>)
    ensures |xs| == |bs|
    ensures forall i :: 0 <= i < |bs| ==> xs[i] == bs[i].amount
  {
    seq(|bs|, i requires 0 <= i < |bs| => bs[i].amount)
  }

  /** The sum of a list of numbers, added left to right. */
  function Sum(xs: seq<real>): real
  {
    if |xs| == 0 then 0.0 else Sum(xs[..|xs| - 1]) + xs[|xs| - 1]
  }

  lemma {:induction false} TotalIsSum<K>(bs: seq<Bucket<K>>)
    ensures Sum(Amounts(bs)) == Total(bs)
  {
    if |bs| > 0 {
      var n := |bs| - 1;
      assert Amounts(bs)[..n] == Amounts(bs[..n]);
      TotalIsSum(bs[..n]);
    }
  }

  // ---------------------------------------------------------------------
  // The first m entries of a ranking
  // ---------------------------------------------------------------------

  /** t sums bs per key: one bucket per key of bs, carrying that key's total. */
  predicate SumsPerKey<K(==)>(bs: seq<Bucket<K>>, t: seq<Bucket<K>>) {
    && NoDuplicates(Keys(t))
    && (forall i :: 0 <= i < |t| ==> t[i].key in Keys(bs) && t[i].amount == AmountFor(bs, t[i].key))
    && (forall i :: 0 <= i < |bs| ==> bs[i].key in Keys(t))
  }

  lemma TallySumsPerKey<K>(bs: seq<Bucket<K>>)
    ensures SumsPerKey(bs, Tally(bs))
  {
    DistinctMembers(Keys(bs));
  }

  /** The first m entries of a non-increasing permutation of per-key sums:
      distinct keys of bs, each with its sum, and every key left out sums
      to no more than the last entry kept. */
  lemma RankingPrefix<K>(bs: seq<Bucket<K>>, t: seq<Bucket<K>>, ranked: seq<Bucket<K>>, m: nat)
    requires SumsPerKey(bs, t)
    requires multiset(ranked) == multiset(t) && NonIncreasing(ranked)
    requires m <= |ranked|
    ensures |ranked| == |t|
    ensures NoDuplicates(Keys(ranked[..m]))
    ensures forall i :: 0 <= i < m ==> ranked[i].key in Keys(bs) && ranked[i].amount == AmountFor(bs, ranked[i].key)
    ensures forall k :: k in Keys(bs) && k !in Keys(ranked[..m]) ==>
              m < |ranked| && (m == 0 || AmountFor(bs, k) <= ranked[m - 1].amount)
  {
    assert |ranked| == |multiset(ranked)| == |multiset(t)| == |t|;
    PermutationDistinctKeys(ranked, t);
    forall i | 0 <= i < m
      ensures ranked[i].key in Keys(bs) && ranked[i].amount == AmountFor(bs, ranked[i].key)
    {
      assert ranked[i] in multiset(t);
      var k :| 0 <= k < |t| && t[k] == ranked[i];
    }
    forall k | k in Keys(bs) && k !in Keys(ranked[..m])
      ensures m < |ranked| && (m == 0 || AmountFor(bs, k) <= ranked[m - 1].amount)
    {
      var j :| 0 <= j < |bs| && Keys(bs)[j] == k;
      assert k in Keys(t);
      var l :| 0 <= l < |t| && Keys(t)[l] == k;
      assert t[l] in multiset(ranked);
      var r :| 0 <= r < |ranked| && ranked[r] == t[l];
    }
  }

  // ---------------------------------------------------------------------
  // Array.prototype.filter
  // ---------------------------------------------------------------------

  /** `s.filter(p)`: the elements satisfying p, in their order. */
  function Select<T>(s: seq<T>, p: T -> bool): (r: seq<T>)
    ensures |r| <= |s|
  {
    if |s| == 0 then []
    else
      var kept := Select(s[..|s| - 1], p);
      if p(s[|s| - 1]) then kept + [s[|s| - 1]] else kept
  }

  predicate Increasing(idx: seq<nat>) {
    forall a, b :: 0 <= a < b < |idx| ==> idx[a] < idx[b]
  }

  /** The selection is the subsequence of s at the positions idx, taken in
      increasing order, and a position is among them exactly when its
      element satisfies p. */
  lemma {:induction false} SelectIndices<T>(s: seq<T>, p: T -> bool) returns (idx: seq<nat>)
    ensures |idx| == |Select(s, p)|
    ensures Increasing(idx)
    ensures forall j :: 0 <= j < |idx| ==> idx[j] < |s| && Select(s, p)[j] == s[idx[j]]
    ensures forall k :: 0 <= k < |s| ==> (k in idx <==> p(s[k]))
  {
    idx := [];
    if |s| > 0 {
      var n := |s| - 1;
      var init := s[..n];
      var before := SelectIndices(init, p);
      assert forall k :: 0 <= k < n ==> init[k] == s[k];
      if p(s[n]) {
        idx := before + [n];
      } else {
        idx := before;
      }
    }
  }

  /** An element is selected exactly when it occurs in s and satisfies p. */
  lemma SelectMembers<T>(s: seq<T>, p: T -> bool, x: T)
    ensures x in Select(s, p) <==> x in s && p(x)
  {
    var r := Select(s, p);
    var idx := SelectIndices(s, p);
    if x in r {
      var j :| 0 <= j < |r| && r[j] == x;
      assert idx[j] in idx;
    }
    if x in s && p(x) {
      var k :| 0 <= k < |s| && s[k] == x;
      assert k in idx;
      var j :| 0 <= j < |idx| && idx[j] == k;
      assert r[j] == x;
    }
  }

  /** Tests that agree on the elements of s select the same elements. */
  lemma {:induction false} SelectAgree<T>(s: seq<T>, p: T -> bool, q: T -> bool)
    requires forall k :: 0 <= k < |s| ==> p(s[k]) == q(s[k])
    ensures Select(s, p) == Select(s, q)
  {
    if |s| > 0 {
      var n := |s| - 1;
      assert forall k :: 0 <= k < n ==> s[..n][k] == s[k];
      SelectAgree(s[..n], p, q);
    }
  }

  /** A test every element passes selects all of s. */
  lemma {:induction false} SelectAll<T>(s: seq<T>, p: T -> bool)
    requires forall k :: 0 <= k < |s| ==> p(s[k])
    ensures Select(s, p) == s
  {
    if |s| > 0 {
      var n := |s| - 1;
      assert forall k :: 0 <= k < n ==> s[..n][k] == s[k];
      SelectAll(s[..n], p);
      assert s[..n] + [s[n]] == s;
    }
  }
}
