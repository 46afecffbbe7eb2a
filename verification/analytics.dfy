/** The spend dashboard (`ExpenseAnalytics`): `calculateStats` reduces the
    date-ascending invoice list to a global total and a per-vendor summary,
    and `getChartData` buckets the totals by month. Vendors are grouped by
    exact string equality; amounts are exact reals. */
module Analytics {
  import opened Collections
  import opened Text
  import opened Invoices

  /** `VendorSummary`. A `{ item, quantity }` entry of mostPurchasedItems is
      a bucket keyed by the item description. */
  datatype VendorSummary = VendorSummary(
    totalSpent: real,
    invoiceCount: nat,
    averageInvoice: real,
    mostPurchasedItems: seq<Bucket<string>>)

  /** What `calculateStats` stores: the vendor record and the global total. */
  datatype Stats = Stats(vendorStats: map<string, VendorSummary>, totalSpent: real)

  /** The entry created the first time a vendor is seen. */
  const FreshSummary := VendorSummary(0.0, 0, 0.0, [])

  function Min(a: nat, b: nat): nat { if a <= b then a else b }

  // ---------------------------------------------------------------------
  // Item ranking of one invoice
  // ---------------------------------------------------------------------

  /** The ranking built from one invoice's items: quantities summed per
      description in a Map, sorted by descending quantity, first three. */
  function TopItems(items: seq<LineItem>): seq<Bucket<string>>
  {
    var ranked := SortDescending(Tally(QuantityByDescription(items)));
    ranked[..Min(3, |ranked|)]
  }

  lemma KeysOfQuantities(items: seq<LineItem>)
    ensures Keys(QuantityByDescription(items)) == Descriptions(items)
  {
  }

  /** The ranking has min(3, #descriptions) entries, in non-increasing
      quantity, with distinct descriptions from the invoice, each carrying
      the summed quantity of its description; a description left out sums
      to no more than the third entry. */
  lemma TopItemsSpec(items: seq<LineItem>)
    ensures var top := TopItems(items);
      && |top| == Min(3, |Distinct(Descriptions(items))|)
      && NonIncreasing(top)
      && NoDuplicates(Keys(top))
      && (forall i :: 0 <= i < |top| ==>
            top[i].key in Descriptions(items)
            && top[i].amount == AmountFor(QuantityByDescription(items), top[i].key))
      && (forall d :: d in Descriptions(items) && d !in Keys(top) ==>
            |top| == 3 && AmountFor(QuantityByDescription(items), d) <= top[2].amount)
  {
    var qs := QuantityByDescription(items);
    KeysOfQuantities(items);
    var t := Tally(qs);
    var ranked := SortDescending(t);
    TallySumsPerKey(qs);
    var m := Min(3, |ranked|);
    RankingPrefix(qs, t, ranked, m);
    assert |t| == |Distinct(Descriptions(items))|;
  }

  /** Entries with equal quantities keep the order in which their
      descriptions first occur in the invoice. */
  lemma TopItemsTies(items: seq<LineItem>, i: nat, j: nat)
    requires i < j < |TopItems(items)|
    requires TopItems(items)[i].amount == TopItems(items)[j].amount
    ensures TopItems(items)[i].key in Descriptions(items) && TopItems(items)[j].key in Descriptions(items)
    ensures FirstIndex(Descriptions(items), TopItems(items)[i].key)
            < FirstIndex(Descriptions(items), TopItems(items)[j].key)
  {
    var qs := QuantityByDescription(items);
    var ds := Descriptions(items);
    KeysOfQuantities(items);
    var t := Tally(qs);
    var ranked := SortDescending(t);
    assert TopItems(items)[i] == ranked[i] && TopItems(items)[j] == ranked[j];
    SortDescendingStable(t, i, j);
    var ki: nat, kj: nat :| ki < kj < |t| && t[ki] == ranked[i] && t[kj] == ranked[j];
    DistinctFirstAppearance(ds);
    assert Keys(t)[ki] == Distinct(ds)[ki] && Keys(t)[kj] == Distinct(ds)[kj];
  }

  // ---------------------------------------------------------------------
  // calculateStats
  // ---------------------------------------------------------------------

  /** One iteration of the `forEach`: create the vendor's entry if absent,
      add the amount, count the invoice, and replace the item ranking by
      the one of this invoice. */
  function AddInvoice(stats: map<string, VendorSummary>, inv: Invoice): map<string, VendorSummary>
  {
    var cur := if inv.vendor in stats then stats[inv.vendor] else FreshSummary;
    stats[inv.vendor := cur.(totalSpent := cur.totalSpent + inv.totalAmount,
                             invoiceCount := cur.invoiceCount + 1,
                             mostPurchasedItems := TopItems(inv.items))]
  }

  /** The `forEach` over the invoices: the vendor record and the running total. */
  function Accumulate(invoices: seq<Invoice>): (acc: (map<string, VendorSummary>, real))
    ensures forall v :: v in acc.0 ==> acc.0[v].invoiceCount >= 1
  {
    if |invoices| == 0 then (map[], 0.0)
    else
      var (stats, total) := Accumulate(invoices[..|invoices| - 1]);
      var inv := invoices[|invoices| - 1];
      (AddInvoice(stats, inv), total + inv.totalAmount)
  }

  /** What the loop has built for vendor v after a prefix of the invoices:
      an entry exactly when v occurs, counting its invoices, summing their
      amounts, and ranking the items of its last invoice. */
  predicate SummaryOf(invoices: seq<Invoice>, stats: map<string, VendorSummary>, v: string) {
    var vs := VendorsOf(invoices);
    && (v in stats <==> v in vs)
    && (v in stats ==>
          && stats[v].invoiceCount == Occurrences(vs, v)
          && stats[v].totalSpent == AmountFor(SpendByVendor(invoices), v)
          && stats[v].mostPurchasedItems == TopItems(invoices[LastIndex(vs, v)].items))
  }

  /** The keyed views of a list with one more invoice. */
  lemma ViewsSnoc(init: seq<Invoice>, inv: Invoice)
    ensures VendorsOf(init + [inv]) == VendorsOf(init) + [inv.vendor]
    ensures SpendByVendor(init + [inv]) == SpendByVendor(init) + [Bucket(inv.vendor, inv.totalAmount)]
  {
  }

  lemma LastIndexSnoc<T>(s: seq<T>, y: T, x: T)
    requires x in s + [y]
    ensures y != x ==> x in s
    ensures LastIndex(s + [y], x) == if y == x then |s| else LastIndex(s, x)
  {
    assert (s + [y])[..|s|] == s;
    if y != x {
      var k :| 0 <= k < |s| + 1 && (s + [y])[k] == x;
      assert s[k] == x;
    }
  }

  lemma OccurrencesSnoc<T>(s: seq<T>, y: T, x: T)
    ensures Occurrences(s + [y], x) == Occurrences(s, x) + (if y == x then 1 else 0)
  {
    assert (s + [y])[..|s|] == s;
  }

  /** One iteration keeps SummaryOf for every vendor. */
  lemma AccumulateStep(init: seq<Invoice>, inv: Invoice, stats: map<string, VendorSummary>, v: string)
    requires SummaryOf(init, stats, v)
    ensures SummaryOf(init + [inv], AddInvoice(stats, inv), v)
  {
    ViewsSnoc(init, inv);
    OccurrencesSnoc(VendorsOf(init), inv.vendor, v);
    AmountForSnoc(SpendByVendor(init), Bucket(inv.vendor, inv.totalAmount), v);
    if v == inv.vendor {
      AccumulateStepSame(init, inv, stats);
    } else {
      AccumulateStepOther(init, inv, stats, v);
    }
  }

  /** The invoice's own vendor: counted once more, its amount added, and
      its ranking taken from this invoice. */
  lemma AccumulateStepSame(init: seq<Invoice>, inv: Invoice, stats: map<string, VendorSummary>)
    requires SummaryOf(init, stats, inv.vendor)
    requires VendorsOf(init + [inv]) == VendorsOf(init) + [inv.vendor]
    requires Occurrences(VendorsOf(init + [inv]), inv.vendor) == Occurrences(VendorsOf(init), inv.vendor) + 1
    requires AmountFor(SpendByVendor(init + [inv]), inv.vendor) == AmountFor(SpendByVendor(init), inv.vendor) + inv.totalAmount
    ensures SummaryOf(init + [inv], AddInvoice(stats, inv), inv.vendor)
  {
    var v := inv.vendor;
    var all := init + [inv];
    LastIndexSnoc(VendorsOf(init), v, v);
    assert all[|init|] == inv;
    if v !in stats {
      OccurrencesAbsent(VendorsOf(init), v);
      InvoicesTotalIsSpend(init);
      AmountForAbsent(SpendByVendor(init), v);
    }
  }

  /** Any other vendor: its entry and its figures are unchanged. */
  lemma AccumulateStepOther(init: seq<Invoice>, inv: Invoice, stats: map<string, VendorSummary>, v: string)
    requires v != inv.vendor
    requires SummaryOf(init, stats, v)
    requires VendorsOf(init + [inv]) == VendorsOf(init) + [inv.vendor]
    requires Occurrences(VendorsOf(init + [inv]), v) == Occurrences(VendorsOf(init), v)
    requires AmountFor(SpendByVendor(init + [inv]), v) == AmountFor(SpendByVendor(init), v)
    ensures SummaryOf(init + [inv], AddInvoice(stats, inv), v)
  {
    var all := init + [inv];
    if v in VendorsOf(all) {
      LastIndexSnoc(VendorsOf(init), inv.vendor, v);
      var k := LastIndex(VendorsOf(init), v);
      assert all[k] == init[k];
    }
  }

  lemma {:induction false} AccumulateVendor(invoices: seq<Invoice>, v: string)
    ensures SummaryOf(invoices, Accumulate(invoices).0, v)
  {
    if |invoices| > 0 {
      var n := |invoices| - 1;
      AccumulateVendor(invoices[..n], v);
      assert invoices == invoices[..n] + [invoices[n]];
      AccumulateStep(invoices[..n], invoices[n], Accumulate(invoices[..n]).0, v);
    }
  }

  lemma {:induction false} AccumulateTotal(invoices: seq<Invoice>)
    ensures Accumulate(invoices).1 == InvoicesTotal(invoices)
  {
    if |invoices| > 0 {
      AccumulateTotal(invoices[..|invoices| - 1]);
    }
  }

  /** The `Object.keys(stats).forEach` pass: every entry gets
      `averageInvoice = totalSpent / invoiceCount`. */
  function WithAverages(stats: map<string, VendorSummary>): map<string, VendorSummary>
    requires forall v :: v in stats ==> stats[v].invoiceCount >= 1
  {
    map v | v in stats :: stats[v].(averageInvoice := stats[v].totalSpent / stats[v].invoiceCount as real)
  }

  /** The pass keeps the keys and every other field, and the average times
      the count gives back the amount spent. */
  lemma WithAveragesAt(stats: map<string, VendorSummary>, v: string)
    requires forall v :: v in stats ==> stats[v].invoiceCount >= 1
    ensures v in WithAverages(stats) <==> v in stats
    ensures v in stats ==>
      var e := WithAverages(stats)[v];
      && e.(averageInvoice := stats[v].averageInvoice) == stats[v]
      && e.averageInvoice == e.totalSpent / (e.invoiceCount as real)
      && e.averageInvoice * (e.invoiceCount as real) == e.totalSpent
  {
    if v in stats {
      var c := stats[v].invoiceCount as real;
      assert (stats[v].totalSpent / c) * c == stats[v].totalSpent;
    }
  }

  /** `calculateStats`: the loop, then the averages. */
  function CalculateStats(invoices: seq<Invoice>): (s: Stats)
    ensures s.totalSpent == InvoicesTotal(invoices)
  {
    var (stats, total) := Accumulate(invoices);
    AccumulateTotal(invoices);
    Stats(WithAverages(stats), total)
  }

  /** The record holds an entry for v exactly when some invoice has vendor
      v (exact string equality); the entry counts those invoices (at least
      one), sums their amounts, averages them, and ranks the items of the
      last of them. */
  lemma CalculateStatsVendor(invoices: seq<Invoice>, v: string)
    ensures var s := CalculateStats(invoices);
      && (v in s.vendorStats <==> v in VendorsOf(invoices))
      && (v in s.vendorStats ==>
            var e := s.vendorStats[v];
            && e.invoiceCount == Occurrences(VendorsOf(invoices), v)
            && e.invoiceCount >= 1
            && e.totalSpent == AmountFor(SpendByVendor(invoices), v)
            && e.averageInvoice == e.totalSpent / (e.invoiceCount as real)
            && e.mostPurchasedItems == TopItems(invoices[LastIndex(VendorsOf(invoices), v)].items))
  {
    var stats := Accumulate(invoices).0;
    assert CalculateStats(invoices).vendorStats == WithAverages(stats);
    AccumulateVendor(invoices, v);
    WithAveragesAt(stats, v);
  }

  lemma {:induction false} OccurrencesPositive<T>(s: seq<T>, x: T)
    requires x in s
    ensures Occurrences(s, x) >= 1
  {
    var n := |s| - 1;
    if s[n] != x {
      assert x in s[..n] by {
        var k :| 0 <= k < |s| && s[k] == x;
        assert s[..n][k] == x;
      }
      OccurrencesPositive(s[..n], x);
    }
  }

  // ---------------------------------------------------------------------
  // Sums over the vendor record
  // ---------------------------------------------------------------------

  /** The invoice counts of the listed vendors, summed. */
  function CountOver(stats: map<string, VendorSummary>, vs: seq<string>): nat
    requires forall i :: 0 <= i < |vs| ==> vs[i] in stats
  {
    if |vs| == 0 then 0 else CountOver(stats, vs[..|vs| - 1]) + stats[vs[|vs| - 1]].invoiceCount
  }

  /** The totalSpent of the listed vendors, summed. */
  function SpentOver(stats: map<string, VendorSummary>, vs: seq<string>): real
    requires forall i :: 0 <= i < |vs| ==> vs[i] in stats
  {
    if |vs| == 0 then 0.0 else SpentOver(stats, vs[..|vs| - 1]) + stats[vs[|vs| - 1]].totalSpent
  }

  lemma {:induction false} CountOverIsOccurrences(invoices: seq<Invoice>, vs: seq<string>)
    requires forall i :: 0 <= i < |vs| ==> vs[i] in CalculateStats(invoices).vendorStats
    ensures CountOver(CalculateStats(invoices).vendorStats, vs) == OccurrencesOver(vs, VendorsOf(invoices))
  {
    if |vs| > 0 {
      CountOverIsOccurrences(invoices, vs[..|vs| - 1]);
      CalculateStatsVendor(invoices, vs[|vs| - 1]);
    }
  }

  lemma {:induction false} SpentOverIsAmountOver(invoices: seq<Invoice>, vs: seq<string>)
    requires forall i :: 0 <= i < |vs| ==> vs[i] in CalculateStats(invoices).vendorStats
    ensures SpentOver(CalculateStats(invoices).vendorStats, vs) == AmountOver(vs, SpendByVendor(invoices))
  {
    if |vs| > 0 {
      SpentOverIsAmountOver(invoices, vs[..|vs| - 1]);
      CalculateStatsVendor(invoices, vs[|vs| - 1]);
    }
  }

  /** The vendors in first-appearance order list every key of the record
      once; over them the invoice counts add up to the number of invoices
      and the amounts spent add up to the global total. */
  lemma StatsPartition(invoices: seq<Invoice>)
    ensures var s := CalculateStats(invoices);
      var vs := Distinct(VendorsOf(invoices));
      && NoDuplicates(vs)
      && (forall v :: v in vs <==> v in s.vendorStats)
      && CountOver(s.vendorStats, vs) == |invoices|
      && SpentOver(s.vendorStats, vs) == s.totalSpent
  {
    var all := VendorsOf(invoices);
    var vs := Distinct(all);
    DistinctMembers(all);
    forall v ensures v in vs <==> v in CalculateStats(invoices).vendorStats {
      CalculateStatsVendor(invoices, v);
    }
    CountOverIsOccurrences(invoices, vs);
    DistinctOccurrencesPartition(all);
    SpentOverIsAmountOver(invoices, vs);
    InvoicesTotalIsSpend(invoices);
    DistinctAmountPartition(SpendByVendor(invoices));
  }

  /** The "Unique Vendors" card: the number of keys is the number of
      distinct vendor strings. */
  lemma UniqueVendorCount(invoices: seq<Invoice>)
    ensures |CalculateStats(invoices).vendorStats.Keys| == |Distinct(VendorsOf(invoices))|
  {
    var vs := Distinct(VendorsOf(invoices));
    StatsPartition(invoices);
    NoDuplicatesCardinality(vs);
    assert CalculateStats(invoices).vendorStats.Keys == set x | x in vs;
  }

  /** Only the vendor's last invoice decides its ranking: invoices after it
      belong to other vendors, and earlier ones are ignored. */
  lemma MostPurchasedFromLastInvoice(before: seq<Invoice>, inv: Invoice, after: seq<Invoice>)
    requires forall k :: 0 <= k < |after| ==> after[k].vendor != inv.vendor
    ensures var s := CalculateStats(before + [inv] + after);
      inv.vendor in s.vendorStats && s.vendorStats[inv.vendor].mostPurchasedItems == TopItems(inv.items)
  {
    var all := before + [inv] + after;
    var vs := VendorsOf(all);
    assert vs[|before|] == inv.vendor;
    CalculateStatsVendor(all, inv.vendor);
  }

  /** Two invoices of one vendor: the items of the first do not show. */
  lemma LastInvoiceOverrides(a: Invoice, b: Invoice)
    requires a.vendor == b.vendor && |a.items| > 0 && |b.items| == 0
    ensures CalculateStats([a, b]).vendorStats[a.vendor].mostPurchasedItems == []
    ensures TopItems(a.items) != []
  {
    MostPurchasedFromLastInvoice([a], b, []);
    assert [a] + [b] + [] == [a, b];
    TopItemsSpec(a.items);
    assert Descriptions(a.items)[0] in Distinct(Descriptions(a.items)) by {
      DistinctMembers(Descriptions(a.items));
    }
    TopItemsSpec(b.items);
  }

  // ---------------------------------------------------------------------
  // Dashboard average and monthly chart
  // ---------------------------------------------------------------------

  /** The "Average Invoice" card, `totalSpent / invoices.length`: 0 / 0 is
      NaN for an empty list. */
  function AverageInvoice(invoices: seq<Invoice>): (r: JsNumber)
    ensures |invoices| == 0 <==> r == NaN
    ensures r.Finite? ==> r.value * (|invoices| as real) == CalculateStats(invoices).totalSpent
  {
    var total := CalculateStats(invoices).totalSpent;
    if |invoices| == 0 then NaN else Finite(total / |invoices| as real)
  }

  /** Each invoice's amount keyed by its month label. */
  function MonthBuckets(invoices: seq<Invoice>, monthOf: string -> string): (bs: seq<Bucket<string>>)
    ensures |bs| == |invoices|
    ensures forall i :: 0 <= i < |invoices| ==> bs[i] == Bucket(monthOf(invoices[i].date), invoices[i].totalAmount)
  {
    seq(|invoices|, i requires 0 <= i < |invoices| => Bucket(monthOf(invoices[i].date), invoices[i].totalAmount))
  }

  /** The line chart: labels and data. */
  datatype Chart = Chart(labels: seq<string>, data: seq<real>)

  /** `getChartData`: amounts added per month label in a Map, read back in
      the Map's insertion order. The label of a date (date-fns
      `format(parseISO(date), 'MMM yyyy')`) is the parameter monthOf. */
  function ChartData(invoices: seq<Invoice>, monthOf: string -> string): (c: Chart)
    ensures |c.labels| == |c.data|
    ensures c.labels == Distinct(Keys(MonthBuckets(invoices, monthOf)))
    ensures forall i :: 0 <= i < |c.data| ==> c.data[i] == AmountFor(MonthBuckets(invoices, monthOf), c.labels[i])
  {
    var t := Tally(MonthBuckets(invoices, monthOf));
    Chart(Keys(t), Amounts(t))
  }

  /** The chart's labels are distinct, in order of first appearance, and
      its data add up to the global total. */
  lemma ChartDataSpec(invoices: seq<Invoice>, monthOf: string -> string)
    ensures var c := ChartData(invoices, monthOf);
      var months := Keys(MonthBuckets(invoices, monthOf));
      && NoDuplicates(c.labels)
      && (forall m :: m in c.labels <==> m in months)
      && (forall i, j :: 0 <= i < j < |c.labels| ==> FirstIndex(months, c.labels[i]) < FirstIndex(months, c.labels[j]))
      && Sum(c.data) == CalculateStats(invoices).totalSpent
  {
    var bs := MonthBuckets(invoices, monthOf);
    var months := Keys(bs);
    DistinctMembers(months);
    DistinctFirstAppearance(months);
    TotalIsSum(Tally(bs));
    MonthTotal(invoices, monthOf);
  }

  lemma {:induction false} MonthTotal(invoices: seq<Invoice>, monthOf: string -> string)
    ensures Total(MonthBuckets(invoices, monthOf)) == InvoicesTotal(invoices)
  {
    if |invoices| > 0 {
      var n := |invoices| - 1;
      assert MonthBuckets(invoices, monthOf)[..n] == MonthBuckets(invoices[..n], monthOf);
      MonthTotal(invoices[..n], monthOf);
    }
  }

  // ---------------------------------------------------------------------
  // Vendor chart and vendor table
  // ---------------------------------------------------------------------

  /** The record's entries as `{ vendor, totalSpent }` buckets, read in the
      key order vs. */
  function SpendRows(stats: map<string, VendorSummary>, vs: seq<string>): (rows: seq<Bucket<string>>)
    requires forall i :: 0 <= i < |vs| ==> vs[i] in stats
    ensures |rows| == |vs|
    ensures forall i :: 0 <= i < |vs| ==> rows[i] == Bucket(vs[i], stats[vs[i]].totalSpent)
  {
    seq(|vs|, i requires 0 <= i < |vs| => Bucket(vs[i], stats[vs[i]].totalSpent))
  }

  lemma {:induction false} SpendRowsTotal(stats: map<string, VendorSummary>, vs: seq<string>)
    requires forall i :: 0 <= i < |vs| ==> vs[i] in stats
    ensures Total(SpendRows(stats, vs)) == SpentOver(stats, vs)
  {
    if |vs| > 0 {
      var n := |vs| - 1;
      assert SpendRows(stats, vs)[..n] == SpendRows(stats, vs[..n]);
      SpendRowsTotal(stats, vs[..n]);
    }
  }

  /** `Object.entries(vendorStats)` as vendor and amount spent. Object.keys
      lists string keys in insertion order, the order in which the vendors
      first occur. */
  function VendorRows(invoices: seq<Invoice>): seq<Bucket<string>>
  {
    StatsPartition(invoices);
    SpendRows(CalculateStats(invoices).vendorStats, Distinct(VendorsOf(invoices)))
  }

  /** `getVendorChartData`: one label per key of the record, with its
      totalSpent as the datum. */
  function VendorChart(invoices: seq<Invoice>): Chart
  {
    var rows := VendorRows(invoices);
    Chart(Keys(rows), Amounts(rows))
  }

  /** The doughnut shows every vendor of the record once, each with the
      amount spent with it, and its slices add up to the global total. */
  lemma VendorChartSpec(invoices: seq<Invoice>)
    ensures var c, s := VendorChart(invoices), CalculateStats(invoices);
      && |c.labels| == |c.data|
      && NoDuplicates(c.labels)
      && (forall v :: v in c.labels <==> v in s.vendorStats)
      && (forall i :: 0 <= i < |c.labels| ==>
            c.labels[i] in s.vendorStats && c.data[i] == s.vendorStats[c.labels[i]].totalSpent)
      && Sum(c.data) == s.totalSpent
  {
    var s := CalculateStats(invoices);
    var vs := Distinct(VendorsOf(invoices));
    StatsPartition(invoices);
    var rows := SpendRows(s.vendorStats, vs);
    assert Keys(rows) == vs;
    TotalIsSum(rows);
    SpendRowsTotal(s.vendorStats, vs);
  }

  /** The rows of the "Vendor Analysis" table: the entries sorted by
      descending totalSpent with a stable sort. */
  function VendorTable(invoices: seq<Invoice>): seq<Bucket<string>>
  {
    SortDescending(VendorRows(invoices))
  }

  /** The rows sum the invoices per vendor. */
  lemma VendorRowsSumPerKey(invoices: seq<Invoice>)
    ensures SumsPerKey(SpendByVendor(invoices), VendorRows(invoices))
    ensures Keys(VendorRows(invoices)) == Distinct(VendorsOf(invoices))
  {
    var s := CalculateStats(invoices);
    var all := VendorsOf(invoices);
    var vs := Distinct(all);
    var bs := SpendByVendor(invoices);
    var rows := VendorRows(invoices);
    StatsPartition(invoices);
    DistinctMembers(all);
    InvoicesTotalIsSpend(invoices);
    assert Keys(rows) == vs;
    forall i | 0 <= i < |rows|
      ensures rows[i].key in Keys(bs) && rows[i].amount == AmountFor(bs, rows[i].key)
    {
      CalculateStatsVendor(invoices, vs[i]);
    }
  }

  /** The table lists every vendor of the record exactly once, by
      non-increasing amount spent, each row with that vendor's totalSpent. */
  lemma VendorTableSpec(invoices: seq<Invoice>)
    ensures var table, s := VendorTable(invoices), CalculateStats(invoices);
      && |table| == |Distinct(VendorsOf(invoices))|
      && NonIncreasing(table)
      && NoDuplicates(Keys(table))
      && (forall v :: v in Keys(table) <==> v in s.vendorStats)
      && (forall i :: 0 <= i < |table| ==>
            table[i].key in s.vendorStats && table[i].amount == s.vendorStats[table[i].key].totalSpent)
  {
    var s := CalculateStats(invoices);
    var rows := VendorRows(invoices);
    var table := SortDescending(rows);
    var bs := SpendByVendor(invoices);
    VendorRowsSumPerKey(invoices);
    RankingPrefix(bs, rows, table, |table|);
    assert table[..|table|] == table;
    InvoicesTotalIsSpend(invoices);
    forall v ensures v in Keys(table) <==> v in s.vendorStats {
      CalculateStatsVendor(invoices, v);
    }
    forall i | 0 <= i < |table|
      ensures table[i].key in s.vendorStats && table[i].amount == s.vendorStats[table[i].key].totalSpent
    {
      CalculateStatsVendor(invoices, table[i].key);
    }
  }

  /** Vendors with equal amounts spent keep the order in which they first
      occur among the invoices. */
  lemma VendorTableTies(invoices: seq<Invoice>, i: nat, j: nat)
    requires i < j < |VendorTable(invoices)|
    requires VendorTable(invoices)[i].amount == VendorTable(invoices)[j].amount
    ensures VendorTable(invoices)[i].key in VendorsOf(invoices) && VendorTable(invoices)[j].key in VendorsOf(invoices)
    ensures FirstIndex(VendorsOf(invoices), VendorTable(invoices)[i].key)
            < FirstIndex(VendorsOf(invoices), VendorTable(invoices)[j].key)
  {
    var rows := VendorRows(invoices);
    var all := VendorsOf(invoices);
    VendorRowsSumPerKey(invoices);
    SortDescendingStable(rows, i, j);
    var ki: nat, kj: nat :| ki < kj < |rows| && rows[ki] == VendorTable(invoices)[i] && rows[kj] == VendorTable(invoices)[j];
    DistinctMembers(all);
    DistinctFirstAppearance(all);
    assert Keys(rows)[ki] == Distinct(all)[ki] && Keys(rows)[kj] == Distinct(all)[kj];
  }

  // ---------------------------------------------------------------------
  // Vendors named like Object.prototype members
  // ---------------------------------------------------------------------

  /** The property names a `{}` literal inherits from `Object.prototype`.
      For each, `stats[name]` is already a function (or, for `__proto__`,
      the prototype object), so the test `!stats[name]` is false. */
  const InheritedNames: set<string> := {
    "constructor", "__defineGetter__", "__defineSetter__", "hasOwnProperty",
    "__lookupGetter__", "__lookupSetter__", "isPrototypeOf",
    "propertyIsEnumerable", "toString", "valueOf", "__proto__", "toLocaleString"
  }

  /** The running record as written, and whether an invoice from
      "__proto__" has run yet. Such an invoice makes `stats[vendor]`
      `Object.prototype` itself, so its updates give every object an
      inherited `totalSpent` and `invoiceCount` (both NaN, hence falsy)
      and an inherited `mostPurchasedItems` array (truthy). */
  datatype FoldState = FoldState(stats: map<string, VendorSummary>, polluted: bool)

  /** `!stats[v]` is false although v has no entry of its own: v is an
      inherited member (never given an own entry, since the test fails
      first), or the array a "__proto__" invoice left on the prototype. */
  predicate Inherited(st: FoldState, v: string) {
    v in InheritedNames || (st.polluted && v == "mostPurchasedItems" && v !in st.stats)
  }

  /** One iteration as the component runs it: for an inherited name no
      entry is created and the updates land on the inherited object, which
      `Object.keys(stats)` does not list; the running total still grows. */
  function AddInvoiceAsWritten(st: FoldState, inv: Invoice): (r: FoldState)
    ensures r.polluted <==> st.polluted || inv.vendor == "__proto__"
  {
    if Inherited(st, inv.vendor) then FoldState(st.stats, st.polluted || inv.vendor == "__proto__")
    else FoldState(AddInvoice(st.stats, inv), st.polluted)
  }

  /** The fold of `calculateStats` as written. */
  function FoldAsWritten(invoices: seq<Invoice>): (st: FoldState)
    ensures forall v :: v in st.stats ==> st.stats[v].invoiceCount >= 1
  {
    if |invoices| == 0 then FoldState(map[], false)
    else AddInvoiceAsWritten(FoldAsWritten(invoices[..|invoices| - 1]), invoices[|invoices| - 1])
  }

  /** The prototype is polluted exactly when some invoice is from "__proto__". */
  lemma {:induction false} FoldPolluted(invoices: seq<Invoice>)
    ensures FoldAsWritten(invoices).polluted <==> exists k :: 0 <= k < |invoices| && invoices[k].vendor == "__proto__"
  {
    if |invoices| > 0 {
      var n := |invoices| - 1;
      FoldPolluted(invoices[..n]);
      assert forall k :: 0 <= k < n ==> invoices[..n][k] == invoices[k];
    }
  }

  /** The vendor record `calculateStats` builds as written. The running
      total is unaffected by the inherited names; it is InvoicesTotal. */
  function VendorMapAsWritten(invoices: seq<Invoice>): (stats: map<string, VendorSummary>)
    ensures forall v :: v in stats ==> stats[v].invoiceCount >= 1
  {
    FoldAsWritten(invoices).stats
  }

  /** `calculateStats` with the inherited-name behaviour. */
  function CalculateStatsAsWritten(invoices: seq<Invoice>): Stats
  {
    Stats(WithAverages(VendorMapAsWritten(invoices)), InvoicesTotal(invoices))
  }

  lemma AddInvoiceAgrees(st: FoldState, inv: Invoice)
    requires inv.vendor !in InheritedNames && !st.polluted
    ensures AddInvoiceAsWritten(st, inv) == FoldState(AddInvoice(st.stats, inv), false)
  {
  }

  lemma {:induction false} VendorMapAsWrittenAgrees(invoices: seq<Invoice>)
    requires forall k :: 0 <= k < |invoices| ==> invoices[k].vendor !in InheritedNames
    ensures FoldAsWritten(invoices) == FoldState(Accumulate(invoices).0, false)
  {
    if |invoices| > 0 {
      var n := |invoices| - 1;
      var init := invoices[..n];
      assert forall k :: 0 <= k < |init| ==> init[k].vendor !in InheritedNames by {
        forall k | 0 <= k < |init| ensures init[k].vendor !in InheritedNames {
          assert init[k] == invoices[k];
        }
      }
      VendorMapAsWrittenAgrees(init);
      AddInvoiceAgrees(FoldAsWritten(init), invoices[n]);
    }
  }

  /** With no vendor named like an inherited property the two agree. */
  lemma AsWrittenAgrees(invoices: seq<Invoice>)
    requires forall k :: 0 <= k < |invoices| ==> invoices[k].vendor !in InheritedNames
    ensures CalculateStatsAsWritten(invoices) == CalculateStats(invoices)
  {
    VendorMapAsWrittenAgrees(invoices);
    AccumulateTotal(invoices);
  }

  /** A single invoice from vendor "constructor": the record as written is
      empty although the total counts the invoice, so the vendor table and
      the "Unique Vendors" card miss it and the per-vendor amounts no longer
      add up to the total. The model's CalculateStats lists the vendor. */
  lemma InheritedVendorDropped()
    ensures var invs := [Invoice("1", "constructor", [], 10.0, "2024-01-01")];
      && CalculateStatsAsWritten(invs).vendorStats == map[]
      && CalculateStatsAsWritten(invs).totalSpent == 10.0
      && "constructor" in CalculateStats(invs).vendorStats
      && CalculateStats(invs).vendorStats["constructor"].totalSpent == 10.0
  {
    var invs := [Invoice("1", "constructor", [], 10.0, "2024-01-01")];
    assert invs[..0] == [];
    CalculateStatsVendor(invs, "constructor");
    assert SpendByVendor(invs) == [Bucket("constructor", 10.0)];
    assert SpendByVendor(invs)[..0] == [];
  }

  /** Once an invoice from "__proto__" has run, a vendor named
      "mostPurchasedItems" without an entry yet gets none: its invoice
      changes nothing in the record. */
  lemma PollutionDropsName(invoices: seq<Invoice>, inv: Invoice)
    requires exists k :: 0 <= k < |invoices| && invoices[k].vendor == "__proto__"
    requires inv.vendor == "mostPurchasedItems" && inv.vendor !in VendorMapAsWritten(invoices)
    ensures VendorMapAsWritten(invoices + [inv]) == VendorMapAsWritten(invoices)
  {
    FoldPolluted(invoices);
    assert (invoices + [inv])[..|invoices|] == invoices;
  }

  /** Invoices from "__proto__" and then from "mostPurchasedItems": the
      record as written lists neither vendor, while the model's
      CalculateStats lists both. */
  lemma ProtoVendorPollutes()
    ensures var invs := [Invoice("1", "__proto__", [], 10.0, "2024-01-01"),
                         Invoice("2", "mostPurchasedItems", [], 5.0, "2024-01-02")];
      && CalculateStatsAsWritten(invs).vendorStats == map[]
      && "__proto__" in CalculateStats(invs).vendorStats
      && "mostPurchasedItems" in CalculateStats(invs).vendorStats
  {
    var invs := [Invoice("1", "__proto__", [], 10.0, "2024-01-01"),
                 Invoice("2", "mostPurchasedItems", [], 5.0, "2024-01-02")];
    var first := invs[..1];
    assert first[..0] == [] && first[0].vendor == "__proto__";
    assert FoldAsWritten(first[..0]) == FoldState(map[], false);
    assert FoldAsWritten(first).stats == map[];
    PollutionDropsName(invs[..1], invs[1]);
    assert invs[..1] + [invs[1]] == invs;
    CalculateStatsVendor(invs, "__proto__");
    CalculateStatsVendor(invs, "mostPurchasedItems");
  }
}
