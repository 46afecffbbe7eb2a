/** The invoice browser (`InvoiceExplorer`): the vendor drop-down built
    from the fetched invoices and the list shown for a vendor selection and
    a search term. */
module Explorer {
  import opened Collections
  import opened Text
  import opened Invoices

  /** `Array.from(new Set(invoices.map(inv => inv.vendor)))`. */
  function UniqueVendors(invoices: seq<Invoice>): (vs: seq<string>)
  {
    Distinct(VendorsOf(invoices))
  }

  /** The vendor list names every vendor of the invoices exactly once, and
      nothing else, in the order in which the vendors first appear. */
  lemma UniqueVendorsSpec(invoices: seq<Invoice>)
    ensures NoDuplicates(UniqueVendors(invoices))
    ensures forall k :: 0 <= k < |invoices| ==> invoices[k].vendor in UniqueVendors(invoices)
    ensures forall i :: 0 <= i < |UniqueVendors(invoices)| ==>
              UniqueVendors(invoices)[i] in VendorsOf(invoices)
    ensures forall i, j :: 0 <= i < j < |UniqueVendors(invoices)| ==>
              FirstIndex(VendorsOf(invoices), UniqueVendors(invoices)[i])
                < FirstIndex(VendorsOf(invoices), UniqueVendors(invoices)[j])
  {
    var vs := VendorsOf(invoices);
    DistinctMembers(vs);
    DistinctFirstAppearance(vs);
    assert forall k :: 0 <= k < |invoices| ==> invoices[k].vendor == vs[k];
  }

  // ---------------------------------------------------------------------
  // The filter
  // ---------------------------------------------------------------------

  /** What the vendor drop-down selects: every vendor, or one vendor. */
  datatype VendorChoice = AllVendors | Vendor(name: string)

  predicate MatchesVendor(choice: VendorChoice, inv: Invoice) {
    choice.AllVendors? || inv.vendor == choice.name
  }

  /** The search test: the lower-cased term occurs in the lower-cased
      vendor or in the lower-cased description of some item. */
  predicate MatchesSearch(term: string, inv: Invoice) {
    || Contains(Lower(inv.vendor), Lower(term))
    || exists i :: 0 <= i < |inv.items| && Contains(Lower(inv.items[i].description), Lower(term))
  }

  predicate Keep(choice: VendorChoice, term: string, inv: Invoice) {
    MatchesVendor(choice, inv) && MatchesSearch(term, inv)
  }

  /** The callback given to `invoices.filter`. */
  function KeepTest(choice: VendorChoice, term: string): Invoice -> bool
  {
    (inv: Invoice) => Keep(choice, term, inv)
  }

  /** `invoices.filter(...)` for a vendor choice and a search term. */
  function Filter(invoices: seq<Invoice>, choice: VendorChoice, term: string): seq<Invoice>
  {
    Select(invoices, KeepTest(choice, term))
  }

  /** The filtered list is the subsequence of the invoices at the positions
      idx, taken in increasing order, and a position is among them exactly
      when its invoice passes both tests. */
  lemma FilterIndices(invoices: seq<Invoice>, choice: VendorChoice, term: string)
    returns (idx: seq<nat>)
    ensures |idx| == |Filter(invoices, choice, term)|
    ensures Increasing(idx)
    ensures forall j :: 0 <= j < |idx| ==>
              idx[j] < |invoices| && Filter(invoices, choice, term)[j] == invoices[idx[j]]
    ensures forall k :: 0 <= k < |invoices| ==> (k in idx <==> Keep(choice, term, invoices[k]))
  {
    idx := SelectIndices(invoices, KeepTest(choice, term));
  }

  /** An invoice is listed exactly when it is one of the fetched invoices
      and passes both tests. */
  lemma FilterKeptIff(invoices: seq<Invoice>, choice: VendorChoice, term: string, inv: Invoice)
    ensures inv in Filter(invoices, choice, term) <==> inv in invoices && Keep(choice, term, inv)
  {
    SelectMembers(invoices, KeepTest(choice, term), inv);
  }

  /** Every string contains the empty string. */
  lemma ContainsEmpty(hay: string)
    ensures Contains(hay, Lower(""))
  {
    assert OccursAt(hay, "", 0);
  }

  /** With every vendor selected and an empty search, nothing is hidden. */
  lemma FilterKeepsAll(invoices: seq<Invoice>)
    ensures Filter(invoices, AllVendors, "") == invoices
  {
    forall k | 0 <= k < |invoices| ensures Keep(AllVendors, "", invoices[k]) {
      ContainsEmpty(Lower(invoices[k].vendor));
    }
    SelectAll(invoices, KeepTest(AllVendors, ""));
  }

  /** With one vendor selected, every listed invoice carries exactly that
      vendor string. */
  lemma FilterVendorOnly(invoices: seq<Invoice>, v: string, term: string)
    ensures forall j :: 0 <= j < |Filter(invoices, Vendor(v), term)| ==>
              Filter(invoices, Vendor(v), term)[j].vendor == v
  {
    var idx := FilterIndices(invoices, Vendor(v), term);
    assert forall j :: 0 <= j < |idx| ==> idx[j] in idx;
  }

  /** Terms differing only in ASCII letter case lower-case to the same string. */
  lemma LowerIgnoresCase(a: string, b: string)
    requires SameIgnoringCase(a, b)
    ensures Lower(a) == Lower(b)
  {
  }

  /** The search ignores the letter case of the term. */
  lemma FilterIgnoresCase(invoices: seq<Invoice>, choice: VendorChoice, t1: string, t2: string)
    requires SameIgnoringCase(t1, t2)
    ensures Filter(invoices, choice, t1) == Filter(invoices, choice, t2)
  {
    LowerIgnoresCase(t1, t2);
    SelectAgree(invoices, KeepTest(choice, t1), KeepTest(choice, t2));
  }

  // ---------------------------------------------------------------------
  // The drop-down as written: option values are plain strings
  // ---------------------------------------------------------------------

  /** The value the component filters with: the string "all" stands for
      every vendor and any other string for the vendor of that name. */
  function ChoiceOf(selected: string): (c: VendorChoice)
    ensures c.AllVendors? <==> selected == "all"
    ensures c.Vendor? ==> c.name == selected
  {
    if selected == "all" then AllVendors else Vendor(selected)
  }

  /** `filteredInvoices` with the selection held as a string. */
  function FilteredInvoices(invoices: seq<Invoice>, selected: string, term: string): seq<Invoice>
  {
    Filter(invoices, ChoiceOf(selected), term)
  }

  /** The option values of the drop-down: "all" followed by the vendors. */
  function OptionValues(invoices: seq<Invoice>): (vs: seq<string>)
    ensures |vs| == 1 + |UniqueVendors(invoices)|
    ensures vs[0] == "all" && vs[1..] == UniqueVendors(invoices)
  {
    ["all"] + UniqueVendors(invoices)
  }

  /** A vendor literally named "all" gets an option whose value equals the
      "All Vendors" option's, and choosing it lists every vendor's invoices. */
  lemma VendorNamedAllNotSelectable()
    ensures var invs := [Invoice("1", "all", [], 1.0, ""), Invoice("2", "Acme", [], 2.0, "")];
      && "all" in UniqueVendors(invs)
      && !NoDuplicates(OptionValues(invs))
      && invs[1] in FilteredInvoices(invs, "all", "")
      && invs[1].vendor != "all"
  {
    var invs := [Invoice("1", "all", [], 1.0, ""), Invoice("2", "Acme", [], 2.0, "")];
    UniqueVendorsSpec(invs);
    assert invs[0].vendor in UniqueVendors(invs);
    var u := UniqueVendors(invs);
    var k :| 0 <= k < |u| && u[k] == "all";
    assert OptionValues(invs)[0] == OptionValues(invs)[k + 1];
    FilterKeepsAll(invs);
  }

  // ---------------------------------------------------------------------
  // The drop-down with tagged option values
  // ---------------------------------------------------------------------

  /** The options as tagged choices: "All Vendors", then one per vendor. */
  function Choices(invoices: seq<Invoice>): (cs: seq<VendorChoice>)
    ensures |cs| == 1 + |UniqueVendors(invoices)|
    ensures cs[0] == AllVendors
    ensures forall i :: 0 <= i < |UniqueVendors(invoices)| ==> cs[i + 1] == Vendor(UniqueVendors(invoices)[i])
  {
    var u := UniqueVendors(invoices);
    [AllVendors] + seq(|u|, i requires 0 <= i < |u| => Vendor(u[i]))
  }

  /** Every option is a different choice. */
  lemma ChoicesDistinct(invoices: seq<Invoice>)
    ensures NoDuplicates(Choices(invoices))
  {
    var cs, u := Choices(invoices), UniqueVendors(invoices);
    UniqueVendorsSpec(invoices);
    forall i, j | 0 <= i < j < |cs| ensures cs[i] != cs[j] {
      if i > 0 {
        assert cs[i].name == u[i - 1] && cs[j].name == u[j - 1];
      }
    }
  }

  /** The option of each vendor, "all" included, lists exactly that
      vendor's matching invoices. */
  lemma ChoiceSelectsVendor(invoices: seq<Invoice>, term: string, i: nat, inv: Invoice)
    requires 1 <= i < |Choices(invoices)| && inv in invoices
    ensures inv in Filter(invoices, Choices(invoices)[i], term) <==>
              inv.vendor == Choices(invoices)[i].name && MatchesSearch(term, inv)
  {
    FilterKeptIff(invoices, Choices(invoices)[i], term, inv);
  }

  /** Every option is a different choice, and the option of each vendor,
      "all" included, lists exactly that vendor's matching invoices. */
  lemma ChoicesSelectVendor(invoices: seq<Invoice>, term: string)
    ensures NoDuplicates(Choices(invoices))
    ensures forall i, inv :: 1 <= i < |Choices(invoices)| && inv in invoices ==>
              (inv in Filter(invoices, Choices(invoices)[i], term) <==>
                 inv.vendor == Choices(invoices)[i].name && MatchesSearch(term, inv))
  {
    ChoicesDistinct(invoices);
    forall i: nat, inv | 1 <= i < |Choices(invoices)| && inv in invoices
      ensures inv in Filter(invoices, Choices(invoices)[i], term) <==>
                inv.vendor == Choices(invoices)[i].name && MatchesSearch(term, inv)
    {
      ChoiceSelectsVendor(invoices, term, i, inv);
    }
  }
}
