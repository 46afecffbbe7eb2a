/** The invoice records the components share: a stored invoice with its
    line items, and the per-invoice views the aggregations key on. */
module Invoices {
  import opened Collections

  /** One line of an invoice (`LineItem`). */
  datatype LineItem = LineItem(description: string, quantity: real, unitPrice: real, total: real)

  /** A stored invoice (`Invoice`): the Firestore document id, the vendor
      string as extracted, the line items, `total_amount` and the ISO date. */
  datatype Invoice = Invoice(id: string, vendor: string, items: seq<LineItem>, totalAmount: real, date: string)

  /** The vendor of each invoice, in input order. */
  function VendorsOf(invoices: seq<Invoice>): (vs: seq<string>)
    ensures |vs| == |invoices|
    ensures forall i :: 0 <= i < |invoices| ==> vs[i] == invoices[i].vendor
  {
    seq(|invoices|, i requires 0 <= i < |invoices| => invoices[i].vendor)
  }

  /** Each invoice's `total_amount`, keyed by its vendor. */
  function SpendByVendor(invoices: seq<Invoice>): (bs: seq<Bucket<string>>)
    ensures |bs| == |invoices|
    ensures forall i :: 0 <= i < |invoices| ==> bs[i] == Bucket(invoices[i].vendor, invoices[i].totalAmount)
  {
    seq(|invoices|, i requires 0 <= i < |invoices| => Bucket(invoices[i].vendor, invoices[i].totalAmount))
  }

  /** Each item's quantity, keyed by its description. */
  function QuantityByDescription(items: seq<LineItem>): (bs: seq<Bucket<string>>)
    ensures |bs| == |items|
    ensures forall i :: 0 <= i < |items| ==> bs[i] == Bucket(items[i].description, items[i].quantity)
  {
    seq(|items|, i requires 0 <= i < |items| => Bucket(items[i].description, items[i].quantity))
  }

  /** The descriptions of the items, in order. */
  function Descriptions(items: seq<LineItem>): (ds: seq<string>)
    ensures |ds| == |items|
    ensures forall i :: 0 <= i < |items| ==> ds[i] == items[i].description
  {
    seq(|items|, i requires 0 <= i < |items| => items[i].description)
  }

  /** The sum of the items' `total` fields, added left to right. */
  function ItemsTotal(items: seq<LineItem>): real
  {
    if |items| == 0 then 0.0 else ItemsTotal(items[..|items| - 1]) + items[|items| - 1].total
  }

  /** The sum of the invoices' `total_amount` fields, added left to right. */
  function InvoicesTotal(invoices: seq<Invoice>): real
  {
    if |invoices| == 0 then 0.0 else InvoicesTotal(invoices[..|invoices| - 1]) + invoices[|invoices| - 1].totalAmount
  }

  /** Prefixes of the keyed views are the views of prefixes. */
  lemma SpendByVendorPrefix(invoices: seq<Invoice>, n: nat)
    requires n <= |invoices|
    ensures SpendByVendor(invoices[..n]) == SpendByVendor(invoices)[..n]
    ensures VendorsOf(invoices[..n]) == VendorsOf(invoices)[..n]
  {
  }

  /** The invoice total is the total of the vendor-keyed view. */
  lemma {:induction false} InvoicesTotalIsSpend(invoices: seq<Invoice>)
    ensures InvoicesTotal(invoices) == Total(SpendByVendor(invoices))
    ensures Keys(SpendByVendor(invoices)) == VendorsOf(invoices)
  {
    if |invoices| > 0 {
      var n := |invoices| - 1;
      InvoicesTotalIsSpend(invoices[..n]);
      SpendByVendorPrefix(invoices, n);
    }
  }
}
