/** The insight cards (`ExpenseInsights`): built from the invoices in
    descending date order, a "Latest Purchase" card for the newest invoice
    and a "Monthly Change" card comparing it with the one before. */
module Insights {
  import opened Text
  import opened Invoices

  datatype Trend = Up | Down | Neutral

  /** One card. The value is kept as the number the card formats
      (`toFixed` is display only). */
  datatype Insight = Insight(title: string, value: JsNumber, description: string, trend: Trend)

  // ---------------------------------------------------------------------
  // The JavaScript number operations the cards use
  // ---------------------------------------------------------------------

  /** `x / y`: a non-zero numerator over zero is an infinity of its sign,
      and 0 / 0 is NaN. */
  function Divide(x: real, y: real): (r: JsNumber)
    ensures y != 0.0 ==> r == Finite(x / y)
    ensures y == 0.0 ==> (r.NaN? <==> x == 0.0)
    ensures y == 0.0 && r.Infinite? ==> (r.negative <==> x < 0.0)
  {
    if y != 0.0 then Finite(x / y)
    else if x > 0.0 then Infinite(false)
    else if x < 0.0 then Infinite(true)
    else NaN
  }

  /** `x * 100`. */
  function Percent(x: JsNumber): JsNumber
  {
    match x
    case Finite(v) => Finite(v * 100.0)
    case _ => x
  }

  /** `Math.abs(x)`. */
  function Abs(x: JsNumber): JsNumber
  {
    match x
    case Finite(v) => Finite(if v < 0.0 then -v else v)
    case Infinite(_) => Infinite(false)
    case NaN => NaN
  }

  /** `x >= 0`, which is false for NaN. */
  predicate AtLeastZero(x: JsNumber) {
    match x
    case Finite(v) => v >= 0.0
    case Infinite(negative) => !negative
    case NaN => false
  }

  /** `((latest - previous) / previous) * 100`. */
  function Change(latest: real, previous: real): JsNumber
  {
    Percent(Divide(latest - previous, previous))
  }

  // ---------------------------------------------------------------------
  // The cards
  // ---------------------------------------------------------------------

  function LatestPurchase(newest: Invoice): Insight
  {
    Insight("Latest Purchase", Finite(newest.totalAmount), "From " + newest.vendor, Neutral)
  }

  function MonthlyChange(newest: Invoice, previous: Invoice): Insight
  {
    var change := Change(newest.totalAmount, previous.totalAmount);
    var rising := AtLeastZero(change);
    Insight("Monthly Change", Abs(change),
            (if rising then "Increase" else "Decrease") + " from last month",
            if rising then Up else Down)
  }

  /** The list the component stores, for invoices newest first. */
  function BuildInsights(invoices: seq<Invoice>): (r: seq<Insight>)
    ensures |invoices| == 0 ==> r == []
    ensures |invoices| == 1 ==> |r| == 1
    ensures |invoices| >= 2 ==> |r| == 2
    ensures |invoices| >= 1 ==> r[0].title == "Latest Purchase" && r[0].trend == Neutral
    ensures |invoices| >= 2 ==> r[1].title == "Monthly Change" && r[1].trend != Neutral
    ensures |invoices| >= 1 ==> r[0] == LatestPurchase(invoices[0])
    ensures |invoices| >= 2 ==> r[1] == MonthlyChange(invoices[0], invoices[1])
  {
    (if |invoices| > 0 then [LatestPurchase(invoices[0])] else [])
    + (if |invoices| >= 2 then [MonthlyChange(invoices[0], invoices[1])] else [])
  }

  /** "Monthly Change" compares the two newest invoices, not two calendar
      months: no older invoice plays a part, and neither do the two dates,
      so two invoices of the same day or years apart are compared alike. */
  lemma MonthlyChangeTwoNewest(invoices: seq<Invoice>, older: seq<Invoice>, d0: string, d1: string)
    requires |invoices| >= 2
    ensures BuildInsights(invoices[..2] + older) == BuildInsights(invoices)
    ensures BuildInsights(invoices)[1]
      == MonthlyChange(invoices[0].(date := d0), invoices[1].(date := d1))
  {
    assert (invoices[..2] + older)[0] == invoices[0] && (invoices[..2] + older)[1] == invoices[1];
  }

  /** The first card reports the amount and the vendor of the newest invoice. */
  lemma LatestPurchaseReportsNewest(invoices: seq<Invoice>)
    requires |invoices| >= 1
    ensures BuildInsights(invoices)[0].value == Finite(invoices[0].totalAmount)
    ensures BuildInsights(invoices)[0].description == "From " + invoices[0].vendor
  {
  }

  /** The trend rises exactly when the newest amount moved away from the
      previous one in the direction of the previous amount's sign: for a
      positive previous amount, when the newest is at least as large; for
      a zero previous amount, when the newest is positive. */
  lemma TrendDirection(newest: Invoice, previous: Invoice)
    ensures var a, b := newest.totalAmount, previous.totalAmount;
      && (b > 0.0 ==> (MonthlyChange(newest, previous).trend == Up <==> a >= b))
      && (b < 0.0 ==> (MonthlyChange(newest, previous).trend == Up <==> a <= b))
      && (b == 0.0 ==> (MonthlyChange(newest, previous).trend == Up <==> a > 0.0))
  {
    var a, b := newest.totalAmount, previous.totalAmount;
    if b > 0.0 {
      DivideSign(a - b, b);
    } else if b < 0.0 {
      DivideSign(b - a, -b);
      assert (a - b) / b == (b - a) / (-b);
    }
  }

  lemma DivideSign(x: real, y: real)
    requires y > 0.0
    ensures x / y >= 0.0 <==> x >= 0.0
  {
    if x < 0.0 {
      assert x / y * y == x;
    }
  }

  /** The card says "Increase" exactly when its trend is up. */
  lemma DescriptionFollowsTrend(newest: Invoice, previous: Invoice)
    ensures var card := MonthlyChange(newest, previous);
      card.description == (if card.trend == Up then "Increase" else "Decrease") + " from last month"
  {
  }

  /** The percentage shown is never negative: it is |a - b| / |b| * 100
      when the previous amount is non-zero, and otherwise an unsigned
      infinity or, for two zero amounts, NaN. */
  lemma PercentageMagnitude(newest: Invoice, previous: Invoice)
    ensures var a, b := newest.totalAmount, previous.totalAmount;
      var v := MonthlyChange(newest, previous).value;
      && (b != 0.0 ==> v == Finite(RealAbs(a - b) / RealAbs(b) * 100.0))
      && (b == 0.0 && a != 0.0 ==> v == Infinite(false))
      && (b == 0.0 && a == 0.0 ==> v == NaN)
      && (v.Finite? ==> v.value >= 0.0)
  {
    var a, b := newest.totalAmount, previous.totalAmount;
    if b != 0.0 {
      AbsQuotient(a - b, b);
    }
  }

  function RealAbs(x: real): real { if x < 0.0 then -x else x }

  lemma AbsQuotient(x: real, y: real)
    requires y != 0.0
    ensures RealAbs(x / y * 100.0) == RealAbs(x) / RealAbs(y) * 100.0
    ensures RealAbs(x) / RealAbs(y) * 100.0 >= 0.0
  {
    if y > 0.0 {
      DivideSign(x, y);
      if x < 0.0 {
        assert -(x / y) == (-x) / y;
      }
    } else {
      DivideSign(-x, -y);
      assert x / y == (-x) / (-y);
      if x > 0.0 {
        assert -(x / (-y)) == x / y;
      }
    }
  }
}
