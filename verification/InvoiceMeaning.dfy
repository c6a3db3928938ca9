/** What every number of a calculated invoice means, read off the values entered. */
module InvoiceMeaning {
  import opened Prelude
  import opened Money
  import opened Invoice
  import opened InvoiceAllocation
  import opened InvoiceProperties

  /** `n` is `x` to the nearest cent, a half going up. */
  predicate Nearest(n: int, x: real) {
    x - 0.5 < n as real <= x + 0.5
  }

  predicate Within(x: real, tolerance: real, y: real) {
    y - tolerance <= x <= y + tolerance
  }

  /** Everything but a rate of -100 percent in VAT-inclusive mode can be calculated. */
  lemma WellPosedIff(input: Input)
    ensures WellPosed(input) <==>
      input.pricesIncludeVat ==>
        && (forall i | 0 <= i < |input.lines| :: input.lines[i].vatRate != -100.0)
        && (input.manualShippingVatAmount == None ==> input.shippingVatRate != -100.0)
  {
    forall rate: real ensures NetExists(rate) <==> rate != -100.0 {
    }
  }

  /**
   `base` is what was entered for the line, its price less its own discount: to the nearest
   cent in net mode, and in VAT-inclusive mode after VAT is put back on.
   */
  predicate IsWorthOf(l: Line, inclusive: bool, base: int) {
    var entered := l.quantity * l.unitPrice - l.discountAmount;
    var f := 1.0 + l.vatRate / 100.0;
    if !inclusive then Nearest(base, entered)
    else f > 0.0 ==> Within(base as real * f, (f + 1.0) / 2.0, entered)
  }

  /** `vat` is the VAT entered by hand, or what the rate asks on `base`, to the nearest cent. */
  predicate IsVatOf(l: Line, base: int, vat: int) {
    match l.manualVatAmount
    case Some(manual) => Nearest(vat, manual)
    case None => Nearest(vat, base as real * l.vatRate / 100.0)
  }

  /** What a line is charged and its share of the invoice discount add up to what was entered. */
  lemma LineIsWorthWhatWasEntered(input: Input, i: nat)
    requires WellPosed(input) && Calculate(input).Ok? && i < |input.lines|
    ensures |Calculate(input).value.lines| == |input.lines|
    ensures var line := Calculate(input).value.lines[i];
      IsWorthOf(input.lines[i], input.pricesIncludeVat, line.taxableBase + line.allocatedInvoiceDiscount)
  {
    hide Calculate, WellPosed, LineGross, PreBase, LineVat, IsWorthOf, NetExists;
    LineResultIs(input, i);
    PreBaseIsWorth(input.lines[i], input.pricesIncludeVat);
  }

  lemma LineResultIs(input: Input, i: nat)
    requires WellPosed(input) && Calculate(input).Ok? && i < |input.lines|
    ensures |Calculate(input).value.lines| == |input.lines|
    ensures input.pricesIncludeVat ==> NetExists(input.lines[i].vatRate)
    ensures var line, l := Calculate(input).value.lines[i], input.lines[i];
      && line.taxableBase + line.allocatedInvoiceDiscount == PreBase(l, input.pricesIncludeVat)
      && line.input == l && line.lineTotal == line.taxableBase + line.vatAmount
      && line.vatAmount == LineVat(l, line.taxableBase)
  {
    hide LineGross, PreBase, LineVat, NetExists;
  }

  lemma PreBaseIsWorth(l: Line, inclusive: bool)
    requires inclusive ==> NetExists(l.vatRate)
    ensures IsWorthOf(l, inclusive, PreBase(l, inclusive))
  {
    if inclusive && Factor(l.vatRate) > 0.0 {
      NetTimesFactor(LineGross(l), Factor(l.vatRate), PreBase(l, true));
    }
  }

  lemma LineVatIsNearest(l: Line, base: int)
    ensures IsVatOf(l, base, LineVat(l, base))
  {
    assert base as real * (l.vatRate / 100.0) == base as real * l.vatRate / 100.0;
  }

  /** The VAT of a line is due on what it is charged, and both make its total. */
  lemma LineVatIsDue(input: Input, i: nat)
    requires WellPosed(input) && Calculate(input).Ok? && i < |input.lines|
    ensures |Calculate(input).value.lines| == |input.lines|
    ensures var line, l := Calculate(input).value.lines[i], input.lines[i];
      && line.input == l
      && line.lineTotal == line.taxableBase + line.vatAmount
      && IsVatOf(l, line.taxableBase, line.vatAmount)
  {
    hide Calculate, WellPosed, LineGross, PreBase, LineVat, IsVatOf, NetExists;
    LineResultIs(input, i);
    LineVatIsNearest(input.lines[i], Calculate(input).value.lines[i].taxableBase);
  }

  /** Shipping and its VAT, in every mode. */
  lemma ShippingIsWorthWhatWasEntered(input: Input)
    requires WellPosed(input) && Calculate(input).Ok?
    ensures var t := Calculate(input).value;
      var f := 1.0 + input.shippingVatRate / 100.0;
      && (if input.pricesIncludeVat then Nearest(t.shippingAmount + t.shippingVatAmount, input.shippingAmount)
          else Nearest(t.shippingAmount, input.shippingAmount))
      && (match input.manualShippingVatAmount
          case Some(manual) => Nearest(t.shippingVatAmount, manual)
          case None =>
            && (!input.pricesIncludeVat ==>
                  Nearest(t.shippingVatAmount, t.shippingAmount as real * input.shippingVatRate / 100.0))
            && (input.pricesIncludeVat && f > 0.0 ==>
                  Within(t.shippingAmount as real * f, (f + 1.0) / 2.0, input.shippingAmount)))
  {
    if input.pricesIncludeVat && input.manualShippingVatAmount == None && Factor(input.shippingVatRate) > 0.0 {
      NetTimesFactor(Round(input.shippingAmount), Factor(input.shippingVatRate), Shipping(input).0);
    }
  }

  /** The sum of the line VATs. */
  function VatOfLines(lines: seq<LineResult>): int {
    if lines == [] then 0 else VatOfLines(lines[..|lines| - 1]) + lines[|lines| - 1].vatAmount
  }

  /** The sum of what the lines with a positive value are worth before the invoice discount. */
  function PositiveWorth(lines: seq<LineResult>): int {
    if lines == [] then 0 else
      var last := lines[|lines| - 1];
      var base := last.taxableBase + last.allocatedInvoiceDiscount;
      PositiveWorth(lines[..|lines| - 1]) + if base > 0 then base else 0
  }

  lemma {:induction false} VatsSum(lines: seq<LineResult>)
    ensures Sum(Vats(lines)) == VatOfLines(lines)
    decreases |lines|
  {
    if lines != [] {
      var n := |lines| - 1;
      VatsSum(lines[..n]);
      assert Vats(lines)[..n] == Vats(lines[..n]);
    }
  }

  lemma {:induction false} PositiveWorthIs(lines: seq<LineResult>, pre: seq<int>, n: nat)
    requires n <= |lines| == |pre|
    requires forall i | 0 <= i < |pre| :: lines[i].taxableBase + lines[i].allocatedInvoiceDiscount == pre[i]
    ensures PositiveWorth(lines[..n]) == EligibleUpTo(pre, n)
    decreases n
  {
    if n > 0 {
      PositiveWorthIs(lines, pre, n - 1);
      assert lines[..n][..n - 1] == lines[..n - 1];
    }
  }

  /**
   The totals add up: the subtotal is what the lines worth something are worth, the VAT total
   is all VAT there is, and subtotal less discount plus VAT plus shipping is the grand total.
   */
  lemma TotalsAddUp(input: Input)
    requires WellPosed(input) && Calculate(input).Ok?
    ensures var t := Calculate(input).value;
      && t.subtotal == PositiveWorth(t.lines)
      && Nearest(t.discountAmount, input.discountAmount)
      && 0 <= t.discountAmount <= t.subtotal
      && t.taxVatAmount == VatOfLines(t.lines) + t.shippingVatAmount
      && t.totalAmount == t.subtotal - t.discountAmount + t.taxVatAmount + t.shippingAmount
  {
    var t := Calculate(input).value;
    VatsSum(t.lines);
    PositiveWorthIs(t.lines, PreBases(input), |t.lines|);
    assert t.lines[..|t.lines|] == t.lines;
  }

  /** Line `j` is worth something before the invoice discount. */
  predicate Eligible(lines: seq<LineResult>, j: int) {
    0 <= j < |lines| && lines[j].taxableBase + lines[j].allocatedInvoiceDiscount > 0
  }

  /**
   Each eligible line but the last gets its proportional share of the invoice discount to the
   nearest cent, the last is within half a cent for each of the others, and the rest get none.
   */
  lemma SharesAreProportional(input: Input, i: nat)
    requires WellPosed(input) && Calculate(input).Ok? && i < |input.lines|
    ensures |Calculate(input).value.lines| == |input.lines|
    ensures var t := Calculate(input).value;
      var share := t.lines[i].allocatedInvoiceDiscount;
      var base := t.lines[i].taxableBase + share;
      && (!Eligible(t.lines, i) ==> share == 0)
      && (Eligible(t.lines, i) ==> t.subtotal > 0)
      && (Eligible(t.lines, i) && (exists j :: j > i && Eligible(t.lines, j)) ==>
            Nearest(share, (t.discountAmount * base) as real / t.subtotal as real))
      && (Eligible(t.lines, i) && !(exists j :: j > i && Eligible(t.lines, j)) ==>
            Within(share as real, (|input.lines| - 1) as real / 2.0,
                   (t.discountAmount * base) as real / t.subtotal as real))
  {
    var t := Calculate(input).value;
    var pre, d := PreBases(input), Round(input.discountAmount);
    assert forall j | 0 <= j < |pre| :: t.lines[j].taxableBase + t.lines[j].allocatedInvoiceDiscount == pre[j];
    assert forall j | 0 <= j < |pre| :: Eligible(t.lines, j) <==> pre[j] > 0;
    hide Calculate, PreBase, LineGross, LineVat, NetExists, WellPosed, RoundedUpTo, EligibleUpTo;
    if pre[i] > 0 {
      assert EligibleBase(pre) > 0;
      if j :| j > i && Eligible(t.lines, j) {
        assert i != LastEligible(pre, |pre|);
      } else {
        assert i == LastEligible(pre, |pre|);
        RemainderWithinBound(pre, d);
        EligibleCountBound(pre, |pre|);
      }
    } else {
      assert i != LastEligible(pre, |pre|);
    }
  }

  lemma {:induction false} EligibleCountBound(pre: seq<int>, n: nat)
    requires n <= |pre|
    ensures EligibleCount(pre, n) <= n
    decreases n
  {
    if n > 0 {
      EligibleCountBound(pre, n - 1);
    }
  }

  /** An invoice is refused exactly for a negative discount, or for one above the subtotal it has without any. */
  lemma RefusedIff(input: Input)
    requires WellPosed(input)
    ensures Calculate(input.(discountAmount := 0.0)).Ok?
    ensures Calculate(input) == Err(NegativeDiscount) <==> input.discountAmount < -0.5
    ensures var subtotal := Calculate(input.(discountAmount := 0.0)).value.subtotal;
      Calculate(input) == Err(DiscountExceedsBase) <==> input.discountAmount >= subtotal as real + 0.5
  {
    var free := input.(discountAmount := 0.0);
    assert PreBases(free) == PreBases(input);
    RoundInt(0);
  }

  // ----- VAT-inclusive invoices give back what was entered -----

  /** What was entered for all lines together. */
  function EnteredTotal(lines: seq<Line>): real {
    if lines == [] then 0.0 else
      var last := lines[|lines| - 1];
      EnteredTotal(lines[..|lines| - 1]) + (last.quantity * last.unitPrice - last.discountAmount)
  }

  predicate GivesBack(l: Line, lineTotal: int) {
    Within(lineTotal as real, 1.5, l.quantity * l.unitPrice - l.discountAmount)
  }

  /**
   VAT-inclusive, automatic VAT and no invoice discount: each line total is within a cent and a
   half of what was entered.
   */
  lemma LineGivesBackWhatWasEntered(input: Input, i: nat)
    requires WellPosed(input) && input.pricesIncludeVat && -0.5 <= input.discountAmount < 0.5
    requires i < |input.lines| && input.lines[i].manualVatAmount == None && -100.0 < input.lines[i].vatRate < 200.0
    ensures Calculate(input).Ok? && |Calculate(input).value.lines| == |input.lines|
    ensures GivesBack(input.lines[i], Calculate(input).value.lines[i].lineTotal)
  {
    RoundIsNearest(input.discountAmount, 0);
    NothingIsAccepted(input);
    GrossIsRecovered(input, i);
    hide Calculate;
  }

  lemma {:induction false} EnteredTotalNear(lines: seq<Line>, totals: seq<int>)
    requires |lines| == |totals| && forall i | 0 <= i < |lines| :: GivesBack(lines[i], totals[i])
    ensures Within(Sum(totals) as real, 1.5 * |lines| as real, EnteredTotal(lines))
    decreases |lines|
  {
    if lines != [] {
      EnteredTotalNear(lines[..|lines| - 1], totals[..|lines| - 1]);
      assert GivesBack(lines[|lines| - 1], totals[|lines| - 1]);
    }
  }

  /**
   The customer of a whole VAT-inclusive invoice, with automatic line VAT, no invoice discount
   and no line below zero, pays what was entered, shipping included, to within a cent and a
   half a line and half a cent for shipping.
   */
  lemma InvoiceGivesBackWhatWasEntered(input: Input)
    requires WellPosed(input) && input.pricesIncludeVat && -0.5 <= input.discountAmount < 0.5
    requires forall i | 0 <= i < |input.lines| ::
      input.lines[i].manualVatAmount == None && -100.0 < input.lines[i].vatRate < 200.0 && NotBelowZero(input.lines[i])
    ensures Calculate(input).Ok?
    ensures Within(Calculate(input).value.totalAmount as real, 1.5 * |input.lines| as real + 0.5,
                   EnteredTotal(input.lines) + input.shippingAmount)
  {
    hide Calculate, PreBase, LineGross, NetExists, GivesBack, NotBelowZero, EnteredTotal, WellPosed;
    RoundIsNearest(input.discountAmount, 0);
    NothingIsAccepted(input);
    var t := Calculate(input).value;
    forall i: nat | i < |input.lines| ensures GivesBack(input.lines[i], LineTotals(t.lines)[i]) {
      LineGivesBackWhatWasEntered(input, i);
    }
    forall i: nat | i < |input.lines| ensures PreBases(input)[i] >= 0 {
      NothingBelowZero(input.lines[i]);
    }
    EnteredTotalNear(input.lines, LineTotals(t.lines));
    ShippingGrossIsExact(input);
    TotalReconciles(input);
  }

  predicate NotBelowZero(l: Line) {
    l.quantity * l.unitPrice - l.discountAmount >= 0.0
  }

  lemma NothingBelowZero(l: Line)
    requires NotBelowZero(l) && -100.0 < l.vatRate
    ensures NetExists(l.vatRate) && PreBase(l, true) >= 0
  {
    NetTimesFactor(LineGross(l), Factor(l.vatRate), PreBase(l, true));
    var q := LineGross(l) as real / Factor(l.vatRate);
    assert q * Factor(l.vatRate) == LineGross(l) as real;
    ScaleOrder(q, 0.0, Factor(l.vatRate));
  }
}
