/** Properties of whole invoices: reconciliation, gross recovery and what a discount does to VAT. */
module InvoiceProperties {
  import opened Prelude
  import opened Money
  import opened Invoice
  import opened InvoiceAllocation

  /** The amount by which lines are discounted below zero before the invoice discount. */
  function OverDiscount(pre: seq<int>, n: nat): nat
    requires n <= |pre|
  {
    if n == 0 then 0 else OverDiscount(pre, n - 1) + Positive(-pre[n - 1])
  }

  lemma {:induction false} EligibleMinusSum(pre: seq<int>, n: nat)
    requires n <= |pre|
    ensures EligibleUpTo(pre, n) - OverDiscount(pre, n) == Sum(pre[..n])
    decreases n
  {
    if n > 0 {
      EligibleMinusSum(pre, n - 1);
      assert pre[..n][..n - 1] == pre[..n - 1];
    }
  }

  lemma {:induction false} NoOverDiscount(pre: seq<int>, n: nat)
    requires n <= |pre| && forall i | 0 <= i < n :: pre[i] >= 0
    ensures OverDiscount(pre, n) == 0
    decreases n
  {
    if n > 0 {
      NoOverDiscount(pre, n - 1);
    }
  }

  function TaxableBases(lines: seq<LineResult>): (r: seq<int>)
    ensures |r| == |lines|
  {
    seq(|lines|, i requires 0 <= i < |lines| => lines[i].taxableBase)
  }

  function OverDiscounted(input: Input): nat
    requires WellPosed(input)
  {
    OverDiscount(PreBases(input), |PreBases(input)|)
  }

  /** The charged bases sum to the eligible base less the discount and any over-discounting. */
  lemma BasesSum(input: Input)
    requires WellPosed(input) && Calculate(input).Ok?
    ensures var t := Calculate(input).value;
      Sum(TaxableBases(t.lines)) == t.subtotal - t.discountAmount - OverDiscounted(input)
  {
    var pre, d := PreBases(input), Round(input.discountAmount);
    var t := Calculate(input).value;
    var a := Allocation(pre, d);
    AllocationSumsToDiscount(pre, d);
    SumAdd(TaxableBases(t.lines), a, pre);
    EligibleMinusSum(pre, |pre|);
    assert pre[..|pre|] == pre;
  }

  /**
   Reconciliation, in every pricing and VAT mode: the grand total exceeds what the lines
   and shipping say by exactly the amount that lines were discounted below zero.
   */
  lemma TotalReconciles(input: Input)
    requires WellPosed(input) && Calculate(input).Ok?
    ensures var t := Calculate(input).value;
      t.totalAmount - (Sum(LineTotals(t.lines)) + t.shippingAmount + t.shippingVatAmount) == OverDiscounted(input)
    ensures (forall i | 0 <= i < |input.lines| :: PreBases(input)[i] >= 0) ==>
      var t := Calculate(input).value;
      t.totalAmount == Sum(LineTotals(t.lines)) + t.shippingAmount + t.shippingVatAmount
  {
    var t := Calculate(input).value;
    BasesSum(input);
    SumAdd(TaxableBases(t.lines), Vats(t.lines), LineTotals(t.lines));
    if forall i | 0 <= i < |input.lines| :: PreBases(input)[i] >= 0 {
      NoOverDiscount(PreBases(input), |input.lines|);
    }
  }

  /** The per-line discounts in the result add up to the invoice discount. */
  lemma ResultSharesSum(input: Input)
    requires WellPosed(input) && Calculate(input).Ok?
    ensures var t := Calculate(input).value;
      Sum(seq(|t.lines|, i requires 0 <= i < |t.lines| => t.lines[i].allocatedInvoiceDiscount)) == t.discountAmount
  {
    var pre, d := PreBases(input), Round(input.discountAmount);
    var t := Calculate(input).value;
    AllocationSumsToDiscount(pre, d);
    assert seq(|t.lines|, i requires 0 <= i < |t.lines| => t.lines[i].allocatedInvoiceDiscount) == Allocation(pre, d);
  }

  /**
   With at most three eligible lines no line gets a negative discount and no eligible line is
   charged on a negative base.
   */
  lemma FewLinesNeverNegative(input: Input, i: nat)
    requires WellPosed(input) && Calculate(input).Ok? && i < |input.lines|
    requires EligibleCount(PreBases(input), |input.lines|) <= 3
    ensures 0 <= Calculate(input).value.lines[i].allocatedInvoiceDiscount <= Positive(PreBases(input)[i])
    ensures PreBases(input)[i] > 0 ==> 0 <= Calculate(input).value.lines[i].taxableBase <= PreBases(input)[i]
  {
    ThreeLinesStayInRange(PreBases(input), Round(input.discountAmount));
  }

  /** A net invoice without VAT whose lines have the given bases. */
  function InvoiceOf(bases: seq<int>, discount: int): Input {
    Input(seq(|bases|, i requires 0 <= i < |bases| => Line(1.0, bases[i] as real, 0.0, 0.0, None)),
          discount as real, 0.0, 0.0, None, false)
  }

  /** Whatever the allocation does to some bases, it does on an invoice. */
  lemma InvoiceHasBases(bases: seq<int>, discount: int)
    requires Accepted(bases, discount)
    ensures var input := InvoiceOf(bases, discount);
      && WellPosed(input) && PreBases(input) == bases && Calculate(input).Ok?
      && forall i | 0 <= i < |bases| ::
        var line := Calculate(input).value.lines[i];
        && line.allocatedInvoiceDiscount == Allocation(bases, discount)[i]
        && line.taxableBase == bases[i] - Allocation(bases, discount)[i]
  {
    var input := InvoiceOf(bases, discount);
    RoundInt(discount);
    forall i | 0 <= i < |bases| ensures PreBases(input)[i] == bases[i] {
      RoundInt(bases[i]);
    }
    assert PreBases(input) == bases;
  }

  /** An invoice that is accepted, with `k` eligible lines. */
  predicate AcceptedWith(input: Input, k: nat) {
    WellPosed(input) && Calculate(input).Ok? && EligibleCount(PreBases(input), |input.lines|) == k
  }

  predicate SharesNonNegative(input: Input)
    requires WellPosed(input) && Calculate(input).Ok?
  {
    forall i | 0 <= i < |input.lines| :: Calculate(input).value.lines[i].allocatedInvoiceDiscount >= 0
  }

  /** No line that is worth something before the invoice discount is charged on less than nothing. */
  predicate EligibleBasesNonNegative(input: Input)
    requires WellPosed(input) && Calculate(input).Ok?
  {
    forall i | 0 <= i < |input.lines| && PreBases(input)[i] > 0 :: Calculate(input).value.lines[i].taxableBase >= 0
  }

  /** For every k from four on, an accepted invoice that gives a line a negative share of the discount. */
  lemma NegativeShareInvoice(k: nat) returns (input: Input)
    requires k >= 4
    ensures AcceptedWith(input, k) && |input.lines| == k
    ensures Calculate(input).value.lines[k - 1].allocatedInvoiceDiscount < 0 && !SharesNonNegative(input)
  {
    FourLinesCanGoNegative(k);
    InvoiceHasBases(Ones(k), (k + 1) / 2);
    input := InvoiceOf(Ones(k), (k + 1) / 2);
  }

  /** For every k from four on, an accepted invoice that charges a line of one cent on minus one cent. */
  lemma NegativeBaseInvoice(k: nat) returns (input: Input)
    requires k >= 4
    ensures AcceptedWith(input, k) && |input.lines| == k && PreBases(input)[k - 1] == 1
    ensures Calculate(input).value.lines[k - 1].taxableBase == -1 && !EligibleBasesNonNegative(input)
  {
    FourLinesCanOvershoot(k);
    InvoiceHasBases(ThreesAndOne(k), 2 * k);
    input := InvoiceOf(ThreesAndOne(k), 2 * k);
  }

  /**
   With k eligible lines, no accepted invoice discounts a line by a negative amount, or
   charges an eligible line on a negative base, exactly when k is at most three.
   */
  lemma SoundIffAtMostThree(k: nat)
    ensures k <= 3 <==> forall input | AcceptedWith(input, k) :: SharesNonNegative(input)
    ensures k <= 3 <==> forall input | AcceptedWith(input, k) :: EligibleBasesNonNegative(input)
  {
    if k <= 3 {
      forall input | AcceptedWith(input, k) ensures SharesNonNegative(input) && EligibleBasesNonNegative(input) {
        forall i: nat | i < |input.lines| ensures 0 <= Calculate(input).value.lines[i].allocatedInvoiceDiscount {
          FewLinesNeverNegative(input, i);
        }
        forall i: nat | i < |input.lines| && PreBases(input)[i] > 0
          ensures 0 <= Calculate(input).value.lines[i].taxableBase
        {
          FewLinesNeverNegative(input, i);
        }
      }
    } else {
      var shares := NegativeShareInvoice(k);
      var bases := NegativeBaseInvoice(k);
    }
  }

  // ----- the discount reduces VAT -----

  ghost predicate CommonRate(input: Input, rate: real) {
    forall i | 0 <= i < |input.lines| :: input.lines[i].vatRate == rate && input.lines[i].manualVatAmount == None
  }

  /** Exact VAT at rate `r`, a fraction, on a base. */
  function ExactVat(r: real, base: int): real {
    base as real * r
  }

  lemma ExactVatAdds(r: real, a: int, b: int)
    ensures ExactVat(r, a + b) == ExactVat(r, a) + ExactVat(r, b) && ExactVat(r, 0) == 0.0
  {
  }

  lemma {:induction false} VatDrift(bases: seq<int>, vats: seq<int>, r: real)
    requires |bases| == |vats| && forall i | 0 <= i < |bases| :: vats[i] == Round(ExactVat(r, bases[i]))
    ensures -(|bases| as real) / 2.0 <= Sum(vats) as real - ExactVat(r, Sum(bases)) <= |bases| as real / 2.0
    decreases |bases|
  {
    hide ExactVat;
    if bases == [] {
      ExactVatAdds(r, 0, 0);
    } else {
      var n := |bases| - 1;
      VatDrift(bases[..n], vats[..n], r);
      ExactVatAdds(r, Sum(bases[..n]), bases[n]);
    }
  }

  lemma AutomaticVat(l: Line, base: int)
    requires l.manualVatAmount == None
    ensures LineVat(l, base) == Round(ExactVat(l.vatRate / 100.0, base))
  {
  }

  /**
   With one rate r, automatic VAT and no over-discounted line, the VAT charged is within
   n/2 cents of r times the discounted subtotal, however the discount was split.
   */
  lemma DiscountReducesVat(input: Input, rate: real)
    requires WellPosed(input) && Calculate(input).Ok? && CommonRate(input, rate)
    requires forall i | 0 <= i < |input.lines| :: PreBases(input)[i] >= 0
    ensures var t := Calculate(input).value;
      var n := |input.lines| as real;
      -n / 2.0 <= Sum(Vats(t.lines)) as real - ExactVat(rate / 100.0, t.subtotal - t.discountAmount) <= n / 2.0
  {
    var t := Calculate(input).value;
    BasesSum(input);
    NoOverDiscount(PreBases(input), |input.lines|);
    hide ExactVat, LineVat, PreBase;
    forall i | 0 <= i < |input.lines|
      ensures Vats(t.lines)[i] == Round(ExactVat(rate / 100.0, TaxableBases(t.lines)[i]))
    {
      AutomaticVat(input.lines[i], t.lines[i].taxableBase);
    }
    VatDrift(TaxableBases(t.lines), Vats(t.lines), rate / 100.0);
  }

  // ----- gross recovery -----

  /** Rounding the net and then the VAT comes back to within one cent of the gross. */
  lemma NetPlusVatNearGross(l: Line)
    requires l.manualVatAmount == None && -100.0 < l.vatRate < 200.0
    ensures var net := PreBase(l, true);
      -1 <= net + LineVat(l, net) - LineGross(l) <= 1
  {
    var net, f := PreBase(l, true), Factor(l.vatRate);
    assert l.vatRate / 100.0 == f - 1.0;
    RoundShift(net as real * (f - 1.0), net);
    NetTimesFactor(LineGross(l), f, net);
  }

  lemma NetTimesFactor(gross: int, f: real, net: int)
    requires 0.0 < f && net == Round(gross as real / f)
    ensures net as real + net as real * (f - 1.0) == net as real * f
    ensures gross as real - f / 2.0 < net as real * f <= gross as real + f / 2.0
  {
    var q := gross as real / f;
    assert q * f == gross as real;
    ScaleOrder(q - 0.5, net as real, f);
    ScaleOrder(net as real, q + 0.5, f);
  }

  /** `gross` is the price entered less the line's own discount, to the nearest cent, a half going up. */
  predicate IsGrossOf(l: Line, gross: int) {
    l.quantity * l.unitPrice - l.discountAmount - 0.5 < gross as real
      <= l.quantity * l.unitPrice - l.discountAmount + 0.5
  }

  /** Shares of a zero discount are all zero. */
  lemma NoDiscountNoShares(pre: seq<int>, i: nat)
    requires i < |pre|
    ensures Allocation(pre, 0)[i] == 0
  {
    NothingToShare(pre, i);
    RoundedShareIsExact(pre, 0, i, 0);
  }

  /**
   VAT-inclusive prices, automatic VAT and no invoice discount: every line total is within
   one cent of the entered gross, for any rate above -100 and below 200 percent.
   */
  lemma GrossIsRecovered(input: Input, i: nat)
    requires WellPosed(input) && input.pricesIncludeVat && Round(input.discountAmount) == 0
    requires i < |input.lines| && input.lines[i].manualVatAmount == None && -100.0 < input.lines[i].vatRate < 200.0
    ensures Calculate(input).Ok?
    ensures -1 <= Calculate(input).value.lines[i].lineTotal - LineGross(input.lines[i]) <= 1
    ensures IsGrossOf(input.lines[i], LineGross(input.lines[i]))
  {
    var l := input.lines[i];
    NoDiscountNoShares(PreBases(input), i);
    hide PreBase, LineVat, LineGross;
    NetPlusVatNearGross(l);
  }

  /** A VAT-inclusive invoice of one line at the given gross and rate. */
  function GrossInvoice(gross: int, rate: real): Input {
    Input([Line(1.0, gross as real, 0.0, rate, None)], 0.0, 0.0, 0.0, None, true)
  }

  lemma GrossInvoiceTotal(gross: int, rate: real, net: int, vat: int)
    requires NetExists(rate)
    requires net == Round(gross as real / Factor(rate)) && vat == Round(net as real * (rate / 100.0))
    ensures WellPosed(GrossInvoice(gross, rate)) && LineGross(GrossInvoice(gross, rate).lines[0]) == gross
    ensures Calculate(GrossInvoice(gross, rate)).Ok?
    ensures Calculate(GrossInvoice(gross, rate)).value.lines[0].lineTotal == net + vat
  {
    var input := GrossInvoice(gross, rate);
    assert WellPosed(input) by {
      assert NetExists(0.0);
    }
    RoundInt(gross);
    assert LineGross(input.lines[0]) == gross;
    assert PreBases(input)[0] == net;
    NoDiscountNoShares(PreBases(input), 0);
  }

  /** One cent is really gained or lost: at 20 percent, 3 cents come back as 4; at 19 percent, 16 cents as 15. */
  lemma GrossRecoveryIsSharp()
    ensures var gained := GrossInvoice(3, 20.0);
      WellPosed(gained) && Calculate(gained).Ok?
        && Calculate(gained).value.lines[0].lineTotal == LineGross(gained.lines[0]) + 1
    ensures var lost := GrossInvoice(16, 19.0);
      WellPosed(lost) && Calculate(lost).Ok? && Calculate(lost).value.lines[0].lineTotal == LineGross(lost.lines[0]) - 1
  {
    hide Calculate, WellPosed, LineGross, GrossInvoice;
    GrossInvoiceTotal(3, 20.0, 3, 1);
    GrossInvoiceTotal(16, 19.0, 13, 2);
  }

  /** Shipping entered gross comes back exactly, with manual or automatic VAT. */
  lemma ShippingGrossIsExact(input: Input)
    requires WellPosed(input) && input.pricesIncludeVat && Calculate(input).Ok?
    ensures var t := Calculate(input).value;
      t.shippingAmount + t.shippingVatAmount == Round(input.shippingAmount)
  {
  }

  function Grosses(input: Input): (r: seq<int>)
    ensures |r| == |input.lines|
  {
    seq(|input.lines|, i requires 0 <= i < |input.lines| => LineGross(input.lines[i]))
  }

  lemma {:induction false} SumsStayNear(a: seq<int>, b: seq<int>)
    requires |a| == |b| && forall i | 0 <= i < |a| :: -1 <= a[i] - b[i] <= 1
    ensures -|a| <= Sum(a) - Sum(b) <= |a|
    decreases |a|
  {
    if a != [] {
      var n := |a| - 1;
      SumsStayNear(a[..n], b[..n]);
    }
  }

  /**
   A whole VAT-inclusive invoice with automatic line VAT, no invoice discount and no line
   below zero: the customer pays what was entered, to within one cent a line, however
   many rates there are and whether shipping VAT is manual or not.
   */
  lemma InvoiceGrossIsRecovered(input: Input)
    requires WellPosed(input) && input.pricesIncludeVat && Round(input.discountAmount) == 0
    requires forall i | 0 <= i < |input.lines| ::
      input.lines[i].manualVatAmount == None && -100.0 < input.lines[i].vatRate < 200.0 && PreBases(input)[i] >= 0
    ensures Calculate(input).Ok?
    ensures var entered := Sum(Grosses(input)) + Round(input.shippingAmount);
      -|input.lines| <= Calculate(input).value.totalAmount - entered <= |input.lines|
    ensures forall i | 0 <= i < |input.lines| :: IsGrossOf(input.lines[i], Grosses(input)[i])
  {
    NothingIsAccepted(input);
    var t := Calculate(input).value;
    forall i: nat | i < |input.lines| ensures -1 <= LineTotals(t.lines)[i] - Grosses(input)[i] <= 1 {
      GrossIsRecovered(input, i);
    }
    hide LineGross, PreBase;
    SumsStayNear(LineTotals(t.lines), Grosses(input));
    ShippingGrossIsExact(input);
    TotalReconciles(input);
  }

  lemma NothingIsAccepted(input: Input)
    requires WellPosed(input) && Round(input.discountAmount) == 0
    ensures Calculate(input).Ok? && |Calculate(input).value.lines| == |input.lines|
  {
  }
}
