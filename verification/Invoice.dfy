/** Invoice totals: allocation of the invoice discount, VAT and totals, in exact cents. */
module Invoice {
  import opened Prelude
  import opened Money

  /** Prices and amounts are in cents and may still be fractional; rates are in percent. */
  datatype Line = Line(quantity: real, unitPrice: real, discountAmount: real, vatRate: real,
    manualVatAmount: Option<real>)

  datatype Input = Input(
    lines: seq<Line>,
    discountAmount: real,
    shippingAmount: real,
    shippingVatRate: real,
    manualShippingVatAmount: Option<real>,
    pricesIncludeVat: bool)

  datatype LineResult = LineResult(input: Line, taxableBase: int, vatAmount: int, lineTotal: int,
    allocatedInvoiceDiscount: int)

  datatype Totals = Totals(
    lines: seq<LineResult>,
    subtotal: int,
    discountAmount: int,
    shippingAmount: int,
    shippingVatAmount: int,
    taxVatAmount: int,
    totalAmount: int)

  datatype InvoiceError = NegativeDiscount | DiscountExceedsBase

  function Factor(rate: real): real {
    1.0 + rate / 100.0
  }

  /** A rate of -100 percent in VAT-inclusive mode divides by zero. */
  predicate NetExists(rate: real) {
    Factor(rate) != 0.0
  }

  predicate WellPosed(input: Input) {
    input.pricesIncludeVat ==>
      && (forall i | 0 <= i < |input.lines| :: NetExists(input.lines[i].vatRate))
      && (input.manualShippingVatAmount == None ==> NetExists(input.shippingVatRate))
  }

  function LineGross(l: Line): int {
    Round(l.quantity * l.unitPrice - l.discountAmount)
  }

  function PreBase(l: Line, pricesIncludeVat: bool): int
    requires pricesIncludeVat ==> NetExists(l.vatRate)
  {
    if pricesIncludeVat then Round(LineGross(l) as real / Factor(l.vatRate)) else LineGross(l)
  }

  function PreBases(input: Input): (pre: seq<int>)
    requires WellPosed(input)
    ensures |pre| == |input.lines|
  {
    seq(|input.lines|, i requires 0 <= i < |input.lines| => PreBase(input.lines[i], input.pricesIncludeVat))
  }

  // ----- the allocation -----

  function Positive(x: int): nat {
    if x > 0 then x else 0
  }

  /** The eligible base of the first `n` lines. */
  function EligibleUpTo(pre: seq<int>, n: nat): (e: nat)
    requires n <= |pre|
    ensures forall i | 0 <= i < n :: pre[i] <= e
  {
    if n == 0 then 0 else EligibleUpTo(pre, n - 1) + Positive(pre[n - 1])
  }

  function EligibleBase(pre: seq<int>): nat {
    EligibleUpTo(pre, |pre|)
  }

  /** How many of the first `n` lines are eligible. */
  function EligibleCount(pre: seq<int>, n: nat): (k: nat)
    requires n <= |pre|
  {
    if n == 0 then 0 else EligibleCount(pre, n - 1) + if pre[n - 1] > 0 then 1 else 0
  }

  /** The last eligible line among the first `n`, or -1. */
  function LastEligible(pre: seq<int>, n: nat): (i: int)
    requires n <= |pre|
    ensures -1 <= i < n && (i >= 0 ==> pre[i] > 0)
    ensures forall j | i < j < n :: pre[j] <= 0
  {
    if n == 0 then -1 else if pre[n - 1] > 0 then n - 1 else LastEligible(pre, n - 1)
  }

  function Proportion(discount: int, base: int, total: int): real
    requires total != 0
  {
    (discount * base) as real / total as real
  }

  /** The unrounded share of line `i`. */
  function ExactShare(pre: seq<int>, discount: int, i: nat): real
    requires i < |pre|
  {
    if pre[i] > 0 then Proportion(discount, pre[i], EligibleBase(pre)) else 0.0
  }

  function RoundedShare(pre: seq<int>, discount: int, i: nat): int
    requires i < |pre|
  {
    if pre[i] > 0 then Round(ExactShare(pre, discount, i)) else 0
  }

  function RoundedUpTo(pre: seq<int>, discount: int, n: nat): int
    requires n <= |pre|
  {
    if n == 0 then 0 else RoundedUpTo(pre, discount, n - 1) + RoundedShare(pre, discount, n - 1)
  }

  function AllocatedShare(pre: seq<int>, discount: int, i: nat): int
    requires i < |pre|
  {
    if i == LastEligible(pre, |pre|) then discount - RoundedUpTo(pre, discount, i) else RoundedShare(pre, discount, i)
  }

  /** Rounded proportional shares, and the remainder for the last eligible line. */
  function Allocation(pre: seq<int>, discount: int): (a: seq<int>)
    ensures |a| == |pre|
  {
    seq(|pre|, i requires 0 <= i < |pre| => AllocatedShare(pre, discount, i))
  }

  lemma {:induction false} SkipsAddNothing(pre: seq<int>, discount: int, m: nat, n: nat)
    requires m <= n <= |pre| && forall j | m <= j < n :: pre[j] <= 0
    ensures RoundedUpTo(pre, discount, n) == RoundedUpTo(pre, discount, m)
    decreases n
  {
    if m < n {
      SkipsAddNothing(pre, discount, m, n - 1);
    }
  }

  /** The indices that `filter` keeps: all eligible lines of the first `n`, in order. */
  ghost predicate ListsEligible(pre: seq<int>, idx: seq<nat>, n: nat)
    requires n <= |pre|
  {
    && (forall p | 0 <= p < |idx| :: idx[p] < n && pre[idx[p]] > 0)
    && (forall p, q | 0 <= p < q < |idx| :: idx[p] < idx[q])
    && (forall i | 0 <= i < n && pre[i] > 0 :: i in idx)
  }

  method EligibleIndices(pre: seq<int>) returns (idx: seq<nat>)
    ensures ListsEligible(pre, idx, |pre|)
  {
    idx := [];
    for i := 0 to |pre|
      invariant ListsEligible(pre, idx, i)
    {
      if pre[i] > 0 {
        idx := idx + [i];
      }
    }
  }

  lemma LastListed(pre: seq<int>, idx: seq<nat>)
    requires ListsEligible(pre, idx, |pre|) && idx != []
    ensures idx[|idx| - 1] == LastEligible(pre, |pre|)
  {
    var last := LastEligible(pre, |pre|);
    assert pre[idx[|idx| - 1]] > 0;
    assert last in idx;
    var p :| 0 <= p < |idx| && idx[p] == last;
    if p < |idx| - 1 {
      assert idx[p] < idx[|idx| - 1];
    }
  }

  lemma GapIsIneligible(pre: seq<int>, idx: seq<nat>, p: nat)
    requires ListsEligible(pre, idx, |pre|) && p < |idx|
    ensures forall j | (if p == 0 then 0 else idx[p - 1] + 1) <= j < idx[p] :: pre[j] <= 0
    ensures p == |idx| - 1 ==> forall j | idx[p] < j < |pre| :: pre[j] <= 0
  {
    forall j | 0 <= j < |pre| && pre[j] > 0
      ensures exists q :: 0 <= q < |idx| && idx[q] == j
    {
      assert j in idx;
    }
  }

  /** One turn of the allocation loop: the lines passed over get nothing, line `idx[p]` its share. */
  lemma NextShare(pre: seq<int>, discount: int, idx: seq<nat>, p: nat, done: nat)
    requires ListsEligible(pre, idx, |pre|) && p < |idx| && done == if p == 0 then 0 else idx[p - 1] + 1
    ensures done <= idx[p] < |pre| && EligibleBase(pre) > 0
    ensures forall j | done <= j < idx[p] :: AllocatedShare(pre, discount, j) == 0
    ensures p == |idx| - 1 ==> AllocatedShare(pre, discount, idx[p]) == discount - RoundedUpTo(pre, discount, done)
    ensures p < |idx| - 1 ==>
      && AllocatedShare(pre, discount, idx[p]) == Round(Proportion(discount, pre[idx[p]], EligibleBase(pre)))
      && RoundedUpTo(pre, discount, idx[p] + 1)
         == RoundedUpTo(pre, discount, done) + AllocatedShare(pre, discount, idx[p])
  {
    hide Proportion;
    GapIsIneligible(pre, idx, p);
    SkipsAddNothing(pre, discount, done, idx[p]);
    LastListed(pre, idx);
    assert p < |idx| - 1 ==> idx[p] < idx[|idx| - 1];
    assert pre[idx[p]] > 0;
  }

  /** The allocation loop. */
  method AllocateDiscount(pre: seq<int>, invoiceDiscount: int, eligibleBase: int) returns (allocations: seq<int>)
    requires eligibleBase == EligibleBase(pre)
    ensures allocations == Allocation(pre, invoiceDiscount)
  {
    var eligibleIdx := EligibleIndices(pre);
    var a := new int[|pre|](_ => 0);
    var used, done := 0, 0;
    NothingLeftOver(pre, invoiceDiscount, eligibleIdx);
    hide Proportion, AllocatedShare, EligibleBase, ListsEligible, Round;
    for pos := 0 to |eligibleIdx|
      invariant done == if pos == 0 then 0 else eligibleIdx[pos - 1] + 1
      invariant done <= |pre|
      invariant forall i | 0 <= i < done :: a[i] == AllocatedShare(pre, invoiceDiscount, i)
      invariant forall i | done <= i < |pre| :: a[i] == 0
      invariant pos < |eligibleIdx| ==> used == RoundedUpTo(pre, invoiceDiscount, done)
    {
      var idx := eligibleIdx[pos];
      NextShare(pre, invoiceDiscount, eligibleIdx, pos, done);
      var isLast := pos == |eligibleIdx| - 1;
      var share := if isLast || eligibleBase == 0 then Round((invoiceDiscount - used) as real)
                   else Round(Proportion(invoiceDiscount, pre[idx], eligibleBase));
      RoundInt(invoiceDiscount - used);
      RoundInt(used + share);
      a[idx] := share;
      used := Round((used + share) as real);
      done := idx + 1;
    }
    allocations := a[..];
  }

  lemma NothingLeftOver(pre: seq<int>, discount: int, idx: seq<nat>)
    requires ListsEligible(pre, idx, |pre|)
    ensures forall i | (if idx == [] then 0 else idx[|idx| - 1] + 1) <= i < |pre| ::
      AllocatedShare(pre, discount, i) == 0
  {
    forall i | (if idx == [] then 0 else idx[|idx| - 1] + 1) <= i < |pre|
      ensures AllocatedShare(pre, discount, i) == 0
    {
      if idx != [] {
        GapIsIneligible(pre, idx, |idx| - 1);
      } else {
        assert pre[i] > 0 ==> i in idx;
      }
    }
  }

  // ----- lines, shipping and totals -----

  function LineVat(l: Line, taxableBase: int): int {
    match l.manualVatAmount
    case Some(manual) => Round(manual)
    case None => Round(taxableBase as real * (l.vatRate / 100.0))
  }

  function ChargedLine(l: Line, pre: int, share: int): LineResult {
    var taxableBase := pre - share;
    var vatAmount := LineVat(l, taxableBase);
    LineResult(l, taxableBase, vatAmount, taxableBase + vatAmount, share)
  }

  function ChargedLines(input: Input, pre: seq<int>, allocations: seq<int>): (r: seq<LineResult>)
    requires |pre| == |allocations| == |input.lines|
    ensures |r| == |pre|
  {
    seq(|pre|, i requires 0 <= i < |pre| => ChargedLine(input.lines[i], pre[i], allocations[i]))
  }

  /** Shipping net amount and shipping VAT. */
  function Shipping(input: Input): (int, int)
    requires WellPosed(input)
  {
    var entered := Round(input.shippingAmount);
    match input.manualShippingVatAmount
    case Some(manual) =>
      var vat := Round(manual);
      (if input.pricesIncludeVat then entered - vat else entered, vat)
    case None =>
      if input.pricesIncludeVat then
        var net := Round(entered as real / Factor(input.shippingVatRate));
        (net, entered - net)
      else
        (entered, Round(entered as real * (input.shippingVatRate / 100.0)))
  }

  function Vats(lines: seq<LineResult>): (r: seq<int>)
    ensures |r| == |lines|
  {
    seq(|lines|, i requires 0 <= i < |lines| => lines[i].vatAmount)
  }

  function LineTotals(lines: seq<LineResult>): (r: seq<int>)
    ensures |r| == |lines|
  {
    seq(|lines|, i requires 0 <= i < |lines| => lines[i].lineTotal)
  }

  function Totalled(input: Input, pre: seq<int>, discount: int, allocations: seq<int>): Totals
    requires WellPosed(input) && |pre| == |allocations| == |input.lines|
  {
    var lines := ChargedLines(input, pre, allocations);
    var (shippingAmount, shippingVat) := Shipping(input);
    var taxVat := Sum(Vats(lines)) + shippingVat;
    Totals(lines, EligibleBase(pre), discount, shippingAmount, shippingVat, taxVat,
           EligibleBase(pre) - discount + taxVat + shippingAmount)
  }

  function Calculate(input: Input): Result<Totals, InvoiceError>
    requires WellPosed(input)
  {
    var pre := PreBases(input);
    var discount := Round(input.discountAmount);
    if discount < 0 then Err(NegativeDiscount)
    else if discount > EligibleBase(pre) then Err(DiscountExceedsBase)
    else Ok(Totalled(input, pre, discount, Allocation(pre, discount)))
  }

  /** `calculateInvoiceTotals`. */
  method CalculateInvoiceTotals(input: Input) returns (r: Result<Totals, InvoiceError>)
    requires WellPosed(input)
    ensures r == Calculate(input)
  {
    var pre := PreBases(input);
    var eligibleBase := EligibleBase(pre);
    var invoiceDiscount := Round(input.discountAmount);
    if invoiceDiscount < 0 {
      return Err(NegativeDiscount);
    }
    if invoiceDiscount > eligibleBase {
      return Err(DiscountExceedsBase);
    }
    var allocations := AllocateDiscount(pre, invoiceDiscount, eligibleBase);
    r := Ok(Totalled(input, pre, invoiceDiscount, allocations));
  }
}
