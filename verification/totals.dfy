/** The invoice totals card: subtotal, discounts, charges and tax over the line
    items, plus the catalogs' invoice-wide discounts and charges. Unlike a line
    item's running total, these use each item's own taxes, discounts and charges
    as stored, take tax after discounts, and add the taxes up without compounding.

    Every sum is accumulated front to back, as the loops do, so each is defined
    by peeling off its last element. */
module Totals {
  import Numbers
  import Taxes
  import Discounts
  import Charges
  import LineItems

  /** `f` summed over `s`, front to back. */
  function Sum<T>(s: seq<T>, f: T -> real): real {
    if |s| == 0 then 0.0 else Sum(s[..|s| - 1], f) + f(s[|s| - 1])
  }

  /** A sum over a concatenation is the sum of the sums. */
  lemma {:induction false} SumAppend<T>(a: seq<T>, b: seq<T>, f: T -> real)
    ensures Sum(a + b, f) == Sum(a, f) + Sum(b, f)
    decreases |b|
  {
    if |b| == 0 {
      assert a + b == a;
    } else {
      assert (a + b)[..|a + b| - 1] == a + b[..|b| - 1];
      SumAppend(a, b[..|b| - 1], f);
    }
  }

  /** An item's amount before anything else: unit price times quantity. */
  function ItemBase(x: LineItems.LineItem): real {
    Numbers.Times(x.unitPrice, x.quantity)
  }

  /** What one discount takes off an amount: its value when fixed, its share of the amount when a percentage. */
  function DiscountAmount(amount: real, d: Discounts.DiscountItem): real {
    match d.discountType
    case FixedAmount => d.value
    case Percentage => Numbers.Times(amount, d.value / 100.0)
  }

  /** Discounts taken against one amount, summed in order. */
  function DiscountSum(amount: real, ds: seq<Discounts.DiscountItem>): real {
    if |ds| == 0 then 0.0 else DiscountSum(amount, ds[..|ds| - 1]) + DiscountAmount(amount, ds[|ds| - 1])
  }

  /** What an item's own discounts take off its base amount. */
  function ItemDiscount(x: LineItems.LineItem): real {
    DiscountSum(ItemBase(x), x.discounts)
  }

  /** The amounts of a list of charges, summed. */
  function ChargeSum(cs: seq<Charges.ChargeItem>): real {
    if |cs| == 0 then 0.0 else ChargeSum(cs[..|cs| - 1]) + cs[|cs| - 1].amount
  }

  function ItemCharges(x: LineItems.LineItem): real {
    ChargeSum(x.charges)
  }

  /** Each tax's share of the taxable amount, summed. */
  function TaxSum(taxable: real, taxes: seq<Taxes.TaxItem>): real {
    if |taxes| == 0 then 0.0 else TaxSum(taxable, taxes[..|taxes| - 1]) + Numbers.Times(taxable, taxes[|taxes| - 1].rate / 100.0)
  }

  /** An item's tax: its taxes taken against its base amount less its discounts. */
  function ItemTax(x: LineItems.LineItem): real {
    TaxSum(ItemBase(x) - ItemDiscount(x), x.taxes)
  }

  /** The discounts of the catalog scoped to the whole invoice. */
  function GlobalDiscountItems(catalog: seq<Discounts.DiscountItem>): (r: seq<Discounts.DiscountItem>)
    ensures |r| <= |catalog|
    ensures forall i :: 0 <= i < |r| ==> r[i].scope == Discounts.GlobalInvoice && r[i] in catalog
  {
    if |catalog| == 0 then []
    else
      var rest := GlobalDiscountItems(catalog[..|catalog| - 1]);
      if catalog[|catalog| - 1].scope == Discounts.GlobalInvoice then rest + [catalog[|catalog| - 1]] else rest
  }

  /** The charges of the catalog scoped to the whole invoice. */
  function GlobalChargeItems(catalog: seq<Charges.ChargeItem>): (r: seq<Charges.ChargeItem>)
    ensures |r| <= |catalog|
    ensures forall i :: 0 <= i < |r| ==> r[i].scope == Charges.GlobalInvoice && r[i] in catalog
  {
    if |catalog| == 0 then []
    else
      var rest := GlobalChargeItems(catalog[..|catalog| - 1]);
      if catalog[|catalog| - 1].scope == Charges.GlobalInvoice then rest + [catalog[|catalog| - 1]] else rest
  }

  /** The global-discount loop: every catalog discount is visited, and only those
      scoped to the whole invoice count, percentages taken against the subtotal. */
  function GlobalDiscounts(subtotal: real, catalog: seq<Discounts.DiscountItem>): real {
    if |catalog| == 0 then 0.0
    else
      GlobalDiscounts(subtotal, catalog[..|catalog| - 1])
      + (if catalog[|catalog| - 1].scope == Discounts.GlobalInvoice then DiscountAmount(subtotal, catalog[|catalog| - 1]) else 0.0)
  }

  /** The global-charge loop: only charges scoped to the whole invoice count. */
  function GlobalCharges(catalog: seq<Charges.ChargeItem>): real {
    if |catalog| == 0 then 0.0
    else
      GlobalCharges(catalog[..|catalog| - 1])
      + (if catalog[|catalog| - 1].scope == Charges.GlobalInvoice then catalog[|catalog| - 1].amount else 0.0)
  }

  /** The five figures of the card. */
  datatype Summary = Summary(subtotal: real, discounts: real, charges: real, tax: real, total: real)

  /** The totals memo. */
  function ComputeTotals(items: seq<LineItems.LineItem>, discounts: seq<Discounts.DiscountItem>,
                         charges: seq<Charges.ChargeItem>): Summary
  {
    var subtotal := Sum(items, ItemBase);
    var totalDiscounts := Sum(items, ItemDiscount) + GlobalDiscounts(subtotal, discounts);
    var totalCharges := Sum(items, ItemCharges) + GlobalCharges(charges);
    var tax := Sum(items, ItemTax);
    Summary(subtotal, totalDiscounts, totalCharges, tax, subtotal - totalDiscounts + totalCharges + tax)
  }

  // Closed forms.

  /** The values of the percentage discounts, summed. */
  function PercentSum(ds: seq<Discounts.DiscountItem>): real {
    if |ds| == 0 then 0.0
    else PercentSum(ds[..|ds| - 1]) + (if ds[|ds| - 1].discountType == Discounts.Percentage then ds[|ds| - 1].value else 0.0)
  }

  /** The values of the fixed discounts, summed. */
  function FixedSum(ds: seq<Discounts.DiscountItem>): real {
    if |ds| == 0 then 0.0
    else FixedSum(ds[..|ds| - 1]) + (if ds[|ds| - 1].discountType == Discounts.FixedAmount then ds[|ds| - 1].value else 0.0)
  }

  /** The tax rates, summed. */
  function RateSum(taxes: seq<Taxes.TaxItem>): real {
    if |taxes| == 0 then 0.0 else RateSum(taxes[..|taxes| - 1]) + taxes[|taxes| - 1].rate
  }

  lemma TimesDistributes(a: real, b: real, c: real)
    ensures Numbers.Times(a, b) + Numbers.Times(a, c) == Numbers.Times(a, b + c)
  {
  }

  lemma TimesZero(b: real)
    ensures Numbers.Times(0.0, b) == 0.0
  {
  }

  /** Discounts against one amount are affine in it: the amount times the summed
      percentages, plus the summed fixed values. */
  lemma {:induction false} DiscountSumAffine(amount: real, ds: seq<Discounts.DiscountItem>)
    ensures DiscountSum(amount, ds) == Numbers.Times(amount, PercentSum(ds) / 100.0) + FixedSum(ds)
    decreases |ds|
  {
    if |ds| > 0 {
      var init, d := ds[..|ds| - 1], ds[|ds| - 1];
      DiscountSumAffine(amount, init);
      var v := if d.discountType == Discounts.Percentage then d.value else 0.0;
      TimesDistributes(amount, PercentSum(init) / 100.0, v / 100.0);
      assert PercentSum(init) / 100.0 + v / 100.0 == PercentSum(ds) / 100.0;
      if d.discountType == Discounts.FixedAmount {
        TimesDistributes(amount, PercentSum(init) / 100.0, 0.0);
      }
    }
  }

  /** Taxes do not compound: an item's taxes are its taxable amount times the summed rates. */
  lemma {:induction false} TaxSumLinear(taxable: real, taxes: seq<Taxes.TaxItem>)
    ensures TaxSum(taxable, taxes) == Numbers.Times(taxable, RateSum(taxes) / 100.0)
    decreases |taxes|
  {
    if |taxes| > 0 {
      var init := taxes[..|taxes| - 1];
      TaxSumLinear(taxable, init);
      TimesDistributes(taxable, RateSum(init) / 100.0, taxes[|taxes| - 1].rate / 100.0);
      assert RateSum(init) / 100.0 + taxes[|taxes| - 1].rate / 100.0 == RateSum(taxes) / 100.0;
    }
  }

  /** Only discounts scoped to the whole invoice count: the global discounts are
      those entries' discounts against the subtotal. */
  lemma {:induction false} GlobalDiscountsOnlyGlobal(subtotal: real, catalog: seq<Discounts.DiscountItem>)
    ensures GlobalDiscounts(subtotal, catalog) == DiscountSum(subtotal, GlobalDiscountItems(catalog))
    decreases |catalog|
  {
    if |catalog| > 0 {
      var init, d := catalog[..|catalog| - 1], catalog[|catalog| - 1];
      GlobalDiscountsOnlyGlobal(subtotal, init);
      if d.scope == Discounts.GlobalInvoice {
        var g := GlobalDiscountItems(init) + [d];
        assert g[..|g| - 1] == GlobalDiscountItems(init);
      }
    }
  }

  /** Only charges scoped to the whole invoice count. */
  lemma {:induction false} GlobalChargesOnlyGlobal(catalog: seq<Charges.ChargeItem>)
    ensures GlobalCharges(catalog) == ChargeSum(GlobalChargeItems(catalog))
    decreases |catalog|
  {
    if |catalog| > 0 {
      var init, c := catalog[..|catalog| - 1], catalog[|catalog| - 1];
      GlobalChargesOnlyGlobal(init);
      if c.scope == Charges.GlobalInvoice {
        var g := GlobalChargeItems(init) + [c];
        assert g[..|g| - 1] == GlobalChargeItems(init);
      }
    }
  }

  /** Global percentage discounts are taken against the subtotal: the global
      discounts are the subtotal times the global percentages, plus the global fixed values. */
  lemma GlobalDiscountsAffine(subtotal: real, catalog: seq<Discounts.DiscountItem>)
    ensures GlobalDiscounts(subtotal, catalog)
      == Numbers.Times(subtotal, PercentSum(GlobalDiscountItems(catalog)) / 100.0) + FixedSum(GlobalDiscountItems(catalog))
  {
    GlobalDiscountsOnlyGlobal(subtotal, catalog);
    DiscountSumAffine(subtotal, GlobalDiscountItems(catalog));
  }

  /** With no line items the subtotal and the tax are 0, and the total is the
      global charges less the global fixed discounts. */
  lemma NoItems(discounts: seq<Discounts.DiscountItem>, charges: seq<Charges.ChargeItem>)
    ensures ComputeTotals([], discounts, charges).subtotal == 0.0
    ensures ComputeTotals([], discounts, charges).tax == 0.0
    ensures ComputeTotals([], discounts, charges).total
      == ChargeSum(GlobalChargeItems(charges)) - FixedSum(GlobalDiscountItems(discounts))
  {
    GlobalDiscountsAffine(0.0, discounts);
    TimesZero(PercentSum(GlobalDiscountItems(discounts)) / 100.0);
    GlobalChargesOnlyGlobal(charges);
  }

  /** With empty catalogs, the total of a list of items is the sum of the totals of
      its parts: each item contributes on its own. */
  lemma TotalAdditive(a: seq<LineItems.LineItem>, b: seq<LineItems.LineItem>)
    ensures ComputeTotals(a + b, [], []).total == ComputeTotals(a, [], []).total + ComputeTotals(b, [], []).total
  {
    SumAppend(a, b, ItemBase);
    SumAppend(a, b, ItemDiscount);
    SumAppend(a, b, ItemCharges);
    SumAppend(a, b, ItemTax);
  }

  /** An item with no discounts, charges or taxes adds just its base amount to the total. */
  lemma PlainItem(items: seq<LineItems.LineItem>, x: LineItems.LineItem)
    requires |x.discounts| == 0 && |x.charges| == 0 && |x.taxes| == 0
    ensures ComputeTotals(items + [x], [], []).total == ComputeTotals(items, [], []).total + Numbers.Times(x.unitPrice, x.quantity)
  {
    TotalAdditive(items, [x]);
    assert [x][..0] == [];
  }

  // The memo's loops.

  /** The subtotal loop. */
  method SubtotalLoop(items: seq<LineItems.LineItem>) returns (subtotal: real)
    ensures subtotal == Sum(items, ItemBase)
  {
    subtotal := 0.0;
    for i := 0 to |items|
      invariant subtotal == Sum(items[..i], ItemBase)
    {
      assert items[..i + 1][..i] == items[..i];
      subtotal := subtotal + items[i].unitPrice * items[i].quantity;
    }
    assert items[..|items|] == items;
  }

  /** The line-item discount loops: every item's discounts against its base amount. */
  method LineItemDiscountsLoop(items: seq<LineItems.LineItem>) returns (total: real)
    ensures total == Sum(items, ItemDiscount)
  {
    total := 0.0;
    for i := 0 to |items|
      invariant total == Sum(items[..i], ItemDiscount)
    {
      var x := items[i];
      var itemDiscount := ItemDiscountFold(x);
      assert items[..i + 1][..i] == items[..i];
      total := total + itemDiscount;
    }
    assert items[..|items|] == items;
  }

  /** One item's discounts folded over, as both the discount and the tax loops do. */
  method ItemDiscountFold(x: LineItems.LineItem) returns (acc: real)
    ensures acc == ItemDiscount(x)
  {
    var itemTotal := x.unitPrice * x.quantity;
    assert itemTotal == ItemBase(x);
    acc := 0.0;
    for j := 0 to |x.discounts|
      invariant acc == DiscountSum(itemTotal, x.discounts[..j])
    {
      var d := x.discounts[j];
      assert x.discounts[..j + 1][..j] == x.discounts[..j];
      match d.discountType {
        case FixedAmount => acc := acc + d.value;
        case Percentage => acc := acc + itemTotal * (d.value / 100.0);
      }
    }
    assert x.discounts[..|x.discounts|] == x.discounts;
  }

  /** The global-discount loop. */
  method GlobalDiscountsLoop(subtotal: real, catalog: seq<Discounts.DiscountItem>) returns (total: real)
    ensures total == GlobalDiscounts(subtotal, catalog)
  {
    total := 0.0;
    for i := 0 to |catalog|
      invariant total == GlobalDiscounts(subtotal, catalog[..i])
    {
      var d := catalog[i];
      assert catalog[..i + 1][..i] == catalog[..i];
      if d.scope == Discounts.GlobalInvoice {
        match d.discountType {
          case FixedAmount => total := total + d.value;
          case Percentage => total := total + subtotal * (d.value / 100.0);
        }
      }
    }
    assert catalog[..|catalog|] == catalog;
  }

  /** The charge loops: every item's charges, then the invoice-wide catalog charges. */
  method ChargesLoop(items: seq<LineItems.LineItem>, catalog: seq<Charges.ChargeItem>) returns (lineItemCharges: real, globalCharges: real)
    ensures lineItemCharges == Sum(items, ItemCharges)
    ensures globalCharges == GlobalCharges(catalog)
  {
    lineItemCharges := 0.0;
    for i := 0 to |items|
      invariant lineItemCharges == Sum(items[..i], ItemCharges)
    {
      var cs := items[i].charges;
      assert items[..i + 1][..i] == items[..i];
      for j := 0 to |cs|
        invariant lineItemCharges == Sum(items[..i], ItemCharges) + ChargeSum(cs[..j])
      {
        assert cs[..j + 1][..j] == cs[..j];
        lineItemCharges := lineItemCharges + cs[j].amount;
      }
      assert cs[..|cs|] == cs;
    }
    assert items[..|items|] == items;
    globalCharges := 0.0;
    for i := 0 to |catalog|
      invariant globalCharges == GlobalCharges(catalog[..i])
    {
      assert catalog[..i + 1][..i] == catalog[..i];
      if catalog[i].scope == Charges.GlobalInvoice {
        globalCharges := globalCharges + catalog[i].amount;
      }
    }
    assert catalog[..|catalog|] == catalog;
  }

  /** The tax loop: each item's taxes against its taxable amount, added up. */
  method TaxLoop(items: seq<LineItems.LineItem>) returns (taxTotal: real)
    ensures taxTotal == Sum(items, ItemTax)
  {
    taxTotal := 0.0;
    for i := 0 to |items|
      invariant taxTotal == Sum(items[..i], ItemTax)
    {
      var x := items[i];
      var itemTotal := x.unitPrice * x.quantity;
      var itemDiscount := ItemDiscountFold(x);
      var taxableAmount := itemTotal - itemDiscount;
      assert taxableAmount == ItemBase(x) - ItemDiscount(x);
      assert items[..i + 1][..i] == items[..i];
      for k := 0 to |x.taxes|
        invariant taxTotal == Sum(items[..i], ItemTax) + TaxSum(taxableAmount, x.taxes[..k])
      {
        assert x.taxes[..k + 1][..k] == x.taxes[..k];
        taxTotal := taxTotal + taxableAmount * (x.taxes[k].rate / 100.0);
      }
      assert x.taxes[..|x.taxes|] == x.taxes;
    }
    assert items[..|items|] == items;
  }

  /** The memo as written: its loops in order, then the final sum. */
  method TotalsLoop(items: seq<LineItems.LineItem>, discounts: seq<Discounts.DiscountItem>,
                    charges: seq<Charges.ChargeItem>) returns (r: Summary)
    ensures r == ComputeTotals(items, discounts, charges)
    ensures r.total == r.subtotal - r.discounts + r.charges + r.tax
  {
    var subtotal := SubtotalLoop(items);
    var lineItemDiscounts := LineItemDiscountsLoop(items);
    var globalDiscounts := GlobalDiscountsLoop(subtotal, discounts);
    var totalDiscounts := lineItemDiscounts + globalDiscounts;
    var lineItemCharges, globalCharges := ChargesLoop(items, charges);
    var totalCharges := lineItemCharges + globalCharges;
    var taxTotal := TaxLoop(items);
    r := Summary(subtotal, totalDiscounts, totalCharges, taxTotal, subtotal - totalDiscounts + totalCharges + taxTotal);
  }
}
