/** The ticket price table and the ticket lines built from per-fare quantities
    (`PRICES` and `buildTicketsLines` in tarif.js, the same table and loop in
    snacks.js `loadTickets`). Money is in integer cents. */
module Fares {
  import opened Text
  import opened Assoc

  datatype Price = Price(name: string, cents: nat)

  /** `PRICES[code]`: MATIN costs 9.90, U14 6.50, any other code has no price. */
  function PriceOf(code: string): (p: Option<Price>)
    ensures p.Some? <==> code in {"MATIN", "U14"}
    ensures code == "MATIN" ==> p == Some(Price("Matin", 990))
    ensures code == "U14" ==> p == Some(Price("Moins de 14 ans", 650))
  {
    if code == "MATIN" then Some(Price("Matin", 990))
    else if code == "U14" then Some(Price("Moins de 14 ans", 650))
    else None
  }

  /** `PRICES[code]?.price || 0`, in cents. */
  function Cents(code: string): (c: nat)
    ensures PriceOf(code).Some? ==> c == PriceOf(code).value.cents
    ensures PriceOf(code).None? ==> c == 0
  {
    if code == "MATIN" then 990 else if code == "U14" then 650 else 0
  }

  /** One `{ code, label, qty, lineTotal }` record. */
  datatype TicketLine = TicketLine(code: string, name: string, qty: int, lineTotal: int)

  /** An entry `[code, q]` yields a line when its code is priced and `q` is not 0. */
  predicate Emits(e: (string, int)) {
    PriceOf(e.0).Some? && e.1 != 0
  }

  function LineOf(e: (string, int)): TicketLine
    requires PriceOf(e.0).Some?
  {
    var p := PriceOf(e.0).value;
    TicketLine(e.0, p.name, e.1, e.1 * p.cents)
  }

  /** The ticket lines of a quantity object, in its key order. */
  function Lines(qty: seq<(string, int)>): (lines: seq<TicketLine>)
    ensures |lines| <= |qty|
    ensures forall e :: e in qty && Emits(e) ==> LineOf(e) in lines
    ensures forall l :: l in lines ==> exists e :: e in qty && Emits(e) && l == LineOf(e)
    ensures forall l :: l in lines ==> l.qty != 0 && l.code in {"MATIN", "U14"}
  {
    if qty == [] then []
    else
      var rest := Lines(qty[1..]);
      assert forall e :: e in qty[1..] ==> e in qty;
      if Emits(qty[0]) then [LineOf(qty[0])] + rest else rest
  }

  /** Lines keep the order of the quantities they come from. */
  lemma {:induction false} LinesAppend(a: seq<(string, int)>, b: seq<(string, int)>)
    ensures Lines(a + b) == Lines(a) + Lines(b)
  {
    if a == [] {
      assert a + b == b;
    } else {
      assert (a + b)[0] == a[0] && (a + b)[1..] == a[1..] + b;
      LinesAppend(a[1..], b);
    }
  }

  /** `Object.values(qty).reduce((a, b) => a + b, 0)` */
  function QtySum(qty: seq<(string, int)>): (n: int)
    ensures (forall i :: 0 <= i < |qty| ==> qty[i].1 >= 0) ==> n >= 0
    ensures (forall i :: 0 <= i < |qty| ==> qty[i].1 >= 0) && (exists i :: 0 <= i < |qty| && qty[i].1 > 0) ==> n > 0
  {
    if qty == [] then 0 else qty[0].1 + QtySum(qty[1..])
  }

  /** Σ q × price over every entry, an unknown code counting as price 0. */
  function PricedTotal(qty: seq<(string, int)>): (c: int)
    ensures (forall i :: 0 <= i < |qty| ==> qty[i].1 >= 0) ==> c >= 0
    ensures (forall i :: 0 <= i < |qty| ==> PriceOf(qty[i].0).None?) ==> c == 0
  {
    if qty == [] then 0 else qty[0].1 * Cents(qty[0].0) + PricedTotal(qty[1..])
  }

  function LinesTotal(lines: seq<TicketLine>): int {
    if lines == [] then 0 else lines[0].lineTotal + LinesTotal(lines[1..])
  }

  /** `lines.reduce((a, l) => a + (l.qty || 0), 0)` */
  function LinesCount(lines: seq<TicketLine>): int {
    if lines == [] then 0 else lines[0].qty + LinesCount(lines[1..])
  }

  /** The sum of the line totals is the priced total of the quantities. */
  lemma {:induction false} LinesTotalIsPricedTotal(qty: seq<(string, int)>)
    ensures LinesTotal(Lines(qty)) == PricedTotal(qty)
  {
    if qty != [] {
      LinesTotalIsPricedTotal(qty[1..]);
    }
  }

  /** When every non-zero quantity has a price, the lines count every ticket. */
  lemma {:induction false} LinesCountIsQtySum(qty: seq<(string, int)>)
    requires forall e :: e in qty && e.1 != 0 ==> PriceOf(e.0).Some?
    ensures LinesCount(Lines(qty)) == QtySum(qty)
  {
    if qty != [] {
      assert qty[0] in qty;
      assert forall e :: e in qty[1..] ==> e in qty;
      LinesCountIsQtySum(qty[1..]);
    }
  }

  /** An update of one quantity changes the ticket count by the difference. */
  lemma {:induction false} QtySumPut(qty: seq<(string, int)>, code: string, n: int)
    requires UniqueKeys(qty)
    ensures QtySum(Put(qty, code, n)) ==
            QtySum(qty) + n - (if Lookup(qty, code).Some? then Lookup(qty, code).value else 0)
  {
    if qty != [] && qty[0].0 != code {
      UniqueTail(qty);
      QtySumPut(qty[1..], code, n);
    } else if qty != [] {
      assert Put(qty, code, n)[1..] == qty[1..];
    }
  }
}
