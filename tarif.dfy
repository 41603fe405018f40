/** The fare page (tarif.js): per-fare quantity steppers, the ticket lines and the
    basket total in cents, the seat hint, the rule enabling "Continue", and the persist
    that merges the fare fields into the showtime's stored entry. */
module Tarif {
  import opened Text
  import opened Assoc
  import opened Fares
  import opened Store
  import opened Salle

  // ---------- Seats (query parameter) ----------

  /** `seats`: the parameter trimmed, split on ',' and stripped of empty pieces; an
      empty parameter gives no seat. The pieces keep their order and their repeats
      (`DropEmpty` is a filter), so `seatsCount` counts a repeated id twice. */
  function ParseSeats(raw: Option<string>): (seats: seq<string>)
    ensures forall i :: 0 <= i < |seats| ==> seats[i] != "" && ',' !in seats[i]
    ensures seats == DropEmpty(Split(Trim(Or(raw, "")), ','))
  {
    var s := Trim(Or(raw, ""));
    if s == "" then
      assert Split(s, ',') == [""];
      []
    else
      var parts := Split(s, ',');
      var r := DropEmpty(parts);
      assert forall x :: x in r ==> x in parts && ',' !in x;
      r
  }

  /** The seat map hands its selection over as `seats.join(',')`; the fare page reads
      the same list back when no id is empty, holds a ',' or has outer whitespace. */
  lemma ParseSeatsJoin(seats: seq<string>)
    requires forall i :: 0 <= i < |seats| ==>
      seats[i] != "" && ',' !in seats[i] && !IsJsSpace(seats[i][0]) && !IsJsSpace(seats[i][|seats[i]| - 1])
    ensures ParseSeats(Some(Join(seats, ","))) == seats
  {
    if seats != [] {
      var j := Join(seats, ",");
      JoinEnds(seats, ",");
      assert j[0] == seats[0][0];
      assert j[|j| - 1] == seats[|seats| - 1][|seats[|seats| - 1]| - 1];
      TrimUnchanged(j);
      SplitJoin(seats, ',');
      DropEmptyKeeps(seats);
    }
  }

  // ---------- Quantities (state.qty and the steppers) ----------

  /** `state.qty[code] || 0` */
  function QtyOf(qty: seq<(string, int)>, code: string): (n: int)
    ensures code !in Keys(qty) ==> n == 0
    ensures code in Keys(qty) ==> (code, n) in qty
  {
    match Lookup(qty, code)
    case None => 0
    case Some(q) => LookupEntry(qty, code); q
  }

  /** Every quantity is non-negative and every code occurs once. */
  predicate ValidQty(qty: seq<(string, int)>) {
    UniqueKeys(qty) && forall i :: 0 <= i < |qty| ==> qty[i].1 >= 0
  }

  lemma PutValid(qty: seq<(string, int)>, code: string, n: int)
    requires ValidQty(qty) && n >= 0
    ensures ValidQty(Put(qty, code, n))
  {
    var p := Put(qty, code, n);
    PutUnique(qty, code, n);
    PutEntries(qty, code, n);
    forall i | 0 <= i < |p| ensures p[i].1 >= 0 {
      assert p[i] in p;
      if p[i] != (code, n) {
        assert p[i] in qty;
        var j :| 0 <= j < |qty| && qty[j] == p[i];
      }
    }
  }

  lemma QtyOfNonNegative(qty: seq<(string, int)>, code: string)
    requires ValidQty(qty)
    ensures QtyOf(qty, code) >= 0
  {
    if Lookup(qty, code).Some? {
      LookupEntry(qty, code);
      var j :| 0 <= j < |qty| && qty[j] == (code, Lookup(qty, code).value);
    }
  }

  lemma QtyOfPut(qty: seq<(string, int)>, code: string, n: int)
    ensures QtyOf(Put(qty, code, n), code) == n
  {
    LookupPut(qty, code, n, code);
  }

  /** Setting `code` to a non-negative quantity keeps the quantities valid, leaves
      `code` with that quantity, and moves the ticket count and the basket total by the
      difference with its old quantity. */
  lemma SetStep(qty: seq<(string, int)>, code: string, m: int)
    requires ValidQty(qty) && m >= 0
    ensures ValidQty(Put(qty, code, m)) && code in Keys(Put(qty, code, m))
    ensures QtyOf(Put(qty, code, m), code) == m
    ensures QtySum(Put(qty, code, m)) == QtySum(qty) + m - QtyOf(qty, code)
    ensures PricedTotal(Put(qty, code, m)) == PricedTotal(qty) + (m - QtyOf(qty, code)) * Cents(code)
  {
    PutValid(qty, code, m);
    QtyOfPut(qty, code, m);
    QtySumPut(qty, code, m);
    PricedTotalPut(qty, code, m);
  }

  /** "-" undoes "+": setting a code one above its quantity, then back, restores the
      quantities. */
  lemma MinusUndoesPlus(qty: seq<(string, int)>, code: string, v: int)
    requires Lookup(qty, code) == Some(v)
    ensures Put(Put(qty, code, v + 1), code, v) == qty
  {
    PutPut(qty, code, v + 1, v);
    PutSame(qty, code);
  }

  /** With unique codes, a step changes the basket total by the price of one ticket. */
  lemma {:induction false} PricedTotalPut(qty: seq<(string, int)>, code: string, n: int)
    requires UniqueKeys(qty)
    ensures PricedTotal(Put(qty, code, n)) ==
            PricedTotal(qty) + (n - QtyOf(qty, code)) * Cents(code)
  {
    var c := Cents(code);
    if qty != [] && qty[0].0 != code {
      UniqueTail(qty);
      PricedTotalPut(qty[1..], code, n);
      assert QtyOf(qty, code) == QtyOf(qty[1..], code);
      assert Put(qty, code, n) == [qty[0]] + Put(qty[1..], code, n);
    } else if qty != [] {
      var q := qty[0].1;
      assert Put(qty, code, n) == [(code, n)] + qty[1..];
      assert QtyOf(qty, code) == q;
      assert (n - q) * c == n * c - q * c;
    } else {
      PricedTotalAbsent(qty, code);
    }
  }

  lemma PricedTotalAbsent(qty: seq<(string, int)>, code: string)
    requires code !in Keys(qty)
    ensures QtyOf(qty, code) == 0
  {
  }

  lemma {:induction false} QtySumNonNegative(qty: seq<(string, int)>)
    requires forall i :: 0 <= i < |qty| ==> qty[i].1 >= 0
    ensures QtySum(qty) >= 0
  {
    if qty != [] {
      assert forall i :: 0 <= i < |qty| - 1 ==> qty[1..][i] == qty[i + 1];
      QtySumNonNegative(qty[1..]);
    }
  }

  /** The accumulating loop of `renderBasket`: Σ q × price, unknown codes adding 0. */
  method BasketTotal(qty: seq<(string, int)>) returns (total: int)
    ensures total == PricedTotal(qty)
    ensures total == LinesTotal(Lines(qty))
  {
    total := 0;
    for i := 0 to |qty|
      invariant total + PricedTotal(qty[i..]) == PricedTotal(qty)
    {
      assert qty[i..][1..] == qty[i + 1..];
      total := total + qty[i].1 * Cents(qty[i].0);
    }
    LinesTotalIsPricedTotal(qty);
  }

  /** `state.qty[code] = state.qty[code] || 0` leaves a present code as it is. */
  lemma SyncKeeps(qty: seq<(string, int)>, code: string)
    requires code in Keys(qty)
    ensures Put(qty, code, QtyOf(qty, code)) == qty
  {
    PutSame(qty, code);
  }

  // ---------- Views ----------

  /** The three forms of the seat hint. */
  datatype Hint = Progress(count: int, seats: nat) | Chosen(count: int) | Prompt

  /** `updateSeatHint`: `t/seatsCount` when seats were chosen, else the ticket count,
      else the prompt. */
  function SeatHint(t: int, seatsCount: nat): (h: Hint)
    ensures h.Progress? <==> seatsCount > 0
    ensures h.Progress? ==> h.count == t && h.seats == seatsCount
    ensures h.Chosen? <==> seatsCount == 0 && t > 0
    ensures h.Chosen? ==> h.count == t
  {
    if seatsCount > 0 then Progress(t, seatsCount)
    else if t > 0 then Chosen(t)
    else Prompt
  }

  /** The condition of `setCTAEnabled`. */
  function ContinueEnabled(ticketsCount: int, seatsCount: nat): (b: bool)
    ensures seatsCount == 0 ==> (b <==> ticketsCount > 0)
    ensures seatsCount > 0 ==> (b <==> ticketsCount == seatsCount)
  {
    ticketsCount > 0 && (seatsCount == 0 || ticketsCount == seatsCount)
  }

  /** Where "Continue" leads: nowhere (`#`), or to the snack page with the total and,
      when at least one ticket line exists, the quantity object. */
  datatype Link = Dead | ToSnacks(seats: seq<string>, total: int, tarifs: Option<seq<(string, int)>>)

  function ContinueLink(qty: seq<(string, int)>, seats: seq<string>, total: int): (l: Link)
    ensures l.ToSnacks? <==> ContinueEnabled(QtySum(qty), |seats|)
    ensures l.ToSnacks? ==> l.seats == seats && l.total == total
    ensures l.ToSnacks? ==> (l.tarifs.Some? <==> Lines(qty) != []) && (l.tarifs.Some? ==> l.tarifs.value == qty)
  {
    if ContinueEnabled(QtySum(qty), |seats|) then
      ToSnacks(seats, total, if |Lines(qty)| > 0 then Some(qty) else None)
    else Dead
  }

  /** With seats chosen on the map, "Continue" opens exactly when there is one ticket
      per seat; without seats, as soon as there is a ticket. */
  lemma ContinueRule(qty: seq<(string, int)>, seats: seq<string>, total: int)
    requires ValidQty(qty)
    ensures |seats| > 0 ==> (ContinueLink(qty, seats, total).ToSnacks? <==> QtySum(qty) == |seats|)
    ensures |seats| == 0 ==> (ContinueLink(qty, seats, total).ToSnacks? <==> QtySum(qty) != 0)
  {
    QtySumNonNegative(qty);
  }

  // ---------- Persist ----------

  /** `all[key] = { ...(all[key] || {}), <fare fields> }`: the fare part is replaced,
      whatever the seat map or a promo stored there is kept. */
  function MergeFare(prev: Option<Entry>, f: FareSnapshot): (e: Entry)
    ensures e.fare == Some(f)
    ensures prev.Some? ==> e.seat == prev.value.seat && e.promo == prev.value.promo
    ensures prev.None? ==> e.seat.None? && e.promo == ""
  {
    match prev
    case None => Entry(None, Some(f), "")
    case Some(p) => Entry(p.seat, Some(f), p.promo)
  }

  /** Saving fares does not disturb the seat map: its `restore` reads the same state
      from the merged entry as from the entry before. */
  lemma FarePersistKeepsSeats(prev: Entry, f: FareSnapshot, taken: set<string>, selected: set<string>,
                              custom: map<string, string>)
    ensures Restored(Some(MergeFare(Some(prev), f)), taken, selected, custom) ==
            Restored(Some(prev), taken, selected, custom)
  {
  }

  // ---------- The page state ----------

  class FareBasket {
    const film: string
    const salle: string
    const langue: string
    const seance: string
    const poster: string
    const format: string
    const seats: seq<string>
    const key: string
    const store: LocalStore
    var qty: seq<(string, int)>
    /** `state.total`, in cents */
    var total: int

    /** The page's URL parameters (`None` when absent) and the shared store. */
    constructor (filmParam: Option<string>, salleParam: Option<string>, langueParam: Option<string>,
                 seanceParam: Option<string>, posterParam: Option<string>, formatParam: Option<string>,
                 seatsParam: Option<string>, store: LocalStore)
      ensures film == Or(filmParam, "Film") && salle == Or(salleParam, "—") && langue == Or(langueParam, "—")
      ensures seance == Or(seanceParam, "") && poster == Or(posterParam, "") && format == Or(formatParam, "")
      ensures seats == ParseSeats(seatsParam)
      ensures key == SessionKey(film, salle, seance)
      ensures qty == [("MATIN", 0), ("U14", 0)] && total == 0
      ensures this.store == store
      ensures ValidQty(qty)
    {
      film := Or(filmParam, "Film");
      salle := Or(salleParam, "—");
      langue := Or(langueParam, "—");
      seance := Or(seanceParam, "");
      poster := Or(posterParam, "");
      format := Or(formatParam, "");
      seats := ParseSeats(seatsParam);
      key := SessionKey(Or(filmParam, "Film"), Or(salleParam, "—"), Or(seanceParam, ""));
      this.store := store;
      qty := [("MATIN", 0), ("U14", 0)];
      total := 0;
    }

    /** The fare fields `persist` writes, with the nested `tickets` record. */
    function Snapshot(): FareSnapshot
      reads this
    {
      FareSnapshot(film, salle, langue, seance, poster, format, seats,
                   qty, total, Lines(qty), total, QtySum(qty))
    }

    /** `persist`: merges the fare fields into this showtime's entry only. */
    method Persist()
      modifies store`reservations
      ensures store.reservations ==
              old(store.reservations)[key := MergeFare(if key in old(store.reservations)
                                                       then Some(old(store.reservations)[key]) else None,
                                                       Snapshot())]
    {
      var prev := if key in store.reservations then Some(store.reservations[key]) else None;
      store.reservations := store.reservations[key := MergeFare(prev, Snapshot())];
    }

    /** `renderBasket`'s state changes: the total, then the persist. */
    method RenderBasket()
      modifies this`total, store`reservations
      ensures total == PricedTotal(qty) && total == LinesTotal(Lines(qty))
      ensures store.reservations ==
              old(store.reservations)[key := MergeFare(if key in old(store.reservations)
                                                       then Some(old(store.reservations)[key]) else None,
                                                       Snapshot())]
    {
      total := BasketTotal(qty);
      Persist();
    }

    /** `sync` after a step: makes sure the code has an entry, then renders. */
    method Sync(code: string)
      modifies this`qty, this`total, store`reservations
      ensures qty == Put(old(qty), code, QtyOf(old(qty), code))
      ensures code in Keys(old(qty)) ==> qty == old(qty)
      ensures total == PricedTotal(qty)
      ensures store.reservations ==
              old(store.reservations)[key := MergeFare(if key in old(store.reservations)
                                                       then Some(old(store.reservations)[key]) else None,
                                                       Snapshot())]
    {
      if code in Keys(qty) {
        SyncKeeps(qty, code);
      }
      qty := Put(qty, code, QtyOf(qty, code));
      RenderBasket();
    }

    /** The "+" button of `code`: one more ticket of that fare. */
    method Plus(code: string)
      modifies this`qty, this`total, store`reservations
      ensures qty == Put(old(qty), code, old(QtyOf(qty, code)) + 1)
      ensures total == PricedTotal(qty)
      ensures store.reservations ==
              old(store.reservations)[key := MergeFare(if key in old(store.reservations)
                                                       then Some(old(store.reservations)[key]) else None,
                                                       Snapshot())]
    {
      SetQty(code, QtyOf(qty, code) + 1);
    }

    /** The "-" button of `code`: one ticket fewer, and nothing at all unless the code
        has a ticket. */
    method Minus(code: string)
      modifies this`qty, this`total, store`reservations
      ensures old(QtyOf(qty, code)) <= 0 ==>
                qty == old(qty) && total == old(total) && store.reservations == old(store.reservations)
      ensures old(QtyOf(qty, code)) > 0 ==>
                qty == Put(old(qty), code, old(QtyOf(qty, code)) - 1) && total == PricedTotal(qty) &&
                store.reservations ==
                old(store.reservations)[key := MergeFare(if key in old(store.reservations)
                                                         then Some(old(store.reservations)[key]) else None,
                                                         Snapshot())]
    {
      if QtyOf(qty, code) > 0 {
        Decrement(code);
      }
    }

    /** The branch of "-" taken when `code` has a ticket. */
    method Decrement(code: string)
      requires QtyOf(qty, code) > 0
      modifies this`qty, this`total, store`reservations
      ensures qty == Put(old(qty), code, old(QtyOf(qty, code)) - 1)
      ensures total == PricedTotal(qty)
      ensures store.reservations ==
              old(store.reservations)[key := MergeFare(if key in old(store.reservations)
                                                       then Some(old(store.reservations)[key]) else None,
                                                       Snapshot())]
    {
      SetQty(code, QtyOf(qty, code) - 1);
    }

    /** Stores quantity `m` for `code`, then re-renders and saves, as both buttons do. */
    method SetQty(code: string, m: int)
      modifies this`qty, this`total, store`reservations
      ensures qty == Put(old(qty), code, m)
      ensures total == PricedTotal(qty)
      ensures store.reservations ==
              old(store.reservations)[key := MergeFare(if key in old(store.reservations)
                                                       then Some(old(store.reservations)[key]) else None,
                                                       Snapshot())]
    {
      var stepped := Put(qty, code, m);
      assert code in Keys(stepped);
      qty := stepped;
      Sync(code);
    }
  }
}
