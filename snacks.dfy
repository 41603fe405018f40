/** The snack page (snacks.js): the ticket summary reloaded from the store or the URL
    with the promotion rules, the snack cart (a `Map` from product name to item, changed
    in place by "+", "-", the trash button and "empty"), the grand total and the rule
    enabling "Continue", and the per-showtime save and restore of the cart. Money is in
    integer cents. */
module Snacks {
  import opened Text
  import opened Assoc
  import opened Fares
  import opened Store
  import Tarif

  // ---------- Catalogue ----------

  /** One product of `snack.json`. */
  datatype Product = Product(nom: string, prix: int, image: string, points: int)

  /** The catalogue object: its categories in key order, each with its product list. */
  type Catalog = seq<(string, seq<Product>)>

  /** Every product, category after category. */
  function AllProducts(catalog: Catalog): seq<Product> {
    if catalog == [] then [] else catalog[0].1 + AllProducts(catalog[1..])
  }

  /** `findProductByName`: the first product carrying `name`, categories in order. */
  function ProductNamed(catalog: Catalog, name: string): (r: Option<Product>)
    ensures r.Some? ==> r.value.nom == name && r.value in AllProducts(catalog)
    ensures r.None? <==> forall p :: p in AllProducts(catalog) ==> p.nom != name
  {
    if catalog == [] then None
    else
      var rest := ProductNamed(catalog[1..], name);
      assert AllProducts(catalog) == catalog[0].1 + AllProducts(catalog[1..]);
      match FindIndex(catalog[0].1, (p: Product) => p.nom == name)
      case Some(j) => Some(catalog[0].1[j])
      case None => rest
  }

  /** The category-by-category search finds what a search of the whole product list
      finds first. */
  lemma {:induction false} ProductNamedIsFirst(catalog: Catalog, name: string)
    ensures ProductNamed(catalog, name) == Find(AllProducts(catalog), (p: Product) => p.nom == name)
  {
    if catalog != [] {
      ProductNamedIsFirst(catalog[1..], name);
      FindAppend(catalog[0].1, AllProducts(catalog[1..]), (p: Product) => p.nom == name);
    }
  }

  lemma {:induction false} FindAppend<T>(a: seq<T>, b: seq<T>, f: T -> bool)
    ensures Find(a + b, f) == if Find(a, f).Some? then Find(a, f) else Find(b, f)
  {
    if a == [] {
      assert a + b == b;
    } else {
      assert (a + b)[0] == a[0] && (a + b)[1..] == a[1..] + b;
      FindAppend(a[1..], b, f);
      if !f(a[0]) {
        FindTail(a + b, f);
        FindTail(a, f);
      }
    }
  }

  lemma FindTail<T>(s: seq<T>, f: T -> bool)
    requires s != [] && !f(s[0])
    ensures Find(s, f) == Find(s[1..], f)
  {
    match FindIndex(s[1..], f)
    case None =>
    case Some(i) => assert s[1..][i] == s[i + 1];
  }

  /** The search loop of `findProductByName`. */
  method FindProductByName(catalog: Catalog, name: string) returns (r: Option<Product>)
    ensures r == ProductNamed(catalog, name)
  {
    var i := 0;
    while i < |catalog|
      invariant 0 <= i <= |catalog|
      invariant ProductNamed(catalog, name) == ProductNamed(catalog[i..], name)
    {
      assert catalog[i..][1..] == catalog[i + 1..];
      var j := FindIndex(catalog[i].1, (p: Product) => p.nom == name);
      if j.Some? {
        return Some(catalog[i].1[j.value]);
      }
      i := i + 1;
    }
    return None;
  }

  // ---------- The cart ----------

  /** One cart entry: the product's fields and `qty`. */
  datatype Item = Item(nom: string, prix: int, image: string, points: int, qty: int)

  /** The `cart` Map, in insertion order. */
  type Cart = seq<(string, Item)>

  function ItemOf(p: Product, qty: int): Item {
    Item(p.nom, p.prix, p.image, p.points, qty)
  }

  /** Every name occurs once and keys the item carrying it. */
  predicate Keyed(cart: Cart) {
    UniqueKeys(cart) && forall i :: 0 <= i < |cart| ==> cart[i].1.nom == cart[i].0
  }

  /** `cart.get(name)?.qty ?? 0`, the count shown on a product card. */
  function Shown(cart: Cart, name: string): int {
    match Lookup(cart, name)
    case None => 0
    case Some(it) => it.qty
  }

  /** The entry `addToCart` starts from: the product's own entry, or the product with
      quantity 0. */
  function Current(cart: Cart, p: Product): Item {
    match Lookup(cart, p.nom)
    case Some(i) => i
    case None => ItemOf(p, 0)
  }

  /** `addToCart`: the starting entry gets one more and is stored back under the
      product's name. */
  function Added(cart: Cart, p: Product): Cart {
    var it := Current(cart, p);
    Put(cart, p.nom, it.(qty := it.qty + 1))
  }

  /** `removeFromCart`: nothing for a product not in the cart; otherwise one fewer, the
      entry being deleted once its quantity is not positive. */
  function Removed(cart: Cart, p: Product): Cart {
    match Lookup(cart, p.nom)
    case None => cart
    case Some(it) =>
      if it.qty - 1 <= 0 then Remove(cart, p.nom) else Put(cart, p.nom, it.(qty := it.qty - 1))
  }

  /** Storing an item under a name changes what that name shows and nothing else. */
  lemma PutShown(cart: Cart, k: string, it: Item)
    ensures Lookup(Put(cart, k, it), k) == Some(it) && Shown(Put(cart, k, it), k) == it.qty
    ensures forall x :: x != k ==> Lookup(Put(cart, k, it), x) == Lookup(cart, x)
  {
    forall x {
      LookupPut(cart, k, it, x);
    }
  }

  /** Deleting a name empties what it shows and changes nothing else. */
  lemma RemoveShown(cart: Cart, k: string)
    ensures Shown(Remove(cart, k), k) == 0
    ensures forall x :: x != k ==> Lookup(Remove(cart, k), x) == Lookup(cart, x)
  {
    forall x {
      LookupRemove(cart, k, x);
    }
  }

  /** "+" shows one more of the product, creates its entry from the product when it was
      not in the cart (appended at the end), and leaves every other entry alone. */
  lemma AddedEffect(cart: Cart, p: Product)
    ensures Shown(Added(cart, p), p.nom) == Shown(cart, p.nom) + 1
    ensures p.nom !in Keys(cart) ==> Lookup(Added(cart, p), p.nom) == Some(ItemOf(p, 1))
    ensures p.nom !in Keys(cart) ==> Keys(Added(cart, p)) == Keys(cart) + [p.nom]
    ensures p.nom in Keys(cart) ==> Keys(Added(cart, p)) == Keys(cart)
    ensures forall x :: x != p.nom ==> Lookup(Added(cart, p), x) == Lookup(cart, x)
  {
    var it := Current(cart, p);
    var up := it.(qty := it.qty + 1);
    assert Added(cart, p) == Put(cart, p.nom, up);
    PutShown(cart, p.nom, up);
    if p.nom !in Keys(cart) {
      assert it == ItemOf(p, 0);
      assert up == ItemOf(p, 1);
    }
  }

  /** "-" shows one fewer but never below 0, and keeps the entry exactly when more than
      one was shown. */
  lemma RemovedEffect(cart: Cart, p: Product)
    ensures Shown(Removed(cart, p), p.nom) == if Shown(cart, p.nom) - 1 <= 0 then 0 else Shown(cart, p.nom) - 1
    ensures p.nom in Keys(Removed(cart, p)) <==> p.nom in Keys(cart) && Shown(cart, p.nom) > 1
  {
    match Lookup(cart, p.nom)
    case None =>
      assert Removed(cart, p) == cart;
    case Some(it) =>
      assert Shown(cart, p.nom) == it.qty;
      if it.qty - 1 <= 0 {
        assert Removed(cart, p) == Remove(cart, p.nom);
        RemoveShown(cart, p.nom);
      } else {
        assert Removed(cart, p) == Put(cart, p.nom, it.(qty := it.qty - 1));
        PutShown(cart, p.nom, it.(qty := it.qty - 1));
      }
  }

  /** "-" on a product not in the cart changes nothing, and never touches another
      entry. */
  lemma RemovedKeepsOthers(cart: Cart, p: Product)
    ensures p.nom !in Keys(cart) ==> Removed(cart, p) == cart
    ensures forall x :: x != p.nom ==> Lookup(Removed(cart, p), x) == Lookup(cart, x)
  {
    match Lookup(cart, p.nom)
    case None =>
    case Some(it) =>
      if it.qty - 1 <= 0 {
        assert Removed(cart, p) == Remove(cart, p.nom);
        RemoveShown(cart, p.nom);
      } else {
        assert Removed(cart, p) == Put(cart, p.nom, it.(qty := it.qty - 1));
        PutShown(cart, p.nom, it.(qty := it.qty - 1));
      }
  }

  /** An item looked up in a keyed cart carries the name it was looked up by. */
  lemma KeyedLookup(cart: Cart, k: string)
    requires Keyed(cart) && Lookup(cart, k).Some?
    ensures Lookup(cart, k).value.nom == k
  {
    LookupEntry(cart, k);
    var j :| 0 <= j < |cart| && cart[j] == (k, Lookup(cart, k).value);
  }

  /** "+" keeps every entry under its own name, once. */
  lemma AddedKeyed(cart: Cart, p: Product)
    requires Keyed(cart)
    ensures Keyed(Added(cart, p))
  {
    var it := Current(cart, p);
    if Lookup(cart, p.nom).Some? {
      KeyedLookup(cart, p.nom);
    }
    assert it.nom == p.nom;
    assert Added(cart, p) == Put(cart, p.nom, it.(qty := it.qty + 1));
    PutKeyed(cart, p.nom, it.(qty := it.qty + 1));
  }

  /** "-" keeps every entry under its own name, once. */
  lemma RemovedKeyed(cart: Cart, p: Product)
    requires Keyed(cart)
    ensures Keyed(Removed(cart, p))
  {
    match Lookup(cart, p.nom)
    case None =>
      assert Removed(cart, p) == cart;
    case Some(i) =>
      KeyedLookup(cart, p.nom);
      if i.qty - 1 > 0 {
        assert Removed(cart, p) == Put(cart, p.nom, i.(qty := i.qty - 1));
        PutKeyed(cart, p.nom, i.(qty := i.qty - 1));
      } else {
        assert Removed(cart, p) == Remove(cart, p.nom);
        RemoveKeyed(cart, p.nom);
      }
  }

  lemma PutKeyed(cart: Cart, k: string, it: Item)
    requires Keyed(cart) && it.nom == k
    ensures Keyed(Put(cart, k, it))
  {
    var r := Put(cart, k, it);
    PutUnique(cart, k, it);
    PutEntries(cart, k, it);
    forall i | 0 <= i < |r| ensures r[i].1.nom == r[i].0 {
      assert r[i] in r;
      if r[i] != (k, it) {
        var j :| 0 <= j < |cart| && cart[j] == r[i];
      }
    }
  }

  /** The trash button keeps every entry under its own name, once. */
  lemma RemoveKeyed(cart: Cart, k: string)
    requires Keyed(cart)
    ensures Keyed(Remove(cart, k))
  {
    RemoveUnique(cart, k);
    RemoveEntries(cart, k);
    var r := Remove(cart, k);
    forall i | 0 <= i < |r| ensures r[i].1.nom == r[i].0 {
      assert r[i] in r;
      var j :| 0 <= j < |cart| && cart[j] == r[i];
    }
  }

  lemma {:induction false} RemoveEntries(cart: Cart, k: string)
    ensures forall e :: e in Remove(cart, k) ==> e in cart
  {
    if cart != [] {
      RemoveEntries(cart[1..], k);
      assert forall e :: e in cart[1..] ==> e in cart;
    }
  }

  /** "-" right after "+" gives the cart back, unless the product's entry had a
      quantity below 1 (which only a restored cart can hold). */
  lemma RemoveUndoesAdd(cart: Cart, p: Product)
    requires UniqueKeys(cart)
    requires p.nom in Keys(cart) ==> Shown(cart, p.nom) >= 1
    ensures Removed(Added(cart, p), p) == cart
  {
    var it := Current(cart, p);
    var up := it.(qty := it.qty + 1);
    var a := Put(cart, p.nom, up);
    assert Added(cart, p) == a;
    LookupPut(cart, p.nom, up, p.nom);
    if p.nom in Keys(cart) {
      assert up.qty - 1 > 0 && up.(qty := up.qty - 1) == it;
      assert Removed(a, p) == Put(a, p.nom, it);
      PutPut(cart, p.nom, up, it);
      PutSame(cart, p.nom);
    } else {
      assert Removed(a, p) == Remove(a, p.nom);
      PutAbsent(cart, p.nom, up);
      RemoveAppend(cart, p.nom, up);
    }
  }

  lemma RemoveAppend(cart: Cart, k: string, it: Item)
    requires k !in Keys(cart)
    ensures Remove(cart + [(k, it)], k) == cart
  {
    RemoveSplit(cart, [(k, it)], k);
    RemoveAbsent(cart, k);
    assert Remove([(k, it)], k) == Remove([(k, it)][1..], k);
    assert [(k, it)][1..] == [];
  }

  lemma {:induction false} RemoveSplit(a: Cart, b: Cart, k: string)
    ensures Remove(a + b, k) == Remove(a, k) + Remove(b, k)
  {
    if a == [] {
      assert a + b == b;
    } else {
      assert (a + b)[0] == a[0] && (a + b)[1..] == a[1..] + b;
      RemoveSplit(a[1..], b, k);
    }
  }

  // ---------- Snack total ----------

  /** `it.prix * it.qty` */
  function Amount(it: Item): int {
    it.prix * it.qty
  }

  lemma AmountStep(it: Item, d: int)
    ensures Amount(it.(qty := it.qty + d)) == Amount(it) + d * it.prix
  {
    assert it.prix * (it.qty + d) == it.prix * it.qty + it.prix * d;
  }

  /** Σ prix × qty over the cart. */
  function CartTotal(cart: Cart): (t: int)
    ensures (forall i :: 0 <= i < |cart| ==> cart[i].1.prix >= 0 && cart[i].1.qty >= 0) ==> t >= 0
    ensures cart == [] ==> t == 0
  {
    if cart == [] then 0 else Amount(cart[0].1) + CartTotal(cart[1..])
  }

  /** The accumulating loop of `calcSnackTotal`. */
  method SnackTotal(cart: Cart) returns (t: int)
    ensures t == CartTotal(cart)
  {
    t := 0;
    for i := 0 to |cart|
      invariant t + CartTotal(cart[i..]) == CartTotal(cart)
    {
      assert cart[i..][1..] == cart[i + 1..];
      t := t + cart[i].1.prix * cart[i].1.qty;
    }
  }

  /** What an entry contributes to the snack total. */
  function Contribution(cart: Cart, k: string): int {
    match Lookup(cart, k)
    case None => 0
    case Some(it) => Amount(it)
  }

  lemma {:induction false} CartTotalPut(cart: Cart, k: string, it: Item)
    requires UniqueKeys(cart)
    ensures CartTotal(Put(cart, k, it)) == CartTotal(cart) - Contribution(cart, k) + Amount(it)
  {
    if cart != [] && cart[0].0 != k {
      UniqueTail(cart);
      CartTotalPut(cart[1..], k, it);
      assert Put(cart, k, it) == [cart[0]] + Put(cart[1..], k, it);
    } else if cart != [] {
      assert Put(cart, k, it) == [(k, it)] + cart[1..];
    }
  }

  lemma {:induction false} CartTotalRemove(cart: Cart, k: string)
    requires UniqueKeys(cart)
    ensures CartTotal(Remove(cart, k)) == CartTotal(cart) - Contribution(cart, k)
  {
    if cart != [] {
      UniqueTail(cart);
      CartTotalRemove(cart[1..], k);
      if cart[0].0 == k {
        ContributionAbsent(cart[1..], k);
      } else {
        assert Remove(cart, k) == [cart[0]] + Remove(cart[1..], k);
      }
    }
  }

  lemma ContributionAbsent(cart: Cart, k: string)
    requires k !in Keys(cart)
    ensures Contribution(cart, k) == 0
  {
  }

  lemma ContributionCurrent(cart: Cart, p: Product)
    ensures Contribution(cart, p.nom) == Amount(Current(cart, p))
  {
  }

  /** "+" adds the price of one item to the snack total: the entry's price when the
      product was in the cart, the product's price otherwise. */
  lemma AddedTotal(cart: Cart, p: Product)
    requires UniqueKeys(cart)
    ensures CartTotal(Added(cart, p)) == CartTotal(cart) + Current(cart, p).prix
  {
    var it := Current(cart, p);
    var up := it.(qty := it.qty + 1);
    assert Added(cart, p) == Put(cart, p.nom, up);
    CartTotalPut(cart, p.nom, up);
    ContributionCurrent(cart, p);
    AmountStep(it, 1);
  }

  /** "-" on an entry holding at least one item takes one item's price off. */
  lemma RemovedTotal(cart: Cart, p: Product, it: Item)
    requires UniqueKeys(cart) && Lookup(cart, p.nom) == Some(it) && it.qty >= 1
    ensures CartTotal(Removed(cart, p)) == CartTotal(cart) - it.prix
  {
    if it.qty == 1 {
      RemovedLastTotal(cart, p, it);
    } else {
      RemovedStepTotal(cart, p, it);
    }
  }

  lemma RemovedLastTotal(cart: Cart, p: Product, it: Item)
    requires UniqueKeys(cart) && Lookup(cart, p.nom) == Some(it) && it.qty == 1
    ensures CartTotal(Removed(cart, p)) == CartTotal(cart) - it.prix
  {
    assert Removed(cart, p) == Remove(cart, p.nom);
    CartTotalRemove(cart, p.nom);
  }

  lemma RemovedStepTotal(cart: Cart, p: Product, it: Item)
    requires UniqueKeys(cart) && Lookup(cart, p.nom) == Some(it) && it.qty > 1
    ensures CartTotal(Removed(cart, p)) == CartTotal(cart) - it.prix
  {
    var down := it.(qty := it.qty - 1);
    assert Removed(cart, p) == Put(cart, p.nom, down);
    CartTotalPut(cart, p.nom, down);
    AmountStep(it, -1);
  }

  // ---------- Save and restore ----------

  function SavedOf(it: Item): SavedItem {
    SavedItem(it.prix, it.qty, it.image, it.points)
  }

  /** The object `saveCartLS` writes for the cart: one `{ prix, qty, image, points }`
      per name, in the cart's order. */
  function Saved(cart: Cart): (s: seq<(string, SavedItem)>)
    ensures |s| == |cart| && Keys(s) == Keys(cart)
  {
    seq(|cart|, i requires 0 <= i < |cart| => (cart[i].0, SavedOf(cart[i].1)))
  }

  /** The item `restoreCartLS` rebuilds from a saved line. */
  function RestoredItem(name: string, v: SavedItem): (it: Item)
    ensures it.nom == name && SavedOf(it) == v
  {
    Item(name, v.prix, v.image, v.points, v.qty)
  }

  /** `restoreCartLS`: every saved line is set into the cart, in order. */
  function RestoredInto(cart: Cart, saved: seq<(string, SavedItem)>): Cart
    decreases |saved|
  {
    if saved == [] then cart
    else RestoredInto(Put(cart, saved[0].0, RestoredItem(saved[0].0, saved[0].1)), saved[1..])
  }

  /** Saving a cart and restoring it into the empty cart of a fresh page gives the same
      cart back. */
  lemma SaveRestore(cart: Cart)
    requires Keyed(cart)
    ensures RestoredInto([], Saved(cart)) == cart
  {
    SaveRestoreFrom(cart, 0);
    assert cart[..0] == [] && Saved(cart)[0..] == Saved(cart);
  }

  lemma {:induction false} SaveRestoreFrom(cart: Cart, j: nat)
    requires Keyed(cart) && j <= |cart|
    ensures RestoredInto(cart[..j], Saved(cart)[j..]) == cart
    decreases |cart| - j
  {
    if j == |cart| {
      assert cart[..j] == cart;
    } else {
      var s := Saved(cart)[j..];
      assert s[0] == (cart[j].0, SavedOf(cart[j].1)) && s[1..] == Saved(cart)[j + 1..];
      assert RestoredItem(cart[j].0, SavedOf(cart[j].1)) == cart[j].1;
      assert cart[j].0 !in Keys(cart[..j]) by {
        forall i | 0 <= i < j ensures Keys(cart[..j])[i] != cart[j].0 {
          assert Keys(cart[..j])[i] == cart[i].0 == Keys(cart)[i];
          assert Keys(cart)[j] == cart[j].0;
        }
      }
      PutAbsent(cart[..j], cart[j].0, cart[j].1);
      assert cart[..j] + [cart[j]] == cart[..j + 1];
      SaveRestoreFrom(cart, j + 1);
    }
  }

  // ---------- Tickets ----------

  /** What `loadTickets` returns. */
  datatype Tickets = Tickets(tarifs: seq<(string, int)>, promo: Option<string>, seats: seq<string>,
                             lines: seq<TicketLine>, count: int, total: int)

  /** The promotion rules on the ticket subtotal: CINEPASS takes 10% off (to the nearest
      cent, never below 0), REDUC2 takes 2.00 off a subtotal of at least 10.00, any
      other code nothing. */
  function Discounted(subtotal: int, promo: Option<string>): (r: int)
    ensures promo == Some("CINEPASS") && subtotal <= 0 ==> r == 0
    ensures promo == Some("CINEPASS") && subtotal > 0 ==> 9 * subtotal - 5 < 10 * r <= 9 * subtotal + 5
    ensures promo == Some("REDUC2") && subtotal >= 1000 ==> r == subtotal - 200
    ensures promo == Some("REDUC2") && subtotal < 1000 ==> r == subtotal
    ensures promo != Some("CINEPASS") && promo != Some("REDUC2") ==> r == subtotal
    ensures subtotal >= 0 ==> 0 <= r <= subtotal
  {
    if promo == Some("CINEPASS") then (if subtotal <= 0 then 0 else (9 * subtotal + 5) / 10)
    else if promo == Some("REDUC2") && subtotal >= 1000 then subtotal - 200
    else subtotal
  }

  /** The quantities, promo code and total `loadTickets` starts from: the showtime's
      store entry first, then the URL (`tarifs` parsed, `promo` upper-cased, `total`
      with 0 for a missing or non-numeric value). */
  function SourceTarifs(saved: Option<Entry>, tarifsParam: Option<seq<(string, int)>>): (r: Option<seq<(string, int)>>)
    ensures saved.Some? && saved.value.fare.Some? ==> r == Some(saved.value.fare.value.tarifs)
    ensures saved.None? || saved.value.fare.None? ==> r == tarifsParam
  {
    if saved.Some? && saved.value.fare.Some? then Some(saved.value.fare.value.tarifs) else tarifsParam
  }

  function SourcePromo(saved: Option<Entry>, promoParam: Option<string>): (p: Option<string>)
    ensures p.Some? ==> p.value != ""
  {
    if saved.Some? && saved.value.promo != "" then Some(saved.value.promo)
    else
      var u := UpperAscii(Or(promoParam, ""));
      if u == "" then None else Some(u)
  }

  function SourceTotal(saved: Option<Entry>, totalParam: Option<int>): (r: int)
    ensures saved.Some? && saved.value.fare.Some? ==> r == saved.value.fare.value.total
    ensures (saved.None? || saved.value.fare.None?) && totalParam.Some? ==> r == totalParam.value
    ensures (saved.None? || saved.value.fare.None?) && totalParam.None? ==> r == 0
  {
    if saved.Some? && saved.value.fare.Some? then saved.value.fare.value.total
    else match totalParam case Some(t) => t case None => 0
  }

  /** The ticket summary: lines and count from the quantities, and the recomputed
      total, the loaded total standing in only when the recomputed one is 0. */
  function TicketsFrom(saved: Option<Entry>, tarifsParam: Option<seq<(string, int)>>,
                       promoParam: Option<string>, totalParam: Option<int>, seats: seq<string>): (t: Tickets)
    ensures SourceTarifs(saved, tarifsParam).Some? ==> t.tarifs == SourceTarifs(saved, tarifsParam).value
    ensures SourceTarifs(saved, tarifsParam).None? ==> t.tarifs == []
    ensures t.promo == SourcePromo(saved, promoParam) && t.seats == seats
    ensures t.lines == Lines(t.tarifs) && t.count == LinesCount(t.lines)
    ensures Discounted(PricedTotal(t.tarifs), t.promo) != 0 ==> t.total == Discounted(PricedTotal(t.tarifs), t.promo)
    ensures Discounted(PricedTotal(t.tarifs), t.promo) == 0 ==> t.total == SourceTotal(saved, totalParam)
  {
    var tarifs := match SourceTarifs(saved, tarifsParam) case Some(q) => q case None => [];
    var promo := SourcePromo(saved, promoParam);
    var lines := Lines(tarifs);
    LinesTotalIsPricedTotal(tarifs);
    var recomputed := Discounted(LinesTotal(lines), promo);
    Tickets(tarifs, promo, seats, lines, LinesCount(lines),
            if recomputed != 0 then recomputed else SourceTotal(saved, totalParam))
  }

  /** The line loop of `loadTickets`: priced, non-zero quantities only, with the
      running subtotal. */
  method TicketLinesLoop(tarifs: seq<(string, int)>) returns (lines: seq<TicketLine>, subtotal: int)
    ensures lines == Lines(tarifs) && subtotal == PricedTotal(tarifs)
  {
    lines := [];
    subtotal := 0;
    for i := 0 to |tarifs|
      invariant lines == Lines(tarifs[..i]) && subtotal == LinesTotal(lines)
    {
      assert tarifs[..i + 1] == tarifs[..i] + [tarifs[i]];
      LinesAppend(tarifs[..i], [tarifs[i]]);
      assert Lines([tarifs[i]])[..] == (if Emits(tarifs[i]) then [LineOf(tarifs[i])] else []) by {
        assert [tarifs[i]][1..] == [];
      }
      if Emits(tarifs[i]) {
        var l := LineOf(tarifs[i]);
        LinesTotalAppend(lines, l);
        lines := lines + [l];
        subtotal := subtotal + l.lineTotal;
      }
    }
    assert tarifs[..|tarifs|] == tarifs;
    LinesTotalIsPricedTotal(tarifs);
  }

  lemma {:induction false} LinesTotalAppend(lines: seq<TicketLine>, l: TicketLine)
    ensures LinesTotal(lines + [l]) == LinesTotal(lines) + l.lineTotal
  {
    if lines != [] {
      assert (lines + [l])[1..] == lines[1..] + [l];
      LinesTotalAppend(lines[1..], l);
    } else {
      assert [l][1..] == [];
    }
  }

  /** `loadTickets` */
  method LoadTickets(saved: Option<Entry>, tarifsParam: Option<seq<(string, int)>>,
                     promoParam: Option<string>, totalParam: Option<int>, seats: seq<string>)
    returns (t: Tickets)
    ensures t == TicketsFrom(saved, tarifsParam, promoParam, totalParam, seats)
  {
    var tarifs := match SourceTarifs(saved, tarifsParam) case Some(q) => q case None => [];
    var promo := SourcePromo(saved, promoParam);
    var total := SourceTotal(saved, totalParam);
    var lines, subtotal := TicketLinesLoop(tarifs);
    LinesTotalIsPricedTotal(tarifs);
    var recomputed := Discounted(subtotal, promo);
    t := Tickets(tarifs, promo, seats, lines, LinesCount(lines), if recomputed != 0 then recomputed else total);
  }

  /** The store entry is preferred to the URL for the quantities, and the stored promo
      code to the URL's. */
  lemma SourcesPreferStore(e: Entry, tarifsParam: Option<seq<(string, int)>>, promoParam: Option<string>,
                           totalParam: Option<int>, seats: seq<string>)
    requires e.fare.Some?
    ensures TicketsFrom(Some(e), tarifsParam, promoParam, totalParam, seats).tarifs == e.fare.value.tarifs
    ensures e.promo != "" ==> TicketsFrom(Some(e), tarifsParam, promoParam, totalParam, seats).promo == Some(e.promo)
  {
  }

  /** Without a stored fare part the quantities come from the URL (none when the
      parameter is missing or does not parse), and so does the stand-in total (0 when
      missing or not a number). */
  lemma UrlTarifsFallback(saved: Option<Entry>, tarifsParam: Option<seq<(string, int)>>, promoParam: Option<string>,
                          totalParam: Option<int>, seats: seq<string>)
    requires saved.None? || saved.value.fare.None?
    ensures var t := TicketsFrom(saved, tarifsParam, promoParam, totalParam, seats);
            && (tarifsParam.Some? ==> t.tarifs == tarifsParam.value)
            && (tarifsParam.None? ==> t.tarifs == [] && t.lines == [] && t.count == 0)
            && (Discounted(PricedTotal(t.tarifs), t.promo) == 0 ==>
                  t.total == (if totalParam.Some? then totalParam.value else 0))
  {
  }

  /** Without a stored promo code, the URL's is upper-cased, an empty one meaning none. */
  lemma UrlPromoUpperCased(saved: Option<Entry>, promoParam: Option<string>)
    requires saved.None? || saved.value.promo == ""
    ensures SourcePromo(saved, promoParam).Some? <==> promoParam.Some? && promoParam.value != ""
    ensures SourcePromo(saved, promoParam).Some? ==> SourcePromo(saved, promoParam).value == UpperAscii(promoParam.value)
  {
  }

  /** The snack page shows what the fare page stored: after the fare page's persist, and
      with no promo code anywhere, the lines, the count and the total are those of the
      fare page's quantities. */
  lemma TicketsAgreeWithFarePage(prev: Option<Entry>, f: FareSnapshot, tarifsParam: Option<seq<(string, int)>>,
                                 totalParam: Option<int>, seats: seq<string>)
    requires f.total == PricedTotal(f.tarifs)
    requires prev.None? || prev.value.promo == ""
    ensures TicketsFrom(Some(Tarif.MergeFare(prev, f)), tarifsParam, None, totalParam, seats).lines == Lines(f.tarifs)
    ensures TicketsFrom(Some(Tarif.MergeFare(prev, f)), tarifsParam, None, totalParam, seats).count == LinesCount(Lines(f.tarifs))
    ensures TicketsFrom(Some(Tarif.MergeFare(prev, f)), tarifsParam, None, totalParam, seats).total == PricedTotal(f.tarifs)
  {
    var e := Tarif.MergeFare(prev, f);
    assert SourcePromo(Some(e), None) == None by {
      assert Or(None, "") == "";
      assert UpperAscii("") == "";
    }
  }

  // ---------- Total and "Continue" ----------

  /** Where "Continue" leads: nowhere (`#`), or to payment with the grand total, the
      quantities and, when there is one, the promo code. */
  datatype PayLink = NoPay | ToPayment(total: int, tarifs: seq<(string, int)>, promo: Option<string>)

  /** `updateUI`: the grand total is the ticket total plus the snack total; "Continue"
      is dead when the cart is empty and there is no ticket. */
  function PaymentLink(t: Tickets, cart: Cart): (l: PayLink)
    ensures l.NoPay? <==> |cart| == 0 && t.count == 0
    ensures l.ToPayment? ==> l.total == t.total + CartTotal(cart) && l.tarifs == t.tarifs && l.promo == t.promo
  {
    if |cart| == 0 && t.count == 0 then NoPay
    else ToPayment(t.total + CartTotal(cart), t.tarifs, t.promo)
  }

  /** A snack in the cart always opens the way to payment, tickets or not. */
  lemma AddEnablesPayment(t: Tickets, cart: Cart, p: Product)
    ensures PaymentLink(t, Added(cart, p)).ToPayment?
  {
    AddedEffect(cart, p);
    assert p.nom in Keys(Added(cart, p));
  }

  /** The product a card's button names, and what the button does. */
  datatype Action = AddAction | RemoveAction | OtherAction

  // ---------- The page state ----------

  class SnackPage {
    const key: string
    const store: LocalStore
    const catalog: Catalog
    const tickets: Tickets
    var cart: Cart

    /** The page's URL parameters, the loaded catalogue (empty when the fetch failed)
        and the shared store; the tickets are loaded once, the cart starts empty. */
    constructor (filmParam: Option<string>, salleParam: Option<string>, seanceParam: Option<string>,
                 seatsParam: Option<string>, tarifsParam: Option<seq<(string, int)>>,
                 promoParam: Option<string>, totalParam: Option<int>, catalog: Catalog, store: LocalStore)
      ensures key == SessionKey(Or(filmParam, "Film"), Or(salleParam, "—"), Or(seanceParam, ""))
      ensures tickets == TicketsFrom(if key in store.reservations then Some(store.reservations[key]) else None,
                                     tarifsParam, promoParam, totalParam, Tarif.ParseSeats(seatsParam))
      ensures this.catalog == catalog && this.store == store && cart == []
    {
      var k := SessionKey(Or(filmParam, "Film"), Or(salleParam, "—"), Or(seanceParam, ""));
      var t := LoadTickets(if k in store.reservations then Some(store.reservations[k]) else None,
                           tarifsParam, promoParam, totalParam, Tarif.ParseSeats(seatsParam));
      key := k;
      tickets := t;
      this.catalog := catalog;
      this.store := store;
      cart := [];
    }

    /** `saveCartLS`: writes this showtime's cart only. */
    method Save()
      modifies store`snackCarts
      ensures store.snackCarts == old(store.snackCarts)[key := Saved(cart)]
    {
      store.snackCarts := store.snackCarts[key := Saved(cart)];
    }

    /** `restoreCartLS`: sets every saved line of this showtime into the cart. */
    method Restore()
      modifies this`cart
      ensures cart == RestoredInto(old(cart), if key in store.snackCarts then store.snackCarts[key] else [])
    {
      var saved := if key in store.snackCarts then store.snackCarts[key] else [];
      for i := 0 to |saved|
        invariant RestoredInto(cart, saved[i..]) == RestoredInto(old(cart), saved)
      {
        assert saved[i..][1..] == saved[i + 1..];
        cart := Put(cart, saved[i].0, RestoredItem(saved[i].0, saved[i].1));
      }
    }

    /** The end of `boot`: restore, then the first `updateUI`, which saves. */
    method Boot()
      modifies this`cart, store`snackCarts
      ensures cart == RestoredInto(old(cart), if key in old(store.snackCarts) then old(store.snackCarts)[key] else [])
      ensures store.snackCarts == old(store.snackCarts)[key := Saved(cart)]
    {
      Restore();
      Save();
    }

    /** `addToCart`, then `updateUI`'s save. */
    method Add(p: Product)
      modifies this`cart, store`snackCarts
      ensures cart == Added(old(cart), p)
      ensures store.snackCarts == old(store.snackCarts)[key := Saved(cart)]
    {
      var it := Current(cart, p);
      cart := Put(cart, p.nom, it.(qty := it.qty + 1));
      Save();
    }

    /** `removeFromCart`: nothing at all for a product not in the cart. */
    method Remove(p: Product)
      modifies this`cart, store`snackCarts
      ensures cart == Removed(old(cart), p)
      ensures p.nom in Keys(old(cart)) ==> store.snackCarts == old(store.snackCarts)[key := Saved(cart)]
      ensures p.nom !in Keys(old(cart)) ==> store.snackCarts == old(store.snackCarts)
    {
      match Lookup(cart, p.nom)
      case None =>
      case Some(it) =>
        if it.qty - 1 <= 0 {
          cart := Assoc.Remove(cart, p.nom);
        } else {
          cart := Put(cart, p.nom, it.(qty := it.qty - 1));
        }
        Save();
    }

    /** `clearCart` */
    method Clear()
      modifies this`cart, store`snackCarts
      ensures cart == []
      ensures store.snackCarts == old(store.snackCarts)[key := []]
    {
      cart := [];
      Save();
    }

    /** `handleCartLineClick`: the trash button of the line named `name`. */
    method Trash(name: string)
      modifies this`cart, store`snackCarts
      ensures cart == Assoc.Remove(old(cart), name)
      ensures store.snackCarts == old(store.snackCarts)[key := Saved(cart)]
    {
      cart := Assoc.Remove(cart, name);
      Save();
    }

    /** `handleProductInteraction`: a button naming a product of the catalogue adds or
        removes it; any other click does nothing. */
    method Interact(name: string, action: Action)
      modifies this`cart, store`snackCarts
      ensures ProductNamed(catalog, name).None? || action.OtherAction? ==>
                cart == old(cart) && store.snackCarts == old(store.snackCarts)
      ensures ProductNamed(catalog, name).Some? && action.AddAction? ==>
                && cart == Added(old(cart), ProductNamed(catalog, name).value)
                && store.snackCarts == old(store.snackCarts)[key := Saved(cart)]
      ensures ProductNamed(catalog, name).Some? && action.RemoveAction? ==>
                && cart == Removed(old(cart), ProductNamed(catalog, name).value)
                && (name in Keys(old(cart)) ==> store.snackCarts == old(store.snackCarts)[key := Saved(cart)])
                && (name !in Keys(old(cart)) ==> store.snackCarts == old(store.snackCarts))
    {
      var p := FindProductByName(catalog, name);
      if p.Some? {
        if action.AddAction? {
          Add(p.value);
        } else if action.RemoveAction? {
          Remove(p.value);
        }
      }
    }
  }
}
