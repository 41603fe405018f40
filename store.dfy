/** The browser store shared by the booking pages: the `pathe_reservation` object keyed
    by showtime, and the `pathe_cart_snacks` object keyed the same way. JSON encoding
    and the swallowed parse errors are not modelled; an unreadable store reads as empty. */
module Store {
  import opened Text
  import opened Fares

  /** The key `${film}|${room}|${time}` the seat, fare and snack pages all compute. */
  function SessionKey(film: string, room: string, time: string): string {
    film + "|" + room + "|" + time
  }

  /** When no part holds a '|', splitting the key on '|' gives the three parts back. */
  lemma SessionKeySplit(film: string, room: string, time: string)
    requires '|' !in film && '|' !in room && '|' !in time
    ensures Split(SessionKey(film, room, time), '|') == [film, room, time]
  {
    var parts := [film, room, time];
    assert Join(parts[2..], "|") == time;
    assert Join(parts[1..], "|") == room + "|" + time;
    assert Join(parts, "|") == SessionKey(film, room, time);
    SplitJoin(parts, '|');
  }

  /** Hence two showtimes share an entry only when they agree on film, room and time. */
  lemma SessionKeyInjective(f1: string, r1: string, t1: string, f2: string, r2: string, t2: string)
    requires '|' !in f1 && '|' !in r1 && '|' !in t1
    requires '|' !in f2 && '|' !in r2 && '|' !in t2
    requires SessionKey(f1, r1, t1) == SessionKey(f2, r2, t2)
    ensures f1 == f2 && r1 == r2 && t1 == t2
  {
    SessionKeySplit(f1, r1, t1);
    SessionKeySplit(f2, r2, t2);
  }

  /** The part of a showtime entry the seat map writes. */
  datatype SeatSnapshot = SeatSnapshot(
    filmTitre: string, room: string, lang: string, timeStr: string,
    selected: set<string>, taken: set<string>, custom: map<string, string>)

  /** The fields the fare page writes into the same entry; `lines`, `ticketsTotal` and
      `count` are the nested `tickets` record. */
  datatype FareSnapshot = FareSnapshot(
    film: string, salle: string, langue: string, seance: string,
    poster: string, format: string, seats: seq<string>,
    tarifs: seq<(string, int)>, total: int,
    lines: seq<TicketLine>, ticketsTotal: int, count: int)

  /** One value of `pathe_reservation`; `promo` is "" when the field is absent. */
  datatype Entry = Entry(seat: Option<SeatSnapshot>, fare: Option<FareSnapshot>, promo: string)

  /** One saved snack line `{ prix, qty, image, points }`. */
  datatype SavedItem = SavedItem(prix: int, qty: int, image: string, points: int)

  class LocalStore {
    var reservations: map<string, Entry>
    var snackCarts: map<string, seq<(string, SavedItem)>>

    constructor ()
      ensures reservations == map[] && snackCarts == map[]
    {
      reservations := map[];
      snackCarts := map[];
    }
  }
}
