/** The ticket page (ticket.js): the fields it shows, read from the query string with
    their fallbacks, and the seat list rewritten from `A1,B2` to `A1, B2`. */
module Ticket {
  import opened Text

  /** The query-string parameters the page reads; `None` is a missing parameter. */
  datatype Query = Query(film: Option<string>, salle: Option<string>, seance: Option<string>,
                         langue: Option<string>, seats: Option<string>, total: Option<string>)

  /** The texts the ticket shows. `total` is the raw parameter before currency formatting. */
  datatype TicketView = TicketView(film: string, salle: string, seance: string, langue: string,
                                   seats: string, total: string)

  /** `parts.map(s => s.trim())` */
  function TrimAll(parts: seq<string>): (r: seq<string>)
    ensures |r| == |parts| && forall i :: 0 <= i < |parts| ==> r[i] == Trim(parts[i])
  {
    if parts == [] then [] else [Trim(parts[0])] + TrimAll(parts[1..])
  }

  /** The seat list shown for the (already trimmed) `seats` parameter: with a comma,
      the pieces trimmed and joined by ", "; otherwise the text itself, or "—" when it
      is empty. */
  function SeatsPretty(seats: string): (r: string)
    ensures ',' !in seats && seats != "" ==> r == seats
    ensures seats == "" ==> r == "—"
  {
    if seats != "" && ',' in seats then Join(TrimAll(Split(seats, ',')), ", ")
    else if seats != "" then seats
    else "—"
  }

  /** The seat list of the page: the parameter, or "" when missing, trimmed, then
      rewritten by `SeatsPretty`. */
  function SeatsShown(p: Option<string>): (r: string)
    ensures r != ""
    ensures p.None? ==> r == "—"
    ensures p.Some? && Trim(p.value) != "" && ',' !in Trim(p.value) ==> r == Trim(p.value)
  {
    TrimUnchanged("");
    SeatsNeverBlank(Trim(Or(p, "")));
    SeatsPretty(Trim(Or(p, "")))
  }

  /** Every field falls back to its placeholder when the parameter is missing or empty,
      and otherwise shows the parameter as given. */
  function View(q: Query): (v: TicketView)
    ensures v.film != "" && v.salle != "" && v.seance != "" && v.langue != "" && v.seats != "" && v.total != ""
    ensures v.film == (if q.film.Some? && q.film.value != "" then q.film.value else "Film")
    ensures v.salle == (if q.salle.Some? && q.salle.value != "" then q.salle.value else "—")
    ensures v.seance == (if q.seance.Some? && q.seance.value != "" then q.seance.value else "—:—")
    ensures v.langue == (if q.langue.Some? && q.langue.value != "" then q.langue.value else "—")
    ensures v.total == (if q.total.Some? && q.total.value != "" then q.total.value else "0.00")
    ensures v.seats == SeatsShown(q.seats)
  {
    TicketView(Or(q.film, "Film"), Or(q.salle, "—"), Or(q.seance, "—:—"), Or(q.langue, "—"),
               SeatsShown(q.seats), Or(q.total, "0.00"))
  }

  /** A text containing a comma splits into two pieces or more. */
  lemma SplitAtComma(s: string)
    requires ',' in s
    ensures |Split(s, ',')| >= 2
  {
  }

  /** A text without whitespace at either end; `trim` leaves it as it is. */
  predicate Trimmed(t: string) {
    t == [] || (!IsJsSpace(t[0]) && !IsJsSpace(t[|t| - 1]))
  }

  /** A space in front changes nothing once the text is trimmed. */
  lemma TrimSpaceFirst(x: string)
    ensures Trim(" " + x) == Trim(x)
  {
    var a := " " + x;
    assert a[1..] == x;
    assert LeadingSpaces(a) == 1 + LeadingSpaces(x);
    assert a[LeadingSpaces(a)..] == x[LeadingSpaces(x)..];
  }

  /** A trimmed piece of a text holds no character the text does not hold. */
  lemma TrimKeepsOut(s: string, c: char)
    requires c !in s
    ensures c !in Trim(s) && Trimmed(Trim(s))
  {
    var r := Trim(s);
    var k := LeadingSpaces(s);
    forall i | 0 <= i < |r| ensures r[i] != c {
      assert r[i] == s[k + i];
    }
  }

  lemma TrimAllCons(x: string, rest: seq<string>)
    ensures TrimAll([x] + rest) == [Trim(x)] + TrimAll(rest)
  {
    assert ([x] + rest)[1..] == rest;
  }

  /** The space after each comma disappears once the pieces are trimmed. */
  lemma SplitTrimSpace(x: string)
    ensures TrimAll(Split(" " + x, ',')) == TrimAll(Split(x, ','))
  {
    var p := Split(x, ',');
    assert (" " + x)[1..] == x;
    assert Split(" " + x, ',') == [" " + p[0]] + p[1..];
    TrimSpaceFirst(p[0]);
    TrimAllCons(" " + p[0], p[1..]);
    TrimAllCons(p[0], p[1..]);
    assert [p[0]] + p[1..] == p;
  }

  /** Pieces as `map(s => s.trim())` leaves them, none holding a comma. */
  predicate CleanPieces(t: seq<string>) {
    forall i :: 0 <= i < |t| ==> ',' !in t[i] && Trimmed(t[i])
  }

  lemma CleanTail(t: seq<string>)
    requires |t| >= 1 && CleanPieces(t)
    ensures CleanPieces(t[1..]) && ',' !in t[0] && Trimmed(t[0])
  {
    forall i | 0 <= i < |t| - 1 ensures ',' !in t[1..][i] && Trimmed(t[1..][i]) {
      assert t[1..][i] == t[i + 1];
    }
  }

  /** One step of reading back: the first piece, then the rest after ", ". */
  lemma ReadBackStep(head: string, rest: string)
    requires ',' !in head && Trimmed(head)
    ensures TrimAll(Split(head + ", " + rest, ',')) == [head] + TrimAll(Split(rest, ','))
  {
    assert head + ", " + rest == head + [','] + (" " + rest);
    SplitAfterPiece(head, " " + rest, ',');
    TrimAllCons(head, Split(" " + rest, ','));
    SplitTrimSpace(rest);
    TrimUnchanged(head);
  }

  /** Splitting the ", "-joined pieces on ',' and trimming gives the pieces back. */
  lemma {:induction false} PiecesReadBack(t: seq<string>)
    requires |t| >= 1 && CleanPieces(t)
    ensures TrimAll(Split(Join(t, ", "), ',')) == t
  {
    CleanTail(t);
    if |t| == 1 {
      TrimUnchanged(t[0]);
      SplitNoSeparator(t[0], ',');
      assert TrimAll([t[0]]) == [Trim(t[0])];
    } else {
      PiecesReadBack(t[1..]);
      assert Join(t, ", ") == t[0] + ", " + Join(t[1..], ", ");
      ReadBackStep(t[0], Join(t[1..], ", "));
      assert [t[0]] + t[1..] == t;
    }
  }

  /** The shown list holds the same seats as the parameter: splitting it on ',' and
      trimming gives exactly the trimmed pieces of the parameter. */
  lemma PrettyKeepsSeats(seats: string)
    requires ',' in seats
    ensures ',' in SeatsPretty(seats)
    ensures TrimAll(Split(SeatsPretty(seats), ',')) == TrimAll(Split(seats, ','))
  {
    var parts := Split(seats, ',');
    var t := TrimAll(parts);
    SplitAtComma(seats);
    assert CleanPieces(t) by {
      forall i | 0 <= i < |t| ensures ',' !in t[i] && Trimmed(t[i]) {
        TrimKeepsOut(parts[i], ',');
      }
    }
    PiecesReadBack(t);
    var r := Join(t, ", ");
    assert r == t[0] + ", " + Join(t[1..], ", ");
    assert r[|t[0]|] == ',';
  }

  /** The seat list is never blank: a text with a comma has two pieces or more, so
      their join holds ", ". */
  lemma SeatsNeverBlank(seats: string)
    ensures SeatsPretty(seats) != ""
  {
    if seats != "" && ',' in seats {
      SplitAtComma(seats);
      var pieces := TrimAll(Split(seats, ','));
      assert Join(pieces, ", ") == pieces[0] + ", " + Join(pieces[1..], ", ");
    }
  }

  /** Rewriting an already rewritten list changes nothing. */
  lemma SeatsPrettyIdempotent(seats: string)
    ensures SeatsPretty(SeatsPretty(seats)) == SeatsPretty(seats)
  {
    if seats != "" && ',' in seats {
      PrettyKeepsSeats(seats);
    } else {
      assert ',' !in "—";
    }
  }

  /** A seat id as the seat map writes it: not empty, no comma, no outer whitespace. */
  predicate PlainId(id: string) {
    id != [] && ',' !in id && !IsJsSpace(id[0]) && !IsJsSpace(id[|id| - 1])
  }

  /** The comma-joined ids have no outer whitespace, and hold a comma once there are
      two of them. */
  lemma JoinedIds(ids: seq<string>)
    requires |ids| >= 1 && forall i :: 0 <= i < |ids| ==> PlainId(ids[i])
    ensures Trim(Join(ids, ",")) == Join(ids, ",")
    ensures |ids| >= 2 ==> ',' in Join(ids, ",")
    ensures |ids| == 1 ==> Join(ids, ",") == ids[0]
  {
    var s := Join(ids, ",");
    JoinEnds(ids, ",");
    var last := ids[|ids| - 1];
    assert s[0] == ids[0][0];
    assert s[|s| - 1] == last[|last| - 1] by {
      assert s[|s| - |last|..][|last| - 1] == last[|last| - 1];
    }
    TrimUnchanged(s);
    if |ids| >= 2 {
      assert s == ids[0] + "," + Join(ids[1..], ",");
      assert s[|ids[0]|] == ',';
    }
  }

  lemma TrimAllPlain(ids: seq<string>)
    requires forall i :: 0 <= i < |ids| ==> PlainId(ids[i])
    ensures TrimAll(ids) == ids
  {
    forall i | 0 <= i < |ids| ensures Trim(ids[i]) == ids[i] {
      TrimUnchanged(ids[i]);
    }
  }

  lemma SplitIds(ids: seq<string>)
    requires |ids| >= 1 && forall i :: 0 <= i < |ids| ==> PlainId(ids[i])
    ensures Split(Join(ids, ","), ',') == ids
  {
    SplitJoin(ids, ',');
  }

  /** Two ids or more are split on their commas and shown joined by ", ". */
  lemma PrettyOfIds(ids: seq<string>)
    requires |ids| >= 2 && forall i :: 0 <= i < |ids| ==> PlainId(ids[i])
    ensures SeatsPretty(Join(ids, ",")) == Join(ids, ", ")
  {
    var s := Join(ids, ",");
    JoinedIds(ids);
    SplitIds(ids);
    TrimAllPlain(ids);
    assert s != "" && ',' in s;
  }

  /** For seats passed as `ids.join(',')` the ticket shows `ids.join(', ')`. */
  lemma SeatsShownOfIds(ids: seq<string>)
    requires |ids| >= 1 && forall i :: 0 <= i < |ids| ==> PlainId(ids[i])
    ensures SeatsShown(Some(Join(ids, ","))) == Join(ids, ", ")
  {
    var s := Join(ids, ",");
    JoinedIds(ids);
    assert SeatsShown(Some(s)) == SeatsPretty(s);
    if |ids| >= 2 {
      PrettyOfIds(ids);
    } else {
      assert s == ids[0] == Join(ids, ", ");
    }
  }
}
