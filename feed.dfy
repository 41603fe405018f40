/** The records of `films.json` read by the catalogue and the seat map. */
module Feed {
  import opened Text

  /** One showtime of a film. `libres` is `Number(libres)` when that is a finite
      integer and `None` when it is absent or not a finite number. */
  datatype Seance = Seance(
    horaire: string, fin: string, salle: string,
    imax: bool, fourK: bool, vf: bool, vost: bool, handicap: bool,
    libres: Option<int>)

  /** One film; `seances` is the `séances` array (or its unaccented spelling on the
      catalogue page, or the empty list when neither is there). */
  datatype Film = Film(titre: string, genre: seq<string>, dureeMinutes: Option<int>,
                       image: string, seances: seq<Seance>)
}
