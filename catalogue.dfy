/** The film list page (catalogue.js): durations as `XhYY`, the 4K and language
    predicates, the filter applied to the film list, the genre menu, title
    normalisation and the trailer lookup behind a click on a poster. */
module Catalogue {
  import opened Text
  import opened Decimal
  import opened Feed
  import opened Sorting
  import opened Assoc

  // ---------- Durations ----------

  /** `Math.max(0, Number(mins) || 0)`, `None` standing for a missing or non-numeric
      value. */
  function Minutes(mins: Option<int>): (m: nat)
    ensures mins.Some? && mins.value > 0 ==> m == mins.value
    ensures mins.None? || mins.value <= 0 ==> m == 0
  {
    if mins.Some? && mins.value > 0 then mins.value else 0
  }

  /** `minToH`: hours, `h`, then the remaining minutes on two digits. The hours parse
      back as the leading integer and the last two characters as the minutes. */
  function MinToH(mins: Option<int>): (r: string)
    ensures |r| >= 4 && r[|r| - 3] == 'h' && AllDigits(r[|r| - 2..])
    ensures ParseInt(r) == Some(Minutes(mins) / 60)
    ensures DigitsValue(r[|r| - 2..]) == Minutes(mins) % 60
  {
    var m := Minutes(mins);
    var p := PadStart2(NatToString(m % 60));
    PaddedValue(m % 60);
    ParseIntNatToString(m / 60, "h" + p);
    var r := NatToString(m / 60) + ("h" + p);
    assert r[|r| - 2..] == p;
    r
  }

  /** Reading `XhYY` back gives the duration, and a missing or non-positive duration
      shows as `0h00`. */
  lemma MinToHReadsBack(mins: Option<int>)
    ensures var r := MinToH(mins);
            ParseInt(r).Some? && 60 * ParseInt(r).value + DigitsValue(r[|r| - 2..]) == Minutes(mins)
    ensures mins.None? || mins.value <= 0 ==> MinToH(mins) == "0h00"
  {
    if mins.None? || mins.value <= 0 {
      MinToHZero(mins);
    }
  }

  lemma MinToHZero(mins: Option<int>)
    requires mins.None? || mins.value <= 0
    ensures MinToH(mins) == "0h00"
  {
    assert Minutes(mins) == 0;
    assert NatToString(0) == [DigitChar(0)] == "0";
    assert PadStart2("0") == "00";
  }

  // ---------- Film predicates ----------

  /** `has4K`: some showtime is in 4K. */
  function Has4K(f: Film): (b: bool)
    ensures b <==> exists s :: s in f.seances && s.fourK
  {
    exists i :: 0 <= i < |f.seances| && f.seances[i].fourK
  }

  /** `hasLang`: `Tous` and any unknown value accept every film; `VF` and `VOST` ask
      for a showtime with that version. */
  function HasLang(f: Film, lang: string): (b: bool)
    ensures lang != "VF" && lang != "VOST" ==> b
    ensures lang == "VF" ==> (b <==> exists s :: s in f.seances && s.vf)
    ensures lang == "VOST" ==> (b <==> exists s :: s in f.seances && s.vost)
  {
    if lang == "VF" then exists i :: 0 <= i < |f.seances| && f.seances[i].vf
    else if lang == "VOST" then exists i :: 0 <= i < |f.seances| && f.seances[i].vost
    else true
  }

  /** The filter state: genre, language, 4K switch and search text. */
  datatype Filters = Filters(genre: string, langue: string, fourk: bool, q: string)

  /** The initial filter state. */
  const DefaultFilters: Filters := Filters("Tous", "Tous", false, "")

  /** The search text matches: empty after trimming, or found in the title or in the
      genres joined by spaces, both sides lower-cased. */
  function QueryOk(f: Film, q: string): (b: bool)
    ensures Trim(q) == "" ==> b
    ensures Contains(LowerAscii(f.titre), LowerAscii(Trim(q))) ==> b
    ensures Contains(LowerAscii(Join(f.genre, " ")), LowerAscii(Trim(q))) ==> b
    ensures b ==> || Trim(q) == ""
                  || Contains(LowerAscii(f.titre), LowerAscii(Trim(q)))
                  || Contains(LowerAscii(Join(f.genre, " ")), LowerAscii(Trim(q)))
  {
    var needle := LowerAscii(Trim(q));
    needle == "" || Contains(LowerAscii(f.titre), needle) || Contains(LowerAscii(Join(f.genre, " ")), needle)
  }

  /** The filter predicate of `render`. A film is listed exactly when it passes all
      four filters; the neutral value of each lets every film through. */
  function Listed(f: Film, fl: Filters): (b: bool)
    ensures b ==> fl.genre == "Tous" || fl.genre in f.genre
    ensures b && fl.fourk ==> Has4K(f)
    ensures b ==> HasLang(f, fl.langue) && QueryOk(f, fl.q)
    ensures Trim(fl.q) == "" && fl.genre == "Tous" && !fl.fourk && fl.langue == "Tous" ==> b
    ensures (QueryOk(f, fl.q) && (fl.genre == "Tous" || fl.genre in f.genre) &&
             (fl.fourk ==> Has4K(f)) && HasLang(f, fl.langue)) ==> b
  {
    && QueryOk(f, fl.q)
    && (fl.genre == "Tous" || fl.genre in f.genre)
    && (fl.fourk ==> Has4K(f))
    && HasLang(f, fl.langue)
  }

  /** `state.films.filter(...)`: the films passing the filter, in their order. */
  function Filtered(films: seq<Film>, fl: Filters): (r: seq<Film>)
    ensures forall f :: f in r <==> f in films && Listed(f, fl)
    ensures |r| <= |films|
    ensures |films| == 1 ==> r == (if Listed(films[0], fl) then films else [])
  {
    if films == [] then []
    else if Listed(films[0], fl) then [films[0]] + Filtered(films[1..], fl)
    else Filtered(films[1..], fl)
  }

  /** The filter works film by film, so the listed films keep their order. */
  lemma {:induction false} FilteredAppend(a: seq<Film>, b: seq<Film>, fl: Filters)
    ensures Filtered(a + b, fl) == Filtered(a, fl) + Filtered(b, fl)
  {
    if a == [] {
      assert a + b == b;
    } else {
      assert (a + b)[0] == a[0] && (a + b)[1..] == a[1..] + b;
      FilteredAppend(a[1..], b, fl);
    }
  }

  /** The neutral value of each filter (empty search, genre `Tous`, 4K off, language `Tous`) lets every film
      through. */
  lemma {:induction false} NeutralFiltersListAll(films: seq<Film>, fl: Filters)
    requires Trim(fl.q) == "" && fl.genre == "Tous" && !fl.fourk && fl.langue == "Tous"
    ensures Filtered(films, fl) == films
  {
    if films != [] {
      assert LowerAscii(Trim(fl.q)) == "";
      assert Listed(films[0], fl);
      NeutralFiltersListAll(films[1..], fl);
    }
  }

  /** The page starts by showing every film. */
  lemma DefaultListsAll(films: seq<Film>)
    ensures Filtered(films, DefaultFilters) == films
  {
    assert Trim("") == "";
    NeutralFiltersListAll(films, DefaultFilters);
  }

  /** Tightening a filter never adds a film: the 4K switch keeps a subset. */
  lemma FourKNarrows(films: seq<Film>, fl: Filters)
    ensures forall f :: f in Filtered(films, fl.(fourk := true)) ==> f in Filtered(films, fl.(fourk := false))
    ensures forall f :: f in Filtered(films, fl.(fourk := true)) ==> Has4K(f)
  {
  }

  // ---------- Genre menu ----------

  /** Every genre of every film. */
  function AllGenres(films: seq<Film>): set<string> {
    set i, j | 0 <= i < |films| && 0 <= j < |films[i].genre| :: films[i].genre[j]
  }

  /** `uniqueGenres`: `Tous`, then each genre of the films once, sorted with the
      collation `le`. */
  method UniqueGenres(films: seq<Film>, le: (string, string) -> bool) returns (r: seq<string>)
    requires TotalPreorder(le)
    ensures |r| == 1 + |AllGenres(films)| && r[0] == "Tous"
    ensures SortedBy(r[1..], le)
    ensures forall g :: g in r[1..] <==> g in AllGenres(films)
  {
    var genres: set<string> := {};
    for i := 0 to |films|
      invariant genres == AllGenres(films[..i])
    {
      assert films[..i + 1][..i] == films[..i];
      genres := genres + set j | 0 <= j < |films[i].genre| :: films[i].genre[j];
      assert genres == AllGenres(films[..i + 1]) by {
        var fs := films[..i + 1];
        forall g | g in AllGenres(fs) ensures g in genres {
          var a, b :| 0 <= a < |fs| && 0 <= b < |fs[a].genre| && fs[a].genre[b] == g;
          if a < i {
            assert g in AllGenres(films[..i]) by {
              assert films[..i][a] == fs[a];
            }
          }
        }
        forall g | g in genres ensures g in AllGenres(fs) {
          if g in AllGenres(films[..i]) {
            var a, b :| 0 <= a < i && 0 <= b < |films[..i][a].genre| && films[..i][a].genre[b] == g;
            assert fs[a] == films[..i][a];
          } else {
            var b :| 0 <= b < |films[i].genre| && films[i].genre[b] == g;
            assert fs[i] == films[i];
          }
        }
      }
    }
    assert films[..|films|] == films;
    var sorted := SortSet(genres, le);
    r := ["Tous"] + sorted;
    assert r[1..] == sorted;
  }

  // ---------- Title normalisation ----------

  /** The characters `/[^a-z0-9: ]/g` keeps. */
  predicate Allowed(c: char) {
    'a' <= c <= 'z' || IsDigit(c) || c == ':' || c == ' '
  }

  predicate AllAllowed(s: string) {
    forall i :: 0 <= i < |s| ==> Allowed(s[i])
  }

  /** No two spaces in a row. */
  predicate SingleSpaced(s: string) {
    forall i :: 0 <= i < |s| - 1 ==> !(s[i] == ' ' && s[i + 1] == ' ')
  }

  /** `replace(/[^a-z0-9: ]/g, '')`: keeps the allowed characters, in order. With
      `KeepAllowedAppend` the single-character cases determine it on every string. */
  function KeepAllowed(s: string): (r: string)
    ensures AllAllowed(r) && |r| <= |s|
    ensures AllAllowed(s) ==> r == s
    ensures |s| == 1 && !Allowed(s[0]) ==> r == []
  {
    if s == [] then []
    else if Allowed(s[0]) then [s[0]] + KeepAllowed(s[1..])
    else KeepAllowed(s[1..])
  }

  /** The filter works character by character, so the kept characters stay in order. */
  lemma {:induction false} KeepAllowedAppend(a: string, b: string)
    ensures KeepAllowed(a + b) == KeepAllowed(a) + KeepAllowed(b)
  {
    if a == [] {
      assert a + b == b;
    } else {
      assert (a + b)[0] == a[0] && (a + b)[1..] == a[1..] + b;
      KeepAllowedAppend(a[1..], b);
    }
  }

  /** `replace(/\s+/g, ' ')`: every run of whitespace becomes one space. */
  function CollapseSpaces(s: string): (r: string)
    ensures AllAllowed(s) ==> AllAllowed(r)
    ensures forall i :: 0 <= i < |r| && IsJsSpace(r[i]) ==> r[i] == ' '
    ensures forall i :: 0 <= i < |r| - 1 ==> !(IsJsSpace(r[i]) && IsJsSpace(r[i + 1]))
    ensures r == [] <==> s == []
    ensures r != [] ==> (IsJsSpace(r[0]) <==> IsJsSpace(s[0]))
    decreases |s|
  {
    if s == [] then []
    else if IsJsSpace(s[0]) then
      var rest := s[LeadingSpaces(s)..];
      assert rest == [] || !IsJsSpace(rest[0]);
      assert AllAllowed(s) ==> AllAllowed(rest) by {
        if AllAllowed(s) {
          forall i | 0 <= i < |rest| ensures Allowed(rest[i]) {
            assert rest[i] == s[LeadingSpaces(s) + i];
          }
        }
      }
      [' '] + CollapseSpaces(rest)
    else
      assert AllAllowed(s) ==> AllAllowed(s[1..]) by {
        if AllAllowed(s) {
          forall i | 0 <= i < |s| - 1 ensures Allowed(s[1..][i]) {
            assert s[1..][i] == s[i + 1];
          }
        }
      }
      [s[0]] + CollapseSpaces(s[1..])
  }

  /** `normalizeTitle`, `fold` standing for the NFD decomposition followed by the removal
      of the combining marks. */
  function NormalizeTitle(t: Option<string>, fold: string -> string): (r: string)
    ensures r == Trim(CollapseSpaces(KeepAllowed(fold(LowerAscii(Or(t, ""))))))
    ensures AllAllowed(r) && SingleSpaced(r)
    ensures r == [] || (r[0] != ' ' && r[|r| - 1] != ' ')
  {
    var k := KeepAllowed(fold(LowerAscii(Or(t, ""))));
    TrimmedCollapseShape(k);
    Trim(CollapseSpaces(k))
  }

  lemma TrimmedCollapseShape(k: string)
    requires AllAllowed(k)
    ensures var r := Trim(CollapseSpaces(k));
            AllAllowed(r) && SingleSpaced(r) && (r == [] || (r[0] != ' ' && r[|r| - 1] != ' '))
  {
    var c := CollapseSpaces(k);
    var r := Trim(c);
    TrimShape(c);
    SliceKeeps(c, LeadingSpaces(c), r);
  }

  /** A slice of single-spaced allowed text is single-spaced allowed text. */
  lemma SliceKeeps(c: string, k: nat, r: string)
    requires AllAllowed(c) && forall i :: 0 <= i < |c| - 1 ==> !(IsJsSpace(c[i]) && IsJsSpace(c[i + 1]))
    requires k + |r| <= |c| && r == c[k..k + |r|]
    ensures AllAllowed(r) && SingleSpaced(r)
  {
    forall i | 0 <= i < |r| ensures Allowed(r[i]) {
      assert r[i] == c[k + i];
    }
    forall i | 0 <= i < |r| - 1 ensures !(r[i] == ' ' && r[i + 1] == ' ') {
      assert r[i] == c[k + i] && r[i + 1] == c[k + i + 1];
    }
  }

  /** A normalised title normalises to itself when the folding leaves such text alone. */
  lemma NormalizeIdempotent(t: Option<string>, fold: string -> string)
    requires forall s :: AllAllowed(s) ==> fold(s) == s
    ensures NormalizeTitle(Some(NormalizeTitle(t, fold)), fold) == NormalizeTitle(t, fold)
  {
    var r := NormalizeTitle(t, fold);
    var lowered := LowerAscii(Or(Some(r), ""));
    assert lowered == r by {
      if r != "" {
        assert Or(Some(r), "") == r;
      }
    }
    assert KeepAllowed(fold(lowered)) == r;
    CollapseKeeps(r);
    TrimUnchanged(r);
  }

  /** Collapsing only rewrites whitespace: the other characters stay, in order. */
  lemma {:induction false} CollapseKeepsNonSpaces(s: string)
    ensures RemoveSpaces(CollapseSpaces(s)) == RemoveSpaces(s)
    decreases |s|
  {
    if s != [] {
      if IsJsSpace(s[0]) {
        var k := LeadingSpaces(s);
        var rest := s[k..];
        assert CollapseSpaces(s) == [' '] + CollapseSpaces(rest);
        calc {
          RemoveSpaces([' '] + CollapseSpaces(rest));
          { RemoveSpacesAppend([' '], CollapseSpaces(rest)); }
          RemoveSpaces(CollapseSpaces(rest));
          { CollapseKeepsNonSpaces(rest); }
          RemoveSpaces(rest);
          { SpacesRemoved(s[..k]); }
          RemoveSpaces(s[..k]) + RemoveSpaces(rest);
          { RemoveSpacesAppend(s[..k], rest); assert s[..k] + rest == s; }
          RemoveSpaces(s);
        }
      } else {
        assert CollapseSpaces(s) == [s[0]] + CollapseSpaces(s[1..]);
        calc {
          RemoveSpaces([s[0]] + CollapseSpaces(s[1..]));
          { RemoveSpacesAppend([s[0]], CollapseSpaces(s[1..])); }
          [s[0]] + RemoveSpaces(CollapseSpaces(s[1..]));
          { CollapseKeepsNonSpaces(s[1..]); }
          [s[0]] + RemoveSpaces(s[1..]);
        }
      }
    }
  }

  lemma {:induction false} CollapseKeeps(s: string)
    requires AllAllowed(s) && SingleSpaced(s)
    ensures CollapseSpaces(s) == s
    decreases |s|
  {
    if s != [] {
      assert AllAllowed(s[1..]) && SingleSpaced(s[1..]) by {
        forall i | 0 <= i < |s| - 1 ensures s[1..][i] == s[i + 1] {
        }
      }
      if IsJsSpace(s[0]) {
        assert s[0] == ' ';
        assert LeadingSpaces(s) == 1 by {
          if |s| > 1 {
            assert s[1] != ' ';
            assert !IsJsSpace(s[1]);
          }
        }
      }
      CollapseKeeps(s[1..]);
    }
  }

  /** No whitespace run crosses the seam between `a` and `b`. */
  predicate Joinable(a: string, b: string) {
    a == [] || b == [] || !IsJsSpace(a[|a| - 1]) || !IsJsSpace(b[0])
  }

  predicate AllSpaces(w: string) {
    forall i :: 0 <= i < |w| ==> IsJsSpace(w[i])
  }

  lemma LeadingSpacesIs(s: string, k: nat)
    requires k <= |s| && forall i :: 0 <= i < k ==> IsJsSpace(s[i])
    requires k == |s| || !IsJsSpace(s[k])
    ensures LeadingSpaces(s) == k
  {
  }

  /** The space branch of `CollapseSpaces`, unfolded once. */
  lemma CollapseAtSpace(s: string)
    requires s != [] && IsJsSpace(s[0])
    ensures CollapseSpaces(s) == [' '] + CollapseSpaces(s[LeadingSpaces(s)..])
  {
  }

  lemma CollapseAtWord(s: string)
    requires s != [] && !IsJsSpace(s[0])
    ensures CollapseSpaces(s) == [s[0]] + CollapseSpaces(s[1..])
  {
  }

  /** Collapsing works run by run: two texts whose seam does not split a whitespace
      run collapse separately. */
  lemma {:induction false} CollapseSpacesAppend(a: string, b: string)
    requires Joinable(a, b)
    ensures CollapseSpaces(a + b) == CollapseSpaces(a) + CollapseSpaces(b)
    decreases |a|, 2
  {
    if a == [] {
      assert a + b == b;
    } else if !IsJsSpace(a[0]) {
      CollapseAppendWord(a, b);
    } else {
      CollapseAppendRun(a, b);
    }
  }

  lemma {:induction false} CollapseAppendWord(a: string, b: string)
    requires Joinable(a, b) && a != [] && !IsJsSpace(a[0])
    ensures CollapseSpaces(a + b) == CollapseSpaces(a) + CollapseSpaces(b)
    decreases |a|, 1
  {
    var c, t := a[0], a[1..];
    assert a == [c] + t;
    assert a + b == [c] + (t + b);
    assert Joinable(t, b) by {
      if t != [] {
        assert t[|t| - 1] == a[|a| - 1];
      }
    }
    var x, y := CollapseSpaces(t), CollapseSpaces(b);
    assert [c] + (x + y) == ([c] + x) + y;
    CollapseSpacesAppend(t, b);
    CollapseWordThen(c, t + b);
    CollapseWordThen(c, t);
  }

  /** A character that is not whitespace is kept as it is before the rest. */
  lemma CollapseWordThen(c: char, u: string)
    requires !IsJsSpace(c)
    ensures CollapseSpaces([c] + u) == [c] + CollapseSpaces(u)
  {
    assert ([c] + u)[0] == c && ([c] + u)[1..] == u;
  }

  lemma {:induction false} CollapseAppendRun(a: string, b: string)
    requires Joinable(a, b) && a != [] && IsJsSpace(a[0])
    ensures CollapseSpaces(a + b) == CollapseSpaces(a) + CollapseSpaces(b)
    decreases |a|, 1
  {
    var k := LeadingSpaces(a);
    var w, t := a[..k], a[k..];
    assert k > 0;
    assert AllSpaces(w) by {
      forall i | 0 <= i < |w| ensures IsJsSpace(w[i]) {
        assert w[i] == a[i];
      }
    }
    assert a == w + t;
    if t == [] {
      assert b == [] || !IsJsSpace(b[0]) by {
        assert IsJsSpace(a[|a| - 1]);
      }
      assert a == w;
      CollapseAppendSpaces(w, b);
    } else {
      assert Joinable(t, b) by {
        assert t[|t| - 1] == a[|a| - 1];
      }
      CollapseAppendAfterRun(w, t, b);
    }
  }

  lemma CollapseAppendSpaces(w: string, b: string)
    requires w != [] && AllSpaces(w) && (b == [] || !IsJsSpace(b[0]))
    ensures CollapseSpaces(w + b) == CollapseSpaces(w) + CollapseSpaces(b)
  {
    CollapseRunThen(w, b);
    CollapseRun(w);
  }

  lemma {:induction false} CollapseAppendAfterRun(w: string, t: string, b: string)
    requires w != [] && AllSpaces(w) && t != [] && !IsJsSpace(t[0]) && Joinable(t, b)
    ensures CollapseSpaces(w + t + b) == CollapseSpaces(w + t) + CollapseSpaces(b)
    decreases |w| + |t|, 0
  {
    var u := t + b;
    assert w + t + b == w + u;
    assert u[0] == t[0];
    var x, y := CollapseSpaces(t), CollapseSpaces(b);
    assert [' '] + (x + y) == ([' '] + x) + y;
    CollapseSpacesAppend(t, b);
    CollapseRunThen(w, u);
    CollapseRunThen(w, t);
  }

  /** A leading run of whitespace becomes one space before the rest. */
  lemma CollapseRunThen(w: string, b: string)
    requires w != [] && AllSpaces(w) && (b == [] || !IsJsSpace(b[0]))
    ensures CollapseSpaces(w + b) == [' '] + CollapseSpaces(b)
  {
    LeadingSpacesIs(w + b, |w|);
    assert (w + b)[|w|..] == b;
    CollapseAtSpace(w + b);
  }

  /** A whole whitespace run becomes one space. */
  lemma CollapseRun(w: string)
    requires w != [] && AllSpaces(w)
    ensures CollapseSpaces(w) == " "
  {
    CollapseRunThen(w, []);
    assert w + [] == w;
  }

  /** A whitespace run between two words becomes one space in its place, and the
      text on either side collapses on its own. */
  lemma CollapseRunBetween(a: string, w: string, b: string)
    requires w != [] && AllSpaces(w)
    requires a == [] || !IsJsSpace(a[|a| - 1])
    requires b == [] || !IsJsSpace(b[0])
    ensures CollapseSpaces(a + (w + b)) == CollapseSpaces(a) + (" " + CollapseSpaces(b))
  {
    assert Joinable(a, w + b);
    CollapseRunThen(w, b);
    CollapseSpacesAppend(a, w + b);
  }

  /** The title key holds exactly the allowed, non-space characters of the folded,
      lower-cased title, in order: collapsing and trimming only touch whitespace. */
  lemma NormalizeKeepsCharacters(t: Option<string>, fold: string -> string)
    ensures RemoveSpaces(NormalizeTitle(t, fold)) == RemoveSpaces(KeepAllowed(fold(LowerAscii(Or(t, "")))))
  {
    var k := KeepAllowed(fold(LowerAscii(Or(t, ""))));
    TrimKeepsNonSpaces(CollapseSpaces(k));
    CollapseKeepsNonSpaces(k);
  }

  // ---------- Trailers ----------

  /** The `TRAILERS` map, keyed by normalised title. */
  const Trailers: seq<(string, string)> := [
    ("evanouis", "https://www.youtube.com/embed/eDBLToWrnBU"),
    ("le monde de wishy", "https://www.youtube.com/embed/wiWYHjlhTKc")
  ]

  /** The map has no entry, or an empty URL, under the exact key. */
  predicate NoExactTrailer(trailers: seq<(string, string)>, key: string) {
    Lookup(trailers, key).None? || Lookup(trailers, key).value == ""
  }

  /** The trailer URL for a normalised title, `""` when there is none: the entry for
      the exact key when it holds a non-empty URL, otherwise the first entry whose key
      occurs in the title. */
  function TrailerUrl(trailers: seq<(string, string)>, key: string): (r: string)
    ensures Lookup(trailers, key).Some? && Lookup(trailers, key).value != "" ==> r == Lookup(trailers, key).value
    ensures NoExactTrailer(trailers, key) && (exists i :: 0 <= i < |trailers| && Contains(key, trailers[i].0)) ==>
              exists i :: 0 <= i < |trailers| && r == trailers[i].1 && Contains(key, trailers[i].0)
                          && forall j :: 0 <= j < i ==> !Contains(key, trailers[j].0)
    ensures NoExactTrailer(trailers, key) && (forall i :: 0 <= i < |trailers| ==> !Contains(key, trailers[i].0)) ==>
              r == ""
  {
    var exact := match Lookup(trailers, key) case Some(u) => u case None => "";
    if exact != "" then exact
    else match FindIndex(trailers, (e: (string, string)) => Contains(key, e.0))
      case Some(i) => trailers[i].1
      case None => ""
  }

  /** The lookup of the poster click handler: `get`, then the `for … of` loop. */
  method FindTrailer(trailers: seq<(string, string)>, key: string) returns (url: string)
    ensures url == TrailerUrl(trailers, key)
  {
    url := match Lookup(trailers, key) case Some(u) => u case None => "";
    if url == "" {
      var i := 0;
      while i < |trailers|
        invariant 0 <= i <= |trailers|
        invariant forall j :: 0 <= j < i ==> !Contains(key, trailers[j].0)
      {
        if Contains(key, trailers[i].0) {
          url := trailers[i].1;
          return;
        }
        i := i + 1;
      }
    }
  }

  /** An exact key wins over any substring match. */
  lemma ExactTrailerWins(trailers: seq<(string, string)>, key: string, url: string)
    requires Lookup(trailers, key) == Some(url) && url != ""
    ensures TrailerUrl(trailers, key) == url
  {
  }

  /** Without an exact entry, a key found in the title gives its trailer when no earlier
      key is found there, and a title holding no key gets none. */
  lemma SubstringTrailer(trailers: seq<(string, string)>, key: string, i: nat)
    requires key !in Keys(trailers)
    requires i < |trailers| && Contains(key, trailers[i].0)
    requires forall j :: 0 <= j < i ==> !Contains(key, trailers[j].0)
    ensures TrailerUrl(trailers, key) == trailers[i].1
  {
  }

  lemma NoTrailer(trailers: seq<(string, string)>, key: string)
    requires key !in Keys(trailers)
    requires forall j :: 0 <= j < |trailers| ==> !Contains(key, trailers[j].0)
    ensures TrailerUrl(trailers, key) == ""
  {
  }

  /** Any title whose normalised form contains `evanouis` plays that trailer. */
  lemma EvanouisTrailer(key: string)
    requires Contains(key, "evanouis")
    ensures TrailerUrl(Trailers, key) == "https://www.youtube.com/embed/eDBLToWrnBU"
  {
    assert Keys(Trailers) == ["evanouis", "le monde de wishy"];
    if key != "evanouis" {
      assert key != "le monde de wishy" by {
        if key == "le monde de wishy" {
          NotContainsEvanouis();
        }
      }
      assert Lookup(Trailers, key) == None;
      SubstringTrailer(Trailers, key, 0);
    }
  }

  lemma NotContainsEvanouis()
    ensures !Contains("le monde de wishy", "evanouis")
  {
    var s := "le monde de wishy";
    var t := "evanouis";
    forall k | 0 <= k <= |s| ensures !(t <= s[k..]) {
      if k + |t| <= |s| {
        assert s[k..][0] == s[k];
        assert s[k..][1] == s[k + 1];
        assert s[k..][2] == s[k + 2];
      }
    }
    NoMatchAnywhere(s, t);
  }

  lemma {:induction false} NoMatchAnywhere(s: string, t: string)
    requires forall k :: 0 <= k <= |s| ==> !(t <= s[k..])
    ensures !Contains(s, t)
  {
    assert s[0..] == s;
    if s != [] {
      forall k | 0 <= k <= |s| - 1 ensures !(t <= s[1..][k..]) {
        assert s[1..][k..] == s[k + 1..];
      }
      NoMatchAnywhere(s[1..], t);
    }
  }

  /** `openVideoTrailer`: nothing for an empty URL; otherwise the URL with
      `autoplay=1&rel=0` appended after `&` when it already has a query string and
      after `?` when it has none. */
  function TrailerSrc(url: string): (src: Option<string>)
    ensures src.None? <==> url == ""
  {
    if url == "" then None
    else Some(url + (if '?' in url then "&" else "?") + "autoplay=1&rel=0")
  }

  /** The source keeps the URL, adds the two parameters at the end, and has a query
      string whose first `?` is the one of the URL when there is one. */
  lemma TrailerSrcQuery(url: string)
    requires url != ""
    ensures var src := TrailerSrc(url).value;
            src[..|url|] == url && src[|url| + 1..] == "autoplay=1&rel=0" && '?' in src
    ensures '?' !in url ==> TrailerSrc(url).value[|url|] == '?'
    ensures '?' in url ==> TrailerSrc(url).value[|url|] == '&'
  {
    var src := TrailerSrc(url).value;
    assert src[|url|] in src;
  }

  /** The poster click: the trailer source for the film's title, if any. */
  method PosterClick(title: string, fold: string -> string) returns (src: Option<string>)
    ensures src == TrailerSrc(TrailerUrl(Trailers, NormalizeTitle(Some(title), fold)))
  {
    var url := FindTrailer(Trailers, NormalizeTitle(Some(title), fold));
    src := TrailerSrc(url);
  }
}
