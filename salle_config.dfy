/** The fixed configuration of the seat map (salle.js): the debug ids passed in the URL,
    the hard holds, the gap cells with the two aisles, and the "desactive" custom icons. */
module SalleConfig {
  import opened Text
  import opened Decimal
  import opened SeatGrid

  /** `state.rows`, which never changes, and the initial `state.cols`. */
  const Rows: nat := 16
  const InitialCols: nat := 18

  const DesactiveIcon: string := "../images/PICTOS/desactive.png"

  /** `FIXED_OVERRIDES` once the URL ids are merged in and the aisles pushed. */
  datatype Overrides = Overrides(
    hardTaken: set<string>, gaps: seq<string>, customIcon: map<string, string>)

  /** Each piece trimmed and upper-cased (`.map(s => s.trim().toUpperCase())`). */
  function CleanPieces(parts: seq<string>): (r: seq<string>)
    ensures |r| == |parts| && forall i :: 0 <= i < |parts| ==> r[i] == UpperAscii(Trim(parts[i]))
  {
    seq(|parts|, i requires 0 <= i < |parts| => UpperAscii(Trim(parts[i])))
  }

  /** `URL_TAKEN`: the `taken` parameter split on ',', each piece trimmed and
      upper-cased, empty pieces dropped. */
  function UrlTaken(raw: string): (ids: seq<string>)
    ensures forall i :: 0 <= i < |ids| ==> ids[i] != ""
    ensures |ids| <= |Split(raw, ',')|
  {
    DropEmpty(CleanPieces(Split(raw, ',')))
  }

  /** The URL ids are exactly the cleaned non-empty pieces of the parameter. */
  lemma UrlTakenMembers(raw: string, id: string)
    ensures id in UrlTaken(raw) <==>
      exists p :: p in Split(raw, ',') && Trim(p) != "" && id == UpperAscii(Trim(p))
  {
    if id in UrlTaken(raw) {
      UrlTakenSound(raw, id);
    }
    if exists p :: p in Split(raw, ',') && Trim(p) != "" && id == UpperAscii(Trim(p)) {
      UrlTakenComplete(raw, id);
    }
  }

  lemma UrlTakenSound(raw: string, id: string)
    requires id in UrlTaken(raw)
    ensures exists p :: p in Split(raw, ',') && Trim(p) != "" && id == UpperAscii(Trim(p))
  {
    var parts := Split(raw, ',');
    var cleaned := CleanPieces(parts);
    assert id in cleaned && id != "";
    var i :| 0 <= i < |cleaned| && cleaned[i] == id;
    var p := parts[i];
    assert id == UpperAscii(Trim(p));
    assert Trim(p) != "";
    assert p in parts;
  }

  lemma UrlTakenComplete(raw: string, id: string)
    requires exists p :: p in Split(raw, ',') && Trim(p) != "" && id == UpperAscii(Trim(p))
    ensures id in UrlTaken(raw)
  {
    var parts := Split(raw, ',');
    var cleaned := CleanPieces(parts);
    var p :| p in parts && Trim(p) != "" && id == UpperAscii(Trim(p));
    var i :| 0 <= i < |parts| && parts[i] == p;
    assert cleaned[i] == id;
    assert id != "";
  }

  /** An id that `URL_TAKEN` keeps exactly as it is. */
  predicate CleanId(id: string) {
    && id != ""
    && ',' !in id
    && !IsJsSpace(id[0]) && !IsJsSpace(id[|id| - 1])
    && forall i :: 0 <= i < |id| ==> !('a' <= id[i] <= 'z')
  }

  /** Writing clean ids into the parameter joined by ',' reads them back unchanged. */
  lemma UrlTakenJoin(ids: seq<string>)
    requires forall i :: 0 <= i < |ids| ==> CleanId(ids[i])
    ensures UrlTaken(Join(ids, ",")) == ids
  {
    if ids == [] {
      assert Split("", ',') == [""];
      assert Trim("") == "" && UpperAscii("") == "";
      assert CleanPieces([""]) == [""];
    } else {
      SplitCleanIds(ids);
      CleanPiecesKeeps(ids);
      DropEmptyKeeps(ids);
    }
  }

  lemma SplitCleanIds(ids: seq<string>)
    requires ids != []
    requires forall i :: 0 <= i < |ids| ==> CleanId(ids[i])
    ensures Split(Join(ids, ","), ',') == ids
  {
    SplitJoin(ids, ',');
  }

  lemma CleanPiecesKeeps(ids: seq<string>)
    requires forall i :: 0 <= i < |ids| ==> CleanId(ids[i])
    ensures CleanPieces(ids) == ids
  {
    var cleaned := CleanPieces(ids);
    forall i | 0 <= i < |ids| ensures cleaned[i] == ids[i] {
      TrimUnchanged(ids[i]);
      UpperAsciiKeeps(ids[i]);
    }
  }

  const HardTaken: set<string> := {"G9", "G10", "A1"}

  const BaseGaps: seq<string> := ["A5", "A6", "A13", "A14", "P1", "P18", "E5"]

  /** The aisle cells `${letter}4` and `${letter}15` pushed for rows 0 .. n - 1. */
  function AisleGaps(n: nat): (g: seq<string>)
    requires n <= 26
    ensures |g| == 2 * n
    ensures forall k :: 0 <= k < |g| ==> g[k] == SeatId(k / 2, if k % 2 == 0 then 3 else 14)
  {
    if n == 0 then [] else AisleGaps(n - 1) + [SeatId(n - 1, 3), SeatId(n - 1, 14)]
  }

  /** `FIXED_OVERRIDES.gaps`: the seven listed cells followed by the aisles of every row. */
  const Gaps: seq<string> := BaseGaps + AisleGaps(Rows)

  /** `FIXED_OVERRIDES.customIcon`: seats A7 to A12 show the "desactive" icon. */
  const CustomIcons: map<string, string> := map[
    "A7" := DesactiveIcon, "A8" := DesactiveIcon, "A9" := DesactiveIcon,
    "A10" := DesactiveIcon, "A11" := DesactiveIcon, "A12" := DesactiveIcon]

  /** The configuration for a given value of the `taken` URL parameter. */
  function FixedOverrides(takenParam: string): (o: Overrides)
    ensures |o.gaps| == 39
  {
    Overrides(HardTaken + Elems(UrlTaken(takenParam)), Gaps, CustomIcons)
  }

  /** `/desactive/i.test(path)`; without the `u` flag the `i` flag only folds ASCII:
      some nine characters of the path read "desactive" once lower-cased. */
  function IsDesactive(path: string): (b: bool)
    ensures b <==> exists i: nat :: FoldedAt(path, i)
  {
    var l := LowerAscii(path);
    ContainsIff(l, "desactive");
    forall i: nat ensures OccursAt(l, "desactive", i) <==> FoldedAt(path, i) {
      if i + 9 <= |path| {
        assert l[i..i + 9] == LowerAscii(path[i..i + 9]);
      }
    }
    Contains(l, "desactive")
  }

  /** The nine characters of `path` from `i` read "desactive" once lower-cased. */
  predicate FoldedAt(path: string, i: nat) {
    i + 9 <= |path| && LowerAscii(path[i..i + 9]) == "desactive"
  }

  lemma DesactiveIconMatches()
    ensures IsDesactive(DesactiveIcon)
  {
    var l := LowerAscii(DesactiveIcon);
    assert l[17..26] == "desactive";
    ContainsAt(l, "desactive", 17);
  }

  /** The ids among `ids` whose custom icon is a "desactive" one. */
  function DesactiveAmong(icons: map<string, string>, ids: set<string>): set<string> {
    set id | id in ids && id in icons && IsDesactive(icons[id])
  }

  /** What `computeAvailability` starts from: hard holds and desactive seats. These are
      also the seats the reconciliation may never free. */
  function Structural(o: Overrides): (s: set<string>)
    ensures forall id :: id in s <==>
              id in o.hardTaken || (id in o.customIcon && IsDesactive(o.customIcon[id]))
  {
    o.hardTaken + DesactiveAmong(o.customIcon, o.customIcon.Keys)
  }

  /** Concretely: G9, G10, A1, the URL ids and the six seats A7 to A12. */
  lemma StructuralOfFixed(takenParam: string)
    ensures Structural(FixedOverrides(takenParam)) ==
      {"G9", "G10", "A1"} + Elems(UrlTaken(takenParam)) + {"A7", "A8", "A9", "A10", "A11", "A12"}
  {
    DesactiveIconMatches();
    var six := {"A7", "A8", "A9", "A10", "A11", "A12"};
    assert CustomIcons.Keys == six;
    assert forall id :: id in six ==> CustomIcons[id] == DesactiveIcon;
    assert DesactiveAmong(CustomIcons, six) == six;
  }

  /** The grid cell of the `k`-th gap. */
  function GapCell(k: nat): (nat, nat)
    requires k < 39
  {
    if k < 7 then [(0, 4), (0, 5), (0, 12), (0, 13), (15, 0), (15, 17), (4, 4)][k]
    else ((k - 7) / 2, if (k - 7) % 2 == 0 then 3 else 14)
  }

  lemma BaseGapsAreCells()
    ensures forall k :: 0 <= k < 7 ==> BaseGaps[k] == SeatId(GapCell(k).0, GapCell(k).1)
  {
    assert SeatId(0, 4) == "A5";
    assert SeatId(0, 5) == "A6";
    assert SeatId(0, 12) == "A13";
    assert SeatId(0, 13) == "A14";
    assert SeatId(15, 0) == "P1";
    assert SeatId(15, 17) == "P18";
    assert SeatId(4, 4) == "E5";
  }

  lemma AisleGapsAreCells()
    ensures forall k :: 7 <= k < 39 ==>
      GapCell(k).0 < Rows && AisleGaps(Rows)[k - 7] == SeatId(GapCell(k).0, GapCell(k).1)
  {
  }

  lemma GapsAreCells()
    ensures |Gaps| == 39
    ensures forall k :: 0 <= k < 39 ==>
      GapCell(k).0 < Rows && GapCell(k).1 < InitialCols && Gaps[k] == SeatId(GapCell(k).0, GapCell(k).1)
  {
    BaseGapsAreCells();
    AisleGapsAreCells();
    var g := Gaps;
    var aisles := AisleGaps(Rows);
    assert g == BaseGaps + aisles;
    forall k | 0 <= k < 39
      ensures GapCell(k).0 < Rows && GapCell(k).1 < InitialCols && g[k] == SeatId(GapCell(k).0, GapCell(k).1)
    {
      if k >= 7 {
        assert g[k] == aisles[k - 7];
      } else {
        assert g[k] == BaseGaps[k];
      }
    }
  }

  lemma GapCellInjective(i: nat, j: nat)
    requires i < j < 39
    ensures GapCell(i) != GapCell(j)
  {
    if j < 7 {
    } else if i < 7 {
      assert GapCell(i).1 in {4, 5, 12, 13, 0, 17};
    } else {
      assert GapCell(j).1 in {3, 14};
    }
  }

  /** The gaps are 39 distinct ids. */
  lemma GapsNoDup()
    ensures NoDup(Gaps) && |Elems(Gaps)| == 39
  {
    var g := Gaps;
    GapsAreCells();
    forall i, j | 0 <= i < j < |g| ensures g[i] != g[j] {
      GapCellInjective(i, j);
      if g[i] == g[j] {
        SeatIdInjective(GapCell(i).0, GapCell(i).1, GapCell(j).0, GapCell(j).1);
      }
    }
    NoDupCard(g);
  }

  /** Every gap lies inside any grid of at least 18 columns. */
  lemma GapsInGrid(cols: nat)
    requires cols >= InitialCols
    ensures Elems(Gaps) <= Elems(GridIds(Rows, cols))
  {
    var g := Gaps;
    GapsAreCells();
    forall x | x in Elems(g) ensures x in Elems(GridIds(Rows, cols)) {
      var k :| 0 <= k < |g| && g[k] == x;
      SeatIdInGrid(Rows, cols, GapCell(k).0, GapCell(k).1);
    }
  }
}
