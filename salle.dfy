/** The seat map of one showtime (salle.js): a grid of `Rows` rows and a column count
    that can only grow, the `taken` and `selected` seat sets, the persisted snapshot,
    and the reconciliation of the free-seat count with the one `films.json` declares. */
module Salle {
  import opened Text
  import opened Decimal
  import opened SeatGrid
  import opened Sorting
  import opened Feed
  import opened Store
  import opened SalleConfig

  function Min(a: int, b: int): int { if a <= b then a else b }
  function Max(a: int, b: int): int { if a >= b then a else b }

  // ---------- Cell classification (renderGrid) ----------

  datatype CellKind = Gap | Taken | Mine | Free

  /** The class a cell gets: gap first, then taken (held, or a "desactive" icon), then
      the user's own seat, then free. */
  function Classify(o: Overrides, taken: set<string>, selected: set<string>, id: string): (k: CellKind)
    ensures k == Gap <==> id in o.gaps
    ensures k == Taken <==>
              id !in o.gaps && (id in taken || id in DesactiveAmong(o.customIcon, o.customIcon.Keys))
    ensures k == Mine <==>
              id !in o.gaps && id !in taken && id !in DesactiveAmong(o.customIcon, o.customIcon.Keys)
              && id in selected
    ensures k == Free <==>
              id !in o.gaps && id !in taken && id !in DesactiveAmong(o.customIcon, o.customIcon.Keys)
              && id !in selected
  {
    if id in o.gaps then Gap
    else if id in taken || (id in o.customIcon && IsDesactive(o.customIcon[id])) then Taken
    else if id in selected then Mine
    else Free
  }

  /** Only cells that are neither gaps nor taken get the click handler. */
  predicate Clickable(k: CellKind) {
    k == Mine || k == Free
  }

  // ---------- Selection (toggleSeat) ----------

  /** The selection after clicking `id`: its membership flips, nothing else changes. */
  function Toggled(s: set<string>, id: string): (r: set<string>)
    ensures id in r <==> id !in s
    ensures r - {id} == s - {id}
  {
    if id in s then s - {id} else s + {id}
  }

  /** Clicking the same seat twice gives the selection back. */
  lemma ToggledTwice(s: set<string>, id: string)
    ensures Toggled(Toggled(s, id), id) == s
  {
  }

  /** A click on a clickable cell never selects a taken seat. */
  lemma ClickKeepsDisjoint(o: Overrides, taken: set<string>, selected: set<string>, id: string)
    requires taken * selected == {}
    requires Clickable(Classify(o, taken, selected, id))
    ensures taken * Toggled(selected, id) == {}
  {
  }

  // ---------- Summary (updateRecap) ----------

  /** `a.charCodeAt(0)`; an empty id has none and sorts first. */
  function RowCode(id: string): (r: int)
    ensures r < 0 <==> id == ""
    ensures id != "" ==> r == id[0] as int
  {
    if id == "" then -1 else id[0] as int
  }

  /** `parseInt(a.slice(1), 10)`; a missing number counts as 0. */
  function ColNumber(id: string): (c: int)
    ensures id != "" && ParseInt(id[1..]).Some? ==> c == ParseInt(id[1..]).value
    ensures id == "" || ParseInt(id[1..]).None? ==> c == 0
  {
    if id == "" then 0
    else match ParseInt(id[1..])
      case Some(n) => n
      case None => 0
  }

  /** The recap comparator: by row letter code, then by column number. */
  predicate SeatLe(a: string, b: string) {
    RowCode(a) < RowCode(b) || (RowCode(a) == RowCode(b) && ColNumber(a) <= ColNumber(b))
  }

  lemma SeatLeTotalPreorder()
    ensures TotalPreorder(SeatLe)
  {
    forall a, b, c | SeatLe(a, b) && SeatLe(b, c) ensures SeatLe(a, c) {
    }
  }

  /** On grid ids the comparator orders by row, then by column (so B2 before B10). */
  lemma SeatLeOnGrid(r1: nat, c1: nat, r2: nat, c2: nat)
    requires r1 < 26 && r2 < 26
    ensures SeatLe(SeatId(r1, c1), SeatId(r2, c2)) <==> r1 < r2 || (r1 == r2 && c1 <= c2)
  {
    ColNumberOfSeatId(r1, c1);
    ColNumberOfSeatId(r2, c2);
  }

  lemma ColNumberOfSeatId(r: nat, c: nat)
    requires r < 26
    ensures RowCode(SeatId(r, c)) == 65 + r && ColNumber(SeatId(r, c)) == c + 1
  {
    ParseIntNatToString(c + 1, "");
    assert NatToString(c + 1) + "" == SeatId(r, c)[1..];
  }

  // ---------- Capacity (ensureCapacityForLibres) ----------

  /** The column-adding loop: a new column adds `Rows` seats unless its 1-based number
      is 4 or 15. `cap` is the loop's running capacity. */
  function GrowLoop(c: nat, cap: int, t: int, gapCount: nat): (r: nat)
    requires cap <= Rows * c - gapCount
    ensures r >= c
    ensures cap >= t ==> r == c
    ensures Rows * r - gapCount >= t
    ensures cap == Rows * c - gapCount && c >= 15 && r > c ==> Rows * (r - 1) - gapCount < t
    decreases if cap < t then t - cap else 0, if c < 15 then 15 - c else 0
  {
    if cap >= t then c
    else
      var c2 := c + 1;
      GrowLoop(c2, if c2 == 4 || c2 == 15 then cap else cap + Rows, t, gapCount)
  }

  /** The column count after `ensureCapacityForLibres(target)`; `None` stands for a
      non-finite target. */
  function GrowCols(cols: nat, gapCount: nat, target: Option<int>): (r: nat)
    ensures r >= cols
    ensures target.None? || target.value <= 0 || Rows * cols - gapCount >= target.value ==> r == cols
    ensures target.Some? && target.value > 0 ==> Rows * r - gapCount >= target.value
    ensures target.Some? && cols >= 15 && r > cols ==> Rows * (r - 1) - gapCount < target.value
  {
    if target.None? || target.value <= 0 then cols
    else
      var cap := Rows * cols - gapCount;
      if cap >= target.value then cols else GrowLoop(cols, cap, target.value, gapCount)
  }

  /** Once grown for a target, the grid needs no growth for that target or a smaller one. */
  lemma GrowColsIdempotent(cols: nat, gapCount: nat, t: int, t2: int)
    requires t2 <= t
    ensures GrowCols(GrowCols(cols, gapCount, Some(t)), gapCount, Some(t2)) == GrowCols(cols, gapCount, Some(t))
  {
  }

  // ---------- Reconciliation (syncLibresWithJSON) ----------

  /** The declared free count clamped to `[0, total]`. */
  function Clamp(libres: int, total: int): (t: int)
    ensures t >= 0
    ensures total >= 0 ==> t <= total
    ensures 0 <= libres <= total ==> t == libres
    ensures libres <= 0 ==> t == 0
  {
    Max(0, Min(libres, total))
  }

  /** `allSeatIds`: the grid's ids in row-major order, gaps left out. */
  function NonGapIds(o: Overrides, cols: nat): seq<string> {
    Without(GridIds(Rows, cols), Elems(o.gaps))
  }

  /** Seats that are neither taken nor selected, in row-major order. */
  function Candidates(o: Overrides, cols: nat, taken: set<string>, selected: set<string>): (c: seq<string>)
    ensures forall id :: id in c <==> id in NonGapIds(o, cols) && id !in taken && id !in selected
  {
    Without(NonGapIds(o, cols), taken + selected)
  }

  /** The first `need` candidates, or all of them when there are fewer. */
  function TakeFirst(c: seq<string>, need: int): (r: set<string>)
    ensures forall i :: 0 <= i < |c| && i < need ==> c[i] in r
    ensures forall x :: x in r ==> exists i :: 0 <= i < |c| && i < need && c[i] == x
  {
    Elems(c[..Min(Max(need, 0), |c|)])
  }

  /** The under-free outcome: `taken1` is `taken0` with exactly `min(need, |removable|)`
      of its removable (non-fixed) seats freed. Which ones depends on set order. */
  ghost predicate Freed(taken0: set<string>, taken1: set<string>, fixed: set<string>, need: int) {
    && taken1 <= taken0
    && taken0 - taken1 <= taken0 - fixed
    && |taken0 - taken1| == Min(need, |taken0 - fixed|)
  }

  /** What `syncLibresWithJSON` does once a séance with a finite `libres` is known. */
  ghost predicate Reconciled(o: Overrides, libres: int, cols0: nat, taken0: set<string>,
                             selected: set<string>, cols1: nat, taken1: set<string>)
  {
    && cols1 == GrowCols(cols0, |o.gaps|, Some(libres))
    && var total := Rows * cols1 - |o.gaps|;
       var target := Clamp(libres, total);
       var current := total - |taken0| - |selected|;
       if current == target then taken1 == taken0
       else if current > target then
         taken1 == taken0 + TakeFirst(Candidates(o, cols1, taken0, selected), current - target)
       else Freed(taken0, taken1, Structural(o), target - current)
  }

  // One lemma per outcome, so that the method's proof stays out of the heap.

  lemma ReconciledNoChange(o: Overrides, libres: int, cols0: nat, taken0: set<string>,
                           selected: set<string>, cols1: nat)
    requires cols1 == GrowCols(cols0, |o.gaps|, Some(libres))
    requires Rows * cols1 - |o.gaps| - |taken0| - |selected| == Clamp(libres, Rows * cols1 - |o.gaps|)
    ensures Reconciled(o, libres, cols0, taken0, selected, cols1, taken0)
  {
  }

  lemma CandidatesOfAll(o: Overrides, cols: nat, taken: set<string>, selected: set<string>, all: seq<string>)
    requires all == Without(GridIds(Rows, cols), Elems(o.gaps))
    ensures Without(all, taken + selected) == Candidates(o, cols, taken, selected)
  {
  }

  lemma ReconciledOverFree(o: Overrides, libres: int, cols0: nat, taken0: set<string>,
                           selected: set<string>, cols1: nat, taken1: set<string>, need: int)
    requires cols1 == GrowCols(cols0, |o.gaps|, Some(libres))
    requires need == Rows * cols1 - |o.gaps| - |taken0| - |selected| - Clamp(libres, Rows * cols1 - |o.gaps|)
    requires need > 0
    requires taken1 == taken0 + TakeFirst(Candidates(o, cols1, taken0, selected), need)
    ensures Reconciled(o, libres, cols0, taken0, selected, cols1, taken1)
  {
  }

  lemma ReconciledUnderFree(o: Overrides, libres: int, cols0: nat, taken0: set<string>,
                            selected: set<string>, cols1: nat, taken1: set<string>, need: int)
    requires cols1 == GrowCols(cols0, |o.gaps|, Some(libres))
    requires need == Clamp(libres, Rows * cols1 - |o.gaps|) - (Rows * cols1 - |o.gaps| - |taken0| - |selected|)
    requires need > 0
    requires Freed(taken0, taken1, Structural(o), need)
    ensures Reconciled(o, libres, cols0, taken0, selected, cols1, taken1)
  {
  }

  /** Reconciliation never frees a hard hold or a desactive seat. */
  lemma ReconcileKeepsStructural(o: Overrides, libres: int, cols0: nat, taken0: set<string>,
                                 selected: set<string>, cols1: nat, taken1: set<string>)
    requires Reconciled(o, libres, cols0, taken0, selected, cols1, taken1)
    ensures Structural(o) * taken0 <= taken1
    ensures cols1 >= cols0
  {
  }

  /** Reconciliation never takes a seat the user selected. */
  lemma ReconcileKeepsDisjoint(o: Overrides, libres: int, cols0: nat, taken0: set<string>,
                               selected: set<string>, cols1: nat, taken1: set<string>)
    requires Reconciled(o, libres, cols0, taken0, selected, cols1, taken1)
    requires taken0 * selected == {}
    ensures taken1 * selected == {}
  {
    var total := Rows * cols1 - |o.gaps|;
    var target := Clamp(libres, total);
    var current := total - |taken0| - |selected|;
    if current > target {
      var c := Candidates(o, cols1, taken0, selected);
      var k := Min(Max(current - target, 0), |c|);
      forall id | id in Elems(c[..k]) ensures id !in selected {
        assert id in c;
      }
    }
  }

  /** The over-free branch: when `taken` and `selected` are disjoint sets of real
      seats of the grown grid and the gaps are distinct cells of it, the free count
      afterwards is the clamped target. The under-free branch reaches it as well
      whenever enough non-fixed seats are taken. */
  lemma ReconcileReachesTarget(o: Overrides, libres: int, cols0: nat,
      taken0: set<string>, selected: set<string>, cols1: nat, taken1: set<string>)
    requires Reconciled(o, libres, cols0, taken0, selected, cols1, taken1)
    requires NoDup(o.gaps) && Elems(o.gaps) <= Elems(GridIds(Rows, cols1))
    requires taken0 <= Elems(NonGapIds(o, cols1)) && selected <= Elems(NonGapIds(o, cols1))
    requires taken0 * selected == {}
    ensures var total := Rows * cols1 - |o.gaps|;
            var target := Clamp(libres, total);
            var current := total - |taken0| - |selected|;
            var free1 := total - |taken1| - |selected|;
            (current >= target ==> free1 == target) &&
            (current < target ==> free1 == current + Min(target - current, |taken0 - Structural(o)|))
  {
    var total := Rows * cols1 - |o.gaps|;
    var target := Clamp(libres, total);
    var current := total - |taken0| - |selected|;
    if current > target {
      OverFreeReaches(o, libres, cols0, taken0, selected, cols1, taken1);
    } else if current < target {
      UnderFreeReaches(o, libres, cols0, taken0, selected, cols1, taken1);
    }
  }

  lemma OverFreeReaches(o: Overrides, libres: int, cols0: nat,
      taken0: set<string>, selected: set<string>, cols1: nat, taken1: set<string>)
    requires Reconciled(o, libres, cols0, taken0, selected, cols1, taken1)
    requires NoDup(o.gaps) && Elems(o.gaps) <= Elems(GridIds(Rows, cols1))
    requires taken0 <= Elems(NonGapIds(o, cols1)) && selected <= Elems(NonGapIds(o, cols1))
    requires taken0 * selected == {}
    requires Rows * cols1 - |o.gaps| - |taken0| - |selected| > Clamp(libres, Rows * cols1 - |o.gaps|)
    ensures Rows * cols1 - |o.gaps| - |taken1| - |selected| == Clamp(libres, Rows * cols1 - |o.gaps|)
  {
    var need := Rows * cols1 - |o.gaps| - |taken0| - |selected| - Clamp(libres, Rows * cols1 - |o.gaps|);
    assert taken1 == taken0 + TakeFirst(Candidates(o, cols1, taken0, selected), need);
    OverFreeCount(o, cols1, taken0, selected, taken1, need);
  }

  lemma UnderFreeReaches(o: Overrides, libres: int, cols0: nat,
      taken0: set<string>, selected: set<string>, cols1: nat, taken1: set<string>)
    requires Reconciled(o, libres, cols0, taken0, selected, cols1, taken1)
    requires Rows * cols1 - |o.gaps| - |taken0| - |selected| < Clamp(libres, Rows * cols1 - |o.gaps|)
    ensures var need := Clamp(libres, Rows * cols1 - |o.gaps|) - (Rows * cols1 - |o.gaps| - |taken0| - |selected|);
            |taken1| == |taken0| - Min(need, |taken0 - Structural(o)|)
  {
    var need := Clamp(libres, Rows * cols1 - |o.gaps|) - (Rows * cols1 - |o.gaps| - |taken0| - |selected|);
    assert Freed(taken0, taken1, Structural(o), need);
    FreedCount(taken0, taken1, Structural(o), need);
  }

  /** Taking `need` candidates, when there are at least that many, takes `need` new seats. */
  lemma OverFreeCount(o: Overrides, cols: nat, taken0: set<string>, selected: set<string>,
                      taken1: set<string>, need: int)
    requires NoDup(o.gaps) && Elems(o.gaps) <= Elems(GridIds(Rows, cols))
    requires taken0 <= Elems(NonGapIds(o, cols)) && selected <= Elems(NonGapIds(o, cols))
    requires taken0 * selected == {}
    requires 0 < need <= Rows * cols - |o.gaps| - |taken0| - |selected|
    requires taken1 == taken0 + TakeFirst(Candidates(o, cols, taken0, selected), need)
    ensures |taken1| == |taken0| + need
  {
    NonGapCount(o, cols);
    CandidatesCount(o, cols, taken0, selected);
    TakeFirstCount(Candidates(o, cols, taken0, selected), taken0, taken1, need);
  }

  lemma FreedCount(taken0: set<string>, taken1: set<string>, fixed: set<string>, need: int)
    requires Freed(taken0, taken1, fixed, need)
    ensures |taken1| == |taken0| - Min(need, |taken0 - fixed|)
  {
    assert taken0 == taken1 + (taken0 - taken1);
    assert taken1 * (taken0 - taken1) == {};
  }

  /** The non-gap ids are distinct and number the grid size minus the gaps. */
  lemma NonGapCount(o: Overrides, cols: nat)
    requires NoDup(o.gaps) && Elems(o.gaps) <= Elems(GridIds(Rows, cols))
    ensures NoDup(NonGapIds(o, cols)) && |NonGapIds(o, cols)| == Rows * cols - |o.gaps|
  {
    GridIdsNoDup(Rows, cols);
    WithoutCount(GridIds(Rows, cols), Elems(o.gaps));
    NoDupCard(o.gaps);
    assert Elems(o.gaps) * Elems(GridIds(Rows, cols)) == Elems(o.gaps);
  }

  lemma CandidatesCount(o: Overrides, cols: nat, taken: set<string>, selected: set<string>)
    requires NoDup(NonGapIds(o, cols))
    requires taken <= Elems(NonGapIds(o, cols)) && selected <= Elems(NonGapIds(o, cols))
    requires taken * selected == {}
    ensures var c := Candidates(o, cols, taken, selected);
            NoDup(c) && |c| == |NonGapIds(o, cols)| - |taken| - |selected| && Elems(c) * taken == {}
  {
    var all := NonGapIds(o, cols);
    WithoutCount(all, taken + selected);
    assert (taken + selected) * Elems(all) == taken + selected;
    assert |taken + selected| == |taken| + |selected|;
  }

  lemma TakeFirstCount(c: seq<string>, taken: set<string>, taken1: set<string>, need: int)
    requires NoDup(c) && Elems(c) * taken == {} && 0 < need <= |c|
    requires taken1 == taken + TakeFirst(c, need)
    ensures |taken1| == |taken| + need
  {
    var firsts := c[..need];
    assert TakeFirst(c, need) == Elems(firsts);
    assert NoDup(firsts);
    NoDupCard(firsts);
    assert Elems(firsts) * taken == {} by {
      forall id | id in Elems(firsts) ensures id !in taken {
        var i :| 0 <= i < need && firsts[i] == id;
        assert c[i] == id;
        assert id in Elems(c);
        assert id !in Elems(c) * taken;
      }
    }
    DisjointUnionCard(taken, Elems(firsts));
  }

  lemma DisjointUnionCard(a: set<string>, b: set<string>)
    requires a * b == {}
    ensures |a + b| == |a| + |b|
  {
  }

  /** For the page's own configuration the hypotheses on the gaps always hold, so when
      the sets are disjoint seats of the grid and the free count starts at or above the
      target, it ends exactly at the target. */
  lemma ReconcileReachesTargetFixed(takenParam: string, libres: int, cols0: nat,
      taken0: set<string>, selected: set<string>, cols1: nat, taken1: set<string>)
    requires cols0 >= InitialCols
    requires Reconciled(FixedOverrides(takenParam), libres, cols0, taken0, selected, cols1, taken1)
    requires taken0 <= Elems(NonGapIds(FixedOverrides(takenParam), cols1))
    requires selected <= Elems(NonGapIds(FixedOverrides(takenParam), cols1))
    requires taken0 * selected == {}
    requires Rows * cols1 - 39 - |taken0| - |selected| >= Clamp(libres, Rows * cols1 - 39)
    ensures Rows * cols1 - 39 - |taken1| - |selected| == Clamp(libres, Rows * cols1 - 39)
  {
    GapsNoDup();
    GapsInGrid(cols1);
    ReconcileReachesTarget(FixedOverrides(takenParam), libres, cols0, taken0, selected, cols1, taken1);
  }

  /** The nested loops building `allSeatIds`: every grid id, row by row, gaps left out. */
  method AllSeatIds(cols: nat, gaps: seq<string>) returns (ids: seq<string>)
    ensures ids == Without(GridIds(Rows, cols), Elems(gaps))
  {
    ids := [];
    for r := 0 to Rows
      invariant ids == Without(GridIds(r, cols), Elems(gaps))
    {
      var row := RowSeatIds(r, cols, gaps);
      WithoutAppend(GridIds(r, cols), RowIds(r, cols), Elems(gaps));
      ids := ids + row;
    }
  }

  /** The inner loop over the columns of row `r`. */
  method RowSeatIds(r: nat, cols: nat, gaps: seq<string>) returns (row: seq<string>)
    requires r < Rows
    ensures row == Without(RowIds(r, cols), Elems(gaps))
  {
    row := [];
    for c := 0 to cols
      invariant row == Without(RowIds(r, c), Elems(gaps))
    {
      var id := SeatId(r, c);
      assert RowIds(r, c + 1) == RowIds(r, c) + [id];
      WithoutAppend(RowIds(r, c), [id], Elems(gaps));
      assert Without([id], Elems(gaps)) == if id in gaps then [] else [id];
      if id !in gaps {
        row := row + [id];
      }
    }
  }

  /** The over-free loop: takes candidates in order until `need` more are taken or the
      candidates run out. */
  method TakeCandidates(taken0: set<string>, candidates: seq<string>, need0: int) returns (taken: set<string>)
    requires need0 > 0
    ensures taken == taken0 + TakeFirst(candidates, need0)
  {
    taken := taken0;
    var need := need0;
    var i := 0;
    while i < |candidates|
      invariant 0 <= i <= |candidates|
      invariant need == need0 - i && need > 0
      invariant taken == taken0 + Elems(candidates[..i])
    {
      assert candidates[..i + 1] == candidates[..i] + [candidates[i]];
      taken := taken + {candidates[i]};
      need := need - 1;
      i := i + 1;
      if need <= 0 {
        break;
      }
    }
    assert i == Min(Max(need0, 0), |candidates|);
  }

  /** The under-free loop: frees taken seats outside `fixed` until `need` are freed or
      none is left. */
  method FreeRemovable(taken0: set<string>, fixed: set<string>, need0: int) returns (taken: set<string>)
    requires need0 > 0
    ensures Freed(taken0, taken, fixed, need0)
  {
    taken := taken0;
    var need := need0;
    var removable := taken - fixed;
    ghost var removed: set<string> := {};
    while removable != {}
      invariant removed !! removable && removed + removable == taken0 - fixed
      invariant |removed| + |removable| == |taken0 - fixed|
      invariant taken == taken0 - removed
      invariant need == need0 - |removed| && need > 0
      decreases |removable|
    {
      var id :| id in removable;
      assert id !in removed && |removed + {id}| == |removed| + 1;
      taken := taken - {id};
      removable := removable - {id};
      removed := removed + {id};
      need := need - 1;
      if need <= 0 {
        break;
      }
    }
    assert removable != {} ==> |removed| == need0;
    FreedAtEnd(taken0, fixed, removed, removable, need0);
  }

  /** The state `FreeRemovable`'s loop leaves behind is a `Freed` outcome. */
  lemma FreedAtEnd(taken0: set<string>, fixed: set<string>, removed: set<string>,
                   removable: set<string>, need0: int)
    requires removed !! removable && removed + removable == taken0 - fixed
    requires |removed| + |removable| == |taken0 - fixed|
    requires |removed| <= need0
    requires removable != {} ==> |removed| == need0
    ensures Freed(taken0, taken0 - removed, fixed, need0)
  {
    assert taken0 - (taken0 - removed) == removed;
  }

  /** The body of `syncLibresWithJSON` once the columns are grown: takes or frees seats
      until the free count matches `libres` clamped to the capacity. */
  method Reconcile(o: Overrides, libres: int, ghost cols0: nat, taken0: set<string>,
                   selected: set<string>, cols1: nat) returns (taken1: set<string>)
    requires cols1 == GrowCols(cols0, |o.gaps|, Some(libres))
    ensures Reconciled(o, libres, cols0, taken0, selected, cols1, taken1)
  {
    var totalSeats := Rows * cols1 - |o.gaps|;
    var target := Clamp(libres, totalSeats);
    var current := totalSeats - |taken0| - |selected|;
    if current == target {
      ReconciledNoChange(o, libres, cols0, taken0, selected, cols1);
      return taken0;
    }
    var all := AllSeatIds(cols1, o.gaps);
    if current > target {
      var candidates := Without(all, taken0 + selected);
      CandidatesOfAll(o, cols1, taken0, selected, all);
      taken1 := TakeCandidates(taken0, candidates, current - target);
      ReconciledOverFree(o, libres, cols0, taken0, selected, cols1, taken1, current - target);
    } else {
      taken1 := FreeRemovable(taken0, Structural(o), target - current);
      ReconciledUnderFree(o, libres, cols0, taken0, selected, cols1, taken1, target - current);
    }
  }

  // ---------- Persistence (persist / restore) ----------

  /** The entry `persist` writes: only the seat part, which replaces the whole entry. */
  function PersistedEntry(filmTitre: string, room: string, lang: string, timeStr: string,
                          selected: set<string>, taken: set<string>, custom: map<string, string>): (e: Entry)
    ensures e.fare.None? && e.promo == ""
    ensures e.seat == Some(SeatSnapshot(filmTitre, room, lang, timeStr, selected, taken, custom))
  {
    Entry(Some(SeatSnapshot(filmTitre, room, lang, timeStr, selected, taken, custom)), None, "")
  }

  /** The state `restore` leaves, as (taken, selected, custom). A missing entry changes
      nothing; an entry without a seat part resets the selection and the custom map. */
  function Restored(data: Option<Entry>, taken: set<string>, selected: set<string>,
                    custom: map<string, string>): (r: (set<string>, set<string>, map<string, string>))
    ensures data.None? ==> r == (taken, selected, custom)
    ensures taken <= r.0
    ensures data.Some? && data.value.seat.Some? ==>
      r.0 == taken + data.value.seat.value.taken && r.1 == data.value.seat.value.selected
    ensures data.Some? && data.value.seat.None? ==> r == (taken, {}, map[])
  {
    match data
    case None => (taken, selected, custom)
    case Some(e) =>
      match e.seat
      case None => (taken, {}, map[])
      case Some(s) => (taken + s.taken, s.selected, s.custom)
  }

  /** On a reload, the availability step and then `restore` give back the persisted
      selection exactly, and the persisted holds on top of the structural ones. */
  lemma RestoreAfterPersist(o: Overrides, filmTitre: string, room: string, lang: string, timeStr: string,
                            selected: set<string>, taken: set<string>, custom: map<string, string>)
    ensures Restored(Some(PersistedEntry(filmTitre, room, lang, timeStr, selected, taken, custom)),
                     Structural(o), {}, map[]) == (Structural(o) + taken, selected, custom)
  {
  }

  // ---------- Séance lookup (hydrateLeftColumn) ----------

  /** The film whose normalised title equals the normalised parameter, else the first
      whose normalised title contains it. `norm` stands for `normalize`. */
  function LookupFilm(list: seq<Film>, film: string, norm: string -> string): (f: Option<Film>)
    ensures f.Some? ==> f.value in list && Contains(norm(f.value.titre), norm(film))
    ensures f.None? <==> forall i :: 0 <= i < |list| ==> !Contains(norm(list[i].titre), norm(film))
    ensures (exists i :: 0 <= i < |list| && norm(list[i].titre) == norm(film)) ==>
              exists i :: 0 <= i < |list| && f == Some(list[i]) && norm(list[i].titre) == norm(film)
                          && forall j :: 0 <= j < i ==> norm(list[j].titre) != norm(film)
    ensures (forall i :: 0 <= i < |list| ==> norm(list[i].titre) != norm(film)) && f.Some? ==>
              exists i :: 0 <= i < |list| && f == Some(list[i])
                          && forall j :: 0 <= j < i ==> !Contains(norm(list[j].titre), norm(film))
  {
    var exact := FindIndex(list, (x: Film) => norm(x.titre) == norm(film));
    if exact.Some? then
      ContainsSelf(norm(film));
      Some(list[exact.value])
    else
      var near := FindIndex(list, (x: Film) => Contains(norm(x.titre), norm(film)));
      if near.Some? then Some(list[near.value]) else None
  }

  lemma ContainsSelf(s: string)
    ensures Contains(s, s)
  {
  }

  /** The séance whose trimmed time and room both match the request. */
  predicate AtTimeIn(x: Seance, seance: string, salle: string) {
    Trim(x.horaire) == Trim(seance) && x.salle == salle
  }

  /** The first séance at the requested time in the requested room; else the first in
      that room; else the film's first séance; none when the film or its séances are
      missing. */
  function LookupSeance(f: Option<Film>, seance: string, salle: string): (s: Option<Seance>)
    ensures s.None? <==> f.None? || f.value.seances == []
    ensures s.Some? ==> s.value in f.value.seances
    ensures f.Some? && (exists i :: 0 <= i < |f.value.seances| && AtTimeIn(f.value.seances[i], seance, salle)) ==>
              exists i :: 0 <= i < |f.value.seances| && s == Some(f.value.seances[i])
                          && AtTimeIn(f.value.seances[i], seance, salle)
                          && forall j :: 0 <= j < i ==> !AtTimeIn(f.value.seances[j], seance, salle)
    ensures f.Some? && (forall i :: 0 <= i < |f.value.seances| ==> !AtTimeIn(f.value.seances[i], seance, salle))
            && (exists i :: 0 <= i < |f.value.seances| && f.value.seances[i].salle == salle) ==>
              exists i :: 0 <= i < |f.value.seances| && s == Some(f.value.seances[i])
                          && f.value.seances[i].salle == salle
                          && forall j :: 0 <= j < i ==> f.value.seances[j].salle != salle
    ensures f.Some? && f.value.seances != []
            && (forall i :: 0 <= i < |f.value.seances| ==> f.value.seances[i].salle != salle) ==>
              s == Some(f.value.seances[0])
  {
    if f.None? then None
    else
      var ss := f.value.seances;
      var exact := FindIndex(ss, (x: Seance) => AtTimeIn(x, seance, salle));
      if exact.Some? then Some(ss[exact.value])
      else if |ss| == 0 then None
      else
        var room := FindIndex(ss, (x: Seance) => x.salle == salle);
        if room.Some? then Some(ss[room.value]) else Some(ss[0])
  }

  /** The catalogue's showtime link carries a film's own title and one of its séances'
      time and room. When no other film has the same normalised title, the lookup
      finds that film and a séance at that time in that room. */
  lemma LookupFindsLinkedSeance(list: seq<Film>, norm: string -> string, i: nat, k: nat)
    requires i < |list| && k < |list[i].seances|
    requires forall j :: 0 <= j < |list| && j != i ==> norm(list[j].titre) != norm(list[i].titre)
    ensures LookupFilm(list, list[i].titre, norm) == Some(list[i])
    ensures var x := list[i].seances[k];
            var s := LookupSeance(Some(list[i]), x.horaire, x.salle);
            s.Some? && AtTimeIn(s.value, x.horaire, x.salle)
  {
    var x := list[i].seances[k];
    assert AtTimeIn(x, x.horaire, x.salle);
  }

  // ---------- The page state ----------

  class SeatMap {
    const overrides: Overrides
    const filmTitre: string
    const room: string
    const lang: string
    const timeStr: string
    /** The `end` parameter, or "" */
    const endQP: string
    const key: string
    const store: LocalStore
    var cols: nat
    var taken: set<string>
    var selected: set<string>
    var custom: map<string, string>
    /** `state.selectedSeance` */
    var seance: Option<Seance>
    /** `state.end` */
    var end: string

    /** The page's URL parameters (`None` when absent) and the shared store. */
    constructor (film: Option<string>, salle: Option<string>, langue: Option<string>,
                 seanceParam: Option<string>, endParam: Option<string>, takenParam: Option<string>,
                 store: LocalStore)
      ensures filmTitre == Or(film, "Film") && room == Or(salle, "—")
      ensures lang == Or(langue, "—") && timeStr == Or(seanceParam, "") && endQP == Or(endParam, "")
      ensures key == SessionKey(filmTitre, room, timeStr)
      ensures overrides == FixedOverrides(Or(takenParam, ""))
      ensures cols == InitialCols && taken == {} && selected == {} && custom == map[]
      ensures seance == None && end == ""
      ensures this.store == store
    {
      filmTitre := Or(film, "Film");
      room := Or(salle, "—");
      lang := Or(langue, "—");
      timeStr := Or(seanceParam, "");
      endQP := Or(endParam, "");
      key := SessionKey(Or(film, "Film"), Or(salle, "—"), Or(seanceParam, ""));
      overrides := FixedOverrides(Or(takenParam, ""));
      this.store := store;
      cols := InitialCols;
      taken := {};
      selected := {};
      custom := map[];
      seance := None;
      end := "";
    }

    /** `hydrateLeftColumn`'s end time and séance. An `end` parameter is taken as it is
        and no lookup is made; otherwise the séance is looked up in the fetched film
        list (`None` when the fetch fails) by this page's title, time and room. */
    method Hydrate(fetched: Option<seq<Film>>, norm: string -> string)
      modifies this`seance, this`end
      ensures endQP != "" ==> seance == old(seance) && end == endQP
      ensures endQP == "" && fetched.None? ==> seance == old(seance) && end == old(end)
      ensures endQP == "" && fetched.Some? ==>
                && seance == LookupSeance(LookupFilm(fetched.value, filmTitre, norm), timeStr, room)
                && end == (if seance.Some? then seance.value.fin else "")
    {
      if endQP != "" {
        end := endQP;
      } else if fetched.Some? {
        var f := LookupFilm(fetched.value, filmTitre, norm);
        seance := LookupSeance(f, timeStr, room);
        end := if seance.Some? then seance.value.fin else "";
      }
    }

    /** `computeAvailability`: the hard holds, then every custom-icon seat whose icon
        is a "desactive" one. */
    method ComputeAvailability()
      modifies this`taken
      ensures taken == Structural(overrides)
    {
      taken := overrides.hardTaken;
      var pending := overrides.customIcon.Keys;
      while pending != {}
        invariant pending <= overrides.customIcon.Keys
        invariant taken == overrides.hardTaken +
                           DesactiveAmong(overrides.customIcon, overrides.customIcon.Keys - pending)
        decreases |pending|
      {
        var id :| id in pending;
        if IsDesactive(overrides.customIcon[id]) {
          taken := taken + {id};
        }
        pending := pending - {id};
      }
    }

    function Snapshot(): Entry
      reads this
    {
      PersistedEntry(filmTitre, room, lang, timeStr, selected, taken, custom)
    }

    /** `persist`: replaces this séance's entry and leaves every other one alone. */
    method Persist()
      modifies store`reservations
      ensures store.reservations == old(store.reservations)[key := Snapshot()]
    {
      store.reservations := store.reservations[key := Snapshot()];
    }

    /** `restore` */
    method Restore()
      modifies this`taken, this`selected, this`custom
      ensures (taken, selected, custom) ==
              Restored(if key in store.reservations then Some(store.reservations[key]) else None,
                       old(taken), old(selected), old(custom))
    {
      if key !in store.reservations {
        return;
      }
      var data := store.reservations[key];
      match data.seat {
        case None =>
          selected := {};
          custom := map[];
        case Some(s) =>
          selected := s.selected;
          taken := taken + s.taken;
          custom := s.custom;
      }
    }

    /** `toggleSeat`: flips one seat and persists. */
    method Toggle(id: string)
      modifies this`selected, store`reservations
      ensures selected == Toggled(old(selected), id)
      ensures store.reservations == old(store.reservations)[key := Snapshot()]
    {
      if id in selected {
        selected := selected - {id};
      } else {
        selected := selected + {id};
      }
      Persist();
    }

    /** A click on the cell at row `r`, column `c`: only non-gap, non-taken cells carry
        the handler. */
    method Click(r: nat, c: nat)
      requires r < Rows && c < cols
      modifies this`selected, store`reservations
      ensures var k := Classify(overrides, taken, old(selected), SeatId(r, c));
              if Clickable(k) then selected == Toggled(old(selected), SeatId(r, c)) &&
                                   store.reservations == old(store.reservations)[key := Snapshot()]
              else selected == old(selected) && store.reservations == old(store.reservations)
    {
      var id := SeatId(r, c);
      if Clickable(Classify(overrides, taken, selected, id)) {
        Toggle(id);
      }
    }

    /** `setTaken(...ids)`: marks each id, upper-cased, as taken, then persists. */
    method SetTaken(ids: seq<string>)
      modifies this`taken, store`reservations
      ensures taken == old(taken) + set i | 0 <= i < |ids| :: UpperAscii(ids[i])
      ensures store.reservations == old(store.reservations)[key := Snapshot()]
    {
      var i := 0;
      while i < |ids|
        invariant 0 <= i <= |ids|
        invariant taken == old(taken) + set j | 0 <= j < i :: UpperAscii(ids[j])
        invariant store.reservations == old(store.reservations)
      {
        taken := taken + {UpperAscii(ids[i])};
        i := i + 1;
      }
      Persist();
    }

    /** `renderGrid`'s decisions: the class of every cell, row by row. */
    method RenderGrid() returns (grid: seq<seq<CellKind>>)
      ensures |grid| == Rows
      ensures forall r :: 0 <= r < Rows ==> |grid[r]| == cols
      ensures forall r, c :: 0 <= r < Rows && 0 <= c < cols ==>
                grid[r][c] == Classify(overrides, taken, selected, SeatId(r, c))
    {
      grid := [];
      for r := 0 to Rows
        invariant |grid| == r
        invariant forall i :: 0 <= i < r ==> |grid[i]| == cols
        invariant forall i, c :: 0 <= i < r && 0 <= c < cols ==>
                    grid[i][c] == Classify(overrides, taken, selected, SeatId(i, c))
      {
        var row := [];
        for c := 0 to cols
          invariant |row| == c
          invariant forall j :: 0 <= j < c ==> row[j] == Classify(overrides, taken, selected, SeatId(r, j))
        {
          row := row + [Classify(overrides, taken, selected, SeatId(r, c))];
        }
        grid := grid + [row];
      }
    }

    /** `updateRecap`: the free count, the selected seats in row then column order,
        their text, and whether the reserve button is disabled. */
    method UpdateRecap() returns (free: int, seats: seq<string>, seatsText: string, disabled: bool)
      ensures free == Rows * cols - |taken| - |selected| - |overrides.gaps|
      ensures SortedBy(seats, SeatLe) && |seats| == |selected|
      ensures forall id :: id in seats <==> id in selected
      ensures seatsText == if selected == {} then "—" else Join(seats, ", ")
      ensures disabled <==> selected == {}
    {
      free := Rows * cols - |taken| - |selected| - |overrides.gaps|;
      SeatLeTotalPreorder();
      seats := SortSet(selected, SeatLe);
      seatsText := if |seats| > 0 then Join(seats, ", ") else "—";
      disabled := |seats| == 0;
    }

    /** `ensureCapacityForLibres` */
    method EnsureCapacityForLibres(target: Option<int>)
      modifies this`cols
      ensures cols == GrowCols(old(cols), |overrides.gaps|, target)
    {
      if target.None? || target.value <= 0 {
        return;
      }
      var t := target.value;
      var g := |overrides.gaps|;
      var currentCapacity := Rows * cols - g;
      if currentCapacity >= t {
        return;
      }
      var c := cols;
      var capacity := currentCapacity;
      while capacity < t
        invariant capacity <= Rows * c - g
        invariant GrowLoop(c, capacity, t, g) == GrowLoop(cols, currentCapacity, t, g)
        decreases if capacity < t then t - capacity else 0, if c < 15 then 15 - c else 0
      {
        c := c + 1;
        if !(c == 4 || c == 15) {
          capacity := capacity + Rows;
        }
      }
      cols := c;
    }

    /** `syncLibresWithJSON` */
    method SyncLibresWithJSON()
      modifies this`cols, this`taken
      ensures seance.None? || seance.value.libres.None? ==> cols == old(cols) && taken == old(taken)
      ensures seance.Some? && seance.value.libres.Some? ==>
                Reconciled(overrides, seance.value.libres.value, old(cols), old(taken), selected, cols, taken)
    {
      if seance.None? || seance.value.libres.None? {
        return;
      }
      var libres := seance.value.libres.value;
      ghost var cols0 := cols;
      var taken0 := taken;
      EnsureCapacityForLibres(Some(libres));
      var taken1 := Reconcile(overrides, libres, cols0, taken0, selected, cols);
      taken := taken1;
    }
  }
}
