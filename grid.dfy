/** Seat identifiers of the room grid and its row-major enumeration (salle.js `seatId`
    and the nested loops over rows and columns), with the counting facts the
    reconciliation relies on. */
module SeatGrid {
  import opened Text
  import opened Decimal

  /** No element occurs twice. */
  predicate NoDup<T(==)>(s: seq<T>) {
    forall i, j :: 0 <= i < j < |s| ==> s[i] != s[j]
  }

  function Elems<T>(s: seq<T>): set<T> {
    set x | x in s
  }

  /** `s.filter(x => !excluded.has(x))` */
  function Without<T(==,!new)>(s: seq<T>, excluded: set<T>): (r: seq<T>)
    ensures forall x :: x in r <==> x in s && x !in excluded
    ensures |r| <= |s|
    ensures NoDup(s) ==> NoDup(r)
  {
    if s == [] then []
    else if s[0] in excluded then Without(s[1..], excluded)
    else
      var r := [s[0]] + Without(s[1..], excluded);
      assert NoDup(s) ==> s[0] !in s[1..];
      r
  }

  lemma {:induction false} WithoutAppend<T(!new)>(a: seq<T>, b: seq<T>, excluded: set<T>)
    ensures Without(a + b, excluded) == Without(a, excluded) + Without(b, excluded)
  {
    if a != [] {
      assert (a + b)[0] == a[0] && (a + b)[1..] == a[1..] + b;
      WithoutAppend(a[1..], b, excluded);
    } else {
      assert a + b == b;
    }
  }

  lemma {:induction false} WithoutWithout<T(!new)>(s: seq<T>, first: set<T>, second: set<T>)
    ensures Without(Without(s, first), second) == Without(s, first + second)
  {
    if s != [] {
      WithoutWithout(s[1..], first, second);
    }
  }

  /** In a list without repetitions, filtering out a set removes exactly the listed
      members of that set. */
  lemma {:induction false} WithoutCount<T(!new)>(s: seq<T>, excluded: set<T>)
    requires NoDup(s)
    ensures |Without(s, excluded)| == |s| - |excluded * Elems(s)|
  {
    if s == [] {
      assert excluded * Elems(s) == {};
    } else {
      var t := s[1..];
      assert NoDup(t);
      WithoutCount(t, excluded);
      assert s[0] !in Elems(t);
      assert Elems(s) == Elems(t) + {s[0]};
      if s[0] in excluded {
        assert excluded * Elems(s) == excluded * Elems(t) + {s[0]};
      } else {
        assert excluded * Elems(s) == excluded * Elems(t);
      }
    }
  }

  lemma {:induction false} NoDupCard<T>(s: seq<T>)
    requires NoDup(s)
    ensures |Elems(s)| == |s|
  {
    if s != [] {
      NoDupCard(s[1..]);
      assert s[0] !in Elems(s[1..]);
      assert Elems(s) == Elems(s[1..]) + {s[0]};
    }
  }

  /** `String.fromCharCode(65 + r)`; the room has at most 26 rows. */
  function RowLetter(r: nat): char
    requires r < 26
  {
    (65 + r) as char
  }

  /** `seatId(r, c)`: the row letter followed by the 1-based column number. */
  function SeatId(r: nat, c: nat): (id: string)
    requires r < 26
    ensures |id| >= 2 && id[0] == RowLetter(r) && id[1..] == NatToString(c + 1)
  {
    [RowLetter(r)] + NatToString(c + 1)
  }

  /** Distinct cells have distinct ids. */
  lemma SeatIdInjective(r1: nat, c1: nat, r2: nat, c2: nat)
    requires r1 < 26 && r2 < 26
    requires SeatId(r1, c1) == SeatId(r2, c2)
    ensures r1 == r2 && c1 == c2
  {
    NatToStringInjective(c1 + 1, c2 + 1);
  }

  /** The ids of row `r`, columns `0 .. n - 1`, left to right. */
  function RowIds(r: nat, n: nat): (s: seq<string>)
    requires r < 26
    ensures |s| == n
    ensures forall c :: 0 <= c < n ==> s[c] == SeatId(r, c)
  {
    if n == 0 then [] else RowIds(r, n - 1) + [SeatId(r, n - 1)]
  }

  /** Every id of the grid, row by row, each row left to right. */
  function GridIds(rows: nat, cols: nat): (s: seq<string>)
    requires rows <= 26
    ensures |s| == rows * cols
  {
    if rows == 0 then []
    else
      RowsTimesCols(rows, cols);
      GridIds(rows - 1, cols) + RowIds(rows - 1, cols)
  }

  lemma RowsTimesCols(rows: nat, cols: nat)
    requires rows > 0
    ensures (rows - 1) * cols + cols == rows * cols
  {
  }

  /** Every id of the first `rows` rows carries a row letter below the `rows`-th. */
  lemma {:induction false} GridIdsRows(rows: nat, cols: nat)
    requires rows <= 26
    ensures forall x :: x in GridIds(rows, cols) ==> |x| >= 2 && x[0] as int < 65 + rows
  {
    if rows > 0 {
      GridIdsRows(rows - 1, cols);
      var a, b := GridIds(rows - 1, cols), RowIds(rows - 1, cols);
      assert GridIds(rows, cols) == a + b;
      forall x | x in a + b ensures |x| >= 2 && x[0] as int < 65 + rows {
        if x !in a {
          var c :| 0 <= c < |b| && b[c] == x;
          assert x == SeatId(rows - 1, c);
        }
      }
    }
  }

  lemma {:induction false} GridIdsNoDup(rows: nat, cols: nat)
    requires rows <= 26
    ensures NoDup(GridIds(rows, cols))
  {
    if rows > 0 {
      GridIdsNoDup(rows - 1, cols);
      GridIdsRows(rows - 1, cols);
      var a, b := GridIds(rows - 1, cols), RowIds(rows - 1, cols);
      assert GridIds(rows, cols) == a + b;
      assert NoDup(b) by {
        forall i, j | 0 <= i < j < |b| ensures b[i] != b[j] {
          if b[i] == b[j] { SeatIdInjective(rows - 1, i, rows - 1, j); }
        }
      }
      forall i, j | 0 <= i < |a| && 0 <= j < |b| ensures a[i] != b[j] {
        assert a[i] in a;
        assert b[j] == SeatId(rows - 1, j);
      }
      NoDupAppend(a, b);
    }
  }

  lemma NoDupAppend<T>(a: seq<T>, b: seq<T>)
    requires NoDup(a) && NoDup(b)
    requires forall i, j :: 0 <= i < |a| && 0 <= j < |b| ==> a[i] != b[j]
    ensures NoDup(a + b)
  {
    var s := a + b;
    forall i, j | 0 <= i < j < |s| ensures s[i] != s[j] {
      if j < |a| {
        assert s[i] == a[i] && s[j] == a[j];
      } else if i >= |a| {
        assert s[i] == b[i - |a|] && s[j] == b[j - |a|];
      } else {
        assert s[i] == a[i] && s[j] == b[j - |a|];
      }
    }
  }

  lemma {:induction false} SeatIdInGrid(rows: nat, cols: nat, r: nat, c: nat)
    requires rows <= 26 && r < rows && c < cols
    ensures SeatId(r, c) in GridIds(rows, cols)
  {
    if r == rows - 1 {
      assert RowIds(r, cols)[c] == SeatId(r, c);
    } else {
      SeatIdInGrid(rows - 1, cols, r, c);
    }
  }
}
