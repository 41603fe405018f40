/** String helpers with the meaning the browser's String methods give them:
    `split` on one character, `join`, `trim` with JavaScript's whitespace set,
    `includes`, the `\D` digit filter of the input masks, and ASCII case mapping. */
module Text {

  datatype Option<T> = None | Some(value: T)

  /** The code points `String.prototype.trim` removes: WhiteSpace and LineTerminator. */
  predicate IsJsSpace(c: char) {
    || c == ' ' || c == '\t' || c == '\n' || c == '\r' || c == '\U{B}' || c == '\U{C}'
    || c == '\U{A0}' || c == '\U{FEFF}' || c == '\U{1680}' || ('\U{2000}' <= c <= '\U{200A}')
    || c == '\U{2028}' || c == '\U{2029}' || c == '\U{202F}' || c == '\U{205F}' || c == '\U{3000}'
  }

  predicate IsDigit(c: char) { '0' <= c <= '9' }

  predicate AllDigits(s: string) { forall i :: 0 <= i < |s| ==> IsDigit(s[i]) }

  /** `s.replace(/\D/g, '')`: keeps the ASCII digits, in order. With `DigitsOnlyAppend`
      the single-character cases determine it on every string. */
  function DigitsOnly(s: string): (r: string)
    ensures AllDigits(r) && |r| <= |s|
    ensures AllDigits(s) ==> r == s
    ensures |s| == 1 && !IsDigit(s[0]) ==> r == []
  {
    if s == [] then []
    else if IsDigit(s[0]) then [s[0]] + DigitsOnly(s[1..])
    else DigitsOnly(s[1..])
  }

  /** The filter works piece by piece, so the digits stay in their order. */
  lemma {:induction false} DigitsOnlyAppend(a: string, b: string)
    ensures DigitsOnly(a + b) == DigitsOnly(a) + DigitsOnly(b)
  {
    if a == [] {
      assert a + b == b;
    } else {
      assert (a + b)[0] == a[0] && (a + b)[1..] == a[1..] + b;
      DigitsOnlyAppend(a[1..], b);
    }
  }

  /** `s.replace(/\s+/g, '')`: the text without its whitespace (the same set `trim`
      removes). With `RemoveSpacesAppend` the single-character cases determine it. */
  function RemoveSpaces(s: string): (r: string)
    ensures |r| <= |s|
    ensures forall i :: 0 <= i < |r| ==> !IsJsSpace(r[i])
    ensures |s| == 1 ==> (r == [] <==> IsJsSpace(s[0])) && (r != [] ==> r == s)
  {
    if s == [] then [] else if IsJsSpace(s[0]) then RemoveSpaces(s[1..]) else [s[0]] + RemoveSpaces(s[1..])
  }

  lemma {:induction false} RemoveSpacesAppend(a: string, b: string)
    ensures RemoveSpaces(a + b) == RemoveSpaces(a) + RemoveSpaces(b)
  {
    if a == [] {
      assert a + b == b;
    } else {
      assert (a + b)[0] == a[0] && (a + b)[1..] == a[1..] + b;
      RemoveSpacesAppend(a[1..], b);
    }
  }

  /** `s.slice(0, n)` */
  function Take(s: string, n: nat): (r: string)
    ensures |r| == if |s| <= n then |s| else n
    ensures r <= s
  {
    if |s| <= n then s else s[..n]
  }

  /** `parts.join(sep)` */
  function Join(parts: seq<string>, sep: string): string {
    if parts == [] then ""
    else if |parts| == 1 then parts[0]
    else parts[0] + sep + Join(parts[1..], sep)
  }

  /** A join starts with its first piece and ends with its last one. */
  lemma {:induction false} JoinEnds(parts: seq<string>, sep: string)
    requires |parts| >= 1
    ensures parts[0] <= Join(parts, sep)
    ensures |parts[|parts| - 1]| <= |Join(parts, sep)|
    ensures Join(parts, sep)[|Join(parts, sep)| - |parts[|parts| - 1]|..] == parts[|parts| - 1]
  {
    if |parts| > 1 {
      JoinEnds(parts[1..], sep);
      var j := Join(parts, sep);
      var rest := Join(parts[1..], sep);
      assert j == parts[0] + sep + rest;
      assert j[|j| - |rest|..] == rest;
    }
  }

  /** `s.split(sep)` for a one-character separator: never empty, no piece contains the
      separator, and joining the pieces back gives `s`. */
  function Split(s: string, sep: char): (parts: seq<string>)
    ensures |parts| >= 1
    ensures forall i :: 0 <= i < |parts| ==> sep !in parts[i]
    ensures Join(parts, [sep]) == s
  {
    if s == [] then [""]
    else if s[0] == sep then [""] + Split(s[1..], sep)
    else
      var rest := Split(s[1..], sep);
      [[s[0]] + rest[0]] + rest[1..]
  }

  lemma {:induction false} SplitNoSeparator(a: string, sep: char)
    requires sep !in a
    ensures Split(a, sep) == [a]
  {
    if a != [] {
      SplitNoSeparator(a[1..], sep);
    }
  }

  lemma {:induction false} SplitAfterPiece(a: string, b: string, sep: char)
    requires sep !in a
    ensures Split(a + [sep] + b, sep) == [a] + Split(b, sep)
  {
    if a == [] {
      assert a + [sep] + b == [sep] + b;
    } else {
      var ab := a + [sep] + b;
      assert ab[0] == a[0] && ab[1..] == a[1..] + [sep] + b;
      SplitAfterPiece(a[1..], b, sep);
      var rest := Split(ab[1..], sep);
      assert rest == [a[1..]] + Split(b, sep);
      assert [ab[0]] + rest[0] == a;
    }
  }

  /** Splitting a joined list gives the list back when no piece holds the separator. */
  lemma {:induction false} SplitJoin(parts: seq<string>, sep: char)
    requires |parts| >= 1
    requires forall i :: 0 <= i < |parts| ==> sep !in parts[i]
    ensures Split(Join(parts, [sep]), sep) == parts
  {
    if |parts| == 1 {
      SplitNoSeparator(parts[0], sep);
    } else {
      SplitJoin(parts[1..], sep);
      SplitAfterPiece(parts[0], Join(parts[1..], [sep]), sep);
    }
  }

  /** `parts.filter(Boolean)` on strings: drops the empty ones. With `DropEmptyAppend`
      the single-piece cases determine it: the order and the repeats of the kept pieces
      are those of `parts`. */
  function DropEmpty(parts: seq<string>): (r: seq<string>)
    ensures forall i :: 0 <= i < |r| ==> r[i] != ""
    ensures forall x :: x in r <==> x in parts && x != ""
    ensures |r| <= |parts|
    ensures |parts| == 1 ==> r == (if parts[0] == "" then [] else parts)
  {
    if parts == [] then []
    else if parts[0] == "" then DropEmpty(parts[1..])
    else [parts[0]] + DropEmpty(parts[1..])
  }

  lemma {:induction false} DropEmptyAppend(a: seq<string>, b: seq<string>)
    ensures DropEmpty(a + b) == DropEmpty(a) + DropEmpty(b)
  {
    if a == [] {
      assert a + b == b;
    } else {
      assert (a + b)[0] == a[0] && (a + b)[1..] == a[1..] + b;
      DropEmptyAppend(a[1..], b);
    }
  }

  lemma {:induction false} DropEmptyKeeps(parts: seq<string>)
    requires forall i :: 0 <= i < |parts| ==> parts[i] != ""
    ensures DropEmpty(parts) == parts
  {
    if parts != [] {
      DropEmptyKeeps(parts[1..]);
    }
  }

  /** Number of leading whitespace characters. */
  function LeadingSpaces(s: string): (k: nat)
    ensures k <= |s|
    ensures forall i :: 0 <= i < k ==> IsJsSpace(s[i])
    ensures k == |s| || !IsJsSpace(s[k])
  {
    if s == [] || !IsJsSpace(s[0]) then 0 else 1 + LeadingSpaces(s[1..])
  }

  /** Number of trailing whitespace characters. */
  function TrailingSpaces(s: string): (k: nat)
    ensures k <= |s|
    ensures forall i :: |s| - k <= i < |s| ==> IsJsSpace(s[i])
    ensures k == |s| || !IsJsSpace(s[|s| - 1 - k])
  {
    if s == [] || !IsJsSpace(s[|s| - 1]) then 0 else 1 + TrailingSpaces(s[..|s| - 1])
  }

  /** `s.trim()`: the part of `s` between its leading and its trailing whitespace. */
  function Trim(s: string): string {
    var a := s[LeadingSpaces(s)..];
    a[..|a| - TrailingSpaces(a)]
  }

  /** Trimming removes whitespace only: the other characters stay, in order. */
  lemma TrimKeepsNonSpaces(s: string)
    ensures RemoveSpaces(Trim(s)) == RemoveSpaces(s)
  {
    var r := Trim(s);
    var l := LeadingSpaces(s);
    TrimSlice(s);
    var p, q := s[..l], s[l + |r|..];
    assert s == p + r + q;
    RemoveSpacesAppend(p + r, q);
    RemoveSpacesAppend(p, r);
    SpacesRemoved(p);
    SpacesRemoved(q);
  }

  lemma {:induction false} SpacesRemoved(t: string)
    requires forall i :: 0 <= i < |t| ==> IsJsSpace(t[i])
    ensures RemoveSpaces(t) == []
  {
    if t != [] {
      SpacesRemoved(t[1..]);
    }
  }

  /** The trimmed text has no whitespace at either end. */
  lemma TrimEnds(s: string)
    ensures Trim(s) == [] || (!IsJsSpace(Trim(s)[0]) && !IsJsSpace(Trim(s)[|Trim(s)| - 1]))
  {
    var l := LeadingSpaces(s);
    var a := s[l..];
    var k := TrailingSpaces(a);
    var r := a[..|a| - k];
    assert r == Trim(s);
    if r != [] {
      assert r[0] == s[l];
      assert r[|r| - 1] == a[|a| - 1 - k];
    }
  }

  /** The trimmed text is the part of `s` after its leading whitespace, followed in `s`
      only by whitespace. */
  lemma TrimSlice(s: string)
    ensures LeadingSpaces(s) + |Trim(s)| <= |s|
    ensures Trim(s) == s[LeadingSpaces(s)..LeadingSpaces(s) + |Trim(s)|]
    ensures forall i :: LeadingSpaces(s) + |Trim(s)| <= i < |s| ==> IsJsSpace(s[i])
  {
    var l := LeadingSpaces(s);
    var a := s[l..];
    var k := TrailingSpaces(a);
    var r := a[..|a| - k];
    assert r == Trim(s);
    assert r == s[l..l + |r|];
    forall i | l + |r| <= i < |s| ensures IsJsSpace(s[i]) {
      assert s[i] == a[i - l];
    }
  }

  /** Both of the above. */
  lemma TrimShape(s: string)
    ensures var r := Trim(s);
            && (r == [] || (!IsJsSpace(r[0]) && !IsJsSpace(r[|r| - 1])))
            && LeadingSpaces(s) + |r| <= |s| && r == s[LeadingSpaces(s)..LeadingSpaces(s) + |r|]
            && (forall i :: LeadingSpaces(s) + |r| <= i < |s| ==> IsJsSpace(s[i]))
  {
    TrimEnds(s);
    TrimSlice(s);
  }

  lemma TrimUnchanged(s: string)
    requires s == [] || (!IsJsSpace(s[0]) && !IsJsSpace(s[|s| - 1]))
    ensures Trim(s) == s
  {
    assert LeadingSpaces(s) == 0;
    assert TrailingSpaces(s) == 0;
  }

  /** `t` occurs in `s` (`s.includes(t)`). */
  predicate Contains(s: string, t: string) {
    t <= s || (s != [] && Contains(s[1..], t))
  }

  /** `t` occurs in `s` starting at index `i`. */
  predicate OccursAt(s: string, t: string, i: nat) {
    i + |t| <= |s| && s[i..i + |t|] == t
  }

  /** `s.includes(t)`: `t` occurs at some position of `s`. */
  lemma {:induction false} ContainsIff(s: string, t: string)
    ensures Contains(s, t) <==> exists i: nat :: OccursAt(s, t, i)
  {
    if Contains(s, t) {
      if t <= s {
        assert OccursAt(s, t, 0);
      } else {
        ContainsIff(s[1..], t);
        var i: nat :| OccursAt(s[1..], t, i);
        assert s[1..][i..i + |t|] == s[i + 1..i + 1 + |t|];
        assert OccursAt(s, t, i + 1);
      }
    } else if exists i: nat :: OccursAt(s, t, i) {
      var i: nat :| OccursAt(s, t, i);
      ContainsAt(s, t, i);
    }
  }

  lemma {:induction false} ContainsAt(s: string, t: string, i: nat)
    requires i + |t| <= |s| && s[i..i + |t|] == t
    ensures Contains(s, t)
  {
    if i > 0 {
      assert s[1..][i - 1..i - 1 + |t|] == s[i..i + |t|];
      ContainsAt(s[1..], t, i - 1);
    }
  }

  function LowerChar(c: char): char {
    if 'A' <= c <= 'Z' then (c as int + 32) as char else c
  }

  function UpperChar(c: char): char {
    if 'a' <= c <= 'z' then (c as int - 32) as char else c
  }

  /** `toLowerCase()` restricted to ASCII letters. */
  function LowerAscii(s: string): (r: string)
    ensures |r| == |s| && forall i :: 0 <= i < |s| ==> r[i] == LowerChar(s[i])
  {
    seq(|s|, i requires 0 <= i < |s| => LowerChar(s[i]))
  }

  /** `toUpperCase()` restricted to ASCII letters. */
  function UpperAscii(s: string): (r: string)
    ensures |r| == |s| && forall i :: 0 <= i < |s| ==> r[i] == UpperChar(s[i])
  {
    seq(|s|, i requires 0 <= i < |s| => UpperChar(s[i]))
  }

  /** `p || d` for an optional URL parameter: a missing or empty value gives `d`. */
  function Or(p: Option<string>, d: string): (r: string)
    ensures p.Some? && p.value != "" ==> r == p.value
    ensures p.None? || p.value == "" ==> r == d
  {
    if p.Some? && p.value != "" then p.value else d
  }

  /** Index of the first element satisfying `p` (`findIndex`, `None` for -1). */
  function FindIndex<T>(s: seq<T>, p: T -> bool): (r: Option<nat>)
    ensures r.None? ==> forall i :: 0 <= i < |s| ==> !p(s[i])
    ensures r.Some? ==> r.value < |s| && p(s[r.value]) && forall j :: 0 <= j < r.value ==> !p(s[j])
  {
    if s == [] then None
    else if p(s[0]) then Some(0)
    else match FindIndex(s[1..], p)
      case None => None
      case Some(i) => Some(i + 1)
  }

  /** `s.find(p)` */
  function Find<T>(s: seq<T>, p: T -> bool): (r: Option<T>)
    ensures r.None? <==> forall i :: 0 <= i < |s| ==> !p(s[i])
    ensures r.Some? ==> exists i :: 0 <= i < |s| && r.value == s[i] && p(s[i])
                                   && forall j :: 0 <= j < i ==> !p(s[j])
  {
    match FindIndex(s, p)
    case None => None
    case Some(i) => Some(s[i])
  }

  lemma UpperAsciiKeeps(s: string)
    requires forall i :: 0 <= i < |s| ==> !('a' <= s[i] <= 'z')
    ensures UpperAscii(s) == s
  {
  }
}
