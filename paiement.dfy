/** The payment page (paiement.js): the masks applied to the card number, expiry and
    CVC fields on every keystroke, the card brand shown beside the number, the expiry
    check, and the checks "Pay" makes before going on to the ticket. */
module Paiement {
  import opened Text
  import opened Decimal

  // ---------- Card number ----------

  /** The digits kept from the number field: non-digits dropped, at most 16. */
  function CardDigits(input: string): (v: string)
    ensures v == Take(DigitsOnly(input), 16)
    ensures AllDigits(v) && |v| <= 16
    ensures AllDigits(input) && |input| <= 16 ==> v == input
  {
    Take(DigitsOnly(input), 16)
  }

  /** `replace(/(.{4})/g, '$1 ')`: a space after every complete group of four. Only
      spaces are added, one per group, so removing whitespace gives the same text. */
  function Grouped(v: string): (r: string)
    ensures |r| == |v| + |v| / 4
    ensures RemoveSpaces(r) == RemoveSpaces(v)
  {
    if |v| < 4 then v
    else
      var rest := Grouped(v[4..]);
      RemoveSpacesAppend(v[..4] + " ", rest);
      RemoveSpacesAppend(v[..4], " ");
      RemoveSpacesAppend(v[..4], v[4..]);
      assert RemoveSpaces(" ") == [];
      assert v[..4] + v[4..] == v;
      v[..4] + " " + rest
  }

  /** Groups of four separated by single spaces, nothing after the last group. */
  function Spaced(v: string): (r: string)
    ensures |v| > 0 ==> |r| > 0 && r[0] == v[0] && r[|r| - 1] == v[|v| - 1]
    ensures v == [] ==> r == []
  {
    if |v| <= 4 then v else v[..4] + " " + Spaced(v[4..])
  }

  lemma AllDigitsSplit(v: string, k: nat)
    requires AllDigits(v) && k <= |v|
    ensures AllDigits(v[..k]) && AllDigits(v[k..])
  {
    forall i | 0 <= i < |v| - k ensures IsDigit(v[k..][i]) {
      assert v[k..][i] == v[i + k];
    }
  }

  /** In the spaced form a space stands exactly at every fifth position and every
      other character is a digit. */
  lemma {:induction false} SpacedLayout(v: string)
    requires AllDigits(v)
    ensures forall i :: 0 <= i < |Spaced(v)| ==> (Spaced(v)[i] == ' ' <==> i % 5 == 4)
    ensures forall i :: 0 <= i < |Spaced(v)| && Spaced(v)[i] != ' ' ==> IsDigit(Spaced(v)[i])
  {
    if |v| > 4 {
      AllDigitsSplit(v, 4);
      SpacedLayout(v[4..]);
      var rest := Spaced(v[4..]);
      var r := v[..4] + " " + rest;
      assert r == Spaced(v);
      forall i | 0 <= i < |r|
        ensures (r[i] == ' ' <==> i % 5 == 4) && (r[i] != ' ' ==> IsDigit(r[i]))
      {
        if i < 4 {
          assert r[i] == v[i] && IsDigit(v[i]) && i % 5 == i;
        } else if i >= 5 {
          var j := i - 5;
          assert r[i] == rest[j] && j % 5 == i % 5;
          assert (rest[j] == ' ' <==> j % 5 == 4) && (rest[j] != ' ' ==> IsDigit(rest[j]));
        }
      }
    } else {
      assert forall i :: 0 <= i < |v| ==> i % 5 == i;
    }
  }

  /** The text the number field shows: `v.replace(/(.{4})/g, '$1 ').trim()`. For the
      field's digits it is the groups of four separated by single spaces. */
  function CardDisplay(v: string): (r: string)
    ensures AllDigits(v) ==> r == Spaced(v)
  {
    if AllDigits(v) then TrimGroupedIsSpaced(v); Trim(Grouped(v))
    else Trim(Grouped(v))
  }

  lemma {:induction false} RemoveSpacesDigits(v: string)
    requires AllDigits(v)
    ensures RemoveSpaces(v) == v
  {
    if v != [] {
      assert !IsJsSpace(v[0]);
      RemoveSpacesDigits(v[1..]);
    }
  }

  /** The field shows the groups of four with the trailing space trimmed. */
  lemma {:induction false} GroupedIsSpaced(v: string)
    requires AllDigits(v)
    ensures FullLastGroup(|v|) ==> Grouped(v) == Spaced(v) + " "
    ensures !FullLastGroup(|v|) ==> Grouped(v) == Spaced(v)
  {
    if |v| == 4 {
      assert v[..4] == v && v[4..] == [];
    } else if |v| > 4 {
      var w := v[4..];
      AllDigitsSplit(v, 4);
      GroupedIsSpaced(w);
      assert Grouped(v) == v[..4] + " " + Grouped(w);
      assert Spaced(v) == v[..4] + " " + Spaced(w);
      FullLastGroupStep(|v|);
    }
  }

  /** The digits end on a complete group of four. */
  predicate FullLastGroup(n: nat) {
    n > 0 && n % 4 == 0
  }

  lemma FullLastGroupStep(n: nat)
    requires n > 4
    ensures FullLastGroup(n) == FullLastGroup(n - 4)
  {
  }

  lemma TrimGroupedIsSpaced(v: string)
    requires AllDigits(v)
    ensures Trim(Grouped(v)) == Spaced(v)
  {
    GroupedIsSpaced(v);
    var s := Spaced(v);
    if v == [] {
      assert Grouped(v) == [];
      TrimUnchanged([]);
    } else {
      assert IsDigit(s[0]) && IsDigit(s[|s| - 1]);
      if FullLastGroup(|v|) {
        TrimOneTrailingSpace(s);
      } else {
        assert Grouped(v) == s;
        TrimUnchanged(s);
      }
    }
  }

  lemma TrimOneTrailingSpace(s: string)
    requires s != [] && !IsJsSpace(s[0]) && !IsJsSpace(s[|s| - 1])
    ensures Trim(s + " ") == s
  {
    var a := s + " ";
    assert a[0] == s[0];
    assert LeadingSpaces(a) == 0;
    assert a[0..] == a;
    assert a[..|a| - 1] == s;
    assert TrailingSpaces(a) == 1 + TrailingSpaces(s);
    assert TrailingSpaces(s) == 0;
  }

  /** The displayed number is four-digit groups separated by single spaces, without a
      trailing space, and removing the spaces gives the digits back; masking the
      displayed text again changes nothing. */
  lemma CardDisplayRoundTrip(input: string)
    ensures var v := CardDigits(input);
            var d := CardDisplay(v);
            && (forall i :: 0 <= i < |d| ==> (d[i] == ' ' <==> i % 5 == 4))
            && (d == [] || d[|d| - 1] != ' ')
            && RemoveSpaces(d) == v
            && CardDigits(d) == v
  {
    var v := CardDigits(input);
    SpacedLayout(v);
    SpacedRemoveSpaces(v);
    SpacedDigitsOnly(v);
  }

  lemma {:induction false} SpacedRemoveSpaces(v: string)
    requires AllDigits(v)
    ensures RemoveSpaces(Spaced(v)) == v
  {
    if |v| <= 4 {
      RemoveSpacesDigits(v);
    } else {
      AllDigitsSplit(v, 4);
      SpacedRemoveSpaces(v[4..]);
      RemoveSpacesAppend(v[..4] + " ", Spaced(v[4..]));
      RemoveSpacesAppend(v[..4], " ");
      RemoveSpacesDigits(v[..4]);
      assert RemoveSpaces(" ") == [];
      assert v[..4] + v[4..] == v;
    }
  }

  lemma {:induction false} SpacedDigitsOnly(v: string)
    requires AllDigits(v)
    ensures DigitsOnly(Spaced(v)) == v
  {
    if |v| <= 4 {
    } else {
      var head, w := v[..4], v[4..];
      AllDigitsSplit(v, 4);
      SpacedDigitsOnly(w);
      assert Spaced(v) == (head + " ") + Spaced(w);
      DigitsOnlyAppend(head + " ", Spaced(w));
      DigitsOnlyAppend(head, " ");
      assert DigitsOnly(" ") == [];
      assert DigitsOnly(head) == head;
      assert head + w == v;
    }
  }

  /** The number field turns green at exactly 16 digits. */
  predicate NumberComplete(v: string) {
    |v| == 16
  }

  // ---------- Card brand ----------

  datatype Brand = Cb | Visa | Mastercard | Amex

  /** The brand of the digits typed so far, checked in order: a leading 4 is Visa,
      51–55 or 22–27 Mastercard, 34 or 37 American Express, anything else CB. */
  function BrandOf(v: string): (b: Brand)
    ensures b == Visa <==> |v| >= 1 && v[0] == '4'
    ensures b == Mastercard <==>
              |v| >= 2 && ((v[0] == '5' && '1' <= v[1] <= '5') || (v[0] == '2' && '2' <= v[1] <= '7'))
    ensures b == Amex <==> |v| >= 2 && v[0] == '3' && (v[1] == '4' || v[1] == '7')
  {
    if |v| >= 1 && v[0] == '4' then Visa
    else if |v| >= 2 && ((v[0] == '5' && '1' <= v[1] <= '5') || (v[0] == '2' && '2' <= v[1] <= '7')) then Mastercard
    else if |v| >= 2 && v[0] == '3' && (v[1] == '4' || v[1] == '7') then Amex
    else Cb
  }

  /** Only the first two digits decide the brand: once they are typed, more digits
      never change it. */
  lemma BrandStable(u: string, v: string)
    requires |u| >= 2 && u <= v
    ensures BrandOf(v) == BrandOf(u)
    ensures BrandOf(v) == BrandOf(v[..2])
  {
    assert u[0] == v[0] && u[1] == v[1];
  }

  /** A leading 4 is Visa whatever follows, and a number starting with neither 2, 3, 4
      nor 5 is CB. */
  lemma BrandByFirstDigit(v: string)
    requires v != []
    ensures v[0] == '4' ==> BrandOf(v) == Visa
    ensures v[0] !in {'2', '3', '4', '5'} ==> BrandOf(v) == Cb
  {
  }

  // ---------- Expiry and CVC ----------

  /** The expiry field: at most four digits, with `/` after the first two once there
      are three or more. */
  function ExpiryMask(input: string): (r: string)
    ensures |r| <= 5
    ensures var v := Take(DigitsOnly(input), 4);
            && (|v| < 3 ==> r == v)
            && (|v| >= 3 ==> |r| == |v| + 1 && r[2] == '/' && r[..2] == v[..2] && r[3..] == v[2..])
  {
    var v := Take(DigitsOnly(input), 4);
    if |v| >= 3 then v[..2] + "/" + v[2..] else v
  }

  /** The digits of the expiry field are the first four typed; masking the field's own
      text again changes nothing; a full field reads `MM/YY`. */
  lemma ExpiryMaskStable(input: string)
    ensures DigitsOnly(ExpiryMask(input)) == Take(DigitsOnly(input), 4)
    ensures ExpiryMask(ExpiryMask(input)) == ExpiryMask(input)
    ensures |ExpiryMask(input)| == 5 ==>
              ExpiryMask(input)[2] == '/' && AllDigits(ExpiryMask(input)[..2]) && AllDigits(ExpiryMask(input)[3..])
  {
    var v := Take(DigitsOnly(input), 4);
    var r := ExpiryMask(input);
    if |v| >= 3 {
      DigitsOnlyAppend(v[..2] + "/", v[2..]);
      DigitsOnlyAppend(v[..2], "/");
      assert DigitsOnly("/") == [];
      DigitsOnlyKeeps(v[..2]);
      DigitsOnlyKeeps(v[2..]);
      assert v[..2] + v[2..] == v;
      assert r[3..] == v[2..];
    } else {
      DigitsOnlyKeeps(v);
    }
  }

  lemma {:induction false} DigitsOnlyKeeps(v: string)
    requires AllDigits(v)
    ensures DigitsOnly(v) == v
  {
  }

  /** The CVC field: at most four digits. */
  function CvcMask(input: string): (r: string)
    ensures r == Take(DigitsOnly(input), 4)
    ensures AllDigits(r) && |r| <= 4
  {
    Take(DigitsOnly(input), 4)
  }

  /** One keystroke in the CVC field: a digit is appended while there are fewer than
      four, and any other character leaves the field as it was. */
  lemma CvcMaskTyping(input: string, c: char)
    ensures IsDigit(c) && |CvcMask(input)| < 4 ==> CvcMask(input + [c]) == CvcMask(input) + [c]
    ensures !IsDigit(c) || |CvcMask(input)| == 4 ==> CvcMask(input + [c]) == CvcMask(input)
  {
    var d := DigitsOnly(input);
    DigitsOnlyAppend(input, [c]);
    if IsDigit(c) {
      assert DigitsOnly([c]) == [c];
      if |d| >= 4 {
        assert (d + [c])[..4] == d[..4];
      }
    } else {
      assert DigitsOnly([c]) == [];
      assert d + [] == d;
    }
  }

  /** The CVC field turns green at three digits or more; masking it again changes
      nothing. */
  lemma CvcMaskStable(input: string)
    ensures CvcMask(CvcMask(input)) == CvcMask(input)
  {
  }

  /** The current month: the year and the month index 0–11 of `new Date()`. */
  datatype Now = Now(year: int, month: int)

  /** The year `new Date(y, …)` uses: 0–99 mean 1900–1999. */
  function FullYear(y: int): (r: int)
    ensures r != y <==> 0 <= y <= 99
    ensures r != y ==> 1900 <= r <= 1999 && r % 100 == y
  {
    if 0 <= y <= 99 then 1900 + y else y
  }

  /** `validExpiry`: the month must parse and lie in 1–12, the year must parse, and the
      first day of the following month must be later than now. */
  function ValidExpiry(mmYY: string, now: Now): (ok: bool)
    requires 0 <= now.month < 12
    ensures ok ==> var mm := ParseInt(Split(mmYY, '/')[0]); mm.Some? && 1 <= mm.value <= 12
    ensures ok ==> |Split(mmYY, '/')| >= 2 && ParseInt(Split(mmYY, '/')[1]).Some?
  {
    var parts := Split(mmYY, '/');
    ExpiryAccepts(ParseInt(parts[0]), if |parts| >= 2 then ParseInt(parts[1]) else None, now)
  }

  /** The check on the parsed month and year (`None` for NaN). */
  function ExpiryAccepts(mm: Option<int>, yy: Option<int>, now: Now): (ok: bool)
    ensures ok ==> mm.Some? && 1 <= mm.value <= 12 && yy.Some?
  {
    if mm.None? || mm.value < 1 || mm.value > 12 || yy.None? then false
    else
      var y := FullYear(2000 + yy.value);
      // new Date(y, mm, 1) rolls month index 12 over to January of the next year
      var expYear := if mm.value == 12 then y + 1 else y;
      var expMonth := if mm.value == 12 then 0 else mm.value;
      expYear > now.year || (expYear == now.year && expMonth > now.month)
  }

  /** For a month 1–12 and a two-digit year the check passes up to and including that
      month of 20YY. */
  lemma ExpiryAcceptsMeaning(mm: int, yy: int, now: Now)
    requires 1 <= mm <= 12 && 0 <= yy < 100 && 0 <= now.month < 12
    ensures ExpiryAccepts(Some(mm), Some(yy), now) <==>
            now.year < 2000 + yy || (now.year == 2000 + yy && now.month <= mm - 1)
  {
    assert FullYear(2000 + yy) == 2000 + yy;
  }

  /** The text `MM/YY` of a month and a two-digit year. */
  function ExpiryText(mm: nat, yy: nat): string {
    PadStart2(NatToString(mm)) + "/" + PadStart2(NatToString(yy))
  }

  /** `validExpiry` reads the month and the year back from `MM/YY`. */
  lemma ExpiryTextRead(mm: nat, yy: nat)
    requires mm < 100 && yy < 100
    ensures var parts := Split(ExpiryText(mm, yy), '/');
            |parts| == 2 && ParseInt(parts[0]) == Some(mm) && ParseInt(parts[1]) == Some(yy)
  {
    var a, b := PadStart2(NatToString(mm)), PadStart2(NatToString(yy));
    PaddedValue(mm);
    PaddedValue(yy);
    assert '/' !in a && '/' !in b by {
      assert forall i :: 0 <= i < |a| ==> IsDigit(a[i]);
      assert forall i :: 0 <= i < |b| ==> IsDigit(b[i]);
    }
    SplitJoin([a, b], '/');
    assert Join([a, b], "/") == a + "/" + b by {
      assert [a, b][1..] == [b];
    }
    assert a + [] == a && b + [] == b;
    ParseIntDigits(a, []);
    ParseIntDigits(b, []);
  }

  /** A card shown as `MM/YY` is accepted up to and including its month MM of 20YY, and
      refused from the month after. */
  lemma ValidExpiryMeaning(mm: nat, yy: nat, now: Now)
    requires 1 <= mm <= 12 && yy < 100 && 0 <= now.month < 12
    ensures ValidExpiry(ExpiryText(mm, yy), now) <==>
            now.year < 2000 + yy || (now.year == 2000 + yy && now.month <= mm - 1)
  {
    ExpiryTextRead(mm, yy);
    ExpiryAcceptsMeaning(mm, yy, now);
  }

  /** A month outside 1–12 is always refused. */
  lemma BadMonthRefused(mmYY: string, now: Now)
    requires 0 <= now.month < 12
    requires var mm := ParseInt(Split(mmYY, '/')[0]); mm.None? || mm.value < 1 || mm.value > 12
    ensures !ValidExpiry(mmYY, now)
  {
  }

  // ---------- "Pay" ----------

  /** The open payment panel. */
  datatype PayMethod = Card | GooglePay | OtherMethod

  /** What a click on "Pay" does: go on to the ticket, or stop on the first field that
      fails. */
  datatype Outcome = ToTicket | BlockNumber | BlockExpiry | BlockCvc

  /** The card panel checks the number (16 digits once spaces are removed), then the
      expiry, then the CVC (three characters or more), in that order; the other panels
      go straight on. */
  function Pay(active: PayMethod, number: string, expiry: string, cvc: string, now: Now): (o: Outcome)
    requires 0 <= now.month < 12
    ensures o == ToTicket <==>
            active != Card || (|RemoveSpaces(number)| == 16 && ValidExpiry(expiry, now) && |cvc| >= 3)
    ensures o == BlockNumber <==> active == Card && |RemoveSpaces(number)| != 16
    ensures o == BlockExpiry <==> active == Card && |RemoveSpaces(number)| == 16 && !ValidExpiry(expiry, now)
    ensures o == BlockCvc <==>
              active == Card && |RemoveSpaces(number)| == 16 && ValidExpiry(expiry, now) && |cvc| < 3
  {
    if active != Card then ToTicket
    else if |RemoveSpaces(number)| != 16 then BlockNumber
    else if !ValidExpiry(expiry, now) then BlockExpiry
    else if |cvc| < 3 then BlockCvc
    else ToTicket
  }

  /** With the fields as the masks leave them, the number check is "16 digits typed"
      and the CVC check "three digits typed". */
  lemma PayWithMaskedFields(active: PayMethod, typedNumber: string, typedExpiry: string, typedCvc: string, now: Now)
    requires 0 <= now.month < 12
    ensures var o := Pay(active, CardDisplay(CardDigits(typedNumber)), ExpiryMask(typedExpiry), CvcMask(typedCvc), now);
            (o == BlockNumber <==> active == Card && !NumberComplete(CardDigits(typedNumber))) &&
            (o == ToTicket <==>
               active != Card ||
               (NumberComplete(CardDigits(typedNumber)) && ValidExpiry(ExpiryMask(typedExpiry), now) &&
                |CvcMask(typedCvc)| >= 3))
  {
    CardDisplayRoundTrip(typedNumber);
  }
}
