/** Activity streams are named after event codes, four of them historically. */
module StreamNames {
  import opened Wrappers
  import opened DecimalText

  const LEGACY: map<int, string> := map[
    206 := "booking_created",
    208 := "post_booking_order_status",
    223 := "booking_cancelled",
    204 := "facebook_lead_ads_submissions"]

  const PREFIX := "activity_"

  function IntText(c: int): (s: string)
    ensures |s| >= 1
  {
    if c < 0 then "-" + Decimal(-c) else Decimal(c)
  }

  /** int() on text without blanks or underscores. */
  function IntOf(s: string): Option<int> {
    if s == [] then None
    else
      var signed := s[0] in {'-', '+'};
      var digits := if signed then s[1..] else s;
      if digits == [] || Number(digits).None? then None
      else
        var n: int := Number(digits).value;
        Some(if s[0] == '-' then -n else n)
  }

  function StreamNameForEvent(code: int): string {
    if code in LEGACY then LEGACY[code] else PREFIX + IntText(code)
  }

  predicate HasPrefix(name: string) {
    PREFIX <= name
  }

  /** None if the name is no activity stream's. */
  function EventForStreamName(name: string): Option<int> {
    if name == "booking_created" then Some(206)
    else if name == "post_booking_order_status" then Some(208)
    else if name == "booking_cancelled" then Some(223)
    else if name == "facebook_lead_ads_submissions" then Some(204)
    else if HasPrefix(name) then IntOf(name[|PREFIX|..])
    else None
  }

  lemma {:induction false} DecimalStartsWithDigit(n: nat)
    ensures '0' <= Decimal(n)[0] <= '9'
  {
    if n >= 10 { DecimalStartsWithDigit(n / 10); }
  }

  lemma IntReads(c: int)
    ensures IntOf(IntText(c)) == Some(c)
  {
    var n := if c < 0 then -c else c;
    DecimalReads(n);
    DecimalStartsWithDigit(n);
    if c < 0 {
      assert IntText(c)[1..] == Decimal(n);
    }
  }

  lemma LegacyNamesArePlain(name: string)
    requires name in LEGACY.Values
    ensures !HasPrefix(name)
  {
    assert name[0] != 'a' by {
      assert "booking_created"[0] == 'b' && "post_booking_order_status"[0] == 'p'
          && "booking_cancelled"[0] == 'b' && "facebook_lead_ads_submissions"[0] == 'f';
    }
    assert PREFIX[0] == 'a';
  }

  /** Every event code, historical or not, is found again from its stream's name; so no two codes
      share a stream. */
  lemma EventRoundTrip(code: int, other: int)
    ensures EventForStreamName(StreamNameForEvent(code)) == Some(code)
    ensures StreamNameForEvent(code) == StreamNameForEvent(other) ==> code == other
  {
    OneRoundTrip(code);
    OneRoundTrip(other);
  }

  lemma OneRoundTrip(code: int)
    ensures EventForStreamName(StreamNameForEvent(code)) == Some(code)
  {
    if code !in LEGACY {
      var name := StreamNameForEvent(code);
      assert HasPrefix(name) && name[|PREFIX|..] == IntText(code);
      forall l | l in LEGACY.Values ensures l != name { LegacyNamesArePlain(l); }
      assert LEGACY[206] in LEGACY.Values && LEGACY[208] in LEGACY.Values
          && LEGACY[223] in LEGACY.Values && LEGACY[204] in LEGACY.Values;
      IntReads(code);
    }
  }

  predicate AllDigits(s: string) {
    forall i :: 0 <= i < |s| ==> '0' <= s[i] <= '9'
  }

  /** The number as it is usually written: no leading zero, no plus, no minus zero. */
  predicate PlainNumber(s: string) {
    var digits := if s != [] && s[0] == '-' then s[1..] else s;
    digits != [] && AllDigits(digits) && (digits[0] == '0' ==> s == "0")
  }

  /** The names streams really have: the four historical ones, and the prefix before a plainly
      written number other than theirs. */
  predicate IsStreamName(name: string) {
    || name in {"booking_created", "post_booking_order_status", "booking_cancelled", "facebook_lead_ads_submissions"}
    || (HasPrefix(name) && PlainNumber(name[|PREFIX|..]) && name[|PREFIX|..] !in {"206", "208", "223", "204"})
  }

  lemma {:induction false} DecimalIsPlain(n: nat)
    ensures AllDigits(Decimal(n)) && (Decimal(n)[0] == '0' ==> n == 0)
  {
    if n >= 10 { DecimalIsPlain(n / 10); }
  }

  lemma OneMoreDigit(n: nat, d: nat)
    requires 0 < n && d < 10
    ensures Decimal(10 * n + d) == Decimal(n) + [Digit(d)]
  {
    assert (10 * n + d) / 10 == n && (10 * n + d) % 10 == d;
  }

  lemma OneDigit(c: char)
    requires '0' <= c <= '9'
    ensures DigitValue(c).Some? && DigitValue(c).value < 10 && Digit(DigitValue(c).value) == c
    ensures DigitValue(c).value == 0 ==> c == '0'
  {
  }

  lemma OneDigitNumber(d: nat)
    requires d < 10
    ensures Number([Digit(d)]) == Some(d) && Decimal(d) == [Digit(d)]
  {
    DigitReads(d);
    assert [Digit(d)][..0] == [] && Number([]) == Some(0);
  }

  /** Digits without a leading zero are the decimal text of their value. */
  lemma {:induction false} DigitsAreDecimal(s: string)
    requires s != [] && AllDigits(s) && (s[0] == '0' ==> |s| == 1)
    ensures Number(s).Some? && Decimal(Number(s).value) == s
    ensures s[0] != '0' ==> Number(s).value > 0
  {
    hide Decimal;
    hide Number;
    hide Digit;
    hide DigitValue;
    var init, last := s[..|s| - 1], s[|s| - 1];
    assert s == init + [last];
    OneDigit(last);
    var d := DigitValue(last).value;
    if |s| == 1 {
      OneDigitNumber(d);
    } else {
      DigitsAreDecimal(init);
      NumberAppend(init, d);
      OneMoreDigit(Number(init).value, d);
    }
  }

  lemma UnsignedIsIntText(digits: string)
    requires digits != [] && AllDigits(digits) && (digits[0] == '0' ==> |digits| == 1)
    ensures IntOf(digits).Some? && IntText(IntOf(digits).value) == digits
  {
    DigitsAreDecimal(digits);
    hide Decimal;
    hide Number;
  }

  lemma NegativeIsIntText(digits: string)
    requires digits != [] && AllDigits(digits) && digits[0] != '0'
    ensures IntOf("-" + digits).Some? && IntText(IntOf("-" + digits).value) == "-" + digits
  {
    DigitsAreDecimal(digits);
    hide Decimal;
    hide Number;
    assert ("-" + digits)[1..] == digits;
  }

  lemma PlainNumberIsIntText(s: string)
    requires PlainNumber(s)
    ensures IntOf(s).Some? && IntText(IntOf(s).value) == s
  {
    hide IntOf;
    hide IntText;
    hide Decimal;
    hide Number;
    if s[0] == '-' {
      NegativeIsIntText(s[1..]);
      assert s == "-" + s[1..];
    } else {
      UnsignedIsIntText(s);
    }
  }

  lemma IntTextIsPlain(c: int)
    ensures PlainNumber(IntText(c))
  {
    var n := if c < 0 then -c else c;
    DecimalIsPlain(n);
    assert Decimal(0) == "0";
    hide Decimal;
    if c < 0 { assert IntText(c)[1..] == Decimal(n); }
  }

  lemma LegacyTexts()
    ensures IntText(206) == "206" && IntText(208) == "208" && IntText(223) == "223" && IntText(204) == "204"
  {
    assert Decimal(2) == "2";
    hide Decimal;
    OneMoreDigit(2, 0);
    OneMoreDigit(2, 2);
    OneMoreDigit(20, 6);
    OneMoreDigit(20, 8);
    OneMoreDigit(22, 3);
    OneMoreDigit(20, 4);
  }

  lemma LegacyNumbers(c: int)
    ensures c in LEGACY <==> IntText(c) in {"206", "208", "223", "204"}
  {
    hide Decimal;
    hide IntOf;
    hide IntText;
    LegacyTexts();
    IntReads(c);
    IntReads(206);
    IntReads(208);
    IntReads(223);
    IntReads(204);
  }

  /** The other direction holds for real stream names and fails for their aliases: "activity_007",
      "activity_+7", "activity_-0", "activity_206". The condition is on the characters alone. */
  lemma NameRoundTripIff(name: string)
    ensures (EventForStreamName(name).Some? && StreamNameForEvent(EventForStreamName(name).value) == name) <==>
              IsStreamName(name)
  {
    if HasPrefix(name) {
      PrefixedRoundTripIff(name);
    } else {
      if EventForStreamName(name).Some? { assert name in LEGACY.Values by { PlainNameIsLegacy(name); } }
    }
  }

  lemma PlainNameIsLegacy(name: string)
    requires !HasPrefix(name) && EventForStreamName(name).Some?
    ensures EventForStreamName(name).value in LEGACY && LEGACY[EventForStreamName(name).value] == name
  {
  }

  lemma PrefixedRoundTripIff(name: string)
    requires HasPrefix(name)
    ensures (EventForStreamName(name).Some? && StreamNameForEvent(EventForStreamName(name).value) == name) <==>
              IsStreamName(name)
  {
    var text := name[|PREFIX|..];
    assert name == PREFIX + text;
    forall l | l in LEGACY.Values ensures l != name { LegacyNamesArePlain(l); }
    assert LEGACY[206] in LEGACY.Values && LEGACY[208] in LEGACY.Values
        && LEGACY[223] in LEGACY.Values && LEGACY[204] in LEGACY.Values;
    assert EventForStreamName(name) == IntOf(text);
    if PlainNumber(text) { PlainNumberIsIntText(text); }
    if IntOf(text).Some? {
      var code := IntOf(text).value;
      LegacyNumbers(code);
      IntTextIsPlain(code);
      if code in LEGACY {
        assert LEGACY[code] in LEGACY.Values;
      } else {
        assert (PREFIX + IntText(code))[|PREFIX|..] == IntText(code);
      }
    }
  }
}
