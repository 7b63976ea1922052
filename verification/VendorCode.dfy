/** Vendor codes, `src/constants/vendor-code.ts`. */
module VendorCode {
  import opened Common
  import opened Text

  const VENDOR_CODE_PREFIX := "GP"

  function FormatVendorCode(n: nat): string {
    VENDOR_CODE_PREFIX + "-" + Dec(n)
  }

  // ---------- the patterns

  /** Begins with GP in any case. */
  predicate BeginsWithGP(t: string) {
    |t| >= 2 && (t[0] == 'G' || t[0] == 'g') && (t[1] == 'P' || t[1] == 'p')
  }

  predicate IsHyphenated(t: string) {
    |t| > 2 && t[2] == '-'
  }

  function AfterPrefix(t: string): string
    requires BeginsWithGP(t)
  {
    if IsHyphenated(t) then t[3..] else t[2..]
  }

  /** The digits of a text of the form GP-123 or GP123. */
  function DigitsOf(t: string): (digits: Option<string>)
    ensures digits.Some? ==> digits.value != "" && AllDigits(digits.value)
  {
    if BeginsWithGP(t) && AfterPrefix(t) != "" && AllDigits(AfterPrefix(t)) then Some(AfterPrefix(t)) else None
  }

  predicate IsValidVendorCode(code: string) {
    var digits := DigitsOf(Trim(code));
    digits.Some? && |digits.value| >= 4
  }

  function ParseVendorCodeNumber(code: string): Option<nat> {
    if IsValidVendorCode(code) then Some(ParseDec(DigitsOf(Trim(code)).value)) else None
  }

  /** The form shown to people: GP1002 and gp-1002 become GP-1002, other texts are only trimmed. */
  function FormatVendorCodeDisplay(code: Option<string>): Option<string> {
    if code.None? then None
    else
      var trimmed := Trim(code.value);
      if trimmed == "" then code
      else
        match DigitsOf(trimmed)
        case None => Some(trimmed)
        case Some(digits) =>
          if IsHyphenated(trimmed) then Some(Upper(trimmed)) else Some(FormatVendorCode(ParseDec(digits)))
  }

  function VendorCodeSearchTerms(search: string): set<string> {
    var trimmed := Trim(search);
    match DigitsOf(trimmed)
    case None => {trimmed}
    case Some(digits) => {trimmed, "GP" + digits, "GP-" + digits}
  }

  /** The text is GP in any case, a hyphen or none, and then these digits. */
  ghost predicate IsSpelling(t: string, digits: string) {
    && digits != "" && AllDigits(digits)
    && exists g, p ::
         g in {'G', 'g'} && p in {'P', 'p'} && (t == [g, p] + digits || t == [g, p] + "-" + digits)
  }

  lemma RecognisedIsSpelling(t: string)
    requires DigitsOf(t).Some?
    ensures IsSpelling(t, DigitsOf(t).value)
  {
    var g, p := t[0], t[1];
    assert t == [g, p] + t[2..];
    assert IsHyphenated(t) ==> t == [g, p] + "-" + t[3..];
    assert g in {'G', 'g'} && p in {'P', 'p'};
  }

  lemma SpellingIsRecognised(t: string, digits: string)
    requires IsSpelling(t, digits)
    ensures DigitsOf(t) == Some(digits)
  {
    var g, p :| g in {'G', 'g'} && p in {'P', 'p'} && (t == [g, p] + digits || t == [g, p] + "-" + digits);
    if t == [g, p] + digits {
      assert t[2] == digits[0] && t[2..] == digits;
    } else {
      assert t[2] == '-' && t[3..] == digits;
    }
  }

  /** Exactly the spellings of codes are recognised, each with its digits. */
  lemma DigitsOfIff(t: string, digits: string)
    ensures DigitsOf(t) == Some(digits) <==> IsSpelling(t, digits)
  {
    if DigitsOf(t) == Some(digits) {
      RecognisedIsSpelling(t);
    }
    if IsSpelling(t, digits) {
      SpellingIsRecognised(t, digits);
    }
    hide DigitsOf, IsSpelling;
  }

  /** A code is valid exactly when it is a spelling with at least four digits, apart from outer white space. */
  lemma ValidIff(code: string)
    ensures IsValidVendorCode(code) <==> exists digits :: IsSpelling(Trim(code), digits) && |digits| >= 4
  {
    if IsValidVendorCode(code) {
      DigitsOfIff(Trim(code), DigitsOf(Trim(code)).value);
    }
    if digits :| IsSpelling(Trim(code), digits) && |digits| >= 4 {
      DigitsOfIff(Trim(code), digits);
    }
  }

  /** Any other text is searched for as it was typed, and shown so, but for outer white space. */
  lemma OtherTextsAreKept(text: string)
    requires forall digits :: !IsSpelling(Trim(text), digits)
    ensures VendorCodeSearchTerms(text) == {Trim(text)}
    ensures Trim(text) != "" ==> FormatVendorCodeDisplay(Some(text)) == Some(Trim(text))
    ensures Trim(text) == "" ==> FormatVendorCodeDisplay(Some(text)) == Some(text)
  {
    if DigitsOf(Trim(text)).Some? {
      DigitsOfIff(Trim(text), DigitsOf(Trim(text)).value);
    }
  }

  // ---------- round trips

  /** GP and a hyphen before digits: nothing to trim, and the digits are found again. */
  lemma HyphenatedForm(digits: string)
    requires digits != "" && AllDigits(digits)
    ensures Trim("GP-" + digits) == "GP-" + digits
    ensures DigitsOf("GP-" + digits) == Some(digits) && IsHyphenated("GP-" + digits)
    ensures Upper("GP-" + digits) == "GP-" + digits
  {
    var t := "GP-" + digits;
    assert t[|t| - 1] == digits[|digits| - 1];
    assert !IsSpace(t[0]) && !IsSpace(t[|t| - 1]);
    TrimTrims(t);
    assert t[3..] == digits;
    forall i | 0 <= i < |t| ensures Upper(t)[i] == t[i] {
      if i >= 3 {
        assert t[i] == digits[i - 3];
      }
    }
  }

  /** The legacy form without a hyphen. */
  lemma LegacyForm(digits: string)
    requires digits != "" && AllDigits(digits)
    ensures Trim("GP" + digits) == "GP" + digits
    ensures DigitsOf("GP" + digits) == Some(digits) && !IsHyphenated("GP" + digits)
  {
    var t := "GP" + digits;
    assert t[|t| - 1] == digits[|digits| - 1] && t[2] == digits[0];
    assert !IsSpace(t[0]) && !IsSpace(t[|t| - 1]);
    TrimTrims(t);
    assert t[2..] == digits;
  }

  /** A formatted number parses back to itself exactly from 1000 on, where the sequence starts. */
  lemma ParseFormatIff(n: nat)
    ensures ParseVendorCodeNumber(FormatVendorCode(n)) == (if n >= 1000 then Some(n) else None)
  {
    ParseDecDec(n);
    DecLengthIs(n);
    HyphenatedForm(Dec(n));
    assert FormatVendorCode(n) == "GP-" + Dec(n);
  }

  lemma UpperOfHyphenated(t: string)
    requires DigitsOf(t).Some? && IsHyphenated(t)
    ensures Upper(t) == "GP-" + DigitsOf(t).value
  {
    var digits := DigitsOf(t).value;
    assert |Upper(t)| == |"GP-" + digits|;
    forall i | 0 <= i < |t| ensures Upper(t)[i] == ("GP-" + digits)[i] {
      if i >= 3 {
        assert t[i] == digits[i - 3];
      }
    }
  }

  function ShownDigits(t: string): string
    requires DigitsOf(t).Some?
  {
    if IsHyphenated(t) then DigitsOf(t).value else Dec(ParseDec(DigitsOf(t).value))
  }

  /** What is displayed for a text with digits is GP, a hyphen and digits. */
  lemma DisplayIsHyphenated(code: string)
    requires DigitsOf(Trim(code)).Some?
    ensures FormatVendorCodeDisplay(Some(code)) == Some("GP-" + ShownDigits(Trim(code)))
  {
    var digits := DigitsOf(Trim(code)).value;
    if IsHyphenated(Trim(code)) {
      UpperOfHyphenated(Trim(code));
    } else {
      assert FormatVendorCode(ParseDec(digits)) == "GP-" + Dec(ParseDec(digits));
    }
  }

  /** Displaying what is displayed changes nothing, for every text. */
  lemma DisplayIsIdempotent(code: Option<string>)
    ensures FormatVendorCodeDisplay(FormatVendorCodeDisplay(code)) == FormatVendorCodeDisplay(code)
  {
    if code.Some? {
      TrimTrims(code.value);
      TrimTrims(Trim(code.value));
      if DigitsOf(Trim(code.value)).Some? {
        var digits := DigitsOf(Trim(code.value)).value;
        DisplayIsHyphenated(code.value);
        ParseDecDec(ParseDec(digits));
        HyphenatedForm(digits);
        HyphenatedForm(Dec(ParseDec(digits)));
      }
    }
  }

  /**
   Display keeps the number of a valid code exactly when the code is hyphenated or its number is at
   least 1000: a legacy code with leading zeros loses them, and then has too few digits to be valid.
   */
  lemma DisplayKeepsNumberIff(code: string)
    requires IsValidVendorCode(code)
    ensures ParseVendorCodeNumber(FormatVendorCodeDisplay(Some(code)).value) == ParseVendorCodeNumber(code)
       <==> IsHyphenated(Trim(code)) || ParseVendorCodeNumber(code).value >= 1000
  {
    var digits := DigitsOf(Trim(code)).value;
    DisplayIsHyphenated(code);
    if IsHyphenated(Trim(code)) {
      HyphenatedForm(digits);
    } else {
      ParseFormatIff(ParseDec(digits));
      assert FormatVendorCode(ParseDec(digits)) == "GP-" + Dec(ParseDec(digits));
    }
  }

  /**
   Searching for a code in any spelling, padded or not and in any case, searches for what was typed and
   for both spellings; and searching for either of these searches for exactly the two.
   */
  lemma BothSpellingsAreSearched(search: string, digits: string)
    requires IsSpelling(Trim(search), digits)
    ensures VendorCodeSearchTerms(search) == {Trim(search), "GP" + digits, "GP-" + digits}
    ensures VendorCodeSearchTerms("GP" + digits) == {"GP" + digits, "GP-" + digits}
    ensures VendorCodeSearchTerms("GP-" + digits) == {"GP" + digits, "GP-" + digits}
  {
    DigitsOfIff(Trim(search), digits);
    LegacyForm(digits);
    HyphenatedForm(digits);
  }
}
