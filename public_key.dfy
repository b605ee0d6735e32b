/**
 * The public key of records/utils.py: the Aadhaar number followed by the date
 * of birth written as day, month and year (`%d%m%Y`).
 */
module PublicKey {
  import opened Decimal

  /** A calendar date, as Python's `datetime.date` holds it. */
  datatype Date = Date(year: nat, month: nat, day: nat)

  predicate IsLeap(year: nat) {
    year % 4 == 0 && (year % 100 != 0 || year % 400 == 0)
  }

  function DaysIn(year: nat, month: nat): nat
    requires 1 <= month <= 12
  {
    if month == 2 then (if IsLeap(year) then 29 else 28)
    else if month == 4 || month == 6 || month == 9 || month == 11 then 30
    else 31
  }

  /** The dates `datetime.date` accepts. */
  predicate ValidDate(d: Date) {
    1 <= d.year <= 9999 && 1 <= d.month <= 12 && 1 <= d.day <= DaysIn(d.year, d.month)
  }

  /** `dob.strftime('%d%m%Y')`: two-digit day and month; the year in decimal without padding. */
  function DobString(dob: Date): string {
    ZeroPadded(dob.day, 2) + ZeroPadded(dob.month, 2) + Digits(dob.year)
  }

  /** `generate_public_key`: the Aadhaar number, then the date of birth. */
  function GeneratePublicKey(aadhar: string, dob: Date): string {
    aadhar + DobString(dob)
  }

  /** Reading a date back from the eight characters `DDMMYYYY`. */
  function DecodeDob(s: string): Date
    requires |s| == 8 && AllDigits(s)
  {
    Date(ParseDigits(s[4..]), ParseDigits(s[2..4]), ParseDigits(s[..2]))
  }

  /** A valid date with a four-digit year is written in exactly eight digits. */
  lemma DobStringShape(dob: Date)
    requires ValidDate(dob) && dob.year >= 1000
    ensures |DobString(dob)| == 8 && AllDigits(DobString(dob))
    ensures DobString(dob)[..2] == ZeroPadded(dob.day, 2)
    ensures DobString(dob)[2..4] == ZeroPadded(dob.month, 2)
    ensures DobString(dob)[4..] == Digits(dob.year)
  {
    DigitsLength(dob.day);
    DigitsLength(dob.month);
    DigitsLength(dob.year);
  }

  /** The date can be read back from the last eight characters of the key. */
  lemma DobRoundTrip(dob: Date)
    requires ValidDate(dob) && dob.year >= 1000
    ensures |DobString(dob)| == 8 && AllDigits(DobString(dob))
    ensures DecodeDob(DobString(dob)) == dob
  {
    DobStringShape(dob);
    ZeroPaddedRoundTrip(dob.day, 2);
    ZeroPaddedRoundTrip(dob.month, 2);
    ParseDigitsOfDigits(dob.year);
  }

  /** The key starts with the Aadhaar number and ends with the eight date digits. */
  lemma KeyShape(aadhar: string, dob: Date)
    requires ValidDate(dob) && dob.year >= 1000
    ensures |GeneratePublicKey(aadhar, dob)| == |aadhar| + 8
    ensures GeneratePublicKey(aadhar, dob)[..|aadhar|] == aadhar
    ensures GeneratePublicKey(aadhar, dob)[|aadhar|..] == DobString(dob)
  {
    DobStringShape(dob);
  }

  /**
   * For dates with four-digit years, two keys agree only when both the
   * Aadhaar number and the date of birth agree.
   */
  lemma KeyInjective(a1: string, d1: Date, a2: string, d2: Date)
    requires ValidDate(d1) && d1.year >= 1000 && ValidDate(d2) && d2.year >= 1000
    requires GeneratePublicKey(a1, d1) == GeneratePublicKey(a2, d2)
    ensures a1 == a2 && d1 == d2
  {
    KeyShape(a1, d1);
    KeyShape(a2, d2);
    DobRoundTrip(d1);
    DobRoundTrip(d2);
  }

  /**
   * Without the year width the key is ambiguous: the same key arises from a
   * different Aadhaar number together with a year below 1000.
   */
  lemma ShortYearCollides()
    ensures GeneratePublicKey("1", Date(1111, 11, 11)) == GeneratePublicKey("11", Date(111, 11, 11))
    ensures ValidDate(Date(1111, 11, 11)) && ValidDate(Date(111, 11, 11))
  {
    assert ZeroPadded(11, 2) == "11";
    assert Digits(1111) == "1111";
    assert Digits(111) == "111";
  }
}
