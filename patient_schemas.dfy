/** The request schemas for patients: the pydantic field constraints of
    `PatientCreate` and `PatientUpdate` and the two after-validators of
    `PatientBase`, which only ever see a value that has already passed its
    field's constraints. */
module PatientSchemas {
  import opened Wrappers
  import opened Text

  /** Why pydantic rejects one field. */
  datatype FieldError =
    | StringTooShort(minLength: nat)
    | StringTooLong(maxLength: nat)
    | PatternMismatch
    | ValueError(message: string)

  /** The fields the schemas validate. */
  datatype Field = NameField | DateOfBirthField

  const NameMinLength: nat := 1
  const NameMaxLength: nat := 100

  const MonthMessage: string := "Month must be between 1 and 12"
  const DayMessage: string := "Day must be between 1 and 31"
  const NameMessage: string := "Name cannot be empty or whitespace"

  function YearMessage(currentYear: int): string {
    "Year must be between 1900 and " + IntToString(currentYear)
  }

  // ---------------------------------------------------------------------
  // Date of birth

  /** The field pattern `^\d{4}-\d{2}-\d{2}$`: four digits, a dash, two
      digits, a dash, two digits and nothing else. */
  predicate DateShaped(s: string) {
    |s| == 10 && s[4] == '-' && s[7] == '-'
    && AllDigits(s[..4]) && AllDigits(s[5..7]) && AllDigits(s[8..])
  }

  /** `map(int, value.split("-"))` on a shaped value. */
  function YearOf(s: string): nat requires DateShaped(s) { DigitsValue(s[..4]) }
  function MonthOf(s: string): nat requires DateShaped(s) { DigitsValue(s[5..7]) }
  function DayOf(s: string): nat requires DateShaped(s) { DigitsValue(s[8..]) }

  /** `PatientBase.validate_date_of_birth` on a value the pattern admitted:
      the month is checked first, then the day, then the year; an accepted
      value comes back unchanged. */
  function ValidateDateOfBirth(value: string, currentYear: int): (r: Result<string, FieldError>)
    requires DateShaped(value)
  {
    var year := YearOf(value);
    var month := MonthOf(value);
    var day := DayOf(value);
    if !(1 <= month <= 12) then Err(ValueError(MonthMessage))
    else if !(1 <= day <= 31) then Err(ValueError(DayMessage))
    else if year < 1900 || year > currentYear then Err(ValueError(YearMessage(currentYear)))
    else Ok(value)
  }

  /** The whole `date_of_birth` field of `PatientCreate`: the pattern
      constraint, then the validator. */
  function CheckDateOfBirth(value: string, currentYear: int): (r: Result<string, FieldError>)
  {
    if !DateShaped(value) then Err(PatternMismatch)
    else ValidateDateOfBirth(value, currentYear)
  }

  /** The optional `date_of_birth` field of `PatientUpdate`: `None` passes
      untouched. */
  function CheckOptionalDateOfBirth(value: Option<string>, currentYear: int): (r: Result<Option<string>, FieldError>)
  {
    match value
    case None => Ok(None)
    case Some(v) =>
      match CheckDateOfBirth(v, currentYear)
      case Ok(w) => Ok(Some(w))
      case Err(e) => Err(e)
  }

  // ---------------------------------------------------------------------
  // Name

  /** `PatientBase.validate_name`: rejects an all-whitespace name and
      otherwise collapses every run of whitespace to one space. */
  function ValidateName(value: string): (r: Result<string, FieldError>)
  {
    if Strip(value) == [] then Err(ValueError(NameMessage))
    else Ok(Join(" ", Split(Strip(value))))
  }

  /** The whole `name` field: the length constraint on the raw text, then
      the validator. */
  function CheckName(value: string): (r: Result<string, FieldError>)
  {
    if |value| < NameMinLength then Err(StringTooShort(NameMinLength))
    else if |value| > NameMaxLength then Err(StringTooLong(NameMaxLength))
    else ValidateName(value)
  }

  /** The optional `name` field of `PatientUpdate`. */
  function CheckOptionalName(value: Option<string>): (r: Result<Option<string>, FieldError>)
  {
    match value
    case None => Ok(None)
    case Some(v) =>
      match CheckName(v)
      case Ok(w) => Ok(Some(w))
      case Err(e) => Err(e)
  }

  // ---------------------------------------------------------------------
  // Whole models

  /** A validated `PatientCreate`. */
  datatype PatientCreate = PatientCreate(name: string, dateOfBirth: string)

  /** A validated `PatientUpdate`; an absent field is one the client did
      not send or sent as null. */
  datatype PatientUpdate = PatientUpdate(name: Option<string>, dateOfBirth: Option<string>)

  /** Pydantic validates every field and reports all failing ones together,
      in field order. */
  function FieldErrors<T>(name: Result<T, FieldError>, dob: Result<T, FieldError>): seq<(Field, FieldError)>
  {
    (if name.Err? then [(NameField, name.error)] else [])
    + (if dob.Err? then [(DateOfBirthField, dob.error)] else [])
  }

  function ParsePatientCreate(name: string, dateOfBirth: string, currentYear: int)
    : (r: Result<PatientCreate, seq<(Field, FieldError)>>)
  {
    var n := CheckName(name);
    var d := CheckDateOfBirth(dateOfBirth, currentYear);
    if n.Ok? && d.Ok? then Ok(PatientCreate(n.value, d.value)) else Err(FieldErrors(n, d))
  }

  function ParsePatientUpdate(name: Option<string>, dateOfBirth: Option<string>, currentYear: int)
    : (r: Result<PatientUpdate, seq<(Field, FieldError)>>)
  {
    var n := CheckOptionalName(name);
    var d := CheckOptionalDateOfBirth(dateOfBirth, currentYear);
    if n.Ok? && d.Ok? then Ok(PatientUpdate(n.value, d.value)) else Err(FieldErrors(n, d))
  }

  // ---------------------------------------------------------------------
  // Properties of the date validator

  /** A shaped date is accepted exactly when its month, day and year are in
      range, and an accepted date is returned as it came. */
  lemma DateOfBirthAcceptance(value: string, currentYear: int)
    requires DateShaped(value)
    ensures ValidateDateOfBirth(value, currentYear).Ok? <==>
      1 <= MonthOf(value) <= 12 && 1 <= DayOf(value) <= 31 && 1900 <= YearOf(value) <= currentYear
    ensures ValidateDateOfBirth(value, currentYear).Ok? ==> ValidateDateOfBirth(value, currentYear).value == value
  {
  }

  /** Which error is reported: the month error whenever the month is out of
      range, the day error only for a good month, the year error only for a
      good month and day. */
  lemma DateOfBirthErrorOrder(value: string, currentYear: int)
    requires DateShaped(value)
    ensures ValidateDateOfBirth(value, currentYear) == Err(ValueError(MonthMessage)) <==> !(1 <= MonthOf(value) <= 12)
    ensures ValidateDateOfBirth(value, currentYear) == Err(ValueError(DayMessage)) <==>
      1 <= MonthOf(value) <= 12 && !(1 <= DayOf(value) <= 31)
    ensures ValidateDateOfBirth(value, currentYear) == Err(ValueError(YearMessage(currentYear))) <==>
      1 <= MonthOf(value) <= 12 && 1 <= DayOf(value) <= 31 && !(1900 <= YearOf(value) <= currentYear)
  {
    YearMessageDistinct(currentYear);
  }

  /** The three messages differ, so the message tells which check failed. */
  lemma YearMessageDistinct(currentYear: int)
    ensures YearMessage(currentYear) != MonthMessage && YearMessage(currentYear) != DayMessage
    ensures MonthMessage != DayMessage
  {
    assert YearMessage(currentYear)[0] == 'Y';
  }

  /** No calendar check: the 31st is accepted in every month, so
      "2001-02-31" passes. */
  lemma NoCalendarCheck(currentYear: int)
    requires currentYear >= 2001
    ensures DateShaped("2001-02-31")
    ensures CheckDateOfBirth("2001-02-31", currentYear) == Ok("2001-02-31")
  {
    var v := "2001-02-31";
    assert v[..4] == "2001" && v[5..7] == "02" && v[8..] == "31";
    assert "2001"[..3] == "200" && "200"[..2] == "20" && "20"[..1] == "2";
    assert "02"[..1] == "0" && "31"[..1] == "3";
    assert DigitsValue("2001") == 2001;
    assert DigitsValue("02") == 2;
    assert DigitsValue("31") == 31;
  }

  /** The year bounds are inclusive at both ends. */
  lemma YearBoundsInclusive(value: string, currentYear: int)
    requires DateShaped(value) && 1 <= MonthOf(value) <= 12 && 1 <= DayOf(value) <= 31
    ensures YearOf(value) == 1900 && currentYear >= 1900 ==> ValidateDateOfBirth(value, currentYear).Ok?
    ensures YearOf(value) == currentYear && currentYear >= 1900 ==> ValidateDateOfBirth(value, currentYear).Ok?
    ensures YearOf(value) == 1899 || YearOf(value) == currentYear + 1 ==>
      ValidateDateOfBirth(value, currentYear) == Err(ValueError(YearMessage(currentYear)))
  {
  }

  /** A value off the pattern never reaches the validator. */
  lemma PatternFirst(value: string, currentYear: int)
    ensures !DateShaped(value) <==> CheckDateOfBirth(value, currentYear) == Err(PatternMismatch)
  {
  }

  /** An absent optional field passes both validators unchanged. */
  lemma NonePasses(currentYear: int)
    ensures CheckOptionalName(None) == Ok(None)
    ensures CheckOptionalDateOfBirth(None, currentYear) == Ok(None)
    ensures ParsePatientUpdate(None, None, currentYear) == Ok(PatientUpdate(None, None))
  {
  }

  // ---------------------------------------------------------------------
  // Properties of the name validator

  /** A name is rejected by the validator exactly when it is empty or all
      whitespace, and then with the name message. */
  lemma NameRejectsBlank(value: string)
    ensures ValidateName(value).Err? <==> AllSpace(value)
    ensures ValidateName(value).Err? ==> ValidateName(value).error == ValueError(NameMessage)
  {
    StripShape(value);
  }

  /** An accepted name is normalised: it is single-spaced (so no whitespace
      at its ends and no two adjacent spaces), it has the same words in the
      same order as the input, and it is no longer than the input. */
  lemma NormalisedName(value: string)
    requires ValidateName(value).Ok?
    ensures SingleSpaced(ValidateName(value).value)
    ensures Unpadded(ValidateName(value).value)
    ensures forall i :: 0 <= i < |ValidateName(value).value| - 1 ==>
      !(ValidateName(value).value[i] == ' ' && ValidateName(value).value[i + 1] == ' ')
    ensures Split(ValidateName(value).value) == Split(value)
    ensures 0 < |ValidateName(value).value| <= |value|
  {
    var s := Strip(value);
    var r := Join(" ", Split(s));
    StripShape(value);
    SplitWords(s);
    JoinSingleSpaced(Split(s));
    SingleSpacedShape(r);
    SplitJoin(Split(s));
    SplitStrip(value);
    JoinSplitLength(s);
    NonBlankHasWord(s);
  }

  /** A string with a non-whitespace character has a word. */
  lemma {:induction false} NonBlankHasWord(s: string)
    requires !AllSpace(s)
    ensures Split(s) != []
    decreases |s|
  {
    if IsSpace(s[0]) {
      assert !AllSpace(s[1..]) by {
        var i :| 0 <= i < |s| && !IsSpace(s[i]);
        assert s[1..][i - 1] == s[i];
      }
      NonBlankHasWord(s[1..]);
    }
  }

  /** Normalising an already normalised name changes nothing. */
  lemma NameIdempotent(value: string)
    requires ValidateName(value).Ok?
    ensures ValidateName(ValidateName(value).value) == ValidateName(value)
  {
    var r := ValidateName(value).value;
    NormalisedName(value);
    StripUnpadded(r);
    SplitWords(Strip(value));
    SplitJoin(Split(Strip(value)));
  }

  /** The length limits apply to the raw text: a 101-character name is
      rejected even when its normal form would be short, and a single
      space passes the length check but not the validator. */
  lemma NameLengthOnRawText(value: string)
    ensures |value| > NameMaxLength ==> CheckName(value) == Err(StringTooLong(NameMaxLength))
    ensures value == [] ==> CheckName(value) == Err(StringTooShort(NameMinLength))
    ensures 1 <= |value| <= NameMaxLength ==> CheckName(value) == ValidateName(value)
  {
  }
}
