/**
 * `UserValidator` (employee/validate_user.py): the field rules of the user
 * schema as character-class predicates, the `DD/MM/YYYY` birthday with the
 * at-least-18 rule, the result of `validate`, and `get_error_message`.
 * The regular expressions are read with ASCII classes; `today` is a parameter.
 */
module UserValidation {

  import opened Wrappers
  import opened Text
  import opened Sequences
  import opened Values

  // ---------------------------------------------------------------- dates

  datatype Date = Date(year: int, month: int, day: int)

  predicate IsLeapYear(year: int) {
    year % 4 == 0 && (year % 100 != 0 || year % 400 == 0)
  }

  function DaysInMonth(month: int, year: int): int {
    if month == 2 then (if IsLeapYear(year) then 29 else 28)
    else if month == 4 || month == 6 || month == 9 || month == 11 then 30
    else 31
  }

  /** A date `datetime` accepts: a year from 1 to 9999 and a day that exists in its month. */
  predicate ValidDate(d: Date) {
    1 <= d.year <= 9999 && 1 <= d.month <= 12 && 1 <= d.day <= DaysInMonth(d.month, d.year)
  }

  /** `a` is not later than `b`, comparing (year, month, day) in that order. */
  predicate NotAfter(a: Date, b: Date) {
    a.year < b.year || (a.year == b.year && (a.month < b.month || (a.month == b.month && a.day <= b.day)))
  }

  function Digit(c: char): int {
    c as int - '0' as int
  }

  /** `%d` of `strptime`: `3[01]|[12]\d|0[1-9]|[1-9]| [1-9]`. */
  function DayField(t: string): (r: Option<int>)
    ensures r.Some? ==> 1 <= r.value <= 31
  {
    if |t| == 1 && '1' <= t[0] <= '9' then Some(Digit(t[0]))
    else if |t| == 2 && (t[0] == '0' || t[0] == ' ') && '1' <= t[1] <= '9' then Some(Digit(t[1]))
    else if |t| == 2 && (t[0] == '1' || t[0] == '2') && IsDigit(t[1]) then Some(10 * Digit(t[0]) + Digit(t[1]))
    else if |t| == 2 && t[0] == '3' && (t[1] == '0' || t[1] == '1') then Some(30 + Digit(t[1]))
    else None
  }

  /** `%m` of `strptime`: `1[0-2]|0[1-9]|[1-9]`. */
  function MonthField(t: string): (r: Option<int>)
    ensures r.Some? ==> 1 <= r.value <= 12
  {
    if |t| == 1 && '1' <= t[0] <= '9' then Some(Digit(t[0]))
    else if |t| == 2 && t[0] == '0' && '1' <= t[1] <= '9' then Some(Digit(t[1]))
    else if |t| == 2 && t[0] == '1' && '0' <= t[1] <= '2' then Some(10 + Digit(t[1]))
    else None
  }

  /** `%Y` of `strptime`: exactly four digits. */
  function YearField(t: string): (r: Option<int>)
    ensures r.Some? ==> 0 <= r.value <= 9999
  {
    if |t| == 4 && All(t, IsDigit) then Some(1000 * Digit(t[0]) + 100 * Digit(t[1]) + 10 * Digit(t[2]) + Digit(t[3]))
    else None
  }

  predicate IsSlash(c: char) {
    c == '/'
  }

  /** The date three `strptime` fields name, when all three parse and the date exists. */
  function FromFields(day: string, month: string, year: string): (r: Option<Date>)
    ensures r.Some? ==> ValidDate(r.value)
  {
    match (DayField(day), MonthField(month), YearField(year))
    case (Some(d), Some(m), Some(y)) =>
      if ValidDate(Date(y, m, d)) then Some(Date(y, m, d)) else None
    case _ => None
  }

  /**
   * `datetime.strptime(s, "%d/%m/%Y")`: none of the three fields can hold a
   * slash, so the string must be day, slash, month, slash, year and nothing
   * more, and the three numbers must name a real date.
   */
  function ParseBirthday(s: string): (r: Option<Date>)
    ensures r.Some? ==> ValidDate(r.value)
  {
    match FirstIndex(s, IsSlash)
    case None => None
    case Some(i) =>
      var rest := s[i + 1..];
      match FirstIndex(rest, IsSlash)
      case None => None
      case Some(j) => FromFields(s[..i], rest[..j], rest[j + 1..])
  }

  /** A string with its first two slashes at `i` and `i + 1 + j` parses as the three fields between them. */
  lemma ParseAt(s: string, i: nat, j: nat)
    requires i + 1 + j < |s| && s[i] == '/' && s[i + 1 + j] == '/'
    requires forall k :: 0 <= k < i ==> s[k] != '/'
    requires forall k :: i < k < i + 1 + j ==> s[k] != '/'
    ensures ParseBirthday(s) == FromFields(s[..i], s[i + 1..i + 1 + j], s[i + 2 + j..])
  {
    var rest := s[i + 1..];
    assert FirstIndex(s, IsSlash) == Some(i) by {
      var r := FirstIndex(s, IsSlash);
      assert IsSlash(s[i]);
      assert r.Some? && r.value <= i;
    }
    assert FirstIndex(rest, IsSlash) == Some(j) by {
      var r := FirstIndex(rest, IsSlash);
      assert IsSlash(rest[j]);
      assert forall k :: 0 <= k < j ==> rest[k] == s[i + 1 + k];
      assert r.Some? && r.value <= j;
    }
    assert rest[..j] == s[i + 1..i + 1 + j];
    assert rest[j + 1..] == s[i + 2 + j..];
  }

  function DigitChar(n: int): char
    requires 0 <= n <= 9
  {
    ('0' as int + n) as char
  }

  function TwoDigits(n: int): string
    requires 0 <= n <= 99
  {
    [DigitChar(n / 10), DigitChar(n % 10)]
  }

  function FourDigits(n: int): string
    requires 0 <= n <= 9999
  {
    TwoDigits(n / 100) + TwoDigits(n % 100)
  }

  /** A date written `DD/MM/YYYY`, as the prompts ask for it. */
  function FormatDate(d: Date): string
    requires ValidDate(d)
  {
    TwoDigits(d.day) + "/" + TwoDigits(d.month) + "/" + FourDigits(d.year)
  }

  lemma DayFieldOfTwoDigits(n: int)
    requires 1 <= n <= 31
    ensures DayField(TwoDigits(n)) == Some(n)
  {
  }

  lemma MonthFieldOfTwoDigits(n: int)
    requires 1 <= n <= 12
    ensures MonthField(TwoDigits(n)) == Some(n)
  {
  }

  lemma TwoDigitsValue(n: int)
    requires 0 <= n <= 99
    ensures |TwoDigits(n)| == 2 && IsDigit(TwoDigits(n)[0]) && IsDigit(TwoDigits(n)[1])
    ensures 10 * Digit(TwoDigits(n)[0]) + Digit(TwoDigits(n)[1]) == n
  {
  }

  lemma YearFieldOfFourDigits(n: int)
    requires 0 <= n <= 9999
    ensures YearField(FourDigits(n)) == Some(n)
  {
    var hi, lo := TwoDigits(n / 100), TwoDigits(n % 100);
    TwoDigitsValue(n / 100);
    TwoDigitsValue(n % 100);
    var t := FourDigits(n);
    assert t[0] == hi[0] && t[1] == hi[1] && t[2] == lo[0] && t[3] == lo[1];
    assert All(t, IsDigit);
    var a, b := Digit(hi[0]), Digit(hi[1]);
    assert 1000 * a + 100 * b == 100 * (10 * a + b);
    assert n == 100 * (n / 100) + n % 100;
  }

  /** Every real date, written `DD/MM/YYYY`, parses back to itself. */
  lemma ParseFormattedDate(d: Date)
    requires ValidDate(d)
    ensures ParseBirthday(FormatDate(d)) == Some(d)
  {
    var s := FormatDate(d);
    var dd, mm, yy := TwoDigits(d.day), TwoDigits(d.month), FourDigits(d.year);
    assert s == dd + "/" + mm + "/" + yy;
    TwoDigitsValue(d.day);
    TwoDigitsValue(d.month);
    ParseAt(s, 2, 2);
    assert s[..2] == dd && s[3..5] == mm && s[6..] == yy;
    DayFieldOfTwoDigits(d.day);
    MonthFieldOfTwoDigits(d.month);
    YearFieldOfFourDigits(d.year);
  }

  /** `today.year - birth.year - ((today.month, today.day) < (birth.month, birth.day))`. */
  function Age(birth: Date, today: Date): int {
    today.year - birth.year - (if today.month < birth.month || (today.month == birth.month && today.day < birth.day) then 1 else 0)
  }

  /** The age reaches 18 exactly when the eighteenth anniversary of the birth date is not after today. */
  lemma AdultIff(birth: Date, today: Date)
    ensures Age(birth, today) >= 18 <==> NotAfter(Date(birth.year + 18, birth.month, birth.day), today)
  {
  }

  const InvalidBirthdayMessage: string := "Invalid birthday format. Use DD/MM/YYYY."
  const UnderageMessage: string := "User must be at least 18 years old."

  /**
   * `validate_birthday(birthday)`: TypeError for a value that is not a
   * string, ValidationError when it is not a real `DD/MM/YYYY` date, and
   * ValidationError when the user is not yet 18 on `today`.
   */
  function ValidateBirthday(birthday: Value, today: Date): (r: Outcome<Exception>)
    ensures r.Pass? <==>
      && birthday.Str?
      && ParseBirthday(birthday.s).Some?
      && var b := ParseBirthday(birthday.s).value;
         NotAfter(Date(b.year + 18, b.month, b.day), today)
    ensures !birthday.Str? ==> r == Fail(TypeError)
    ensures birthday.Str? && ParseBirthday(birthday.s).None? ==> r == Fail(ValidationError(InvalidBirthdayMessage))
    ensures birthday.Str? && ParseBirthday(birthday.s).Some? && r.Fail? ==> r == Fail(ValidationError(UnderageMessage))
  {
    if !birthday.Str? then Fail(TypeError)
    else match ParseBirthday(birthday.s)
      case None => Fail(ValidationError(InvalidBirthdayMessage))
      case Some(b) =>
        AdultIff(b, today);
        if Age(b, today) < 18 then Fail(ValidationError(UnderageMessage)) else Pass
  }

  lemma BirthdayExamplesFields()
    ensures FromFields("15", "05", "2000") == Some(Date(2000, 5, 15))
    ensures FromFields("29", "02", "2000") == Some(Date(2000, 2, 29))
  {
    assert All("2000", IsDigit);
    assert YearField("2000") == Some(2000);
    assert DayField("15") == Some(15) && MonthField("05") == Some(5);
    assert DayField("29") == Some(29) && MonthField("02") == Some(2);
  }

  lemma BirthdayExamplesParse()
    ensures ParseBirthday("15/05/2000") == Some(Date(2000, 5, 15))
    ensures ParseBirthday("29/02/2000") == Some(Date(2000, 2, 29))
  {
    BirthdayExamplesFields();
    var s := "15/05/2000";
    ParseDDMMYYYY(s);
    assert s[..2] == "15" && s[3..5] == "05" && s[6..] == "2000";
    var t := "29/02/2000";
    ParseDDMMYYYY(t);
    assert t[..2] == "29" && t[3..5] == "02" && t[6..] == "2000";
  }

  /** On the eighteenth birthday the check passes; the day before it fails. */
  lemma EighteenthBirthday()
    ensures ValidateBirthday(Str("15/05/2000"), Date(2018, 5, 15)) == Pass
    ensures ValidateBirthday(Str("15/05/2000"), Date(2018, 5, 14)) == Fail(ValidationError(UnderageMessage))
  {
    BirthdayExamplesParse();
  }

  /** Someone born on 29 February is an adult from 1 March of the eighteenth year, not on 28 February. */
  lemma LeapDayBirthday()
    ensures ValidateBirthday(Str("29/02/2000"), Date(2018, 2, 28)) == Fail(ValidationError(UnderageMessage))
    ensures ValidateBirthday(Str("29/02/2000"), Date(2018, 3, 1)) == Pass
  {
    BirthdayExamplesParse();
  }

  /** The three fields of a `DD/MM/YYYY` string. */
  lemma ParseDDMMYYYY(s: string)
    requires |s| == 10 && s[2] == '/' && s[5] == '/'
    requires s[0] != '/' && s[1] != '/' && s[3] != '/' && s[4] != '/'
    ensures ParseBirthday(s) == FromFields(s[..2], s[3..5], s[6..])
  {
    ParseAt(s, 2, 2);
  }

  lemma DayOutOfRangeParse()
    ensures ParseBirthday("32/12/2000") == None
  {
    var s := "32/12/2000";
    ParseDDMMYYYY(s);
    assert s[..2] == "32";
    assert DayField("32") == None;
  }

  /** A day past the end of every month is not a date. */
  lemma DayOutOfRange(today: Date)
    ensures ValidateBirthday(Str("32/12/2000"), today) == Fail(ValidationError(InvalidBirthdayMessage))
  {
    DayOutOfRangeParse();
  }

  lemma NoLeapDayFields()
    ensures FromFields("29", "02", "2001") == None
  {
    assert All("2001", IsDigit);
    assert YearField("2001") == Some(2001);
    assert DayField("29") == Some(29) && MonthField("02") == Some(2);
    assert !ValidDate(Date(2001, 2, 29));
  }

  lemma NoLeapDayParse()
    ensures ParseBirthday("29/02/2001") == None
  {
    var s := "29/02/2001";
    ParseDDMMYYYY(s);
    assert s[..2] == "29" && s[3..5] == "02" && s[6..] == "2001";
    NoLeapDayFields();
  }

  /** 29 February exists only in leap years. */
  lemma NoLeapDayIn2001(today: Date)
    ensures ValidateBirthday(Str("29/02/2001"), today) == Fail(ValidationError(InvalidBirthdayMessage))
  {
    NoLeapDayParse();
  }

  /** Another separator than the slash, or a value that is not a string, is refused. */
  lemma NotSlashSeparated(today: Date)
    ensures ValidateBirthday(Str("01.01.1990"), today) == Fail(ValidationError(InvalidBirthdayMessage))
    ensures ValidateBirthday(Null, today) == Fail(TypeError)
  {
    NotSlashSeparatedParse();
  }

  lemma NotSlashSeparatedParse()
    ensures ParseBirthday("01.01.1990") == None
  {
    var s := "01.01.1990";
    assert forall k :: 0 <= k < |s| ==> !IsSlash(s[k]);
  }

  // ---------------------------------------------------------- field rules

  predicate IsLetterOrSpace(c: char) {
    IsLetter(c) || c == ' '
  }

  /** The body of `^[a-zA-Z]+(?: [a-zA-Z]+)*$`: a run of letters, then a single space and the same again, or the end. */
  predicate NameWords(s: string)
    decreases |s|
  {
    exists k :: 1 <= k <= |s| && All(s[..k], IsLetter) && (k == |s| || (s[k] == ' ' && NameWords(s[k + 1..])))
  }

  /** Letters and spaces only, no space at either end, and never two spaces in a row. */
  predicate SingleSpacedWords(s: string) {
    && |s| > 0
    && All(s, IsLetterOrSpace)
    && s[0] != ' ' && s[|s| - 1] != ' '
    && forall i :: 0 <= i < |s| - 1 && s[i] == ' ' ==> s[i + 1] != ' '
  }

  lemma {:induction false} NameWordsAreSingleSpaced(s: string)
    requires NameWords(s)
    ensures SingleSpacedWords(s)
    decreases |s|
  {
    var k :| 1 <= k <= |s| && All(s[..k], IsLetter) && (k == |s| || (s[k] == ' ' && NameWords(s[k + 1..])));
    forall i | 0 <= i < k
      ensures IsLetter(s[i])
    {
      assert s[..k][i] == s[i];
    }
    if k < |s| {
      var rest := s[k + 1..];
      NameWordsAreSingleSpaced(rest);
      forall i | k < i < |s|
        ensures s[i] == rest[i - k - 1]
      {
      }
      assert All(s, IsLetterOrSpace) by {
        forall i | 0 <= i < |s|
          ensures IsLetterOrSpace(s[i])
        {
          if k < i {
            assert IsLetterOrSpace(rest[i - k - 1]);
          }
        }
      }
      forall i | 0 <= i < |s| - 1 && s[i] == ' '
        ensures s[i + 1] != ' '
      {
        if k < i {
          assert rest[i - k - 1] == ' ';
        }
      }
    }
  }

  lemma {:induction false} SingleSpacedAreNameWords(s: string)
    requires SingleSpacedWords(s)
    ensures NameWords(s)
    decreases |s|
  {
    match FirstIndex(s, (c: char) => c == ' ')
    case None =>
      assert s[..|s|] == s;
      assert All(s[..|s|], IsLetter) by {
        forall i | 0 <= i < |s| ensures IsLetter(s[i]) {
          assert IsLetterOrSpace(s[i]);
        }
      }
    case Some(k) =>
      var rest := s[k + 1..];
      assert forall i :: 0 <= i < |rest| ==> rest[i] == s[i + k + 1];
      assert SingleSpacedWords(rest);
      SingleSpacedAreNameWords(rest);
      assert All(s[..k], IsLetter) by {
        forall i | 0 <= i < k ensures IsLetter(s[..k][i]) {
          assert IsLetterOrSpace(s[i]);
        }
      }
  }

  /** The name rule says exactly: letter-only words separated by single spaces. */
  lemma NameWordsIff(s: string)
    ensures NameWords(s) <==> SingleSpacedWords(s)
  {
    if NameWords(s) {
      NameWordsAreSingleSpaced(s);
    }
    if SingleSpacedWords(s) {
      SingleSpacedAreNameWords(s);
    }
  }

  predicate NonSpace(c: char) {
    !IsSpace(c)
  }

  /** The body of `^\S+@\S+\.\w{2,4}$`. */
  predicate EmailBody(t: string) {
    exists i, j ::
      && 1 <= i && i + 1 < j < |t|
      && t[i] == '@' && t[j] == '.'
      && All(t[..i], NonSpace) && All(t[i + 1..j], NonSpace)
      && 2 <= |t| - j - 1 <= 4 && All(t[j + 1..], IsWordChar)
  }

  /** The body of `^(?=.*[A-Z])(?=.*[a-z])(?=.*\d).{8,}$`: `.` stops at a newline. */
  predicate PasswordBody(t: string) {
    && |t| >= 8
    && (forall i :: 0 <= i < |t| ==> t[i] != '\n')
    && Any(t, IsUpper) && Any(t, IsLower) && Any(t, IsDigit)
  }

  predicate IsPhoneSeparator(c: char) {
    c == '-' || c == '.' || IsSpace(c)
  }

  /**
   * The body of `^\+?\d{1,3}[-.\s]?\d{9,12}$`: after an optional plus, either
   * 10 to 15 digits, or 1 to 3 digits, one separator, and 9 to 12 digits.
   */
  predicate PhoneBody(t: string) {
    var u := if |t| > 0 && t[0] == '+' then t[1..] else t;
    || (10 <= |u| <= 15 && All(u, IsDigit))
    || exists k ::
         && 1 <= k <= 3 && k < |u| && All(u[..k], IsDigit) && IsPhoneSeparator(u[k])
         && 9 <= |u| - k - 1 <= 12 && All(u[k + 1..], IsDigit)
  }

  predicate IsStreetChar(c: char) {
    IsAlnum(c) || IsSpace(c) || c == '-' || c == '\''
  }

  /** The body of `^[a-zA-Z0-9\s\-\']+$`. */
  predicate StreetBody(t: string) {
    |t| > 0 && All(t, IsStreetChar)
  }

  predicate IsHouseNumberChar(c: char) {
    IsAlnum(c) || c == '-'
  }

  /** The body of `^\d{1,5}[a-zA-Z\d\-]*$`: the second class also takes digits, so one leading digit is what counts. */
  predicate HouseNumberBody(t: string) {
    |t| > 0 && IsDigit(t[0]) && All(t[1..], IsHouseNumberChar)
  }

  predicate IsCityChar(c: char) {
    IsLetter(c) || IsSpace(c) || c == '-'
  }

  /** The body of `^[a-zA-Z\s\-]+$`. */
  predicate CityBody(t: string) {
    |t| > 0 && All(t, IsCityChar)
  }

  predicate IsCountryChar(c: char) {
    IsLetter(c) || IsSpace(c)
  }

  /** The body of `^[a-zA-Z\s]+$`. */
  predicate CountryBody(t: string) {
    |t| > 0 && All(t, IsCountryChar)
  }

  /** The body of `^\d{5,8}$`. */
  predicate ZipBody(t: string) {
    5 <= |t| <= 8 && All(t, IsDigit)
  }

  /** The password rule on a single line: at least 8 characters, with an upper-case letter, a lower-case letter and a digit. */
  lemma PasswordRuleIff(s: string)
    requires forall i :: 0 <= i < |s| ==> s[i] != '\n'
    ensures EndAnchored(PasswordBody, s) <==> |s| >= 8 && Any(s, IsUpper) && Any(s, IsLower) && Any(s, IsDigit)
  {
    if |s| > 0 {
      assert s[|s| - 1] != '\n';
    }
  }

  /** A zip code is 5 to 8 digits, optionally followed by one newline. */
  lemma ZipRuleIff(s: string)
    ensures EndAnchored(ZipBody, s) <==>
      || (5 <= |s| <= 8 && All(s, IsDigit))
      || (6 <= |s| <= 9 && s[|s| - 1] == '\n' && All(s[..|s| - 1], IsDigit))
  {
    if |s| > 0 && All(s, IsDigit) {
      assert IsDigit(s[|s| - 1]);
    }
  }

  /** A name rule holds exactly for words of letters separated by single spaces (one final newline allowed). */
  lemma NameRuleIff(s: string)
    ensures EndAnchored(NameWords, s) <==>
      SingleSpacedWords(s) || (|s| > 0 && s[|s| - 1] == '\n' && SingleSpacedWords(s[..|s| - 1]))
  {
    NameWordsIff(s);
    if |s| > 0 {
      NameWordsIff(s[..|s| - 1]);
    }
  }

  // --------------------------------------------------------------- schema

  const SchemaFields: set<string> :=
    {"first_name", "last_name", "email", "password", "phone_number", "birthday", "address"}

  const AddressFields: set<string> := {"street", "house_number", "city", "country", "zip_code"}

  /** A `type: string` field with a `regex` rule. */
  predicate StringMatching(v: Value, body: string -> bool) {
    v.Str? && EndAnchored(body, v.s)
  }

  /** The nested `address` schema: a dict with exactly the five fields, each a string matching its rule. */
  predicate AddressValid(v: Value) {
    && v.Dict?
    && v.fields.Keys == AddressFields
    && StringMatching(v.fields["street"], StreetBody)
    && StringMatching(v.fields["house_number"], HouseNumberBody)
    && StringMatching(v.fields["city"], CityBody)
    && StringMatching(v.fields["country"], CountryBody)
    && StringMatching(v.fields["zip_code"], ZipBody)
  }

  /**
   * What the Cerberus validator accepts: every schema field present and no
   * other (unknown fields are refused by default), each of its type, and each
   * string matching its rule; the birthday only has to be a string.
   */
  predicate SchemaValid(data: Record) {
    && data.Keys == SchemaFields
    && StringMatching(data["first_name"], NameWords)
    && StringMatching(data["last_name"], NameWords)
    && StringMatching(data["email"], EmailBody)
    && StringMatching(data["password"], PasswordBody)
    && StringMatching(data["phone_number"], PhoneBody)
    && data["birthday"].Str?
    && AddressValid(data["address"])
  }

  /** How `validate` ends: with the data, on the interactive re-entry path, or with an exception. */
  datatype Verdict = Accepted(data: Record) | Reprompt | Raised(error: Exception)

  function BirthdayVerdict(data: Record, today: Date): (r: Verdict)
    ensures r.Accepted? ==> r.data == data
    ensures !r.Reprompt?
  {
    match ValidateBirthday(Get(data, "birthday"), today)
    case Fail(e) => Raised(e)
    case Pass => Accepted(data)
  }

  /**
   * `validate(data)` as written: `Validator.validate` returns True for valid
   * data, so `if not errors` runs the birthday check only for data the schema
   * refused, and then returns that data; valid data is returned unchecked.
   */
  function ValidateAsWritten(data: Record, today: Date): (r: Verdict)
    ensures SchemaValid(data) ==> r == Accepted(data)
    ensures !SchemaValid(data) ==> r == BirthdayVerdict(data, today)
  {
    if !SchemaValid(data) then BirthdayVerdict(data, today) else Accepted(data)
  }

  /**
   * `validate(data)` as evidently intended: data the schema accepts is
   * returned when the birthday check passes, and refused data goes to the
   * re-entry prompts.
   */
  function Validate(data: Record, today: Date): (r: Verdict)
    ensures r.Accepted? <==> SchemaValid(data) && ValidateBirthday(data["birthday"], today).Pass?
    ensures r.Accepted? ==> r.data == data
    ensures r.Reprompt? <==> !SchemaValid(data)
    ensures r.Raised? ==> r.error == ValidationError(InvalidBirthdayMessage) || r.error == ValidationError(UnderageMessage)
  {
    if SchemaValid(data) then BirthdayVerdict(data, today) else Reprompt
  }

  /** An accepted user is at least 18 on `today` and has a real `DD/MM/YYYY` birthday. */
  lemma AcceptedUserIsAdult(data: Record, today: Date)
    requires Validate(data, today).Accepted?
    ensures data["birthday"].Str? && ParseBirthday(data["birthday"].s).Some?
    ensures Age(ParseBirthday(data["birthday"].s).value, today) >= 18
  {
    AdultIff(ParseBirthday(data["birthday"].s).value, today);
  }

  /** A user the schema accepts, born on 1 January 2022. */
  const MinorUser: Record := map[
    "first_name" := Str("Ana"), "last_name" := Str("Gomez"), "email" := Str("ana@example.com"),
    "password" := Str("Password1"), "phone_number" := Str("+1234567890"), "birthday" := Str("01/01/2022"),
    "address" := Dict(map[
      "street" := Str("Main St"), "house_number" := Str("5A"), "city" := Str("Madrid"),
      "country" := Str("Spain"), "zip_code" := Str("28001")])]

  lemma MinorUserNamesValid()
    ensures StringMatching(MinorUser["first_name"], NameWords)
    ensures StringMatching(MinorUser["last_name"], NameWords)
  {
    assert MinorUser["first_name"] == Str("Ana") && MinorUser["last_name"] == Str("Gomez");
    assert All("Ana"[..3], IsLetter);
    assert All("Gomez"[..5], IsLetter);
  }

  lemma MinorUserEmailValid()
    ensures StringMatching(MinorUser["email"], EmailBody)
  {
    var e := "ana@example.com";
    assert MinorUser["email"] == Str(e);
    assert All(e[..3], NonSpace) && All(e[4..11], NonSpace) && All(e[12..], IsWordChar);
    assert e[3] == '@' && e[11] == '.' && |e| == 15;
  }

  lemma MinorUserPasswordAndPhoneValid()
    ensures StringMatching(MinorUser["password"], PasswordBody)
    ensures StringMatching(MinorUser["phone_number"], PhoneBody)
  {
    var p := "Password1";
    assert MinorUser["password"] == Str(p);
    assert IsUpper(p[0]) && IsLower(p[1]) && IsDigit(p[8]);
    assert MinorUser["phone_number"] == Str("+1234567890");
    assert All("+1234567890"[1..], IsDigit);
  }

  lemma MinorUserAddressValid()
    ensures AddressValid(MinorUser["address"])
  {
    assert HouseNumberBody("5A");
    assert All("Main St", IsStreetChar);
    assert All("Madrid", IsCityChar);
    assert All("Spain", IsCountryChar);
    assert All("28001", IsDigit);
  }

  lemma MinorUserSchemaValid()
    ensures SchemaValid(MinorUser)
  {
    assert MinorUser.Keys == SchemaFields;
    assert MinorUser["birthday"] == Str("01/01/2022");
    MinorUserNamesValid();
    MinorUserEmailValid();
    MinorUserPasswordAndPhoneValid();
    MinorUserAddressValid();
  }

  lemma MinorUserIsUnderage()
    ensures ValidateBirthday(Str("01/01/2022"), Date(2026, 10, 18)) == Fail(ValidationError(UnderageMessage))
  {
    var s := "01/01/2022";
    assert ParseBirthday(s) == Some(Date(2022, 1, 1)) by {
      ParseDDMMYYYY(s);
      assert s[..2] == "01" && s[3..5] == "01" && s[6..] == "2022";
      MinorUserBirthdayFields();
    }
  }

  lemma MinorUserBirthdayFields()
    ensures FromFields("01", "01", "2022") == Some(Date(2022, 1, 1))
  {
    assert All("2022", IsDigit);
    assert YearField("2022") == Some(2022);
    assert DayField("01") == Some(1) && MonthField("01") == Some(1);
  }

  /**
   * The discrepancy: on 18 October 2026 a schema-valid user born on 1 January
   * 2022 is accepted by `validate` as written, while the intended check
   * refuses the user as under 18.
   */
  lemma ValidateAcceptsMinor()
    ensures ValidateAsWritten(MinorUser, Date(2026, 10, 18)) == Accepted(MinorUser)
    ensures Validate(MinorUser, Date(2026, 10, 18)) == Raised(ValidationError(UnderageMessage))
  {
    MinorUserSchemaValid();
    MinorUserIsUnderage();
    assert Get(MinorUser, "birthday") == Str("01/01/2022");
  }

  /** As written, whatever the birthday, a schema-valid user is never refused. */
  lemma ValidateAsWrittenIgnoresAge(data: Record, today: Date)
    requires SchemaValid(data)
    ensures ValidateAsWritten(data, today).Accepted?
    ensures ValidateAsWritten(data, today).data == data
  {
  }

  // -------------------------------------------------------- error messages

  const ErrorMessages: map<string, string> := map[
    "first_name" := "First name should only contain letters and spaces.",
    "last_name" := "Last name should only contain letters and spaces.",
    "email" := "Email must follow the format: example@domain.com.",
    "password" := "Password must be at least 8 characters long, include at least one uppercase letter, one lowercase letter, and one digit.",
    "phone_number" := "Phone number must be in a valid format, such as +1234567890.",
    "birthday" := "Birthday must be in the format DD/MM/YYYY.",
    "address.street" := "Street name should only contain letters, numbers, and spaces.",
    "address.house_number" := "House number can contain numbers and letters.",
    "address.city" := "City name should only contain letters and spaces.",
    "address.country" := "Country name should only contain letters and spaces.",
    "address.zip_code" := "ZIP code must contain 5-8 digits."]

  /** `get_error_message(field, error)`: the table's message for a known field, the raw error otherwise. */
  function ErrorMessage(field: string, error: string): (r: string)
    ensures field in ErrorMessages ==> r == ErrorMessages[field]
    ensures field !in ErrorMessages ==> r == error
  {
    if field in ErrorMessages then ErrorMessages[field] else error
  }

  /**
   * Every top-level field but `address` has its own message, and an error
   * reported under `address` itself falls back to the raw error.
   */
  lemma ErrorMessageCoverage(error: string)
    ensures forall f :: f in SchemaFields && f != "address" ==> f in ErrorMessages && ErrorMessage(f, error) == ErrorMessages[f]
    ensures ErrorMessage("address", error) == error
  {
    forall f | f in SchemaFields && f != "address"
      ensures f in ErrorMessages
    {
      assert f == "first_name" || f == "last_name" || f == "email" || f == "password" || f == "phone_number" || f == "birthday";
    }
    assert "address" !in ErrorMessages;
  }

  /** The nested address fields have their messages under `address.<field>`. */
  lemma AddressMessagesKeyed()
    ensures forall f :: f in AddressFields ==> "address." + f in ErrorMessages
  {
    forall f | f in AddressFields
      ensures "address." + f in ErrorMessages
    {
      if f == "street" {
        assert "address." + f == "address.street";
      } else if f == "house_number" {
        assert "address." + f == "address.house_number";
      } else if f == "city" {
        assert "address." + f == "address.city";
      } else if f == "country" {
        assert "address." + f == "address.country";
      } else {
        assert "address." + f == "address.zip_code";
      }
    }
  }
}
