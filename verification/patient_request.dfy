/** The registration request (`PatientRegistrationRequest`) and its
    Bean Validation constraints. A missing (null) field is `None`. Each
    constraint other than a not-null/not-blank one accepts a missing value,
    as the Bean Validation validators do. */
module PatientRequest {
  import opened Wrappers
  import opened Text

  /** A calendar date, as a day number. */
  type Date = nat

  /** `AddressDTO`: five optional text fields. */
  datatype Address = Address(
    street: Option<string>,
    city: Option<string>,
    state: Option<string>,
    zipCode: Option<string>,
    country: Option<string>)

  datatype RegistrationRequest = RegistrationRequest(
    firstName: Option<string>,
    lastName: Option<string>,
    dateOfBirth: Option<Date>,
    gender: Option<string>,
    phoneNumber: Option<string>,
    email: Option<string>,
    password: Option<string>,
    address: Option<Address>,
    bloodGroup: Option<string>,
    medicalHistory: Option<string>,
    allergies: Option<string>)

  // ---------------------------------------------------------------------
  // @NotBlank: String.trim() leaves something
  // ---------------------------------------------------------------------

  /** `String.trim()` removes every leading and trailing character at or
      below the space character. */
  predicate IsTrimmed(c: char) { c <= ' ' }

  function TrimStart(s: string): string
  {
    if |s| == 0 || !IsTrimmed(s[0]) then s else TrimStart(s[1..])
  }

  function TrimEnd(s: string): string
  {
    if |s| == 0 || !IsTrimmed(s[|s| - 1]) then s else TrimEnd(s[..|s| - 1])
  }

  /** Trimming the front drops a prefix of characters at or below the space
      character and stops at one above it. */
  lemma {:induction false} TrimStartDropsPrefix(s: string)
    ensures var r := TrimStart(s);
      && |r| <= |s| && r == s[|s| - |r|..]
      && (|r| > 0 ==> !IsTrimmed(r[0]))
      && (forall i :: 0 <= i < |s| - |r| ==> IsTrimmed(s[i]))
  {
    if |s| > 0 && IsTrimmed(s[0]) {
      TrimStartDropsPrefix(s[1..]);
    }
  }

  /** Trimming the back drops a suffix of characters at or below the space
      character and stops at one above it. */
  lemma {:induction false} TrimEndDropsSuffix(s: string)
    ensures var r := TrimEnd(s);
      && |r| <= |s| && r == s[..|r|]
      && (|r| > 0 ==> !IsTrimmed(r[|r| - 1]))
      && (forall i :: |r| <= i < |s| ==> IsTrimmed(s[i]))
  {
    if |s| > 0 && IsTrimmed(s[|s| - 1]) {
      TrimEndDropsSuffix(s[..|s| - 1]);
    }
  }

  /** `String.trim()`. */
  function Trim(s: string): string
  {
    TrimEnd(TrimStart(s))
  }

  /** `@NotBlank`: present, and not empty once trimmed. */
  predicate NotBlank(o: Option<string>)
  {
    o.Some? && |Trim(o.value)| > 0
  }

  /** A string survives trimming exactly when one of its characters lies
      above the space character. */
  lemma {:induction false} TrimKeepsSomething(s: string)
    ensures |Trim(s)| > 0 <==> exists i :: 0 <= i < |s| && !IsTrimmed(s[i])
  {
    var front := TrimStart(s);
    var t := TrimEnd(front);
    TrimStartDropsPrefix(s);
    TrimEndDropsSuffix(front);
    if |t| > 0 {
      var k := |s| - |front|;
      assert front[0] == s[k];
      assert t[0] == front[0];
      assert !IsTrimmed(s[k]);
    }
    if exists i :: 0 <= i < |s| && !IsTrimmed(s[i]) {
      var i :| 0 <= i < |s| && !IsTrimmed(s[i]);
      var k := |s| - |front|;
      assert k <= i;
      assert front[i - k] == s[i];
      assert |t| > i - k;
    }
  }

  // ---------------------------------------------------------------------
  // @Pattern("^\+?[1-9]\d{1,14}$")
  // ---------------------------------------------------------------------

  /** The states of a left-to-right matcher for the phone pattern: nothing
      read, the optional '+' read, or `count` digits read. */
  datatype PhoneState = Start | Signed | Digits(count: nat)

  /** One step of the matcher; `None` is the dead state. */
  function PhoneStep(st: PhoneState, c: char): Option<PhoneState>
  {
    match st
    case Start => if c == '+' then Some(Signed) else if '1' <= c <= '9' then Some(Digits(1)) else None
    case Signed => if '1' <= c <= '9' then Some(Digits(1)) else None
    case Digits(n) => if IsDigit(c) && n < 15 then Some(Digits(n + 1)) else None
  }

  function PhoneRun(st: PhoneState, s: string): Option<PhoneState>
    decreases |s|
  {
    if |s| == 0 then Some(st)
    else match PhoneStep(st, s[0])
      case None => None
      case Some(next) => PhoneRun(next, s[1..])
  }

  /** The whole input is consumed and at least two digits were read. */
  predicate MatchesPhonePattern(s: string)
  {
    var end := PhoneRun(Start, s);
    end.Some? && end.value.Digits? && end.value.count >= 2
  }

  predicate AllDigits(s: string)
  {
    forall i :: 0 <= i < |s| ==> IsDigit(s[i])
  }

  /** A non-empty string is all digits when its head is a digit and its
      tail is all digits. */
  lemma AllDigitsSplit(s: string)
    requires |s| > 0
    ensures AllDigits(s) <==> IsDigit(s[0]) && AllDigits(s[1..])
  {
    if IsDigit(s[0]) && AllDigits(s[1..]) {
      forall i | 0 <= i < |s|
        ensures IsDigit(s[i])
      {
        if i > 0 {
          assert s[i] == s[1..][i - 1];
        }
      }
    }
  }

  /** The phone shape in words: an optional '+', then 2 to 15 digits of
      which the first is not '0'. */
  predicate PhoneShape(s: string)
  {
    var d := if |s| > 0 && s[0] == '+' then s[1..] else s;
    2 <= |d| <= 15 && '1' <= d[0] <= '9' && AllDigits(d)
  }

  /** After `n` digits, the matcher reads the rest exactly when it is all
      digits and the total stays within 15. */
  lemma {:induction false} DigitsRun(n: nat, s: string)
    requires n <= 15
    ensures PhoneRun(Digits(n), s) == if n + |s| <= 15 && AllDigits(s) then Some(Digits(n + |s|)) else None
    decreases |s|
  {
    if |s| > 0 {
      AllDigitsSplit(s);
      if IsDigit(s[0]) && n < 15 {
        DigitsRun(n + 1, s[1..]);
      }
    }
  }

  /** After the optional sign, the matcher accepts exactly 2 to 15 digits
      whose first is not '0'. */
  lemma UnsignedRun(st: PhoneState, d: string)
    requires st == Start || st == Signed
    requires |d| > 0 && d[0] != '+'
    ensures var end := PhoneRun(st, d);
            (end.Some? && end.value.Digits? && end.value.count >= 2)
            <==> 2 <= |d| <= 15 && '1' <= d[0] <= '9' && AllDigits(d)
  {
    AllDigitsSplit(d);
    if '1' <= d[0] <= '9' {
      DigitsRun(1, d[1..]);
    }
  }

  /** The matcher accepts exactly the strings of the phone shape. */
  lemma PhonePatternMatchesShape(s: string)
    ensures MatchesPhonePattern(s) <==> PhoneShape(s)
  {
    if |s| > 1 && s[0] == '+' {
      if s[1] == '+' {
        assert PhoneRun(Start, s) == PhoneRun(Signed, s[1..]);
      } else {
        UnsignedRun(Signed, s[1..]);
      }
    } else if |s| > 0 && s[0] != '+' {
      UnsignedRun(Start, s);
    } else if |s| == 1 {
      assert PhoneRun(Start, s) == PhoneRun(Signed, s[1..]);
    }
  }

  // ---------------------------------------------------------------------
  // The request's constraints
  // ---------------------------------------------------------------------

  datatype Violation =
    | FirstNameBlank | FirstNameSize
    | LastNameBlank | LastNameSize
    | DateOfBirthMissing | DateOfBirthNotPast
    | GenderBlank
    | PhoneBlank | PhonePattern
    | EmailBlank | EmailFormat
    | PasswordBlank | PasswordSize

  /** `@Size(min, max)`: a missing value passes. */
  predicate SizeWithin(o: Option<string>, min: nat, max: nat)
  {
    o.None? || min <= |o.value| <= max
  }

  /** Every kind of violation, each once. */
  const AllViolations: seq<Violation> := [
    FirstNameBlank, FirstNameSize, LastNameBlank, LastNameSize, DateOfBirthMissing, DateOfBirthNotPast,
    GenderBlank, PhoneBlank, PhonePattern, EmailBlank, EmailFormat, PasswordBlank, PasswordSize]

  /** The enumeration lists every kind of violation. */
  lemma ViolationsEnumerated()
    ensures forall v: Violation :: v in AllViolations
  {
    forall v: Violation
      ensures v in AllViolations
    {
      match v
      case FirstNameBlank => assert AllViolations[0] == v;
      case FirstNameSize => assert AllViolations[1] == v;
      case LastNameBlank => assert AllViolations[2] == v;
      case LastNameSize => assert AllViolations[3] == v;
      case DateOfBirthMissing => assert AllViolations[4] == v;
      case DateOfBirthNotPast => assert AllViolations[5] == v;
      case GenderBlank => assert AllViolations[6] == v;
      case PhoneBlank => assert AllViolations[7] == v;
      case PhonePattern => assert AllViolations[8] == v;
      case EmailBlank => assert AllViolations[9] == v;
      case EmailFormat => assert AllViolations[10] == v;
      case PasswordBlank => assert AllViolations[11] == v;
      case PasswordSize => assert AllViolations[12] == v;
    }
  }

  /** The request breaks the constraint `v` stands for. `isEmail` stands
      for the `@Email` check, which accepts a missing or empty value;
      `today` is the date `@Past` compares to. */
  predicate Breaks(req: RegistrationRequest, today: Date, isEmail: string -> bool, v: Violation)
  {
    match v
    case FirstNameBlank => !NotBlank(req.firstName)
    case FirstNameSize => !SizeWithin(req.firstName, 2, 50)
    case LastNameBlank => !NotBlank(req.lastName)
    case LastNameSize => !SizeWithin(req.lastName, 2, 50)
    case DateOfBirthMissing => req.dateOfBirth.None?
    case DateOfBirthNotPast => req.dateOfBirth.Some? && req.dateOfBirth.value >= today
    case GenderBlank => !NotBlank(req.gender)
    case PhoneBlank => !NotBlank(req.phoneNumber)
    case PhonePattern => req.phoneNumber.Some? && !MatchesPhonePattern(req.phoneNumber.value)
    case EmailBlank => !NotBlank(req.email)
    case EmailFormat => req.email.Some? && |req.email.value| > 0 && !isEmail(req.email.value)
    case PasswordBlank => !NotBlank(req.password)
    case PasswordSize => req.password.Some? && |req.password.value| < 8
  }

  /** Every constraint the request breaks, as Bean Validation reports them
      all at once. */
  function Violations(req: RegistrationRequest, today: Date, isEmail: string -> bool): (r: set<Violation>)
    ensures forall v :: v in r <==> Breaks(req, today, isEmail, v)
  {
    ViolationsEnumerated();
    set v | v in AllViolations && Breaks(req, today, isEmail, v)
  }

  /** `s` holds a character above the space character. */
  predicate Visible(s: string)
  {
    exists i :: 0 <= i < |s| && !IsTrimmed(s[i])
  }

  /** A required text field passes `@NotBlank` exactly when it is present
      with a character above the space character. */
  lemma NotBlankMeansVisible(o: Option<string>)
    ensures NotBlank(o) <==> o.Some? && Visible(o.value)
  {
    if o.Some? {
      TrimKeepsSomething(o.value);
    }
  }

  /** A string of the phone shape starts with a visible character. */
  lemma PhoneShapeIsVisible(s: string)
    requires PhoneShape(s)
    ensures Visible(s)
  {
    assert !IsTrimmed(s[0]);
  }

  /** A name as the constraints describe it: 2 to 50 characters, one of
      them above the space character. */
  predicate NameWellFormed(o: Option<string>)
  {
    o.Some? && 2 <= |o.value| <= 50 && Visible(o.value)
  }

  /** A gender as the constraints describe it: present, with a character
      above the space character. */
  predicate GenderWellFormed(o: Option<string>)
  {
    o.Some? && Visible(o.value)
  }

  /** A phone number as the constraints describe it. */
  predicate PhoneWellFormed(o: Option<string>)
  {
    o.Some? && PhoneShape(o.value)
  }

  /** An email as the constraints describe it: present, accepted by the
      email check, with a character above the space character. */
  predicate EmailWellFormed(o: Option<string>, isEmail: string -> bool)
  {
    o.Some? && Visible(o.value) && isEmail(o.value)
  }

  /** A password as the constraints describe it: at least 8 characters, one
      of them above the space character. */
  predicate PasswordWellFormed(o: Option<string>)
  {
    o.Some? && |o.value| >= 8 && Visible(o.value)
  }

  /** The request as the constraints describe it: both names well formed, a
      birth date before today, a gender, a phone of the phone shape, a
      well-formed email, and a password of at least 8 characters with a
      character above the space. */
  predicate WellFormed(req: RegistrationRequest, today: Date, isEmail: string -> bool)
  {
    && NameWellFormed(req.firstName) && NameWellFormed(req.lastName)
    && req.dateOfBirth.Some? && req.dateOfBirth.value < today
    && GenderWellFormed(req.gender)
    && PhoneWellFormed(req.phoneNumber)
    && EmailWellFormed(req.email, isEmail)
    && PasswordWellFormed(req.password)
  }

  /** None of the thirteen constraints is broken. */
  predicate NoneBroken(req: RegistrationRequest, today: Date, isEmail: string -> bool)
  {
    && !Breaks(req, today, isEmail, FirstNameBlank) && !Breaks(req, today, isEmail, FirstNameSize)
    && !Breaks(req, today, isEmail, LastNameBlank) && !Breaks(req, today, isEmail, LastNameSize)
    && !Breaks(req, today, isEmail, DateOfBirthMissing) && !Breaks(req, today, isEmail, DateOfBirthNotPast)
    && !Breaks(req, today, isEmail, GenderBlank)
    && !Breaks(req, today, isEmail, PhoneBlank) && !Breaks(req, today, isEmail, PhonePattern)
    && !Breaks(req, today, isEmail, EmailBlank) && !Breaks(req, today, isEmail, EmailFormat)
    && !Breaks(req, today, isEmail, PasswordBlank) && !Breaks(req, today, isEmail, PasswordSize)
  }

  /** No constraint is broken exactly when none of the thirteen is. */
  lemma NoBreaksIffNoneOfEach(req: RegistrationRequest, today: Date, isEmail: string -> bool)
    ensures (forall v :: !Breaks(req, today, isEmail, v)) <==> NoneBroken(req, today, isEmail)
  {
    if NoneBroken(req, today, isEmail) {
      forall v
        ensures !Breaks(req, today, isEmail, v)
      {
        match v
        case FirstNameBlank =>
        case FirstNameSize =>
        case LastNameBlank =>
        case LastNameSize =>
        case DateOfBirthMissing =>
        case DateOfBirthNotPast =>
        case GenderBlank =>
        case PhoneBlank =>
        case PhonePattern =>
        case EmailBlank =>
        case EmailFormat =>
        case PasswordBlank =>
        case PasswordSize =>
      }
    }
  }

  /** A name breaks neither of its two constraints exactly when it is well
      formed. */
  lemma NameConstraintsIffWellFormed(o: Option<string>)
    ensures (NotBlank(o) && SizeWithin(o, 2, 50)) <==> NameWellFormed(o)
  {
    NotBlankMeansVisible(o);
  }

  /** A phone number breaks neither of its two constraints exactly when it
      has the phone shape. */
  lemma PhoneConstraintsIffShape(o: Option<string>)
    ensures (NotBlank(o) && (o.Some? ==> MatchesPhonePattern(o.value))) <==> o.Some? && PhoneShape(o.value)
  {
    NotBlankMeansVisible(o);
    if o.Some? {
      PhonePatternMatchesShape(o.value);
      if PhoneShape(o.value) {
        PhoneShapeIsVisible(o.value);
      }
    }
  }

  /** The two name constraints on the first name hold exactly when it is
      well formed; likewise for the last name. */
  lemma NamesIffWellFormed(req: RegistrationRequest, today: Date, isEmail: string -> bool)
    ensures (!Breaks(req, today, isEmail, FirstNameBlank) && !Breaks(req, today, isEmail, FirstNameSize))
      == NameWellFormed(req.firstName)
    ensures (!Breaks(req, today, isEmail, LastNameBlank) && !Breaks(req, today, isEmail, LastNameSize))
      == NameWellFormed(req.lastName)
  {
    NameConstraintsIffWellFormed(req.firstName);
    NameConstraintsIffWellFormed(req.lastName);
  }

  /** The gender and phone constraints hold exactly when a gender is given
      and the phone has the phone shape. */
  lemma GenderAndPhoneIffWellFormed(req: RegistrationRequest, today: Date, isEmail: string -> bool)
    ensures !Breaks(req, today, isEmail, GenderBlank) == GenderWellFormed(req.gender)
    ensures (!Breaks(req, today, isEmail, PhoneBlank) && !Breaks(req, today, isEmail, PhonePattern))
      == PhoneWellFormed(req.phoneNumber)
  {
    NotBlankMeansVisible(req.gender);
    PhoneConstraintsIffShape(req.phoneNumber);
  }

  /** The two email constraints hold exactly when the email is present,
      well formed, and has a character above the space. */
  lemma EmailIffWellFormed(req: RegistrationRequest, today: Date, isEmail: string -> bool)
    ensures (!Breaks(req, today, isEmail, EmailBlank) && !Breaks(req, today, isEmail, EmailFormat))
      == EmailWellFormed(req.email, isEmail)
  {
    NotBlankMeansVisible(req.email);
  }

  /** The two password constraints hold exactly when the password has at
      least 8 characters, one of them above the space. */
  lemma PasswordIffWellFormed(req: RegistrationRequest, today: Date, isEmail: string -> bool)
    ensures (!Breaks(req, today, isEmail, PasswordBlank) && !Breaks(req, today, isEmail, PasswordSize))
      == PasswordWellFormed(req.password)
  {
    NotBlankMeansVisible(req.password);
  }

  /** The thirteen constraints hold together exactly when the request is
      well formed. */
  lemma NoneBrokenIffWellFormed(req: RegistrationRequest, today: Date, isEmail: string -> bool)
    ensures NoneBroken(req, today, isEmail) <==> WellFormed(req, today, isEmail)
  {
    NamesIffWellFormed(req, today, isEmail);
    GenderAndPhoneIffWellFormed(req, today, isEmail);
    EmailIffWellFormed(req, today, isEmail);
    PasswordIffWellFormed(req, today, isEmail);
  }

  /** A request breaks no constraint exactly when it is well formed. */
  lemma NoBreaksIffWellFormed(req: RegistrationRequest, today: Date, isEmail: string -> bool)
    ensures (forall v :: !Breaks(req, today, isEmail, v)) <==> WellFormed(req, today, isEmail)
  {
    NoBreaksIffNoneOfEach(req, today, isEmail);
    NoneBrokenIffWellFormed(req, today, isEmail);
  }

  /** A request raises no violation exactly when it is well formed. */
  lemma NoViolationsIffWellFormed(req: RegistrationRequest, today: Date, isEmail: string -> bool)
    ensures Violations(req, today, isEmail) == {} <==> WellFormed(req, today, isEmail)
  {
    var vs := Violations(req, today, isEmail);
    NoBreaksIffWellFormed(req, today, isEmail);
    if vs != {} {
      var v :| v in vs;
      assert Breaks(req, today, isEmail, v);
    }
  }
}
