/**
 * The request and response rules of the inventory serializers: the Brazilian date and date-time
 * fields (`BrazilianDateField`, `BrazilianDateTimeField`), the password rules of registration and
 * of user updates, and what registering and updating a user write to the user tables.
 *
 * The ISO fallback of the date fields is Django's own parser; it is a parameter here.
 */
module Serializers {
  import opened Wrappers
  import opened PyText
  import opened Dates
  import opened DateFormats
  import opened Models

  /**
   * What a field receives: a falsy value (`None`, `0`, an empty list; the empty string is
   * `Text("")`), text, a value of the field's own type, or a value of another type.
   */
  datatype FieldInput<T> = Falsy | Text(s: string) | Value(v: T) | OtherType

  /** What `to_internal_value` gives: `None`, a value, or a `ValidationError`. */
  datatype FieldOutcome<T> = Null | Parsed(value: T) | Invalid

  /**
   * `BrazilianDateField.to_internal_value`: a falsy value gives `None`, a date passes through,
   * text is stripped and read as `%d/%m/%Y`, then `%d/%m/%y`, then by the ISO parser `iso`.
   */
  function DateToInternal(input: FieldInput<Date>, iso: string -> Option<Date>): (r: FieldOutcome<Date>)
    ensures input.Falsy? || input == Text([]) ==> r == Null
    ensures input.Value? ==> r == Parsed(input.v)
    ensures input.OtherType? ==> r == Invalid
    ensures input.Text? && input.s != [] ==>
              var t := Strip(input.s);
              && (ParseBrDate(t).Some? ==> r == Parsed(ParseBrDate(t).value) && ValidDate(r.value))
              && (ParseBrDate(t).None? ==> (r.Invalid? <==> iso(t).None?))
              && (ParseBrDate(t).None? && iso(t).Some? ==> r == Parsed(iso(t).value))
  {
    match input
    case Falsy => Null
    case Value(d) => Parsed(d)
    case OtherType => Invalid
    case Text(s) =>
      if s == [] then Null
      else
        var t := Strip(s);
        match ParseBrDate(t)
        case Some(d) => Parsed(d)
        case None =>
          match iso(t)
          case Some(d) => Parsed(d)
          case None => Invalid
  }

  /** `BrazilianDateField.to_representation`: `None` for no date, otherwise `%d/%m/%Y`. */
  function DateToRepresentation(value: Option<Date>): (r: Option<string>)
    requires value.Some? ==> ValidDate(value.value)
    ensures r.Some? <==> value.Some?
    ensures r.Some? ==> |r.value| == 10 && r.value[2] == '/' && r.value[5] == '/'
  {
    match value
    case None => None
    case Some(d) =>
      BrDateShape(d);
      Some(FormatBrDate(d))
  }

  /** A date the API sends, sent back as it came, is read as the same date, whatever `iso` does. */
  lemma DateFieldRoundTrip(d: Date, iso: string -> Option<Date>)
    requires ValidDate(d)
    ensures DateToRepresentation(Some(d)).Some?
    ensures DateToInternal(Text(DateToRepresentation(Some(d)).value), iso) == Parsed(d)
  {
    var s := FormatBrDate(d);
    BrDateShape(d);
    StripNoSpaceEnds(s);
    BrDateRoundTrip(d);
  }

  /** Whitespace around a date is ignored. */
  lemma DateFieldIgnoresPadding(s: string, iso: string -> Option<Date>)
    requires s != []
    ensures DateToInternal(Text(" " + s + "\t"), iso) == DateToInternal(Text(s), iso)
  {
    StripPadding(s);
    DateOfStripped(" " + s + "\t", iso);
    DateOfStripped(s, iso);
  }

  /** A non-empty text is read from its stripped form alone. */
  lemma DateOfStripped(s: string, iso: string -> Option<Date>)
    requires s != []
    ensures DateToInternal(Text(s), iso) == match ParseBrDate(Strip(s))
                                             case Some(d) => Parsed(d)
                                             case None => (match iso(Strip(s)) case Some(d) => Parsed(d) case None => Invalid)
  {
  }

  /** `str.strip()` drops a leading space and a trailing tab. */
  lemma StripPadding(s: string)
    ensures Strip(" " + s + "\t") == Strip(s)
  {
    var p := " " + s + "\t";
    assert IsSpace(p[0]);
    assert p[1..] == s + "\t";
    assert StripLeft(p) == StripLeft(s + "\t");
    StripLeftKeepsTail(s, "\t");
    StripRightTab(StripLeft(s));
  }

  /** Removing leading whitespace from `s + tail` removes the same as from `s`, unless `s` is all whitespace. */
  lemma {:induction false} StripLeftKeepsTail(s: string, tail: string)
    requires tail == "\t"
    ensures StripLeft(s + tail) == StripLeft(s) + tail || (StripLeft(s) == [] && StripLeft(s + tail) == [])
    decreases |s|
  {
    if s != [] {
      assert (s + tail)[0] == s[0] && (s + tail)[1..] == s[1..] + tail;
      if IsSpace(s[0]) {
        StripLeftKeepsTail(s[1..], tail);
      }
    } else {
      assert s + tail == "\t";
      assert StripLeft("\t"[1..]) == [];
    }
  }

  /** A trailing tab is stripped together with what `StripRight` removes before it. */
  lemma StripRightTab(l: string)
    ensures StripRight(l + "\t") == StripRight(l)
  {
    var p := l + "\t";
    assert IsSpace(p[|p| - 1]);
    assert p[..|p| - 1] == l;
  }

  /**
   * `BrazilianDateTimeField.to_internal_value`: a falsy value gives `None`, a date-time passes
   * through, text is stripped and read as `%d/%m/%Y %H:%M:%S`, `%d/%m/%Y %H:%M`, `%d/%m/%Y`,
   * then by the ISO parser `iso`.
   */
  function DateTimeToInternal(input: FieldInput<DateTime>, iso: string -> Option<DateTime>): (r: FieldOutcome<DateTime>)
    ensures input.Falsy? || input == Text([]) ==> r == Null
    ensures input.Value? ==> r == Parsed(input.v)
    ensures input.OtherType? ==> r == Invalid
    ensures input.Text? && input.s != [] ==>
              var t := Strip(input.s);
              && (ParseBrDateTime(t).Some? ==> r == Parsed(ParseBrDateTime(t).value) && ValidDateTime(r.value))
              && (ParseBrDateTime(t).None? ==> (r.Invalid? <==> iso(t).None?))
              && (ParseBrDateTime(t).None? && iso(t).Some? ==> r == Parsed(iso(t).value))
  {
    match input
    case Falsy => Null
    case Value(dt) => Parsed(dt)
    case OtherType => Invalid
    case Text(s) =>
      if s == [] then Null
      else
        var t := Strip(s);
        match ParseBrDateTime(t)
        case Some(dt) => Parsed(dt)
        case None =>
          match iso(t)
          case Some(dt) => Parsed(dt)
          case None => Invalid
  }

  /** `BrazilianDateTimeField.to_representation`: `None` for no value, otherwise `%d/%m/%Y %H:%M:%S`. */
  function DateTimeToRepresentation(value: Option<DateTime>): (r: Option<string>)
    requires value.Some? ==> ValidDateTime(value.value)
    ensures r.Some? <==> value.Some?
    ensures r.Some? ==> |r.value| >= 11 && r.value[10] == ' '
  {
    match value
    case None => None
    case Some(dt) =>
      BrDateShape(dt.date);
      Some(FormatBrDateTime(dt))
  }

  /** A date-time the API sends, sent back as it came, is read as the same date-time. */
  lemma DateTimeFieldRoundTrip(dt: DateTime, iso: string -> Option<DateTime>)
    requires ValidDateTime(dt)
    ensures DateTimeToRepresentation(Some(dt)).Some?
    ensures DateTimeToInternal(Text(DateTimeToRepresentation(Some(dt)).value), iso) == Parsed(dt)
  {
    var s := FormatBrDateTime(dt);
    BrDateShape(dt.date);
    var clock := FormatClock(dt.time);
    var sec := PadNat(dt.time.second, 2);
    assert s == FormatBrDate(dt.date) + " " + clock;
    assert clock[|clock| - 1] == sec[|sec| - 1];
    assert IsDigit(sec[|sec| - 1]);
    assert s[0] == FormatBrDate(dt.date)[0];
    StripNoSpaceEnds(s);
    BrDateTimeRoundTrip(dt);
  }

  /** Why a field or a request body is refused. */
  datatype Problem = Required | Blank | TooShort | PasswordsDiffer | PasswordMissing

  /** A `ValidationError` entry: the key it is reported under and its reason. */
  datatype FieldError = FieldError(field: string, problem: Problem)

  /** The key of errors that belong to no single field. */
  const NonFieldErrors := "non_field_errors"

  /** `min_length` of both password fields. */
  const MinPasswordLength := 8

  /** The text of each error; the first three are Django REST framework's defaults. */
  function Message(p: Problem): string {
    match p
    case Required => "This field is required."
    case Blank => "This field may not be blank."
    case TooShort => "Ensure this field has at least 8 characters."
    case PasswordsDiffer => "As senhas não coincidem."
    case PasswordMissing => "Ambos os campos de senha devem ser preenchidos."
  }

  /**
   * A supplied password field (`CharField(min_length=8)`): the text is trimmed, refused when
   * nothing is left, then refused when shorter than 8.
   */
  function PasswordField(field: string, raw: string): (r: Result<string, FieldError>)
    ensures r.Success? <==> |Strip(raw)| >= MinPasswordLength
    ensures r.Success? ==> r.value == Strip(raw)
    ensures r.Failure? ==> r.error == FieldError(field, if Strip(raw) == [] then Blank else TooShort)
  {
    var t := Strip(raw);
    if t == [] then Failure(FieldError(field, Blank))
    else if |t| < MinPasswordLength then Failure(FieldError(field, TooShort))
    else Success(t)
  }

  /** The errors of a field, if any. */
  function ErrorsOf<T>(r: Result<T, FieldError>): (es: seq<FieldError>)
    ensures |es| <= 1
    ensures es == [] <==> r.Success?
  {
    if r.Failure? then [r.error] else []
  }

  /** A required password field: missing is an error of its own. */
  function RequiredPassword(field: string, raw: Option<string>): (r: Result<string, FieldError>)
    ensures raw.None? ==> r == Failure(FieldError(field, Required))
    ensures raw.Some? ==> r == PasswordField(field, raw.value)
  {
    match raw
    case None => Failure(FieldError(field, Required))
    case Some(s) => PasswordField(field, s)
  }

  /** An optional password field: missing is fine. */
  function OptionalPassword(field: string, raw: Option<string>): (r: Result<Option<string>, FieldError>)
    ensures raw.None? ==> r == Success(None)
    ensures raw.Some? ==> (r.Success? <==> PasswordField(field, raw.value).Success?)
    ensures raw.Some? && r.Success? ==> r.value == Some(Strip(raw.value))
    ensures raw.Some? && r.Failure? ==> r.error == PasswordField(field, raw.value).error
  {
    match raw
    case None => Success(None)
    case Some(s) =>
      match PasswordField(field, s)
      case Success(t) => Success(Some(t))
      case Failure(e) => Failure(e)
  }

  /**
   * An optional text field (`CharField(required=False)`): missing is fine; given text is
   * trimmed, and refused when nothing is left.
   */
  function OptionalText(field: string, raw: Option<string>): (r: Result<Option<string>, FieldError>)
    ensures raw.None? ==> r == Success(None)
    ensures raw.Some? ==> (r.Success? <==> Strip(raw.value) != [])
    ensures raw.Some? && r.Success? ==> r.value == Some(Strip(raw.value))
    ensures r.Failure? ==> r.error == FieldError(field, Blank)
  {
    match raw
    case None => Success(None)
    case Some(s) =>
      var t := Strip(s);
      if t == [] then Failure(FieldError(field, Blank)) else Success(Some(t))
  }

  /**
   * A required text field (`CharField` with `required=True`): a missing key is refused as
   * required; given text is trimmed, and refused when nothing is left.
   */
  function RequiredText(field: string, raw: Option<string>): (r: Result<string, FieldError>)
    ensures r.Success? <==> raw.Some? && Strip(raw.value) != []
    ensures r.Success? ==> r.value == Strip(raw.value)
    ensures raw.None? ==> r == Failure(FieldError(field, Required))
    ensures raw.Some? && r.Failure? ==> r.error == FieldError(field, Blank)
  {
    match raw
    case None => Failure(FieldError(field, Required))
    case Some(s) =>
      var t := Strip(s);
      if t == [] then Failure(FieldError(field, Blank)) else Success(t)
  }

  /**
   * An optional text field that admits blanks (a `CharField` Django builds from a model field
   * with `blank=True`): given text is trimmed.
   */
  function TrimmedText(raw: Option<string>): (r: Option<string>)
    ensures r.Some? <==> raw.Some?
    ensures raw.Some? ==> r.value == Strip(raw.value) && |r.value| <= |raw.value|
  {
    match raw
    case None => None
    case Some(s) => Some(Strip(s))
  }

  /** Whether every item of a list keeps some text once trimmed. */
  predicate NoBlankItem(xs: seq<string>) {
    forall i | 0 <= i < |xs| :: Strip(xs[i]) != []
  }

  /** The items of a `ListField(child=CharField())`, each trimmed. */
  function StripAll(xs: seq<string>): (ys: seq<string>)
    ensures |ys| == |xs|
    ensures forall i | 0 <= i < |xs| :: ys[i] == Strip(xs[i])
  {
    seq(|xs|, i requires 0 <= i < |xs| => Strip(xs[i]))
  }

  /**
   * An optional list of text items: missing is fine; a given list is kept with every item
   * trimmed, and refused under the list's key when an item is blank.
   */
  function OptionalTextList(field: string, raw: Option<seq<string>>): (r: Result<Option<seq<string>>, FieldError>)
    ensures raw.None? ==> r == Success(None)
    ensures raw.Some? ==> (r.Success? <==> NoBlankItem(raw.value))
    ensures raw.Some? && r.Success? ==>
              && r.value.Some? && |r.value.value| == |raw.value|
              && forall i | 0 <= i < |raw.value| :: r.value.value[i] == Strip(raw.value[i])
    ensures r.Failure? ==> r.error == FieldError(field, Blank)
  {
    match raw
    case None => Success(None)
    case Some(xs) =>
      if NoBlankItem(xs) then Success(Some(StripAll(xs))) else Failure(FieldError(field, Blank))
  }

  /** The registration body, keys already snake_case; an absent key is `None`. */
  datatype Registration = Registration(
    username: Option<string>,
    email: Option<string>,
    password: Option<string>,
    password2: Option<string>,
    firstName: Option<string>,
    lastName: Option<string>,
    isActive: Option<bool>,
    isStaff: Option<bool>,
    isSuperuser: Option<bool>,
    permissionsList: Option<seq<string>>)

  /** Whether an optional text field is absent or keeps some text once trimmed. */
  predicate Filled(raw: Option<string>) {
    raw.Some? ==> Strip(raw.value) != []
  }

  /**
   * Whether every field of a registration passes its own checks: a username with some text,
   * both passwords with at least 8 characters once trimmed, names that are absent or not
   * blank, and no blank permission.
   */
  predicate FieldsValid(d: Registration) {
    && d.username.Some? && Strip(d.username.value) != []
    && d.password.Some? && |Strip(d.password.value)| >= MinPasswordLength
    && d.password2.Some? && |Strip(d.password2.value)| >= MinPasswordLength
    && Filled(d.firstName) && Filled(d.lastName)
    && (d.permissionsList.Some? ==> NoBlankItem(d.permissionsList.value))
  }

  /** The errors of the username and the two passwords, in that order. */
  function CredentialErrors(d: Registration): (es: seq<FieldError>)
    ensures es == [] <==>
              && d.username.Some? && Strip(d.username.value) != []
              && d.password.Some? && |Strip(d.password.value)| >= MinPasswordLength
              && d.password2.Some? && |Strip(d.password2.value)| >= MinPasswordLength
    ensures d.username.None? ==> FieldError("username", Required) in es
    ensures d.username.Some? && Strip(d.username.value) == [] ==> FieldError("username", Blank) in es
  {
    var user := ErrorsOf(RequiredText("username", d.username));
    var p := ErrorsOf(RequiredPassword("password", d.password));
    var p2 := ErrorsOf(RequiredPassword("password2", d.password2));
    assert user != [] ==> user[0] == (user + p + p2)[0];
    user + p + p2
  }

  /** The errors of the first and the last name, in that order. */
  function NameErrors(d: Registration): (es: seq<FieldError>)
    ensures es == [] <==> Filled(d.firstName) && Filled(d.lastName)
    ensures !Filled(d.firstName) ==> FieldError("first_name", Blank) in es
    ensures !Filled(d.lastName) ==> FieldError("last_name", Blank) in es
  {
    var first := ErrorsOf(OptionalText("first_name", d.firstName));
    var last := ErrorsOf(OptionalText("last_name", d.lastName));
    assert first != [] ==> first[0] == (first + last)[0];
    assert last != [] ==> last[0] == (first + last)[|first|];
    first + last
  }

  /** The errors of the names and of the permission list, in that order. */
  function OptionalFieldErrors(d: Registration): (es: seq<FieldError>)
    ensures es == [] <==> Filled(d.firstName) && Filled(d.lastName) && (d.permissionsList.Some? ==> NoBlankItem(d.permissionsList.value))
    ensures !Filled(d.firstName) ==> FieldError("first_name", Blank) in es
    ensures !Filled(d.lastName) ==> FieldError("last_name", Blank) in es
    ensures d.permissionsList.Some? && !NoBlankItem(d.permissionsList.value) ==> FieldError("permissions_list", Blank) in es
  {
    var names := NameErrors(d);
    var perms := ErrorsOf(OptionalTextList("permissions_list", d.permissionsList));
    assert perms != [] ==> perms[0] == (names + perms)[|names|];
    names + perms
  }

  /** The field errors of a registration, in the serializer's field order. */
  function RegistrationErrors(d: Registration): (es: seq<FieldError>)
    ensures es == [] <==> FieldsValid(d)
    ensures d.username.None? ==> FieldError("username", Required) in es
    ensures d.username.Some? && Strip(d.username.value) == [] ==> FieldError("username", Blank) in es
    ensures !Filled(d.firstName) ==> FieldError("first_name", Blank) in es
    ensures !Filled(d.lastName) ==> FieldError("last_name", Blank) in es
    ensures d.permissionsList.Some? && !NoBlankItem(d.permissionsList.value) ==> FieldError("permissions_list", Blank) in es
  {
    CredentialErrors(d) + OptionalFieldErrors(d)
  }

  /**
   * A registration whose fields all pass, as the serializer hands it on: every text field
   * trimmed, the other fields as given.
   */
  function Cleaned(d: Registration): (c: Registration)
    requires FieldsValid(d)
    ensures c.username == Some(Strip(d.username.value))
    ensures c.email == TrimmedText(d.email)
    ensures c.password == Some(Strip(d.password.value)) && c.password2 == Some(Strip(d.password2.value))
    ensures c.firstName == TrimmedText(d.firstName) && c.lastName == TrimmedText(d.lastName)
    ensures c.permissionsList.Some? == d.permissionsList.Some?
    ensures d.permissionsList.Some? ==>
              && |c.permissionsList.value| == |d.permissionsList.value|
              && forall i | 0 <= i < |d.permissionsList.value| :: c.permissionsList.value[i] == Strip(d.permissionsList.value[i])
    ensures c.(username := d.username, email := d.email, password := d.password, password2 := d.password2,
               firstName := d.firstName, lastName := d.lastName, permissionsList := d.permissionsList) == d
  {
    d.(username := Some(Strip(d.username.value)), email := TrimmedText(d.email),
       password := Some(Strip(d.password.value)), password2 := Some(Strip(d.password2.value)),
       firstName := TrimmedText(d.firstName), lastName := TrimmedText(d.lastName),
       permissionsList := OptionalTextList("permissions_list", d.permissionsList).value)
  }

  /**
   * `UserRegistrationSerializer` validation: the field checks first (their errors are
   * collected, and `validate` is not reached when there are any); then two different passwords
   * are refused under the key "password". A valid body is kept with its text fields trimmed.
   */
  function ValidateRegistration(d: Registration): (r: Result<Registration, seq<FieldError>>)
    ensures r.Success? <==> FieldsValid(d) && Strip(d.password.value) == Strip(d.password2.value)
    ensures r.Success? ==> r.value == Cleaned(d)
    ensures r.Failure? ==> r.error != []
    ensures !FieldsValid(d) ==> r == Failure(RegistrationErrors(d))
    ensures FieldsValid(d) && Strip(d.password.value) != Strip(d.password2.value) ==>
              r == Failure([FieldError("password", PasswordsDiffer)])
  {
    var errors := RegistrationErrors(d);
    if errors != [] then Failure(errors)
    else if Strip(d.password.value) != Strip(d.password2.value) then Failure([FieldError("password", PasswordsDiffer)])
    else Success(Cleaned(d))
  }

  /**
   * A missing username is refused as required; a blank username, a blank name or a blank
   * permission is refused as blank, each under its own key.
   */
  lemma BlankRegistrationFieldsRefused(d: Registration)
    ensures d.username.None? ==> ValidateRegistration(d).Failure? && FieldError("username", Required) in ValidateRegistration(d).error
    ensures d.username.Some? && Strip(d.username.value) == [] ==> ValidateRegistration(d).Failure? && FieldError("username", Blank) in ValidateRegistration(d).error
    ensures !Filled(d.firstName) ==> ValidateRegistration(d).Failure? && FieldError("first_name", Blank) in ValidateRegistration(d).error
    ensures !Filled(d.lastName) ==> ValidateRegistration(d).Failure? && FieldError("last_name", Blank) in ValidateRegistration(d).error
    ensures d.permissionsList.Some? && !NoBlankItem(d.permissionsList.value) ==>
              ValidateRegistration(d).Failure? && FieldError("permissions_list", Blank) in ValidateRegistration(d).error
  {
    if !FieldsValid(d) {
      assert ValidateRegistration(d) == Failure(RegistrationErrors(d));
    }
  }

  /**
   * `UserUpdateSerializer` validation of the password pair: each field given is checked as at
   * registration; then, when either is given, both must be, and they must agree.
   */
  function ValidateUpdatePasswords(password: Option<string>, password2: Option<string>): (r: Result<Option<string>, seq<FieldError>>)
    ensures password.None? && password2.None? ==> r == Success(None)
    ensures r.Success? <==>
              || (password.None? && password2.None?)
              || (&& password.Some? && password2.Some?
                  && |Strip(password.value)| >= MinPasswordLength
                  && |Strip(password2.value)| >= MinPasswordLength
                  && Strip(password.value) == Strip(password2.value))
    ensures r.Success? && password.Some? ==> r.value == Some(Strip(password.value))
    ensures r.Failure? ==> r.error != []
    ensures (password.Some? && password2.None? && |Strip(password.value)| >= MinPasswordLength)
            || (password.None? && password2.Some? && |Strip(password2.value)| >= MinPasswordLength)
            ==> r == Failure([FieldError(NonFieldErrors, PasswordMissing)])
  {
    var p := OptionalPassword("password", password);
    var p2 := OptionalPassword("password2", password2);
    var errors := ErrorsOf(p) + ErrorsOf(p2);
    if errors != [] then Failure(errors)
    else if p.value.Some? || p2.value.Some? then
      if p.value.None? || p2.value.None? then Failure([FieldError(NonFieldErrors, PasswordMissing)])
      else if p.value != p2.value then Failure([FieldError("password", PasswordsDiffer)])
      else Success(p.value)
    else Success(None)
  }

  /**
   * The `User` that `create_user` writes from a validated registration: email and names default
   * to "", `is_active` to true, `is_staff` and `is_superuser` to false; given values are kept.
   */
  function NewUser(d: Registration, id: int): (u: User)
    requires d.username.Some? && d.password.Some?
    ensures u.id == id && u.username == d.username.value && u.password == d.password
    ensures u.email == (if d.email.Some? then d.email.value else "")
    ensures u.firstName == (if d.firstName.Some? then d.firstName.value else "")
    ensures u.lastName == (if d.lastName.Some? then d.lastName.value else "")
    ensures d.isActive.None? ==> u.isActive
    ensures d.isStaff.None? ==> !u.isStaff
    ensures d.isSuperuser.None? ==> !u.isSuperuser
    ensures d.isActive.Some? ==> u.isActive == d.isActive.value
    ensures d.isStaff.Some? ==> u.isStaff == d.isStaff.value
    ensures d.isSuperuser.Some? ==> u.isSuperuser == d.isSuperuser.value
  {
    User(id, d.username.value, d.email.GetOr(""), d.firstName.GetOr(""), d.lastName.GetOr(""), d.password,
         d.isActive.GetOr(true), d.isStaff.GetOr(false), d.isSuperuser.GetOr(false))
  }

  /** The permissions a registration stores on the new profile: the list when it is not empty. */
  function GrantedPermissions(d: Registration): (ps: seq<string>)
    ensures d.permissionsList.Some? ==> ps == d.permissionsList.value
    ensures d.permissionsList.None? ==> ps == []
  {
    if d.permissionsList.Some? && d.permissionsList.value != [] then d.permissionsList.value else []
  }

  /**
   * `UserRegistrationSerializer.create`: the user is inserted, the `post_save` handler adds its
   * profile, and a non-empty permission list is stored on that profile. The database hands out
   * an `id` no user and no profile refers to yet.
   */
  method Register(store: UserStore, d: Registration, id: int) returns (u: User)
    requires store.Valid()
    requires d.username.Some? && d.password.Some?
    requires forall v | v in store.users :: v.id != id
    requires UsuarioOf(store.usuarios, id).None?
    modifies store
    ensures u == NewUser(d, id)
    ensures store.Valid()
    ensures store.users == old(store.users) + [u]
    ensures store.usuarios == old(store.usuarios) + [Usuario(NextMat(old(store.usuarios)), NomeUsuario(u), Some(id), GrantedPermissions(d))]
  {
    u := NewUser(d, id);
    ghost var us0 := store.usuarios;
    ghost var row := Usuario(NextMat(us0), NomeUsuario(u), Some(id), []);
    store.users := store.users + [u];
    store.CreateUsuario(u);
    StorePermissions(store, d, us0, row);
  }

  /** The permission step of `create`: a non-empty list replaces the new profile's empty one. */
  method StorePermissions(store: UserStore, d: Registration, ghost us0: seq<Usuario>, ghost row: Usuario)
    requires store.Valid() && store.usuarios == us0 + [row]
    modifies store
    ensures store.Valid()
    ensures store.users == old(store.users)
    ensures store.usuarios == if d.permissionsList.Some? && d.permissionsList.value != [] then us0 + [row.(permissions := d.permissionsList.value)] else us0 + [row]
  {
    if d.permissionsList.Some? && d.permissionsList.value != [] {
      GrantToNewest(store, d.permissionsList.value);
      ReplaceLast(us0, row, row.(permissions := d.permissionsList.value));
    }
  }

  /** Replacing the last element of `xs + [x]` gives `xs + [y]`. */
  lemma ReplaceLast<T>(xs: seq<T>, x: T, y: T)
    ensures (xs + [x])[|xs| := y] == xs + [y]
  {
    assert forall i | 0 <= i < |xs| :: (xs + [x])[|xs| := y][i] == xs[i];
  }

  /** Stores `perms` on the most recently created profile. */
  method GrantToNewest(store: UserStore, perms: seq<string>)
    requires store.Valid() && store.usuarios != []
    modifies store
    ensures store.Valid()
    ensures store.users == old(store.users)
    ensures store.usuarios == old(store.usuarios)[|old(store.usuarios)| - 1 := old(store.usuarios)[|old(store.usuarios)| - 1].(permissions := perms)]
  {
    var last := |store.usuarios| - 1;
    var us := store.usuarios;
    var us' := us[last := us[last].(permissions := perms)];
    assert forall i | 0 <= i < |us| :: us'[i].matUsuario == us[i].matUsuario && us'[i].authUser == us[i].authUser;
    store.usuarios := us';
  }

  /** The update body, keys already snake_case and passwords validated; an absent key is `None`. */
  datatype UserUpdate = UserUpdate(
    username: Option<string>,
    email: Option<string>,
    firstName: Option<string>,
    lastName: Option<string>,
    isActive: Option<bool>,
    isStaff: Option<bool>,
    isSuperuser: Option<bool>,
    password: Option<string>,
    permissionsList: Option<seq<string>>)

  /**
   * `UserUpdateSerializer`'s field checks other than the passwords: a given username
   * (`CharField(required=False)`) and every permission must keep some text once trimmed; the
   * e-mail and the names, built from the model's `blank=True` fields, are trimmed and may be
   * blank. A valid body is kept with those fields trimmed.
   */
  function ValidateUpdateFields(d: UserUpdate): (r: Result<UserUpdate, seq<FieldError>>)
    ensures r.Success? <==> Filled(d.username) && (d.permissionsList.Some? ==> NoBlankItem(d.permissionsList.value))
    ensures r.Success? ==>
              && r.value.username == TrimmedText(d.username)
              && r.value.email == TrimmedText(d.email)
              && r.value.firstName == TrimmedText(d.firstName)
              && r.value.lastName == TrimmedText(d.lastName)
              && r.value.permissionsList.Some? == d.permissionsList.Some?
              && (d.permissionsList.Some? ==>
                    && |r.value.permissionsList.value| == |d.permissionsList.value|
                    && forall i | 0 <= i < |d.permissionsList.value| ::
                         r.value.permissionsList.value[i] == Strip(d.permissionsList.value[i]))
              && r.value.(username := d.username, email := d.email, firstName := d.firstName,
                          lastName := d.lastName, permissionsList := d.permissionsList) == d
    ensures r.Failure? ==> r.error != []
    ensures !Filled(d.username) ==> r.Failure? && FieldError("username", Blank) in r.error
    ensures d.permissionsList.Some? && !NoBlankItem(d.permissionsList.value) ==>
              r.Failure? && FieldError("permissions_list", Blank) in r.error
  {
    var user := OptionalText("username", d.username);
    var perms := OptionalTextList("permissions_list", d.permissionsList);
    var errors := ErrorsOf(user) + ErrorsOf(perms);
    if errors != [] then Failure(errors)
    else Success(d.(username := user.value, email := TrimmedText(d.email), firstName := TrimmedText(d.firstName),
                    lastName := TrimmedText(d.lastName), permissionsList := perms.value))
  }

  /** The body that changes nothing. */
  const NoChanges := UserUpdate(None, None, None, None, None, None, None, None, None)

  /**
   * The user after `UserUpdateSerializer.update`: the password set only when one is given, every
   * other given field assigned, the rest kept.
   */
  function UpdatedUser(u: User, d: UserUpdate): (r: User)
    ensures r.id == u.id
    ensures d.password.Some? && d.password.value != [] ==> r.password == d.password
    ensures d.password.Some? && d.password.value == [] ==> r.password == u.password
    ensures d.password.None? ==> r.password == u.password
    ensures d.username.Some? ==> r.username == d.username.value
    ensures d.username.None? ==> r.username == u.username
    ensures d.email.Some? ==> r.email == d.email.value
    ensures d.email.None? ==> r.email == u.email
    ensures d.firstName.Some? ==> r.firstName == d.firstName.value
    ensures d.firstName.None? ==> r.firstName == u.firstName
    ensures d.lastName.Some? ==> r.lastName == d.lastName.value
    ensures d.lastName.None? ==> r.lastName == u.lastName
    ensures d.isActive.Some? ==> r.isActive == d.isActive.value
    ensures d.isActive.None? ==> r.isActive == u.isActive
    ensures d.isStaff.Some? ==> r.isStaff == d.isStaff.value
    ensures d.isStaff.None? ==> r.isStaff == u.isStaff
    ensures d.isSuperuser.Some? ==> r.isSuperuser == d.isSuperuser.value
    ensures d.isSuperuser.None? ==> r.isSuperuser == u.isSuperuser
  {
    var withPassword := if d.password.Some? && d.password.value != [] then u.(password := d.password) else u;
    withPassword.(
      username := d.username.GetOr(u.username),
      email := d.email.GetOr(u.email),
      firstName := d.firstName.GetOr(u.firstName),
      lastName := d.lastName.GetOr(u.lastName),
      isActive := d.isActive.GetOr(u.isActive),
      isStaff := d.isStaff.GetOr(u.isStaff),
      isSuperuser := d.isSuperuser.GetOr(u.isSuperuser))
  }

  /** An update with no fields leaves the user as it was. */
  lemma UpdateNothing(u: User)
    ensures UpdatedUser(u, NoChanges) == u
  {
  }

  /**
   * The profiles after the permission step of the update: the profile linked to `userId` takes
   * `perms` when a list was given; nothing else changes.
   */
  function SetPermissions(us: seq<Usuario>, userId: int, perms: Option<seq<string>>): (r: seq<Usuario>)
    ensures |r| == |us|
    ensures forall i | 0 <= i < |us| :: r[i].matUsuario == us[i].matUsuario && r[i].authUser == us[i].authUser && r[i].nomeUsuario == us[i].nomeUsuario
    ensures forall i | 0 <= i < |us| && us[i].authUser == Some(userId) && perms.Some? :: r[i].permissions == perms.value
    ensures forall i | 0 <= i < |us| && (us[i].authUser != Some(userId) || perms.None?) :: r[i] == us[i]
  {
    seq(|us|, i requires 0 <= i < |us| =>
      if us[i].authUser == Some(userId) && perms.Some? then us[i].(permissions := perms.value) else us[i])
  }

  /**
   * `UserUpdateSerializer.update` on the user at index `k`: the user row is rewritten, and the
   * permissions of its profile are replaced when a list was given.
   */
  method UpdateUser(store: UserStore, k: int, d: UserUpdate)
    requires store.Valid()
    requires 0 <= k < |store.users|
    modifies store
    ensures store.Valid()
    ensures store.users == old(store.users)[k := UpdatedUser(old(store.users)[k], d)]
    ensures store.usuarios == SetPermissions(old(store.usuarios), old(store.users)[k].id, d.permissionsList)
  {
    var u := store.users[k];
    store.users := store.users[k := UpdatedUser(u, d)];
    store.usuarios := SetPermissions(store.usuarios, u.id, d.permissionsList);
  }

  /** Without a permission list the profiles are left as they are. */
  lemma {:induction false} NoPermissionListKeepsProfiles(us: seq<Usuario>, userId: int)
    ensures SetPermissions(us, userId, None) == us
  {
    var r := SetPermissions(us, userId, None);
    assert forall i | 0 <= i < |us| :: r[i] == us[i];
  }
}
