/**
 * The web forms (app/forms.py): the choice lists for cities and professions,
 * the WTForms validators the forms declare, and each form's acceptance
 * condition. A form is written down as its list of fields with their
 * validators, as the source declares it; each `...FormErrors` function
 * then states, in closed form, exactly which submissions the declaration lets
 * through.
 */
module Forms {
  import opened Wrappers
  import opened Strings
  import opened Models

  /** The city choices: the 'All' sentinel, then ten cities (value, label). */
  const MoroccanCities: seq<(string, string)> := [("All", "All Cities")] + [
    ("Casablanca", "Casablanca"),
    ("Rabat", "Rabat"),
    ("Marrakech", "Marrakech"),
    ("Kenitra", "Kenitra"),
    ("Fes", "Fes"),
    ("Tangier", "Tangier"),
    ("Agadir", "Agadir"),
    ("Oujda", "Oujda"),
    ("Tetouan", "Tetouan"),
    ("Safi", "Safi")
  ]

  /** The profession choices: the 'All' sentinel, then ten trades (value, label). */
  const Professions: seq<(string, string)> := [("All", "All Professions")] + [
    ("Electrician", "Electrician"),
    ("Barber", "Barber"),
    ("Tailor", "Tailor"),
    ("Plumber", "Plumber"),
    ("Cleaner", "Cleaner"),
    ("Gardener", "Gardener"),
    ("Painter", "Painter"),
    ("Carpenter", "Carpenter"),
    ("Mechanic", "Mechanic"),
    ("Driver", "Driver")
  ]

  /** The extensions the picture fields allow. */
  const ImageExtensions: seq<string> := ["jpg", "png", "jpeg"]

  /** The values a select field accepts: the first component of each choice. */
  function Keys(choices: seq<(string, string)>): (r: seq<string>)
    ensures |r| == |choices|
    ensures forall i :: 0 <= i < |choices| ==> r[i] == choices[i].0
  {
    if choices == [] then [] else [choices[0].0] + Keys(choices[1..])
  }

  /** Both lists start with the 'All' sentinel, followed by ten entries whose value is their label. */
  lemma ChoiceListsShape()
    ensures |MoroccanCities| == 11 && MoroccanCities[0] == ("All", "All Cities")
    ensures |Professions| == 11 && Professions[0] == ("All", "All Professions")
    ensures forall i :: 1 <= i < 11 ==> MoroccanCities[i].0 == MoroccanCities[i].1 != "All"
    ensures forall i :: 1 <= i < 11 ==> Professions[i].0 == Professions[i].1 != "All"
  {
  }

  /** The data a field holds after the request is parsed (None: missing or unparseable). */
  datatype FieldData =
    | Text(s: string)
    | Integer(n: Option<int>)
    | Decimal(x: Option<real>)
    | Day(d: Option<Date>)
    // The names of the files actually chosen. The empty part a browser sends
    // for a file input left blank is not among them.
    | Files(names: seq<string>)

  /** The validators the forms use. */
  datatype Validator =
    | DataRequired
      /** Length(min, max); -1 leaves that side unbounded, as in WTForms. */
    | Length(min: int, max: int)
    | NumberRange(min: int, max: int)
      /** EqualTo: holds the data of the field it compares against. */
    | EqualTo(other: string)
      /** The pre-validation of a SelectField: the data must be one of these values. */
    | AnyOf(values: seq<string>)
    | FileAllowed(extensions: seq<string>)
      /** validate_email / validate_username: the value is not already stored. */
    | NotTaken(existing: seq<string>)
      /** A check done by a library outside this model (e-mail syntax, date parsing). */
    | External(ok: bool)

  /** Python truthiness of the field's data, which is what DataRequired tests. */
  predicate Truthy(d: FieldData)
  {
    match d
    case Text(s) => HasText(s)
    case Integer(n) => n.Some? && n.value != 0
    case Decimal(x) => x.Some? && x.value != 0.0
    case Day(v) => v.Some?
    case Files(names) => names != []
  }

  /** `name.lower()` ends with '.' followed by one of the extensions. */
  predicate AllowedName(name: string, extensions: seq<string>)
  {
    exists e :: e in extensions && EndsWith(Lower(name), "." + e)
  }

  /** Whether one validator accepts the field's data. */
  predicate Passes(v: Validator, d: FieldData)
  {
    match v
    case DataRequired => Truthy(d)
    case Length(min, max) =>
      var n := if d.Text? then |d.s| else 0;
      n >= min && (max == -1 || n <= max)
    case NumberRange(min, max) => d.Integer? && d.n.Some? && min <= d.n.value <= max
    case EqualTo(other) => d.Text? && d.s == other
    case AnyOf(values) => d.Text? && d.s in values
    case FileAllowed(extensions) =>
      d.Files? ==> forall i :: 0 <= i < |d.names| ==> AllowedName(d.names[i], extensions)
    case NotTaken(existing) => d.Text? && d.s !in existing
    case External(ok) => ok
  }

  /** A field accepts its data when every validator in its chain does. */
  predicate FieldValid(d: FieldData, validators: seq<Validator>)
  {
    forall i :: 0 <= i < |validators| ==> Passes(validators[i], d)
  }

  datatype Field = Field(name: string, data: FieldData, validators: seq<Validator>)

  /** The errors one field reports: its name when its data fails validation, nothing otherwise. */
  function Check(f: Field): (errs: seq<string>)
    ensures errs == [] <==> FieldValid(f.data, f.validators)
    ensures errs != [] ==> errs == [f.name]
  {
    if FieldValid(f.data, f.validators) then [] else [f.name]
  }

  lemma OneValidator(d: FieldData, v: Validator)
    ensures FieldValid(d, [v]) <==> Passes(v, d)
  {
    assert [v][0] == v;
  }

  lemma TwoValidators(d: FieldData, v: Validator, w: Validator)
    ensures FieldValid(d, [v, w]) <==> Passes(v, d) && Passes(w, d)
  {
    assert [v, w][0] == v && [v, w][1] == w;
  }

  lemma ThreeValidators(d: FieldData, u: Validator, v: Validator, w: Validator)
    ensures FieldValid(d, [u, v, w]) <==> Passes(u, d) && Passes(v, d) && Passes(w, d)
  {
    assert [u, v, w][0] == u && [u, v, w][1] == v && [u, v, w][2] == w;
  }

  /** RatingForm: rating required and within 1..5, comment required. */
  function RatingFormErrors(rating: Option<int>, comment: string): (errs: seq<string>)
    ensures errs == [] <==> RatingFormValid(rating, comment)
  {
    TwoValidators(Integer(rating), DataRequired, NumberRange(1, 5));
    OneValidator(Text(comment), DataRequired);
    Check(Field("rating", Integer(rating), [DataRequired, NumberRange(1, 5)])) +
    Check(Field("comment", Text(comment), [DataRequired]))
  }

  /** What RatingForm accepts. */
  predicate RatingFormValid(rating: Option<int>, comment: string)
  {
    rating.Some? && 1 <= rating.value <= 5 && HasText(comment)
  }

  /**
   * Every picture name ends in .jpg, .png or .jpeg, ignoring case. Checking
   * each file of a multiple-file field is what flask-wtf 1.1 and later do;
   * older `FileAllowed` releases skip a list altogether.
   */
  predicate ImagesOnly(names: seq<string>)
  {
    forall i :: 0 <= i < |names| ==> AllowedName(names[i], ImageExtensions)
  }

  /**
   * JobForm. The budget is a float; only what DataRequired asks of it is
   * modelled (present and non-zero), over `real`.
   */
  function JobFormErrors(title: string, description: string, profession: string, location: string,
                         budget: Option<real>, expectedDuration: string, requiredSkills: string,
                         pictures: seq<string>): (errs: seq<string>)
    ensures errs == [] <==> JobFormValid(title, description, profession, location, budget,
                                         expectedDuration, requiredSkills, pictures)
  {
    KeysHaveText();
    var c1 := TitleErrors(title);
    var c2 := DescriptionErrors(description);
    var c3 := ChoiceErrors("profession", profession, Professions);
    var c4 := ChoiceErrors("location", location, MoroccanCities);
    OneValidator(Decimal(budget), DataRequired);
    var c5 := Check(Field("budget", Decimal(budget), [DataRequired]));
    var c6 := BoundedTextErrors("expected_duration", expectedDuration, 50);
    var c7 := BoundedTextErrors("required_skills", requiredSkills, 200);
    OneValidator(Files(pictures), FileAllowed(ImageExtensions));
    var c8 := Check(Field("pictures", Files(pictures), [FileAllowed(ImageExtensions)]));
    assert c5 == [] <==> budget.Some? && budget.value != 0.0;
    assert c8 == [] <==> ImagesOnly(pictures);
    c1 + c2 + c3 + c4 + c5 + c6 + c7 + c8
  }

  /** What JobForm accepts, field by field. */
  predicate JobFormValid(title: string, description: string, profession: string, location: string,
                         budget: Option<real>, expectedDuration: string, requiredSkills: string,
                         pictures: seq<string>)
  {
      && HasText(title) && 2 <= |title| <= 100
      && HasText(description) && |description| >= 10
      && profession in Keys(Professions)
      && location in Keys(MoroccanCities)
      && budget.Some? && budget.value != 0.0
      && HasText(expectedDuration) && |expectedDuration| <= 50
      && HasText(requiredSkills) && |requiredSkills| <= 200
      && ImagesOnly(pictures)
  }

  /** JobForm.title: required, 2 to 100 characters. */
  function TitleErrors(title: string): (errs: seq<string>)
    ensures errs == [] <==> HasText(title) && 2 <= |title| <= 100
  {
    TwoValidators(Text(title), DataRequired, Length(2, 100));
    Check(Field("title", Text(title), [DataRequired, Length(2, 100)]))
  }

  /** JobForm.description: required, at least 10 characters. */
  function DescriptionErrors(description: string): (errs: seq<string>)
    ensures errs == [] <==> HasText(description) && |description| >= 10
  {
    TwoValidators(Text(description), DataRequired, Length(10, -1));
    Check(Field("description", Text(description), [DataRequired, Length(10, -1)]))
  }

  /** A required SelectField: the value must be one of the listed keys. */
  function ChoiceErrors(name: string, value: string, choices: seq<(string, string)>): (errs: seq<string>)
    ensures errs == [] <==> value in Keys(choices) && HasText(value)
  {
    TwoValidators(Text(value), AnyOf(Keys(choices)), DataRequired);
    Check(Field(name, Text(value), [AnyOf(Keys(choices)), DataRequired]))
  }

  /** A required text field with at most `max` characters. */
  function BoundedTextErrors(name: string, value: string, max: nat): (errs: seq<string>)
    ensures errs == [] <==> HasText(value) && |value| <= max
  {
    TwoValidators(Text(value), DataRequired, Length(-1, max));
    Check(Field(name, Text(value), [DataRequired, Length(-1, max)]))
  }

  /** The e-mail addresses of the stored users. */
  function Emails(users: seq<User>): (r: seq<string>)
    ensures forall e :: e in r <==> exists i :: 0 <= i < |users| && users[i].email == e
  {
    if users == [] then [] else
      assert forall i :: 1 <= i < |users| ==> users[i] == users[1..][i - 1];
      [users[0].email] + Emails(users[1..])
  }

  /** The usernames of the stored users. */
  function Usernames(users: seq<User>): (r: seq<string>)
    ensures forall n :: n in r <==> exists i :: 0 <= i < |users| && users[i].username == n
  {
    if users == [] then [] else
      assert forall i :: 1 <= i < |users| ==> users[i] == users[1..][i - 1];
      [users[0].username] + Usernames(users[1..])
  }

  /**
   * RegistrationForm, with its two inline validators validate_email and
   * validate_username. `emailSyntaxOk` is the verdict of the e-mail syntax
   * validator, a library outside this model.
   */
  function RegistrationFormErrors(users: seq<User>, email: string, emailSyntaxOk: bool, username: string,
                                  password1: string, password2: string,
                                  firstName: string, lastName: string): (errs: seq<string>)
    ensures errs == [] <==>
      && HasText(email) && emailSyntaxOk
      && (forall i :: 0 <= i < |users| ==> users[i].email != email)
      && HasText(username) && 2 <= |username| <= 50
      && (forall i :: 0 <= i < |users| ==> users[i].username != username)
      && HasText(password1) && |password1| >= 8
      && password2 == password1
    ensures "email" in errs <==>
      !HasText(email) || !emailSyntaxOk || exists i :: 0 <= i < |users| && users[i].email == email
    ensures "username" in errs <==>
      !HasText(username) || !(2 <= |username| <= 50) ||
      exists i :: 0 <= i < |users| && users[i].username == username
  {
    var e := EmailErrors(users, email, emailSyntaxOk);
    var u := UsernameErrors(users, username);
    TwoValidators(Text(password1), DataRequired, Length(8, -1));
    TwoValidators(Text(password2), DataRequired, EqualTo(password1));
    var p1 := Check(Field("password1", Text(password1), [DataRequired, Length(8, -1)]));
    var p2 := Check(Field("password2", Text(password2), [DataRequired, EqualTo(password1)]));
    var f := Check(Field("first_name", Text(firstName), []));
    var l := Check(Field("last_name", Text(lastName), []));
    assert f == [] && l == [];
    assert p1 == [] <==> HasText(password1) && |password1| >= 8;
    assert p2 == [] <==> HasText(password2) && password2 == password1;
    e + u + p1 + p2 + f + l
  }

  /** RegistrationForm.email, with validate_email. */
  function EmailErrors(users: seq<User>, email: string, emailSyntaxOk: bool): (errs: seq<string>)
    ensures errs == [] || errs == ["email"]
    ensures errs == [] <==>
      HasText(email) && emailSyntaxOk && forall i :: 0 <= i < |users| ==> users[i].email != email
  {
    ThreeValidators(Text(email), DataRequired, External(emailSyntaxOk), NotTaken(Emails(users)));
    Check(Field("email", Text(email), [DataRequired, External(emailSyntaxOk), NotTaken(Emails(users))]))
  }

  /** RegistrationForm.username, with validate_username. */
  function UsernameErrors(users: seq<User>, username: string): (errs: seq<string>)
    ensures errs == [] || errs == ["username"]
    ensures errs == [] <==>
      HasText(username) && 2 <= |username| <= 50 && forall i :: 0 <= i < |users| ==> users[i].username != username
  {
    ThreeValidators(Text(username), DataRequired, Length(2, 50), NotTaken(Usernames(users)));
    Check(Field("username", Text(username), [DataRequired, Length(2, 50), NotTaken(Usernames(users))]))
  }

  /** SearchJobsForm: both selections must be listed keys ('All' included). */
  function SearchJobsFormErrors(location: string, profession: string): (errs: seq<string>)
    ensures errs == [] <==> location in Keys(MoroccanCities) && profession in Keys(Professions)
  {
    KeysHaveText();
    TwoValidators(Text(location), AnyOf(Keys(MoroccanCities)), DataRequired);
    TwoValidators(Text(profession), AnyOf(Keys(Professions)), DataRequired);
    Check(Field("location", Text(location), [AnyOf(Keys(MoroccanCities)), DataRequired])) +
    Check(Field("profession", Text(profession), [AnyOf(Keys(Professions)), DataRequired]))
  }

  /** Every listed key is non-blank, so DataRequired never refuses a listed choice. */
  lemma KeysHaveText()
    ensures forall k :: k in Keys(MoroccanCities) ==> HasText(k)
    ensures forall k :: k in Keys(Professions) ==> HasText(k)
  {
    CapitalisedKeysHaveText(MoroccanCities);
    CapitalisedKeysHaveText(Professions);
  }

  /** A key that starts with a capital letter is not blank. */
  lemma CapitalisedKeysHaveText(choices: seq<(string, string)>)
    requires forall i :: 0 <= i < |choices| ==> |choices[i].0| > 0 && 'A' <= choices[i].0[0] <= 'Z'
    ensures forall k :: k in Keys(choices) ==> HasText(k)
  {
    forall k | k in Keys(choices) ensures HasText(k) {
      var i :| 0 <= i < |Keys(choices)| && Keys(choices)[i] == k;
      assert !IsSpace(k[0]);
    }
  }

  /**
   * UpdateProfileForm. `emailSyntaxOk` and `dateOk` are the verdicts of the
   * e-mail validator and of the date parser, both outside this model.
   */
  function UpdateProfileFormErrors(firstName: string, lastName: string, email: string, emailSyntaxOk: bool,
                                   location: string, profession: string, dateOk: bool,
                                   picture: seq<string>): (errs: seq<string>)
    ensures errs == [] <==>
      UpdateProfileFormValid(firstName, lastName, email, emailSyntaxOk, location, profession, dateOk, picture)
  {
    KeysHaveText();
    var c1 := RequiredTextErrors("first_name", firstName);
    var c2 := RequiredTextErrors("last_name", lastName);
    TwoValidators(Text(email), DataRequired, External(emailSyntaxOk));
    var c3 := Check(Field("email", Text(email), [DataRequired, External(emailSyntaxOk)]));
    assert c3 == [] <==> HasText(email) && emailSyntaxOk;
    var c4 := ChoiceErrors("location", location, MoroccanCities);
    var c5 := ChoiceErrors("profession", profession, Professions);
    OneValidator(Day(None), External(dateOk));
    var c6 := Check(Field("date_of_birth", Day(None), [External(dateOk)]));
    assert c6 == [] <==> dateOk;
    var about := Check(Field("about_me", Text(""), []));
    assert about == [];
    OneValidator(Files(picture), FileAllowed(ImageExtensions));
    var c7 := Check(Field("profile_picture", Files(picture), [FileAllowed(ImageExtensions)]));
    assert c7 == [] <==> ImagesOnly(picture);
    c1 + c2 + c3 + c4 + c5 + c6 + about + c7
  }

  /** A text field whose only validator is DataRequired. */
  function RequiredTextErrors(name: string, value: string): (errs: seq<string>)
    ensures errs == [] <==> HasText(value)
  {
    OneValidator(Text(value), DataRequired);
    Check(Field(name, Text(value), [DataRequired]))
  }

  /** What UpdateProfileForm accepts, field by field. */
  predicate UpdateProfileFormValid(firstName: string, lastName: string, email: string, emailSyntaxOk: bool,
                                   location: string, profession: string, dateOk: bool, picture: seq<string>)
  {
    && HasText(firstName) && HasText(lastName) && HasText(email) && emailSyntaxOk
    && location in Keys(MoroccanCities) && profession in Keys(Professions)
    && dateOk && ImagesOnly(picture)
  }

  /** AddSkillForm: the skill name is required. */
  function AddSkillFormErrors(skill: string): (errs: seq<string>)
    ensures errs == [] <==> HasText(skill)
  {
    OneValidator(Text(skill), DataRequired);
    Check(Field("skill", Text(skill), [DataRequired]))
  }

  /** What AddExperienceForm accepts. */
  predicate AddExperienceFormValid(title: string, company: string, startDate: Option<Date>, endDate: Option<Date>)
  {
    HasText(title) && HasText(company) && startDate.Some? && endDate.Some?
  }

  /** AddExperienceForm: title, company and both dates are required; the description is optional. */
  function AddExperienceFormErrors(title: string, company: string, startDate: Option<Date>,
                                   endDate: Option<Date>, description: string): (errs: seq<string>)
    ensures errs == [] <==> AddExperienceFormValid(title, company, startDate, endDate)
  {
    OneValidator(Text(title), DataRequired);
    OneValidator(Text(company), DataRequired);
    OneValidator(Day(startDate), DataRequired);
    OneValidator(Day(endDate), DataRequired);
    var d := Check(Field("description", Text(description), []));
    assert d == [];
    Check(Field("experience", Text(title), [DataRequired])) +
    Check(Field("company", Text(company), [DataRequired])) +
    Check(Field("start_date", Day(startDate), [DataRequired])) +
    Check(Field("end_date", Day(endDate), [DataRequired])) +
    d
  }
}
