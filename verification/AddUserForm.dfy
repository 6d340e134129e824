/**
 The add-user form: the validation schema its resolver enforces, its default values,
 and the submit handler that forwards valid data to the users context.
 Email validity is the library's own check and is taken as the parameter `isEmail`.
 */
module AddUserForm {
  import opened Users
  import UsersContext

  datatype Field = NameField | UsernameField | EmailField | PhoneField | WebsiteField | CompanyField

  /** The kinds of rule the schema uses: a minimum length, an email address, an optional string. */
  datatype Rule = MinLength(min: nat) | EmailAddress | OptionalText

  /** `userFormSchema`, field by field. */
  function SchemaRule(f: Field): Rule
  {
    match f
    case NameField => MinLength(2)
    case UsernameField => MinLength(3)
    case EmailField => EmailAddress
    case PhoneField => MinLength(6)
    case WebsiteField => OptionalText
    case CompanyField => MinLength(2)
  }

  function FieldValue(form: UserFormData, f: Field): string
  {
    match f
    case NameField => form.name
    case UsernameField => form.username
    case EmailField => form.email
    case PhoneField => form.phone
    case WebsiteField => form.website
    case CompanyField => form.company
  }

  predicate Passes(rule: Rule, value: string, isEmail: string -> bool)
  {
    match rule
    case MinLength(n) => |value| >= n
    case EmailAddress => isEmail(value)
    case OptionalText => true
  }

  const AllFields: set<Field> := {NameField, UsernameField, EmailField, PhoneField, WebsiteField, CompanyField}

  /** The fields the resolver reports an error on. */
  function Errors(form: UserFormData, isEmail: string -> bool): (errs: set<Field>)
    ensures NameField in errs <==> |form.name| < 2
    ensures UsernameField in errs <==> |form.username| < 3
    ensures EmailField in errs <==> !isEmail(form.email)
    ensures PhoneField in errs <==> |form.phone| < 6
    ensures CompanyField in errs <==> |form.company| < 2
    ensures WebsiteField !in errs
  {
    set f | f in AllFields && !Passes(SchemaRule(f), FieldValue(form, f), isEmail)
  }

  /** The form's `defaultValues`. */
  const DefaultValues: UserFormData := UserFormData("", "", "", "", "", "")

  /** Submitting the untouched form reports name, username, email, phone and company,
      and never website. */
  lemma DefaultFormErrors(isEmail: string -> bool)
    requires !isEmail("")
    ensures Errors(DefaultValues, isEmail) == {NameField, UsernameField, EmailField, PhoneField, CompanyField}
  {
  }

  /** The record the form test fills in. */
  const SampleForm: UserFormData :=
    UserFormData("Jane Doe", "janedoe", "jane@example.com", "555-987-6543", "janedoe.com", "Jane Co")

  lemma SampleFormValid(isEmail: string -> bool)
    requires isEmail("jane@example.com")
    ensures Errors(SampleForm, isEmail) == {}
  {
  }

  /** `handleSubmit(onSubmit)`: the handler runs only on data that passes the schema,
      and hands it unchanged to `addUser`. Navigation is not part of the state. */
  function Submit(s: UsersContext.State, form: UserFormData, isEmail: string -> bool): (r: UsersContext.State)
    ensures Errors(form, isEmail) != {} ==> r == s
    ensures Errors(form, isEmail) == {} ==> r == UsersContext.AddUser(s, form)
    ensures Errors(form, isEmail) == {} ==>
      && |r.users| == |s.users| + 1
      && r.users[..|s.users|] == s.users
      && var u := r.users[|s.users|];
         && u.name == form.name && u.username == form.username && u.email == form.email
         && u.phone == form.phone && u.website == form.website && u.company.name == form.company
  {
    if Errors(form, isEmail) == {} then UsersContext.AddUser(s, form) else s
  }

  /** Every user the form adds satisfies the schema's length rules and the email check. */
  lemma SubmittedUserSatisfiesSchema(s: UsersContext.State, form: UserFormData, isEmail: string -> bool)
    requires |Submit(s, form, isEmail).users| > |s.users|
    ensures var u := Submit(s, form, isEmail).users[|s.users|];
      && |u.name| >= 2 && |u.username| >= 3 && isEmail(u.email)
      && |u.phone| >= 6 && |u.company.name| >= 2
  {
  }
}
