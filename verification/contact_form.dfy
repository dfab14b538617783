/** `ContactForm`: the contact page's schema and its submit cycle. zod's
    email pattern is a parameter `isEmail`. Lengths count characters; the
    schema does not trim. */
module ContactForm {
  import opened Wrappers

  datatype ContactValues = ContactValues(name: string, email: string, subject: string, message: string)

  datatype ContactField = NameField | EmailField | SubjectField | MessageField

  datatype ContactIssue = ContactIssue(field: ContactField, message: string)

  const NameMin := 2
  const SubjectMin := 5
  const MessageMin := 10

  /** The issues of one field: its message exactly when its rule fails. */
  function FieldIssue(ok: bool, field: ContactField, message: string): (r: seq<ContactIssue>)
    ensures r == [] <==> ok
    ensures !ok ==> r == [ContactIssue(field, message)]
  {
    if ok then [] else [ContactIssue(field, message)]
  }

  /** `formSchema.safeParse`: every failing field reports one issue, in
      field order, and the values pass exactly when no issue is reported. */
  function Validate(v: ContactValues, isEmail: string -> bool): (r: Result<ContactValues, seq<ContactIssue>>)
    ensures r.Success? <==>
              |v.name| >= NameMin && isEmail(v.email) && |v.subject| >= SubjectMin && |v.message| >= MessageMin
    ensures r.Success? ==> r.value == v
    ensures r.Failure? ==> r.error != []
    ensures r.Failure? ==>
              && (ContactIssue(NameField, "Name must be at least 2 characters.") in r.error <==> |v.name| < NameMin)
              && (ContactIssue(EmailField, "Please enter a valid email address.") in r.error <==> !isEmail(v.email))
              && (ContactIssue(SubjectField, "Subject must be at least 5 characters.") in r.error <==> |v.subject| < SubjectMin)
              && (ContactIssue(MessageField, "Message must be at least 10 characters.") in r.error <==> |v.message| < MessageMin)
  {
    var issues :=
      FieldIssue(|v.name| >= NameMin, NameField, "Name must be at least 2 characters.")
      + FieldIssue(isEmail(v.email), EmailField, "Please enter a valid email address.")
      + FieldIssue(|v.subject| >= SubjectMin, SubjectField, "Subject must be at least 5 characters.")
      + FieldIssue(|v.message| >= MessageMin, MessageField, "Message must be at least 10 characters.");
    if issues == [] then Success(v) else Failure(issues)
  }

  /** `defaultValues`. */
  const Defaults := ContactValues("", "", "", "")

  /** The untouched form fails the name, subject and message rules, whatever
      the email pattern says about "". */
  lemma DefaultsFail(isEmail: string -> bool)
    ensures var r := Validate(Defaults, isEmail);
            && r.Failure?
            && ContactIssue(NameField, "Name must be at least 2 characters.") in r.error
            && ContactIssue(SubjectField, "Subject must be at least 5 characters.") in r.error
            && ContactIssue(MessageField, "Message must be at least 10 characters.") in r.error
  {
  }

  /** The form: its values, the issues on display and the submitting flag. */
  datatype ContactState = ContactState(values: ContactValues, issues: seq<ContactIssue>, isSubmitting: bool)

  const InitialContact := ContactState(Defaults, [], false)

  /** `form.handleSubmit(onSubmit)` up to the simulated request: invalid
      values only show their issues; valid values clear them, set the
      submitting flag and are handed to `onSubmit`. */
  function StartSubmit(st: ContactState, isEmail: string -> bool): (r: (ContactState, Option<ContactValues>))
    ensures r.1.Some? <==> Validate(st.values, isEmail).Success?
    ensures r.1.Some? ==> r.1.value == st.values && r.0 == st.(issues := [], isSubmitting := true)
    ensures r.1.None? ==> r.0 == st.(issues := Validate(st.values, isEmail).error)
  {
    match Validate(st.values, isEmail)
    case Success(v) => (st.(issues := [], isSubmitting := true), Some(v))
    case Failure(e) => (st.(issues := e), None)
  }

  /** The end of `onSubmit`: `form.reset()` restores the defaults and clears
      the issues, and the submitting flag is cleared. */
  function FinishSubmit(st: ContactState): (r: ContactState)
    ensures r.values == Defaults && r.issues == [] && !r.isSubmitting
  {
    ContactState(Defaults, [], false)
  }

  /** A completed submission leaves the form as it was first shown, so a
      second submit without typing is refused. */
  lemma SubmitCycleResets(st: ContactState, isEmail: string -> bool)
    requires Validate(st.values, isEmail).Success?
    ensures var (started, sent) := StartSubmit(st, isEmail);
            && sent == Some(st.values)
            && started.isSubmitting
            && FinishSubmit(started) == InitialContact
            && StartSubmit(FinishSubmit(started), isEmail).1.None?
  {
    DefaultsFail(isEmail);
  }
}
