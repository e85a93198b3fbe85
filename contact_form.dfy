/**
 * The contact form's data and the specification of its validation: each
 * field is checked on its own, `name` and `message` must not be blank, and
 * `email` must not be blank and must match the email pattern as entered
 * (the pattern is applied to the untrimmed value).
 */
module ContactForm {
  import opened Text

  /** The three text fields; the same record holds the values and the errors
      (an empty error string means "no error"). */
  datatype Fields = Fields(name: string, email: string, message: string)

  /** Which field an input handler writes to. */
  datatype Field = NameField | EmailField | MessageField

  const Empty := Fields("", "", "")

  const NameRequired := "Name is required"
  const EmailRequired := "Email is required"
  const InvalidEmail := "Please enter a valid email"
  const MessageRequired := "Message is required"

  ghost function NameError(name: string): string {
    if IsBlank(name) then NameRequired else ""
  }

  ghost function EmailError(email: string): string {
    if IsBlank(email) then EmailRequired
    else if !MatchesEmailPattern(email) then InvalidEmail
    else ""
  }

  ghost function MessageError(message: string): string {
    if IsBlank(message) then MessageRequired else ""
  }

  /** The errors a submit of `data` must report, field by field. */
  ghost function ExpectedErrors(data: Fields): Fields {
    Fields(NameError(data.name), EmailError(data.email), MessageError(data.message))
  }

  /** The form is valid exactly when all three error strings are empty, that
      is when name and message are not blank and the email is not blank and
      matches the pattern. */
  lemma ValidIffEveryFieldPasses(data: Fields)
    ensures ExpectedErrors(data) == Empty <==>
      !IsBlank(data.name) && !IsBlank(data.message) && !IsBlank(data.email) &&
      MatchesEmailPattern(data.email)
  {
    assert |NameRequired| > 0 && |EmailRequired| > 0 && |InvalidEmail| > 0 && |MessageRequired| > 0;
  }

  /** One field's error depends on that field alone. */
  lemma ErrorsAreFieldwise(a: Fields, b: Fields)
    ensures a.name == b.name ==> ExpectedErrors(a).name == ExpectedErrors(b).name
    ensures a.email == b.email ==> ExpectedErrors(a).email == ExpectedErrors(b).email
    ensures a.message == b.message ==> ExpectedErrors(a).message == ExpectedErrors(b).message
  {
  }

  /** An email with whitespace around it is not blank, so it passes the
      "required" check, yet whitespace is outside `[^\s@]`, so it fails the
      pattern: it is reported as "Please enter a valid email". */
  lemma PaddedEmailIsInvalid(email: string)
    requires |email| > 0 && (IsSpace(email[0]) || IsSpace(email[|email| - 1]))
    requires !IsBlank(email)
    ensures EmailError(email) == InvalidEmail
  {
    EmailPatternShape(email);
  }

  /** Submitting name "", email "bad", message "hi". */
  lemma InvalidSubmissionExample()
    ensures ExpectedErrors(Fields("", "bad", "hi")) == Fields(NameRequired, InvalidEmail, "")
  {
    var bad := "bad";
    assert !IsSpace(bad[0]);
    assert !IsSpace("hi"[0]);
    EmailPatternShape(bad);
    assert !MatchesEmailPattern(bad);
  }

  /** Submitting name "A", email "a@b.co", message "hello" raises no error. */
  lemma ValidSubmissionExample()
    ensures ExpectedErrors(Fields("A", "a@b.co", "hello")) == Empty
  {
    var email := "a@b.co";
    assert !IsSpace("A"[0]) && !IsSpace("hello"[0]) && !IsSpace(email[0]);
    assert SplitsAt(email, 1, 3);
  }
}
