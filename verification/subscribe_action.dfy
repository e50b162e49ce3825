/**
 * The older, email-only subscribe action: it reads three fields from the
 * submitted form, validates them, and replies; nothing is stored.
 */
module SubscribeAction {
  import opened Common
  import opened Schema
  import WaitlistAction

  /** The submitted form: `get` gives `null` (None) for a field that is missing. */
  datatype FormData = FormData(name: Option<string>, email: Option<string>, phone: Option<string>)

  const ThanksMessage := "Thank you for joining our waitlist!"

  /** The issue a required string field reports: `null` fails the type check before its own rule runs. */
  function FieldIssue(field: Option<string>, rule: string -> Option<string>): (issue: Option<string>)
    ensures field == None ==> issue == Some(NullFieldMessage)
    ensures field != None ==> issue == rule(field.value)
  {
    if field == None then Some(NullFieldMessage) else rule(field.value)
  }

  /** The email rule of this schema: a valid address, with no exception for the empty string. */
  function EmailIssue(isEmail: EmailRule): string -> Option<string> {
    (e: string) => if isEmail(e) then None else Some(EmailMessage)
  }

  function FirstIssue(form: FormData, isEmail: EmailRule): Option<string> {
    FirstOf(FieldIssue(form.name, NameIssue), FieldIssue(form.email, EmailIssue(isEmail)),
            FieldIssue(form.phone, PhoneIssue))
  }

  predicate Valid(form: FormData, isEmail: EmailRule) {
    && form.name != None && NameOk(form.name.value)
    && form.email != None && isEmail(form.email.value)
    && form.phone != None && PhoneOk(form.phone.value)
  }

  /** `subscribeToWaitlist(formData)`. */
  function Subscribe(form: FormData, isEmail: EmailRule): (r: ActionResult)
    ensures r.success <==> Valid(form, isEmail)
    ensures r.success ==> r.message == ThanksMessage
    ensures form.name != None && !NameOk(form.name.value) ==> r == Failed(NameMessage)
    ensures form.name == None ==> r == Failed(NullFieldMessage)
    ensures form.email == Some("") ==> !r.success
    ensures form.phone == None || (form.phone != None && !PhoneOk(form.phone.value)) ==> !r.success
  {
    match FirstIssue(form, isEmail)
    case Some(message) => Failed(message)
    case None => ActionResult(true, ThanksMessage)
  }

  /**
   * The legacy rules are stricter than the waitlist action's schema: a form they
   * accept, submitted as a waitlist entry, passes that schema too.
   */
  lemma StricterThanWaitlistSchema(form: FormData, isEmail: EmailRule, verified: Option<bool>)
    requires Subscribe(form, isEmail).success
    ensures WaitlistAction.FirstIssue(
              WaitlistAction.Entry(form.name.value, form.email, form.phone.value, verified), isEmail) == None
  {
  }

  /** The converse fails: an empty email passes the waitlist schema but not the legacy rules. */
  lemma EmptyEmailOnlyLegacyRefuses(name: string, phone: string, isEmail: EmailRule, verified: Option<bool>)
    requires NameOk(name) && PhoneOk(phone)
    ensures !Subscribe(FormData(Some(name), Some(""), Some(phone)), isEmail).success
    ensures WaitlistAction.FirstIssue(WaitlistAction.Entry(name, Some(""), phone, verified), isEmail) == None
  {
  }
}
