/**
 * The field rules shared by the two validation schemas of the server actions:
 * a name of at least 2 characters, a phone of at least 7, and an email that the
 * library's email check accepts, each with its own message.
 */
module Schema {
  import opened Common

  const MinNameLength: nat := 2
  const MinPhoneLength: nat := 7

  const NameMessage := "Please enter your name"
  const EmailMessage := "Please enter a valid email address"
  const PhoneMessage := "Please enter a valid phone number"

  /** The library's default message for a field whose value is `null` instead of a string. */
  const NullFieldMessage := "Expected string, received null"

  predicate NameOk(name: string) {
    |name| >= MinNameLength
  }

  predicate PhoneOk(phone: string) {
    |phone| >= MinPhoneLength
  }

  /** The issue the rule for `name` reports, if any. */
  function NameIssue(name: string): (issue: Option<string>)
    ensures issue == None <==> NameOk(name)
    ensures issue != None ==> issue == Some(NameMessage)
  {
    if NameOk(name) then None else Some(NameMessage)
  }

  /** The issue the rule for `phone` reports, if any. */
  function PhoneIssue(phone: string): (issue: Option<string>)
    ensures issue == None <==> PhoneOk(phone)
    ensures issue != None ==> issue == Some(PhoneMessage)
  {
    if PhoneOk(phone) then None else Some(PhoneMessage)
  }

  /** The first issue of a list of field checks taken in schema order. */
  function FirstOf(a: Option<string>, b: Option<string>, c: Option<string>): (first: Option<string>)
    ensures first == None <==> a == None && b == None && c == None
    ensures a != None ==> first == a
    ensures a == None && b != None ==> first == b
    ensures a == None && b == None ==> first == c
  {
    if a != None then a else if b != None then b else c
  }
}
