/** Small datatypes shared by every part of the model. */
module Common {

  /** A value that may be absent: an absent JSON field, a null column, a `null` from `FormData.get`. */
  datatype Option<T> = None | Some(value: T)

  /** The `{ success, message }` object both server actions return to the browser. */
  datatype ActionResult = ActionResult(success: bool, message: string)

  function Failed(message: string): ActionResult {
    ActionResult(false, message)
  }

  /** JavaScript truthiness of a string that may be absent: present and not empty. */
  predicate Truthy(s: Option<string>) {
    s != None && s.value != ""
  }

  /** JavaScript's `s || fallback` on a string. */
  function OrElse(s: string, fallback: string): string {
    if Truthy(Some(s)) then s else fallback
  }

  /**
   * The email syntax check of the validation library, left abstract. The only
   * fact the model relies on is that it never accepts the empty string.
   */
  type EmailRule = f: string -> bool | !f("") witness (s: string) => false
}
