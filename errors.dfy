/** The error records of the client: `GeneralError` and its subclass
    `SMTPResponseError`, each built once by its constructor and never changed. */
module Errors {
  import opened Js

  /** The `code` property: `GeneralError` sets the number 500, `SMTPResponseError`
      overwrites it with the reply code, which is a string. */
  datatype ErrorCode = Numeric(number: int) | Textual(text: string)

  /** The fields an error carries. `enhancedCode` is `None` both where it is `null`
      and on a `GeneralError`, which has no such property. */
  datatype ErrorRecord = ErrorRecord(name: string, message: string, code: ErrorCode, enhancedCode: Option<string>)

  /** `new GeneralError(message)`. The name is `this.constructor.name`, and it is empty:
      the class is an anonymous class expression assigned to a property of `exports`,
      and assignment names an anonymous class only when its target is a plain variable. */
  function GeneralError(message: string): (e: ErrorRecord)
    ensures e.name == "" && e.message == message
    ensures e.code == Numeric(500) && e.enhancedCode == None
  {
    ErrorRecord("", message, Numeric(500), None)
  }

  /** `new SMTPResponseError(message, code, enhancedCode)`: the `GeneralError` the
      superclass constructor builds, with its name set again (to the same empty name,
      for the same reason), its code overwritten and the enhanced code added. */
  function SMTPResponseError(message: string, code: string := "500", enhancedCode: Option<string> := None): (e: ErrorRecord)
    ensures e.name == "" && e.message == message
    ensures e.code == Textual(code) && e.enhancedCode == enhancedCode
  {
    GeneralError(message).(name := "", code := Textual(code), enhancedCode := enhancedCode)
  }

  /** With the defaults, a response error carries the string "500", which is not the
      number 500 a `GeneralError` with the same message carries; the message is the same. */
  lemma ResponseErrorDefaults(message: string)
    ensures SMTPResponseError(message) == ErrorRecord("", message, Textual("500"), None)
    ensures SMTPResponseError(message).message == GeneralError(message).message
    ensures SMTPResponseError(message).code != GeneralError(message).code
  {
  }

  /** The name does not tell the two errors apart: only the type of the code does. */
  lemma NamesAgree(message: string, code: string, enhancedCode: Option<string>)
    ensures SMTPResponseError(message, code, enhancedCode).name == GeneralError(message).name
    ensures SMTPResponseError(message, code, enhancedCode) != GeneralError(message)
  {
  }
}
