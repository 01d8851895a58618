/**
 * `String.prototype.trim`, which `@actions/core.getInput` applies to every input it returns.
 * It removes the ECMAScript WhiteSpace and LineTerminator code units from both ends.
 */
module JsStrings {
  import Trimming

  /** ECMAScript WhiteSpace (tab, VT, FF, space, NBSP, ZWNBSP and the Zs spaces) and LineTerminator. */
  predicate IsJsSpace(c: char) {
    || c == '\t' || c == '\U{0B}' || c == '\U{0C}' || c == ' ' || c == '\U{A0}' || c == '\U{FEFF}'
    || c == '\U{1680}' || ('\U{2000}' <= c <= '\U{200A}') || c == '\U{202F}' || c == '\U{205F}' || c == '\U{3000}'
    || c == '\n' || c == '\r' || c == '\U{2028}' || c == '\U{2029}'
  }

  /** Every code unit of `s` is trimmable (vacuously true of the empty string). */
  predicate AllJsSpace(s: string) {
    Trimming.All(IsJsSpace, s)
  }

  /** `String.prototype.trim`. */
  function Trim(s: string): string {
    Trimming.Trim(IsJsSpace, s)
  }

  /** `trim()` leaves nothing exactly for the strings made only of trimmable code units. */
  lemma TrimBlank(s: string)
    ensures Trim(s) == [] <==> AllJsSpace(s)
  {
    Trimming.TrimBlank(IsJsSpace, s);
  }
}
