/**
 * The two pieces of Go's standard library the action's message check relies on:
 * `unicode.IsSpace` and `strings.TrimSpace`.
 */
module GoStrings {
  import Trimming

  /** `unicode.IsSpace`: the Latin-1 spaces plus the other characters with the Unicode White_Space property. */
  predicate IsSpace(c: char) {
    || c == '\t' || c == '\n' || c == '\U{0B}' || c == '\U{0C}' || c == '\r' || c == ' '
    || c == '\U{85}' || c == '\U{A0}' || c == '\U{1680}'
    || ('\U{2000}' <= c <= '\U{200A}')
    || c == '\U{2028}' || c == '\U{2029}' || c == '\U{202F}' || c == '\U{205F}' || c == '\U{3000}'
  }

  /** Every character of `s` is white space (vacuously true of the empty string). */
  predicate AllSpace(s: string) {
    Trimming.All(IsSpace, s)
  }

  /** `strings.TrimSpace`: drops leading and trailing white space. */
  function TrimSpace(s: string): string {
    Trimming.Trim(IsSpace, s)
  }

  /** `strings.TrimSpace(s) == ""` holds exactly for the strings made only of white space. */
  lemma TrimSpaceBlank(s: string)
    ensures TrimSpace(s) == [] <==> AllSpace(s)
  {
    Trimming.TrimBlank(IsSpace, s);
  }
}
