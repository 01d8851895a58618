/**
 * Trimming a string at both ends, for a given notion of white space. Go's
 * `strings.TrimSpace` and JavaScript's `String.prototype.trim` both have this shape and
 * differ only in which characters they count as space.
 */
module Trimming {

  /** Every character of `s` is space (vacuously true of the empty string). */
  predicate All(space: char -> bool, s: string) {
    forall i :: 0 <= i < |s| ==> space(s[i])
  }

  /** Drops leading space. */
  function TrimLeft(space: char -> bool, s: string): string
    decreases |s|
  {
    if s != [] && space(s[0]) then TrimLeft(space, s[1..]) else s
  }

  /** Drops trailing space. */
  function TrimRight(space: char -> bool, s: string): string
    decreases |s|
  {
    if s != [] && space(s[|s| - 1]) then TrimRight(space, s[..|s| - 1]) else s
  }

  /** Drops leading and trailing space. */
  function Trim(space: char -> bool, s: string): string {
    TrimRight(space, TrimLeft(space, s))
  }

  /** Trimming the left end leaves nothing exactly when the string is all space. */
  lemma {:induction false} TrimLeftBlank(space: char -> bool, s: string)
    ensures TrimLeft(space, s) == [] <==> All(space, s)
    ensures TrimLeft(space, s) != [] ==> !space(TrimLeft(space, s)[0])
    decreases |s|
  {
    if s != [] && space(s[0]) {
      TrimLeftBlank(space, s[1..]);
      assert All(space, s) <==> All(space, s[1..]) by {
        if All(space, s[1..]) {
          forall i | 0 <= i < |s| ensures space(s[i]) {
            if i > 0 { assert s[i] == s[1..][i - 1]; }
          }
        }
      }
    }
  }

  /** Trimming the right end never removes a first character that is not space. */
  lemma {:induction false} TrimRightKeepsHead(space: char -> bool, s: string)
    requires s != [] && !space(s[0])
    ensures TrimRight(space, s) != []
    decreases |s|
  {
    if space(s[|s| - 1]) {
      assert |s| > 1;
      TrimRightKeepsHead(space, s[..|s| - 1]);
    }
  }

  /** Trimming both ends leaves nothing exactly for the strings made only of space. */
  lemma TrimBlank(space: char -> bool, s: string)
    ensures Trim(space, s) == [] <==> All(space, s)
  {
    TrimLeftBlank(space, s);
    if TrimLeft(space, s) != [] {
      TrimRightKeepsHead(space, TrimLeft(space, s));
    }
  }
}
