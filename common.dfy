/** Small vocabulary shared by every layer: optional values, the failures the
    services raise, and the string helpers the validation and query layers use. */
module Common {

  /** A Java reference that may be null, or an absent request parameter. */
  datatype Option<+T> = None | Some(value: T)

  /** Instants are abstract: the source reads the wall clock, the model takes
      the current time as a parameter. */
  type Timestamp = int

  /** One constraint violation reported by bean validation for one request field. */
  datatype FieldError = FieldError(field: string, message: string)

  /** Every exception kind that reaches the boundary handler. The services raise
      the first three; authentication raises the next two; request binding the
      sixth; a refused method-level role check the seventh; anything else is the last. */
  datatype Failure =
    | ResourceNotFound(message: string)
    | UnauthorizedAccess(message: string)
    | Validation(message: string)
    | BadCredentials(message: string)
    | AuthenticationFailed(message: string)
    | ArgumentNotValid(errors: seq<FieldError>)
    | AccessDenied(message: string)
    | Unexpected(message: string)

  /** A service call either returns a value or throws one of the failures above. */
  datatype Result<+T> = Ok(value: T) | Err(failure: Failure)

  /** String.trim() strips every character at or below U+0020. */
  predicate IsTrimmable(c: char) {
    c <= ' '
  }

  /** `@NotBlank`: not null, and something is left after trimming. */
  predicate NotBlank(s: Option<string>) {
    s.Some? && exists i :: 0 <= i < |s.value| && !IsTrimmable(s.value[i])
  }

  /** ASCII lower-casing, the part of SQL LOWER the model keeps. */
  function LowerChar(c: char): char {
    if 'A' <= c <= 'Z' then (c as int + 32) as char else c
  }

  function Lower(s: string): (r: string)
    ensures |r| == |s|
    ensures forall i :: 0 <= i < |s| ==> r[i] == LowerChar(s[i])
  {
    seq(|s|, i requires 0 <= i < |s| => LowerChar(s[i]))
  }

  lemma LowerIsIdempotent(s: string)
    ensures Lower(Lower(s)) == Lower(s)
  {
  }

  /** `needle` occurs in `hay` starting at position `i`. */
  predicate OccursAt(hay: string, needle: string, i: int) {
    0 <= i && i + |needle| <= |hay| && hay[i..i + |needle|] == needle
  }

  /** `hay LIKE '%' || needle || '%'`, with no LIKE metacharacters in `needle`. */
  predicate ContainsSubstring(hay: string, needle: string) {
    exists i | 0 <= i <= |hay| :: OccursAt(hay, needle, i)
  }

  function DigitChar(d: nat): char
    requires d < 10
  {
    "0123456789"[d]
  }

  function NatToString(n: nat): (r: string)
    decreases n
  {
    if n < 10 then [DigitChar(n)] else NatToString(n / 10) + [DigitChar(n % 10)]
  }

  /** `Long.toString`, as used when a message is built with `"..." + id`. */
  function IntToString(i: int): string {
    if i < 0 then "-" + NatToString(-i) else NatToString(i)
  }

  predicate IsNumeral(s: string) {
    |s| > 0 && forall k :: 0 <= k < |s| ==> s[k] == '-' || '0' <= s[k] <= '9'
  }

  lemma {:induction false} NatToStringIsNumeral(n: nat)
    ensures IsNumeral(NatToString(n)) && '-' !in NatToString(n)
    decreases n
  {
    if n >= 10 {
      NatToStringIsNumeral(n / 10);
    }
  }

  /** A rendered id is a non-empty run of digits with an optional sign: it never
      collides with a literal path word such as "apply" or "my". */
  lemma IntToStringIsNumeral(i: int)
    ensures IsNumeral(IntToString(i))
  {
    if i < 0 {
      NatToStringIsNumeral(-i);
    } else {
      NatToStringIsNumeral(i);
    }
  }
}
