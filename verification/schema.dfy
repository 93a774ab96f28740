/**
 * The shapes a zod schema's `safeParse` produces, and the string rule
 * `z.string({ required_error }).min(n, message)` shared by every form.
 */
module Schema {
  import opened Optional

  /** One element of an issue's path: an object key or an array index. */
  datatype PathElem = Key(name: string) | Index(n: nat)

  /** One validation failure: where it is and what to show. */
  datatype Issue = Issue(path: seq<PathElem>, message: string)

  /** `safeParse`'s answer: the typed value, or the issues found. */
  datatype ParseResult<T> = Parsed(value: T) | Failed(issues: seq<Issue>)

  /** An issue on the top-level field `field`. */
  function FieldIssue(field: string, message: string): Issue {
    Issue([Key(field)], message)
  }

  /** Every issue in `issues` is attached to the top-level field `field`. */
  predicate AllOnField(issues: seq<Issue>, field: string) {
    forall i | 0 <= i < |issues| :: issues[i].path == [Key(field)]
  }

  /** A string field that may be missing passes `.min(min)`. */
  predicate MinLengthOk(v: Option<string>, min: nat) {
    v.Some? && |v.value| >= min
  }

  /**
   * The issues `z.string({ required_error: required }).min(min, tooShort)`
   * reports on field `field`: the required message when the field is
   * missing, the length message when it is shorter than `min`.
   */
  function MinLengthIssues(field: string, v: Option<string>, min: nat, required: string, tooShort: string): (r: seq<Issue>)
    ensures r == [] <==> MinLengthOk(v, min)
    ensures AllOnField(r, field)
    ensures v.None? ==> r == [FieldIssue(field, required)]
    ensures v.Some? && !MinLengthOk(v, min) ==> r == [FieldIssue(field, tooShort)]
  {
    match v
    case None => [FieldIssue(field, required)]
    case Some(s) => if |s| >= min then [] else [FieldIssue(field, tooShort)]
  }
}
