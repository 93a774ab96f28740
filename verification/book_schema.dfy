/**
 * `bookSchema`: the title, author, year and category rules a book form must
 * pass. `currentYear` is the year captured when the schema is built.
 */
module BookSchema {
  import opened Optional
  import opened Seqs
  import opened BookModels
  import opened Schema
  import ValidateSchema

  /** The form's raw values; a field the form did not supply is None. */
  datatype BookInput = BookInput(title: Option<string>, author: Option<string>, year: Option<int>, category: Option<string>)

  /** The labels `z.enum` lists, in the schema's order. */
  const CategoryEnum: seq<string> := [
    "Fiction", "Non-Fiction", "Science Fiction", "Fantasy", "Mystery", "Romance", "Thriller",
    "Biography", "History", "Science", "Technology", "Self-Help", "Other"
  ]

  /** zod's message for a missing field that declares no `required_error`. */
  const DefaultRequired := "Required"
  /** Stand-in for zod's default `invalid_enum_value` message. */
  const InvalidEnumValue := "Invalid enum value"

  /** The enum lists 13 distinct labels, and they are exactly the labels of `Category`. */
  lemma EnumIsCategoryType()
    ensures |CategoryEnum| == 13
    ensures NoDuplicates(CategoryEnum)
    ensures forall s :: s in CategoryEnum <==> CategoryOf(s).Some?
    ensures forall c: Category :: Label(c) in CategoryEnum
  {
  }

  predicate TitleOk(t: Option<string>) { MinLengthOk(t, 1) }

  predicate AuthorOk(a: Option<string>) { MinLengthOk(a, 1) }

  predicate YearOk(currentYear: int, y: Option<int>) {
    y.Some? && 0 <= y.value <= currentYear
  }

  predicate CategoryOk(c: Option<string>) {
    c.Some? && c.value in CategoryEnum
  }

  function TitleIssues(t: Option<string>): seq<Issue> {
    MinLengthIssues("title", t, 1, DefaultRequired, "Title is required")
  }

  function AuthorIssues(a: Option<string>): seq<Issue> {
    MinLengthIssues("author", a, 1, DefaultRequired, "Author is required")
  }

  /**
   * `z.number({ required_error }).nonnegative(..).int(..).max(currentYear, ..)`.
   * The year is an integer here, so the `.int` check never fires.
   */
  function YearIssues(currentYear: int, y: Option<int>): (r: seq<Issue>)
    ensures r == [] <==> YearOk(currentYear, y)
    ensures AllOnField(r, "year")
  {
    match y
    case None => [FieldIssue("year", "Year is required")]
    case Some(v) =>
      (if v < 0 then [FieldIssue("year", "Year must be a non-negative number")] else [])
      + (if v > currentYear then [FieldIssue("year", "Year cannot be in the future")] else [])
  }

  function CategoryIssues(c: Option<string>): (r: seq<Issue>)
    ensures r == [] <==> CategoryOk(c)
    ensures AllOnField(r, "category")
  {
    match c
    case None => [FieldIssue("category", "Category is required")]
    case Some(s) => if s in CategoryEnum then [] else [FieldIssue("category", InvalidEnumValue)]
  }

  /** The record is accepted exactly when all four field rules hold. */
  predicate Accepts(currentYear: int, x: BookInput) {
    TitleOk(x.title) && AuthorOk(x.author) && YearOk(currentYear, x.year) && CategoryOk(x.category)
  }

  /** The fields whose rule fails. */
  function FailingFields(currentYear: int, x: BookInput): set<string> {
    (if TitleOk(x.title) then {} else {"title"})
    + (if AuthorOk(x.author) then {} else {"author"})
    + (if YearOk(currentYear, x.year) then {} else {"year"})
    + (if CategoryOk(x.category) then {} else {"category"})
  }

  /** The issue is attached to a top-level field whose rule fails. */
  predicate OnFailingField(currentYear: int, x: BookInput, issue: Issue) {
    |issue.path| == 1 && issue.path[0].Key? && issue.path[0].name in FailingFields(currentYear, x)
  }

  /** All issues, field by field in the schema's order. */
  function Issues(currentYear: int, x: BookInput): seq<Issue> {
    TitleIssues(x.title) + AuthorIssues(x.author) + YearIssues(currentYear, x.year) + CategoryIssues(x.category)
  }

  /**
   * `bookSchema.safeParse`: the book on acceptance, otherwise at least one
   * issue, each on a field whose rule fails.
   */
  function Parse(currentYear: int, x: BookInput): (r: ParseResult<Book>)
    ensures r.Parsed? <==> Accepts(currentYear, x)
    ensures r.Parsed? ==> && r.value.title == x.title.value
                          && r.value.author == x.author.value
                          && r.value.year == x.year.value
                          && Label(r.value.category) == x.category.value
    ensures r.Failed? ==> |r.issues| > 0
    ensures r.Failed? ==> forall i | 0 <= i < |r.issues| :: OnFailingField(currentYear, x, r.issues[i])
  {
    var issues := Issues(currentYear, x);
    if issues == [] then
      EnumIsCategoryType();
      Parsed(Book(x.title.value, x.author.value, x.year.value, CategoryOf(x.category.value).value))
    else
      IssuesOnFailingFields(currentYear, x);
      Failed(issues)
  }

  lemma IssuesOnFailingFields(currentYear: int, x: BookInput)
    ensures forall i | 0 <= i < |Issues(currentYear, x)| :: OnFailingField(currentYear, x, Issues(currentYear, x)[i])
  {
  }

  /** The keys the issue list is stored under are exactly the failing fields. */
  lemma {:induction false} IssueKeysAreFailingFields(currentYear: int, x: BookInput)
    ensures ValidateSchema.KeysOf(Issues(currentYear, x)) == FailingFields(currentYear, x)
  {
    var t, a, y, c := TitleIssues(x.title), AuthorIssues(x.author), YearIssues(currentYear, x.year), CategoryIssues(x.category);
    ValidateSchema.KeysOfOneField(t, "title");
    ValidateSchema.KeysOfOneField(a, "author");
    ValidateSchema.KeysOfOneField(y, "year");
    ValidateSchema.KeysOfOneField(c, "category");
    ValidateSchema.KeysOfAppend(t, a);
    ValidateSchema.KeysOfAppend(t + a, y);
    ValidateSchema.KeysOfAppend(t + a + y, c);
  }

  /**
   * Through `validateSchema`: `result` is true exactly when the record is
   * rejected, and the error keys are exactly the failing fields.
   */
  lemma ErrorsAreFailingFields(currentYear: int, x: BookInput)
    ensures ValidateSchema.Validate(Parse(currentYear, x)).result <==> !Accepts(currentYear, x)
    ensures ValidateSchema.Validate(Parse(currentYear, x)).errors.Keys == FailingFields(currentYear, x)
  {
    IssueKeysAreFailingFields(currentYear, x);
    ValidateSchema.CollectKeys(Issues(currentYear, x), map[]);
  }

  /** Every rejected record leaves at least one message in the error map. */
  lemma RejectedHasMessage(currentYear: int, x: BookInput)
    requires !Accepts(currentYear, x)
    ensures ValidateSchema.Validate(Parse(currentYear, x)).errors != map[]
  {
  }

  /** The form's values for an existing book, as the edit dialog pre-fills them. */
  function FromBook(b: Book): BookInput {
    BookInput(Some(b.title), Some(b.author), Some(b.year), Some(Label(b.category)))
  }

  /** A stored book's values parse back to the same book exactly when they satisfy the rules. */
  lemma ParseFromBook(currentYear: int, b: Book)
    ensures Parse(currentYear, FromBook(b)) == Parsed(b)
        <==> b.title != "" && b.author != "" && 0 <= b.year <= currentYear
  {
    EnumIsCategoryType();
    LabelRoundTrip(b.category);
  }

  /** 0 and the current year are accepted; -1 and next year are rejected with their messages. */
  lemma YearBoundaries(currentYear: int)
    requires currentYear >= 0
    ensures YearIssues(currentYear, Some(0)) == []
    ensures YearIssues(currentYear, Some(currentYear)) == []
    ensures YearIssues(currentYear, Some(-1)) == [FieldIssue("year", "Year must be a non-negative number")]
    ensures YearIssues(currentYear, Some(currentYear + 1)) == [FieldIssue("year", "Year cannot be in the future")]
    ensures YearIssues(currentYear, None) == [FieldIssue("year", "Year is required")]
  {
  }

  /** An empty title or author is rejected with its "required" message. */
  lemma EmptyTextMessages()
    ensures TitleIssues(Some("")) == [FieldIssue("title", "Title is required")]
    ensures AuthorIssues(Some("")) == [FieldIssue("author", "Author is required")]
  {
  }
}
