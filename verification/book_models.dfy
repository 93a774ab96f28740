/** The book entities: the `Category` union and the `Book` / `BookResponse` records. */
module BookModels {
  import opened Optional

  /** The closed set of genre labels. */
  datatype Category =
    | Fiction | NonFiction | ScienceFiction | Fantasy | Mystery | Romance | Thriller
    | Biography | History | Science | Technology | SelfHelp | Other

  /** The string literal each category is written as. */
  function Label(c: Category): string {
    match c
    case Fiction => "Fiction"
    case NonFiction => "Non-Fiction"
    case ScienceFiction => "Science Fiction"
    case Fantasy => "Fantasy"
    case Mystery => "Mystery"
    case Romance => "Romance"
    case Thriller => "Thriller"
    case Biography => "Biography"
    case History => "History"
    case Science => "Science"
    case Technology => "Technology"
    case SelfHelp => "Self-Help"
    case Other => "Other"
  }

  /** The category a string literal denotes, if any. */
  function CategoryOf(s: string): (r: Option<Category>)
    ensures r.Some? ==> Label(r.value) == s
  {
    if s == "Fiction" then Some(Fiction)
    else if s == "Non-Fiction" then Some(NonFiction)
    else if s == "Science Fiction" then Some(ScienceFiction)
    else if s == "Fantasy" then Some(Fantasy)
    else if s == "Mystery" then Some(Mystery)
    else if s == "Romance" then Some(Romance)
    else if s == "Thriller" then Some(Thriller)
    else if s == "Biography" then Some(Biography)
    else if s == "History" then Some(History)
    else if s == "Science" then Some(Science)
    else if s == "Technology" then Some(Technology)
    else if s == "Self-Help" then Some(SelfHelp)
    else if s == "Other" then Some(Other)
    else None
  }

  /** Every category's label reads back as that category, so labels are distinct. */
  lemma LabelRoundTrip(c: Category)
    ensures CategoryOf(Label(c)) == Some(c)
  {
  }

  lemma LabelInjective(c: Category, d: Category)
    ensures Label(c) == Label(d) <==> c == d
  {
  }

  /** A book as entered in the form, before it is stored. */
  datatype Book = Book(title: string, author: string, year: int, category: Category)

  /** A stored book as the book store returns it. */
  datatype BookResponse = BookResponse(
    id: string,
    title: string,
    author: string,
    year: int,
    category: Category,
    user_id: string,
    created_at: string)
}
