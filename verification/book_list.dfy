/**
 * The part of `BookList` recomputed on every render: the filtered and
 * ordered view of the fetched books, the category choices, and which
 * empty-state message to show. All of it is a function of
 * `(books, searchTerm, categoryFilter, orderBy)`.
 */
module BookList {
  import opened Optional
  import opened Text
  import opened Seqs
  import opened BookModels

  /** The search term occurs, ignoring case, in the title or in the author. */
  predicate MatchesSearch(b: BookResponse, searchTerm: string) {
    Includes(Lower(b.title), Lower(searchTerm)) || Includes(Lower(b.author), Lower(searchTerm))
  }

  /** `"all"` admits every book; any other filter admits its own category only. */
  predicate MatchesCategory(b: BookResponse, categoryFilter: string) {
    categoryFilter == "all" || Label(b.category) == categoryFilter
  }

  predicate Keep(b: BookResponse, searchTerm: string, categoryFilter: string) {
    MatchesSearch(b, searchTerm) && MatchesCategory(b, categoryFilter)
  }

  /**
   * `books.filter(...)`: the books that match, in their original order. A
   * book is kept as often as it occurs when it matches, and never otherwise.
   */
  function Filter(books: seq<BookResponse>, searchTerm: string, categoryFilter: string): (r: seq<BookResponse>)
    ensures IsSubseq(r, books)
    ensures forall b :: multiset(r)[b] == if Keep(b, searchTerm, categoryFilter) then multiset(books)[b] else 0
    decreases |books|
  {
    if |books| == 0 then []
    else
      assert books == [books[0]] + books[1..];
      var rest := Filter(books[1..], searchTerm, categoryFilter);
      if Keep(books[0], searchTerm, categoryFilter) then [books[0]] + rest else rest
  }

  /** Membership form of the filter's contract: a book is shown iff it is fetched and matches. */
  lemma FilterMembership(books: seq<BookResponse>, searchTerm: string, categoryFilter: string, b: BookResponse)
    ensures b in Filter(books, searchTerm, categoryFilter) <==> b in books && Keep(b, searchTerm, categoryFilter)
  {
  }

  /** The empty term is contained in every string. */
  lemma EmptyTermMatches(b: BookResponse)
    ensures MatchesSearch(b, "")
  {
  }

  /** No search term and the `"all"` filter show every book, in the fetched order. */
  lemma {:induction false} FilterNothingIsIdentity(books: seq<BookResponse>)
    ensures Filter(books, "", "all") == books
    decreases |books|
  {
    if |books| > 0 {
      EmptyTermMatches(books[0]);
      FilterNothingIsIdentity(books[1..]);
    }
  }

  /** The three orderings the "Order by" select offers. */
  datatype SortKey = ByTitle | ByAuthor | ByYear

  /** The value of the select: `"title"`, `"author"` and `"year"` sort, anything else (`"none"`) keeps the filter's order. */
  function SortKeyOf(orderBy: string): (k: Option<SortKey>)
    ensures k == Some(ByTitle) <==> orderBy == "title"
    ensures k == Some(ByAuthor) <==> orderBy == "author"
    ensures k == Some(ByYear) <==> orderBy == "year"
  {
    if orderBy == "title" then Some(ByTitle)
    else if orderBy == "author" then Some(ByAuthor)
    else if orderBy == "year" then Some(ByYear)
    else None
  }

  /**
   * `a` may come before `b`: `localeCompare` on titles or authors, numeric
   * difference on years.
   */
  predicate Le(k: SortKey, a: BookResponse, b: BookResponse) {
    match k
    case ByTitle => StrLe(a.title, b.title)
    case ByAuthor => StrLe(a.author, b.author)
    case ByYear => a.year <= b.year
  }

  lemma LeTotal(k: SortKey, a: BookResponse, b: BookResponse)
    ensures Le(k, a, b) || Le(k, b, a)
  {
    match k
    case ByTitle => StrLeTotal(a.title, b.title);
    case ByAuthor => StrLeTotal(a.author, b.author);
    case ByYear =>
  }

  lemma LeTransitive(k: SortKey, a: BookResponse, b: BookResponse, c: BookResponse)
    requires Le(k, a, b) && Le(k, b, c)
    ensures Le(k, a, c)
  {
    match k
    case ByTitle => StrLeTransitive(a.title, b.title, c.title);
    case ByAuthor => StrLeTransitive(a.author, b.author, c.author);
    case ByYear =>
  }

  predicate SortedBy(k: SortKey, s: seq<BookResponse>) {
    forall i, j | 0 <= i < j < |s| :: Le(k, s[i], s[j])
  }

  /** Puts `x` into a sorted list, keeping it sorted. */
  function Insert(k: SortKey, x: BookResponse, s: seq<BookResponse>): (r: seq<BookResponse>)
    requires SortedBy(k, s)
    ensures SortedBy(k, r)
    ensures multiset(r) == multiset(s) + multiset{x}
    decreases |s|
  {
    if |s| == 0 then [x]
    else if Le(k, x, s[0]) then
      assert forall j | 0 < j < |s| :: Le(k, x, s[j]) by {
        forall j | 0 < j < |s| ensures Le(k, x, s[j]) { LeTransitive(k, x, s[0], s[j]); }
      }
      [x] + s
    else
      LeTotal(k, x, s[0]);
      assert s == [s[0]] + s[1..];
      var rest := Insert(k, x, s[1..]);
      assert forall j | 0 <= j < |rest| :: Le(k, s[0], rest[j]) by {
        forall j | 0 <= j < |rest| ensures Le(k, s[0], rest[j]) {
          assert rest[j] in multiset(rest);
          if rest[j] != x {
            assert rest[j] in multiset(s[1..]);
            var m :| 0 <= m < |s[1..]| && s[1..][m] == rest[j];
            assert s[m + 1] == rest[j];
          }
        }
      }
      [s[0]] + rest
  }

  /** Sorts by `k`: a permutation of `s` in ascending key order. Ties are left in no promised order. */
  function Sort(k: SortKey, s: seq<BookResponse>): (r: seq<BookResponse>)
    ensures SortedBy(k, r)
    ensures multiset(r) == multiset(s)
    decreases |s|
  {
    if |s| == 0 then []
    else
      assert s == [s[0]] + s[1..];
      Insert(k, s[0], Sort(k, s[1..]))
  }

  /**
   * `filteredBooks` after the `orderBy` branches: a permutation of the
   * filtered list, ascending by the chosen key, or the filtered list itself
   * when no key is chosen.
   */
  function View(books: seq<BookResponse>, searchTerm: string, categoryFilter: string, orderBy: string): (r: seq<BookResponse>)
    ensures multiset(r) == multiset(Filter(books, searchTerm, categoryFilter))
    ensures SortKeyOf(orderBy).Some? ==> SortedBy(SortKeyOf(orderBy).value, r)
    ensures SortKeyOf(orderBy).None? ==> r == Filter(books, searchTerm, categoryFilter)
  {
    var filtered := Filter(books, searchTerm, categoryFilter);
    match SortKeyOf(orderBy)
    case Some(k) => Sort(k, filtered)
    case None => filtered
  }

  /** The view shows each fetched book that matches, as often as it was fetched, and nothing else. */
  lemma ViewShowsExactlyTheMatches(books: seq<BookResponse>, searchTerm: string, categoryFilter: string, orderBy: string, b: BookResponse)
    ensures b in View(books, searchTerm, categoryFilter, orderBy) <==> b in books && Keep(b, searchTerm, categoryFilter)
    ensures multiset(View(books, searchTerm, categoryFilter, orderBy))[b]
         == if Keep(b, searchTerm, categoryFilter) then multiset(books)[b] else 0
  {
    var v := View(books, searchTerm, categoryFilter, orderBy);
    var f := Filter(books, searchTerm, categoryFilter);
    FilterMembership(books, searchTerm, categoryFilter, b);
    assert b in v <==> b in multiset(v);
    assert b in f <==> b in multiset(f);
  }

  /** The view never shows more books than were fetched. */
  lemma ViewNoLonger(books: seq<BookResponse>, searchTerm: string, categoryFilter: string, orderBy: string)
    ensures |View(books, searchTerm, categoryFilter, orderBy)| <= |books|
  {
    var v := View(books, searchTerm, categoryFilter, orderBy);
    var f := Filter(books, searchTerm, categoryFilter);
    assert |v| == |multiset(v)| == |multiset(f)| == |f|;
    SubseqNoLonger(f, books);
  }

  /** The categories of the fetched books, in fetched order. */
  function CategoriesOf(books: seq<BookResponse>): (cs: seq<Category>)
    ensures |cs| == |books|
    ensures forall i | 0 <= i < |books| :: cs[i] == books[i].category
  {
    seq(|books|, i requires 0 <= i < |books| => books[i].category)
  }

  /** `[...new Set(books.map(book => book.category))]`. */
  function Categories(books: seq<BookResponse>): seq<Category> {
    Distinct(CategoriesOf(books))
  }

  /**
   * The category choices have no duplicates, are exactly the categories of
   * the fetched books, and come in order of first appearance.
   */
  lemma CategoriesSpec(books: seq<BookResponse>)
    ensures NoDuplicates(Categories(books))
    ensures forall c :: c in Categories(books) <==> exists i :: 0 <= i < |books| && books[i].category == c
    ensures forall i | 0 <= i < |Categories(books)| :: Categories(books)[i] in CategoriesOf(books)
    ensures forall i, j | 0 <= i < j < |Categories(books)| ::
      FirstIndex(CategoriesOf(books), Categories(books)[i]) < FirstIndex(CategoriesOf(books), Categories(books)[j])
  {
    var cs := CategoriesOf(books);
    DistinctSpec(cs);
    forall c ensures c in Categories(books) <==> exists i :: 0 <= i < |books| && books[i].category == c {
      if c in Categories(books) {
        var i := FirstIndex(cs, c);
        assert books[i].category == c;
      }
      if exists i :: 0 <= i < |books| && books[i].category == c {
        var i :| 0 <= i < |books| && books[i].category == c;
        assert cs[i] == c;
      }
    }
  }

  /** What the list area shows. */
  datatype Display = Grid(shown: seq<BookResponse>) | EmptyState(message: string)

  const NoBooksYet := "No books in your collection yet."
  const NoMatches := "No books match your search."

  /**
   * The grid when the view is non-empty; otherwise the empty-state message,
   * which tells an empty collection apart from a search with no hits.
   */
  function Render(books: seq<BookResponse>, searchTerm: string, categoryFilter: string, orderBy: string): (d: Display)
    ensures d.Grid? <==> |View(books, searchTerm, categoryFilter, orderBy)| > 0
    ensures d.Grid? ==> d.shown == View(books, searchTerm, categoryFilter, orderBy)
    ensures d == EmptyState(NoBooksYet) <==> |books| == 0
    ensures d == EmptyState(NoMatches) <==> |books| > 0 && |View(books, searchTerm, categoryFilter, orderBy)| == 0
  {
    var v := View(books, searchTerm, categoryFilter, orderBy);
    if |v| == 0 then
      EmptyState(if |books| == 0 then NoBooksYet else NoMatches)
    else
      ViewNoLonger(books, searchTerm, categoryFilter, orderBy);
      Grid(v)
  }

  /** An empty collection always filters to an empty list. */
  lemma EmptyCollectionEmptyView(searchTerm: string, categoryFilter: string, orderBy: string)
    ensures View([], searchTerm, categoryFilter, orderBy) == []
    ensures Render([], searchTerm, categoryFilter, orderBy) == EmptyState(NoBooksYet)
  {
  }

  const Dune := BookResponse("1", "Dune", "Herbert", 1965, ScienceFiction, "u", "2024-01-01")
  const Emma := BookResponse("2", "Emma", "Austen", 1815, Fiction, "u", "2024-01-02")

  lemma DuneMissesEm()
    ensures !MatchesSearch(Dune, "em")
  {
    assert Lower("em") == "em";
    assert Lower("Dune") == "dune";
    assert Lower("Herbert") == "herbert";
    forall i | 0 <= i <= 2 ensures !OccursAt("dune", "em", i) {
      assert "dune"[i..i + 2][1] == "dune"[i + 1];
      assert "dune"[i + 1] != 'm';
    }
    forall i | 0 <= i <= 5 ensures !OccursAt("herbert", "em", i) {
      assert "herbert"[i..i + 2][1] == "herbert"[i + 1];
      assert "herbert"[i + 1] != 'm';
    }
  }

  lemma EmmaHasEm()
    ensures MatchesSearch(Emma, "em")
  {
  }

  /** Searching "em" finds only Emma, through the capital E of its title. */
  lemma SearchExample()
    ensures View([Dune, Emma], "em", "all", "none") == [Emma]
  {
    DuneMissesEm();
    EmmaHasEm();
    var books := [Dune, Emma];
    assert Filter(books[2..], "em", "all") == [];
    assert Filter(books[1..], "em", "all") == [Emma];
  }

  /** Ordering by year puts Emma (1815) before Dune (1965). */
  lemma YearOrderExample()
    ensures View([Dune, Emma], "", "all", "year") == [Emma, Dune]
  {
    FilterNothingIsIdentity([Dune, Emma]);
    assert Sort(ByYear, [Emma]) == [Emma];
  }

  /** Ordering by title keeps Dune before Emma. */
  lemma TitleOrderExample()
    ensures View([Dune, Emma], "", "all", "title") == [Dune, Emma]
  {
    FilterNothingIsIdentity([Dune, Emma]);
    assert Sort(ByTitle, [Emma]) == [Emma];
    assert !StrLe("Emma", "Dune");
  }

  /** A category none of the books has gives the "no match" message, not the "no books" one. */
  lemma NoHitsExample()
    ensures Render([Dune, Emma], "", "Fantasy", "none") == EmptyState(NoMatches)
  {
  }
}
