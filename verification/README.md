# Book collection: verified model of the view, validation and error-map logic

This project models, in Dafny, the three pieces of deterministic logic in the
book-collection web application:

- **The book list view** (`BookList`). On every render, the fetched books are
  filtered by a case-insensitive search over title or author and by a category
  filter (`"all"` admits every category). The result is then optionally sorted
  by title, author or year. The view also derives the distinct category list
  for the filter select, and picks one of two empty-state messages.
- **The form schemas** (`BookSchema`, `AuthSchemas`). These are the zod
  schemas for the book form and for sign-up, sign-in and change-password.
  Each field rule is a predicate plus the issues it reports, and each schema
  is a `safeParse` returning either the typed record or the issue list.
  Cross-field equality issues are attached to the confirmation field.
- **`validateSchema`** (`ValidateSchema`). It folds a parse result into a
  `{ result, errors }` pair: a left fold over the issues into a
  `map<string, string>`, keyed by each issue's first path element, with
  later issues overwriting earlier ones.

Modules follow the source files: `BookModels` (bookModels.ts), `AuthModels`
(authModels.ts), `BookSchema` (bookSchema.ts), `AuthSchemas` (authSchemas.ts),
`ValidateSchema` (validateSchema.ts) and `BookList` (book-list.tsx). Four
helper modules support them:

- `Optional` models `undefined` as an option type.
- `Text` models JavaScript's `toLowerCase` and `includes`, and gives a
  code-point order standing in for `localeCompare`.
- `Seqs` holds subsequences and the first-occurrence de-duplication that a JS
  `Set` performs.
- `Schema` holds zod's issue and parse-result shapes and the shared
  `z.string().min(n)` rule.

Modelling choices:

- A field the form did not supply is `None`.
- A missing `title` or `author` gets zod's default message `"Required"`,
  because those fields declare no `required_error`.
- The object-level `.refine` produces its issue only when every field of the
  object is present. This is zod's behaviour: a missing field aborts the
  object parse, while a failed length or email check does not. The
  acceptance equivalences do not depend on this rule, but the exact key sets
  stated by `SignUpIssueKeys`, `SignUpErrorKeys` and `ChangePasswordErrorKeys`
  and the mismatch lemmas do.
- The email format check is a parameter `emailOk: string -> bool`, because its
  pattern belongs to the zod library.
- `currentYear` is a parameter. The source reads it once, when the schema
  module is loaded.
- A path element is `Key(string)` or `Index(nat)`. JavaScript truthiness makes
  `""` and `0` falsy. A numeric key is stored under its decimal string, so
  `[1]` and `["1"]` share a key. Writing to `errors["__proto__"]` stores
  nothing, because the plain object's prototype setter ignores a string.
- Sorting is an insertion sort on the filtered copy. The fetched list is a
  value and is never reordered.

## Model

| member | source | states |
|---|---|---|
| BookList.Filter | my-app/components/books/book-list.tsx:207-215 | The filtered list is an order-preserving subsequence of `books`. Each book occurs in it as often as in `books` when it matches both the search and the category filter, and not at all otherwise. |
| BookList.FilterMembership | my-app/components/books/book-list.tsx:207-215 | A book is shown iff it was fetched and (lower(title) or lower(author) contains lower(searchTerm)) and (filter is "all" or equals its category). |
| BookList.FilterNothingIsIdentity | my-app/components/books/book-list.tsx:208-212 | An empty search term with the "all" filter gives back `books` unchanged, in order. |
| BookList.SortKeyOf | my-app/components/books/book-list.tsx:217-225 | Only "title", "author" and "year" select a sort. Every other value, "none" included, selects none. |
| BookList.LeTotal | my-app/components/books/book-list.tsx:217-225 | Any two books are comparable under each of the three comparators. |
| BookList.LeTransitive | my-app/components/books/book-list.tsx:217-225 | Each comparator's "may come before" relation is transitive. Title and author are compared as strings, year numerically. |
| BookList.Insert | my-app/components/books/book-list.tsx:217-225 | Inserting into an ascending list keeps it ascending and adds exactly that one book. |
| BookList.Sort | my-app/components/books/book-list.tsx:217-225 | The sorted list is a permutation (equal multiset) of its input and ascending by the key. |
| BookList.View | my-app/components/books/book-list.tsx:207-225 | The view is a permutation of the filtered list. It is ascending by the chosen key when a key is chosen, and is exactly the filtered list otherwise. |
| BookList.ViewShowsExactlyTheMatches | my-app/components/books/book-list.tsx:207-225 | Whatever the ordering, the view holds exactly the fetched books that match, each as many times as it was fetched. |
| BookList.ViewNoLonger | my-app/components/books/book-list.tsx:207-225 | The view never holds more books than were fetched. |
| BookList.CategoriesSpec | my-app/components/books/book-list.tsx:227 | The category choices have no duplicates, are exactly the categories of the fetched books, and are listed in order of first occurrence. |
| Seqs.DistinctSpec | my-app/components/books/book-list.tsx:227 | Set-based de-duplication yields no duplicates, the same elements, and first-occurrence order. |
| Seqs.DistinctFirstOccurrenceOrder | my-app/components/books/book-list.tsx:227 | Every de-duplicated element comes from the input, and the elements appear in order of their first occurrence in it. |
| BookList.Render | my-app/components/books/book-list.tsx:296-301 | The grid is shown iff the view is non-empty. Otherwise "No books in your collection yet." is shown iff `books` is empty, and "No books match your search." iff `books` is non-empty. |
| BookList.EmptyCollectionEmptyView | my-app/components/books/book-list.tsx:296-301 | An empty collection always gives an empty view and the "no books yet" message. |
| BookList.SearchExample | my-app/components/books/book-list.tsx:207-215 | With Dune/Herbert and Emma/Austen, searching "em" shows only Emma. |
| BookList.YearOrderExample | my-app/components/books/book-list.tsx:223-225 | Ordering by year puts Emma (1815) before Dune (1965). |
| BookList.TitleOrderExample | my-app/components/books/book-list.tsx:217-219 | Ordering by title puts Dune before Emma. |
| BookList.NoHitsExample | my-app/components/books/book-list.tsx:296-301 | A category filter no book has gives "No books match your search.", not the empty-collection message. |
| Text.Lower | my-app/components/books/book-list.tsx:209-210 | Lowering keeps the length, leaves no upper-case letter, and changes only upper-case letters, each to its lower-case counterpart. |
| Text.Includes | my-app/components/books/book-list.tsx:209-210 | `includes` is true iff the needle occurs at some position of the haystack. The empty needle occurs everywhere. |
| Text.StrLeTotal | my-app/components/books/book-list.tsx:218 | The string comparison used for title and author orders any two strings. |
| Text.StrLeTransitive | my-app/components/books/book-list.tsx:218 | The string comparison is transitive. |
| BookModels.CategoryOf | my-app/models/book/bookModels.ts:4-17 | A string read as a category is that category's label. |
| BookModels.LabelRoundTrip | my-app/models/book/bookModels.ts:4-17 | Every category's label reads back as the same category. |
| BookModels.LabelInjective | my-app/models/book/bookModels.ts:4-17 | Distinct categories have distinct labels. |
| BookSchema.EnumIsCategoryType | my-app/models/book/bookSchema.ts:12-26 | The schema's enum lists 13 distinct labels. A string is in it iff it is the label of a `Category`, and every `Category` label is in it. |
| Schema.MinLengthIssues | my-app/models/book/bookSchema.ts:9-10 | A string rule reports nothing iff the field is present and long enough. A missing field gets the required message, a short one the length message, always on its own field. |
| BookSchema.EmptyTextMessages | my-app/models/book/bookSchema.ts:9-10 | An empty title is rejected with "Title is required", an empty author with "Author is required". |
| BookSchema.YearIssues | my-app/models/book/bookSchema.ts:11 | The year reports nothing iff it is present and 0 <= year <= currentYear. Every issue is on `year`. |
| BookSchema.YearBoundaries | my-app/models/book/bookSchema.ts:11 | 0 and currentYear pass. -1 gives "Year must be a non-negative number", currentYear+1 gives "Year cannot be in the future", and a missing year gives "Year is required". |
| BookSchema.CategoryIssues | my-app/models/book/bookSchema.ts:12-26 | The category reports nothing iff it is present and one of the 13 enum labels. Every issue is on `category`. |
| BookSchema.Parse | my-app/models/book/bookSchema.ts:8-27 | The record parses iff all four field rules hold, and the parsed book carries the input's values. A rejection carries at least one issue, and every issue is on a field whose rule fails. |
| BookSchema.ErrorsAreFailingFields | my-app/models/book/bookSchema.ts:8-27 | Through `validateSchema`, `result` is true iff the record is rejected, and the error keys are exactly the failing fields. |
| BookSchema.IssueKeysAreFailingFields | my-app/models/book/bookSchema.ts:8-27 | The keys of the book form's issue list are exactly the fields whose rule fails. |
| BookSchema.RejectedHasMessage | my-app/models/book/bookSchema.ts:8-27 | Every rejected book record leaves at least one message in the error map. |
| BookSchema.ParseFromBook | my-app/models/book/bookSchema.ts:8-27 | A book's own values parse back to the same book iff the title and author are non-empty and 0 <= year <= currentYear. |
| AuthSchemas.EmailIssues | my-app/models/auth/authSchemas.ts:10-12 | The email reports nothing iff it is present and well-formed. Every issue is on `email`. |
| AuthSchemas.ParseSignUp | my-app/models/auth/authSchemas.ts:8-23 | Sign-up is accepted iff the email is valid, both passwords have at least 6 characters, and they are equal. The parsed record carries the input. |
| AuthSchemas.ParseSignIn | my-app/models/auth/authSchemas.ts:29-36 | Sign-in is accepted iff the email is valid and the password has at least 6 characters. |
| AuthSchemas.ParseChangePassword | my-app/models/auth/authSchemas.ts:43-55 | Change-password is accepted iff both fields have at least 6 characters and are equal. |
| AuthSchemas.SignUpImpliesSignIn | my-app/models/auth/authSchemas.ts:10-15 | Every accepted sign-up projects to a sign-in record that is accepted, with the same email and password. |
| AuthSchemas.SignUpMismatchOnConfirm | my-app/models/auth/authSchemas.ts:20-23 | With the email present too, two different present passwords give "Passwords do not match" on `confirmPassword`. That message is never on another path, and an issue on `password` is only its length message. |
| AuthSchemas.SignUpMismatchThroughValidate | my-app/models/auth/authSchemas.ts:20-23 | Through `validateSchema`, with the email present too, a mismatch of two present passwords leaves "Passwords do not match" under `confirmPassword`. |
| AuthSchemas.ChangePasswordMismatchOnConfirm | my-app/models/auth/authSchemas.ts:52-55 | A new-password mismatch gives "New passwords do not match" on `confirmNewPassword`, and only there. |
| AuthSchemas.ChangePasswordMismatchThroughValidate | my-app/models/auth/authSchemas.ts:52-55 | Through `validateSchema`, that message is what `confirmNewPassword` maps to. |
| AuthSchemas.PasswordLengthBoundary | my-app/models/auth/authSchemas.ts:13-15 | A 6-character password passes. A 5-character one fails with "Password must be at least 6 characters", or with the new-password message on the change form. |
| AuthSchemas.MissingFieldMessages | my-app/models/auth/authSchemas.ts:10-18 | A missing field gets its own required message, e.g. "Email is required" or "Please confirm your password". |
| AuthSchemas.SignInErrorsAreFailingFields | my-app/models/auth/authSchemas.ts:29-36 | Through `validateSchema`, sign-in errors are keyed by exactly the failing fields, and `result` is true iff the form is rejected. |
| AuthSchemas.SignUpIssueKeys | my-app/models/auth/authSchemas.ts:8-23 | The sign-up issue list carries `email` iff the email rule fails, `password` iff its length fails, `confirmPassword` iff its length fails or the refine reports a mismatch, and no other key. |
| AuthSchemas.SignUpValidateKeys | my-app/utils/validateSchema.ts:9-18 | `validateSchema` on the sign-up parse stores errors under exactly the keys of the sign-up issue list. |
| AuthSchemas.SignUpErrorKeys | my-app/models/auth/authSchemas.ts:8-23 | Through `validateSchema`, the error keys are exactly the failing fields: `email` and `password` iff their own rule fails, `confirmPassword` iff its length fails or, with all three fields present, the passwords differ; no other key appears. |
| AuthSchemas.ChangePasswordErrorKeys | my-app/models/auth/authSchemas.ts:43-55 | Through `validateSchema`, the error keys are exactly the failing fields: `newPassword` iff its length fails, `confirmNewPassword` iff its length fails or, with both fields present, they differ; no other key appears. |
| AuthSchemas.PasswordFormsThroughValidate | my-app/models/auth/authSchemas.ts:8-23 | Through `validateSchema`, `result` is true iff the sign-up or change-password form is rejected. |
| ValidateSchema.Validate | my-app/utils/validateSchema.ts:9-19 | A successful parse gives `result == false` and no errors, and a failed one gives `result == true`. Every key comes from an issue and holds the message of the last issue with that key. Every issue with a truthy `path[0]` that does not name `__proto__` has its key present. |
| ValidateSchema.KeyOf | my-app/utils/validateSchema.ts:14 | An issue has a key iff `path[0]` exists, is truthy and does not name `__proto__`. The key is the property name of `path[0]`, so it is never empty. |
| ValidateSchema.KeyDependsOnlyOnFirstElement | my-app/utils/validateSchema.ts:14 | Two issues whose paths start with the same element get the same key, whatever follows. |
| ValidateSchema.CollectSnoc | my-app/utils/validateSchema.ts:13-15 | The `forEach` fold over `issues + [i]` is the fold over `issues` followed by one more write. |
| ValidateSchema.CollectSpec | my-app/utils/validateSchema.ts:13-15 | Starting from `{}`, each stored message is that of the last issue with the key (last write wins), and every keyed issue's key is stored. |
| ValidateSchema.LastIssueWins | my-app/utils/validateSchema.ts:13-15 | If the final issue has key k, `errors[k]` is its message, whatever came before. |
| ValidateSchema.CollectKeys | my-app/utils/validateSchema.ts:13-15 | The fold adds exactly the keys of the issues, and no others. |
| ValidateSchema.OnlyFirstPathElementMatters | my-app/utils/validateSchema.ts:14 | Issue lists that agree on keys and messages give the same map, whatever their deeper path elements. |
| ValidateSchema.CollapsingExamples | my-app/utils/validateSchema.ts:14 | Issues on `["tags", 0]` and `["tags", 3]` collapse into the one key "tags" with the later message, and `[1]` and `["1"]` share the key "1". |
| ValidateSchema.FailureWithoutKeys | my-app/utils/validateSchema.ts:11-16 | Every failed parse whose issues all have an empty path or a falsy `path[0]` gives `result == true` with an empty error map. |
| ValidateSchema.ProtoKeyNotStored | my-app/utils/validateSchema.ts:14 | An issue on `__proto__` leaves the error map empty, because assigning a string to the prototype setter stores nothing. |

## Left out

- Remote calls (sign-up, sign-in, sign-out, get-user, change-password, and the book list/insert/update/delete functions) are left out. Each is one foreign call plus an error rethrow.
- The async handlers in `BookList` are left out: the `loading` screen that replaces the grid and both messages while books load, reload after mutation, the delete `confirm()` prompt, toasts and error-to-toast normalisation. All of them are I/O or UI.
- The 3-second auto-dismiss timers and all React lifecycle are left out, because they are timing-dependent.
- The presentational and form components are left out, and so are the react-hook-form/zodResolver wiring and the class-name helper, which is a wrapper around library calls.
- Text.Lower: lowers only the ASCII letters A-Z. JavaScript's `toLowerCase` also maps non-ASCII letters, and full Unicode case mapping is not modelled.
- Schema.MinLengthIssues: string lengths count Unicode code points (Dafny's `char`), not the UTF-16 code units JavaScript's `.length` and zod's `.min` count, so a string with characters outside the Basic Multilingual Plane is shorter here than in the app.
- Text.StrLeTotal: stands for `localeCompare`, which is locale-aware collation. The model compares strings lexicographically by code point instead, so titles that differ only in ASCII case already sort differently: "Zebra" comes before "apple" here, after it in the browser. Only the total-preorder facts the sort needs are relied upon.
- BookList.Sort: promises only permutation plus ascending order. JavaScript's `Array.prototype.sort` is stable and both comparators are consistent, so books with equal keys keep their filter order; the model's insertion sort keeps that order too, but no contract states stability.
- BookSchema.CategoryIssues: uses the fixed text "Invalid enum value" for an unknown category. zod's default message for this case also lists the options and the received value, and that text comes from the library.
- The year rule's `.int("Year must be an integer")` never fires in the model, because `year` is an `int`. Non-integer and NaN years from `valueAsNumber` are not modelled, and neither is `new Date()`. `currentYear` is a parameter.
- AuthSchemas.EmailIssues: zod's email pattern is not modelled; the check is the parameter `emailOk`.
- The model also fixes the order of issues inside the list: field order first, then per-field check order, with the refinement last. The contracts do not depend on that order, except where the refinement's issue comes last (`SignUpMismatchThroughValidate` and `ChangePasswordMismatchThroughValidate`).
- Fields of the wrong runtime type are left out; the only type failure modelled is a missing field.
