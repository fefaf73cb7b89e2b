# Library catalogue: loan state, profile crops, list summaries and views

A Dafny model of the logic inside a small library-catalogue web application
(the `library` app of a Django site). The application is mostly framework
configuration. The parts that compute something are modelled here as pure
functions over immutable records:

- **Loan copies** (`BookInstance`): the closed set of status codes `a`, `p`,
  `g`, `r`, plus the blank code; the default status `p`; and the overdue test,
  with "today" passed in as a parameter (module `Loans`, dates in `Dates`).
- **Profile pictures** (`Profilis`): the centred crop box computed with
  floor division, and the decision on save to crop a picture with a side over
  300 to a square and shrink it (module `Profile`).
- **List summaries**: a book's first three genre names, an author's first
  three book titles (each joined with ", "), and an author's display name
  "last first" (module `Catalog`, string helpers in `Text`).
- **Views**: the dashboard counts of the index page, where a copy is available
  when its status code is exactly `g`, and the search page, which keeps the
  books whose title or summary contains the query, ignoring letter case
  (module `Views`).

The store's tables are sequences of records in the order the store returns
them. A queryset `filter` is `Sequences.Filter`, an order-preserving
selection. Foreign keys are `Option<nat>` ids; a cleared key is `None`.
Python compares `date` values by year, then month, then day, which is
`Dates.Before`. A `date` is always truthy, so the `due_back and ...` test
in `is_overdue` only checks that a due date is set. Python's `x // 2` rounds
towards negative infinity. For a positive divisor Dafny's `/` rounds the
same way, and `Profile.FloorHalf` states that rounding.

The search follows the code: the empty query matches every book, because the
empty string occurs in every title.

## Model

| member | source | states |
|---|---|---|
| Dates.BeforeStrictTotal | mysite/library/models.py:79 | `Before`, the date comparison `today > due_back`, is a strict total order: irreflexive, asymmetric, and any two distinct dates are ordered |
| Loans.Code | mysite/library/models.py:70-75 | each status has a code of at most one character (`max_length=1`), and only the blank status has the empty code |
| Loans.ParseStatus | mysite/library/models.py:83-89 | a stored code is accepted only as the code of the status it is read as |
| Loans.StatusCodes | mysite/library/models.py:70-89 | every status survives a round trip through its code; exactly "", "a", "p", "g", "r" are accepted |
| Loans.AvailableCode | mysite/library/models.py:73 | the code "g" stands for the available status and for no other |
| Loans.NewInstance | mysite/library/models.py:83-89 | a new copy keeps the given fields and has the default status `p` (on loan) |
| Loans.IsOverdue | mysite/library/models.py:77-81 | an overdue copy has a due date, and a copy is not overdue on its due date |
| Loans.NoDueDateNeverOverdue | mysite/library/models.py:79-81 | a copy without a due date is not overdue, whatever the day |
| Loans.OverdueIffAfterDueDate | mysite/library/models.py:79 | with a due date set, a copy is overdue iff today is strictly after that date |
| Loans.OverdueStaysOverdue | mysite/library/models.py:79 | a copy overdue on one day is overdue on every later day |
| Profile.FloorHalf | mysite/library/models.py:145-148 | halving rounds towards negative infinity, as Python's `//` does |
| Profile.CropCenter | mysite/library/models.py:143-148 | the box is exactly crop_width by crop_height for any parity; its left edge is non-negative iff the crop is no wider than the image; a crop no larger than the image lies inside it; the two margins on each axis differ by at most one |
| Profile.ThumbnailSide | mysite/library/models.py:156 | shrinking a square to fit 300 by 300 never enlarges it and leaves a square of side at most 300 |
| Profile.Save | mysite/library/models.py:150-157 | the picture is cropped iff its height or width exceeds 300 (`NeedsResize`, the test of line 153); the crop is a square of side min(width, height) inside the picture |
| Profile.StoredSize | mysite/library/models.py:153-157 | after saving, both sides are at most 300; a picture with both sides at most 300 is left as it was; a cropped picture is square |
| Profile.ResizeIffSizeChanges | mysite/library/models.py:153-157 | the stored picture differs from the uploaded one exactly when a side exceeds 300 |
| Profile.SaveIdempotent | mysite/library/models.py:153-157 | saving the stored picture again leaves it untouched |
| Sequences.Filter | mysite/library/views.py:56 | the selection keeps only elements of the input meeting the condition, keeps every such element, keeps their order, and keeps everything iff every element meets it |
| Sequences.FilterMultiplicity | mysite/library/views.py:56 | each element meeting the condition is kept exactly as often as it occurs in the input, and no other element is kept |
| Sequences.FilterAppend | mysite/library/views.py:16 | selecting from two concatenated tables is selecting from each and concatenating |
| Text.ContainsIffOccurs | mysite/library/views.py:56 | the left-to-right substring scan succeeds iff the needle occurs at some position of the text |
| Text.Join | mysite/library/models.py:54 | joining no parts gives "", and otherwise the text starts with the first part |
| Text.IContains | mysite/library/views.py:56 | case-insensitive containment holds iff the lower-cased needle occurs at some position of the lower-cased text |
| Text.SplitJoin | mysite/library/models.py:54 | cutting the ", "-joined text at its separators gives back the parts, when no part contains a comma |
| Text.PartitionJoin | mysite/library/models.py:117 | cutting "a b" at its first space gives back a and b when a has no space |
| Catalog.FirstThree | mysite/library/models.py:54 | the slice `[:3]` has min(3, n) elements and is a prefix of the list |
| Catalog.ShortList | mysite/library/models.py:54 | the summary of no names is "", and otherwise it starts with the first name |
| Catalog.ShortListParts | mysite/library/models.py:54 | the summary holds the first three names in order with at most two separators, and all names when there are fewer than four |
| Catalog.DisplayGenre | mysite/library/models.py:53-54 | a book without genres shows "" |
| Catalog.DisplayGenreParts | mysite/library/models.py:53-54 | the genre summary lists the names of the book's first min(3, n) genres, in order |
| Catalog.BooksOf | mysite/library/models.py:37-38 | an author's books are the stored books whose author is that author, each kept as often as it is stored |
| Catalog.DisplayBooks | mysite/library/models.py:119-120 | an author with no books shows "" |
| Catalog.DisplayBooksParts | mysite/library/models.py:119-120 | the books summary lists the titles of the author's first min(3, n) books, in store order, so all of them when there are fewer than four |
| Catalog.FullName | mysite/library/models.py:115-117 | the display name starts with the last name and is one character longer than the two names together |
| Catalog.FullNameParts | mysite/library/models.py:115-117 | last and first name are recovered from the display name when the last name has no space |
| Views.AvailableCopies | mysite/library/views.py:16 | the copies counted as available are exactly the copies whose status is available, each as often as it is stored |
| Views.AvailableIsCodeMultiplicity | mysite/library/views.py:16 | the available count equals the number of times "g" occurs among the stored status codes |
| Views.Index | mysite/library/views.py:10-27 | the available count never exceeds the copy count, and equals it iff every copy is available; the other counts are the table sizes |
| Views.AvailableCountAdds | mysite/library/views.py:16 | the available count of two tables together is the sum of their counts |
| Views.Matches | mysite/library/views.py:56 | a book matches iff the lower-cased query occurs at some position of the lower-cased title or of the lower-cased summary |
| Views.Search | mysite/library/views.py:48-57 | a book is found iff it is in the catalogue and its title or summary contains the query ignoring case; each found book is kept as often as it is stored; results keep store order and add nothing |
| Views.SearchIgnoresCase | mysite/library/views.py:52-56 | two queries that differ only in letter case find the same books |
| Views.SearchLowerQuery | mysite/library/views.py:52-56 | searching for the lower-cased query finds the same books as the query itself |
| Views.SearchEmptyQuery | mysite/library/views.py:56 | the empty query finds every book |
| Views.SearchKingdom | mysite/library/views.py:56 | "king" and "KING" both find a book titled "The Kingdom" |

## Left out

- Persistence, querysets and the referential actions on delete (`SET_NULL`, `CASCADE`): framework behaviour; records are plain sequences and a cleared key is `None`.
- Pagination of the author and book lists (`Paginator.get_page`, 4 and 5 per page): library behaviour not visible in this code.
- The image library calls (`Image.open`, `crop`, `thumbnail`, `save`): foreign code. Only the crop box and the resize decision are modelled. `thumbnail` is modelled only for the square pictures `save` gives it, as shrinking to min(side, 300).
- `date.today()`: a clock read; it is the `today` parameter of `IsOverdue`.
- `uuid.uuid4` defaults: randomness; the copy id is a parameter.
- `BookReview`: a plain record that none of the modelled operations reads.
- Text.Lower: lower-cases ASCII letters only, not full Unicode case folding as the database may do for `icontains`.
- A missing `query` parameter: what the lookup does with `None` comes from the framework; the model's query is always a string.
- Rendering: templates, `render`, `get_object_or_404`, `get_absolute_url`, translated labels, the rich-text description field and the whole admin registration file.
- Default orderings (`ordering = ['due_back']`, `['last_name', 'first_name']`): they only choose a display order.
- `Genre.__str__` and `Book.__str__`: they return the name and the title, which the model uses directly.
- `BookInstance.__str__`: display text, the copy id followed by the book title in parentheses. It fails when the copy's book is unset, which the nullable book key allows. Display text is outside the modelled logic.
- `Profilis.__str__`: display text, the user's name followed by "profilis". Display text is outside the modelled logic.
- Field length limits other than the one-character status code (title, summary, isbn, names): form validation done by the framework.
- Catalog.ShortListParts: the "at most two separators" and "all names in order" properties are stated only for names without a comma, since a name containing ", " reads as two names.
- Catalog.DisplayGenreParts: stated for genre names without a comma, for the same reason.
- Catalog.DisplayBooksParts: stated for titles without a comma, for the same reason.
