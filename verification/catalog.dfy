/** The catalogue records (genres, authors, books) and the short
    texts shown for them in lists: a book's first three genres, an author's
    first three books, and an author's display name. */
module Catalog {

  import opened Optional
  import opened Text
  import opened Sequences

  datatype Genre = Genre(name: string)

  datatype Author = Author(id: nat, firstName: string, lastName: string, description: string)

  /** `author` is cleared rather than the book removed when the author goes;
      `genres` is the book's genre set in the order the store returns it. */
  datatype Book = Book(
    id: nat,
    title: string,
    author: Option<nat>,
    summary: string,
    isbn: string,
    genres: seq<Genre>,
    cover: Option<string>)

  /** How many names a list summary shows. */
  const ShownNames: nat := 3

  /** The first three entries, or all of them when there are fewer. */
  function FirstThree<T>(xs: seq<T>): (r: seq<T>)
    ensures |r| == if |xs| < ShownNames then |xs| else ShownNames
    ensures r <= xs
  {
    if |xs| <= ShownNames then xs else xs[..ShownNames]
  }

  /** The first three names joined with ", ". */
  function ShortList(names: seq<string>): (r: string)
    ensures |names| == 0 ==> r == ""
    ensures |names| > 0 ==> names[0] <= r
  {
    Join(FirstThree(names))
  }

  /** A short list holds the first three names, in order, and at most two
      separators; with fewer than four names it holds them all. Names with a
      comma in them could be mistaken for separators, so they are excluded. */
  lemma ShortListParts(names: seq<string>)
    requires |names| > 0 && NoComma(names)
    ensures Split(ShortList(names)) == FirstThree(names)
    ensures |Split(ShortList(names))| - 1 <= 2
    ensures |names| < 4 ==> Split(ShortList(names)) == names
  {
    var shown := FirstThree(names);
    assert forall i :: 0 <= i < |shown| ==> shown[i] == names[i];
    SplitJoin(shown);
  }

  function GenreNames(genres: seq<Genre>): (r: seq<string>)
    ensures |r| == |genres|
    ensures forall i :: 0 <= i < |r| ==> r[i] == genres[i].name
  {
    seq(|genres|, i requires 0 <= i < |genres| => genres[i].name)
  }

  function Titles(books: seq<Book>): (r: seq<string>)
    ensures |r| == |books|
    ensures forall i :: 0 <= i < |r| ==> r[i] == books[i].title
  {
    seq(|books|, i requires 0 <= i < |books| => books[i].title)
  }

  /** The genre column of the book list: the book's first three genre names. */
  function DisplayGenre(b: Book): (r: string)
    ensures |b.genres| == 0 ==> r == ""
  {
    ShortList(GenreNames(b.genres))
  }

  lemma DisplayGenreParts(b: Book)
    requires |b.genres| > 0 && NoComma(GenreNames(b.genres))
    ensures |Split(DisplayGenre(b))| == if |b.genres| < ShownNames then |b.genres| else ShownNames
    ensures forall k :: 0 <= k < |Split(DisplayGenre(b))| ==> Split(DisplayGenre(b))[k] == b.genres[k].name
  {
    ShortListParts(GenreNames(b.genres));
  }

  predicate WrittenBy(authorId: nat, b: Book) {
    b.author == Some(authorId)
  }

  /** The author's books (the reverse of a book's author key), in store order. */
  function BooksOf(a: Author, books: seq<Book>): (r: seq<Book>)
    ensures forall i :: 0 <= i < |r| ==> r[i] in books && r[i].author == Some(a.id)
    ensures forall i :: 0 <= i < |books| && books[i].author == Some(a.id) ==> books[i] in r
    ensures forall b :: multiset(r)[b] == if b.author == Some(a.id) then multiset(books)[b] else 0
  {
    FilterMultiplicity(books, b => WrittenBy(a.id, b));
    Filter(books, b => WrittenBy(a.id, b))
  }

  /** The books column of the author list: the titles of the author's first three books. */
  function DisplayBooks(a: Author, books: seq<Book>): (r: string)
    ensures (forall i :: 0 <= i < |books| ==> books[i].author != Some(a.id)) ==> r == ""
  {
    ShortList(Titles(BooksOf(a, books)))
  }

  lemma DisplayBooksParts(a: Author, books: seq<Book>)
    requires |BooksOf(a, books)| > 0 && NoComma(Titles(BooksOf(a, books)))
    ensures |Split(DisplayBooks(a, books))| == if |BooksOf(a, books)| < ShownNames then |BooksOf(a, books)| else ShownNames
    ensures forall k :: 0 <= k < |Split(DisplayBooks(a, books))| ==>
      k < |BooksOf(a, books)|
      && Split(DisplayBooks(a, books))[k] == BooksOf(a, books)[k].title
      && BooksOf(a, books)[k].author == Some(a.id)
  {
    ShortListParts(Titles(BooksOf(a, books)));
  }

  /** An author's display name: last name, a space, first name. */
  function FullName(a: Author): (r: string)
    ensures |r| == |a.lastName| + 1 + |a.firstName|
    ensures a.lastName <= r
  {
    a.lastName + " " + a.firstName
  }

  /** The last and first name can be read back from the display name when
      the last name has no space in it. */
  lemma FullNameParts(a: Author)
    requires ' ' !in a.lastName
    ensures Partition(FullName(a), ' ') == (a.lastName, a.firstName)
  {
    PartitionJoin(a.lastName, ' ', a.firstName);
  }
}
