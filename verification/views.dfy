/** The two views that compute something from the catalogue: the dashboard
    counts on the index page and the title/summary search. Record lists
    stand for the store's tables, in the order the store returns them. */
module Views {

  import opened Text
  import opened Sequences
  import opened Loans
  import opened Catalog

  // ---------------------------------------------------------------------------
  // Index page

  datatype Dashboard = Dashboard(numBooks: nat, numInstances: nat, numAvailable: nat, numAuthors: nat)

  /** The lookup `status__exact='g'`. */
  predicate HasAvailableCode(c: BookInstance) {
    Code(c.status) == "g"
  }

  function AvailableCopies(instances: seq<BookInstance>): (r: seq<BookInstance>)
    ensures |r| <= |instances|
    ensures forall i :: 0 <= i < |r| ==> r[i].status == Available
    ensures forall i :: 0 <= i < |instances| && instances[i].status == Available ==> instances[i] in r
    ensures forall c :: multiset(r)[c] == if c.status == Available then multiset(instances)[c] else 0
  {
    FilterMultiplicity(instances, HasAvailableCode);
    Filter(instances, HasAvailableCode)
  }

  function CodesOf(instances: seq<BookInstance>): (r: seq<string>)
    ensures |r| == |instances|
    ensures forall i :: 0 <= i < |r| ==> r[i] == Code(instances[i].status)
  {
    seq(|instances|, i requires 0 <= i < |instances| => Code(instances[i].status))
  }

  lemma {:induction false} CodeMultiplicityStep(instances: seq<BookInstance>)
    ensures |Filter(instances, HasAvailableCode)| == multiset(CodesOf(instances))["g"]
    decreases |instances|
  {
    if |instances| > 0 {
      var head, tail := instances[0], instances[1..];
      CodeMultiplicityStep(tail);
      assert CodesOf(instances) == [Code(head.status)] + CodesOf(tail);
      assert |Filter(instances, HasAvailableCode)|
          == (if HasAvailableCode(head) then 1 else 0) + |Filter(tail, HasAvailableCode)|;
    }
  }

  /** The number of available copies is the number of times "g" appears
      among the stored status codes. */
  lemma AvailableIsCodeMultiplicity(instances: seq<BookInstance>)
    ensures |AvailableCopies(instances)| == multiset(CodesOf(instances))["g"]
  {
    CodeMultiplicityStep(instances);
  }

  /** The counts shown on the index page. */
  function Index(books: seq<Book>, instances: seq<BookInstance>, authors: seq<Author>): (d: Dashboard)
    ensures d.numAvailable <= d.numInstances
    ensures d.numInstances == |instances| && d.numBooks == |books| && d.numAuthors == |authors|
    ensures d.numAvailable == multiset(CodesOf(instances))["g"]
    ensures d.numAvailable == d.numInstances <==> forall i :: 0 <= i < |instances| ==> instances[i].status == Available
  {
    AvailableIsCodeMultiplicity(instances);
    Dashboard(|books|, |instances|, |AvailableCopies(instances)|, |authors|)
  }

  /** Adding copies to the store adds their available ones to the count. */
  lemma AvailableCountAdds(a: seq<BookInstance>, b: seq<BookInstance>)
    ensures |AvailableCopies(a + b)| == |AvailableCopies(a)| + |AvailableCopies(b)|
  {
    FilterAppend(a, b, HasAvailableCode);
  }

  // ---------------------------------------------------------------------------
  // Search

  /** The same condition as `Matches`, stated through substring positions. */
  ghost predicate MatchesSpec(b: Book, query: string) {
    Occurs(Lower(b.title), Lower(query)) || Occurs(Lower(b.summary), Lower(query))
  }

  /** The query matches the title or the summary, ignoring letter case. */
  predicate Matches(b: Book, query: string)
    ensures Matches(b, query) <==> MatchesSpec(b, query)
  {
    IContains(b.title, query) || IContains(b.summary, query)
  }

  /** The books found by the search page, in store order. */
  function Search(books: seq<Book>, query: string): (r: seq<Book>)
    ensures forall i :: 0 <= i < |r| ==> r[i] in books && MatchesSpec(r[i], query)
    ensures forall i :: 0 <= i < |books| && MatchesSpec(books[i], query) ==> books[i] in r
    ensures forall b :: multiset(r)[b] == if MatchesSpec(b, query) then multiset(books)[b] else 0
    ensures IsSubsequence(r, books)
  {
    FilterMultiplicity(books, b => Matches(b, query));
    Filter(books, b => Matches(b, query))
  }

  /** Queries that differ only in letter case find the same books. */
  lemma SearchIgnoresCase(books: seq<Book>, q1: string, q2: string)
    requires Lower(q1) == Lower(q2)
    ensures Search(books, q1) == Search(books, q2)
  {
    FilterAgree(books, b => Matches(b, q1), b => Matches(b, q2));
  }

  /** Searching for the lower-cased query finds the same books as the query. */
  lemma SearchLowerQuery(books: seq<Book>, query: string)
    ensures Search(books, Lower(query)) == Search(books, query)
  {
    LowerIdempotent(query);
    SearchIgnoresCase(books, Lower(query), query);
  }

  /** The empty query finds every book. */
  lemma SearchEmptyQuery(books: seq<Book>)
    ensures Search(books, "") == books
  {
    forall i | 0 <= i < |books|
      ensures Matches(books[i], "")
    {
      assert Lower("") <= Lower(books[i].title);
    }
    FilterKeepsAll(books, b => Matches(b, ""));
  }

  /** "king" and "KING" both find a book titled "The Kingdom". */
  lemma SearchKingdom(b: Book)
    requires b.title == "The Kingdom"
    ensures Matches(b, "king") && Matches(b, "KING")
  {
    var title := Lower(b.title);
    assert title[4..8] == "king";
    assert Lower("KING") == "king" == Lower("king");
    assert OccursAt(title, Lower("king"), 4);
    ContainsIffOccurs(title, Lower("king"));
  }
}
