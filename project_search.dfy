/**
 * The project listing page (src/pages/Projects.tsx): the category list
 * built from the catalogue and the search filter over title, tagline and
 * tags. The category is a parameter: the page keeps it in state but no
 * control changes it from its initial "All".
 */
module ProjectSearch {
  import opened Catalogue
  import opened JsText
  import ProjectCard

  // ---------------------------------------------------------------------
  // Sequence vocabulary

  predicate NoDuplicates<T(==)>(xs: seq<T>) {
    forall i, j :: 0 <= i < j < |xs| ==> xs[i] != xs[j]
  }

  /** `a` is `b` with some elements dropped and the rest kept in order. */
  predicate IsSubsequence<T(==)>(a: seq<T>, b: seq<T>)
    decreases |b|
  {
    a == [] || (b != [] && ((a[0] == b[0] && IsSubsequence(a[1..], b[1..])) || IsSubsequence(a, b[1..])))
  }

  // ---------------------------------------------------------------------
  // Categories: "All" followed by the distinct categories, sorted

  /** The category of every project, in catalogue order. */
  function CategoryColumn(ps: seq<Project>): (r: seq<string>)
    ensures |r| == |ps|
    ensures forall i :: 0 <= i < |ps| ==> r[i] == ps[i].category
  {
    seq(|ps|, i requires 0 <= i < |ps| => ps[i].category)
  }

  /** `Array.from(new Set(xs))`: first occurrences, in insertion order. */
  function Distinct(xs: seq<string>): (r: seq<string>)
    ensures NoDuplicates(r)
    ensures forall x :: x in r <==> x in xs
  {
    if xs == [] then []
    else
      var d := Distinct(xs[..|xs| - 1]);
      assert xs == xs[..|xs| - 1] + [xs[|xs| - 1]];
      if xs[|xs| - 1] in d then d else d + [xs[|xs| - 1]]
  }

  /** Ascending under the default string comparison of `sort()`. */
  predicate Sorted(xs: seq<string>) {
    forall i, j :: 0 <= i < j < |xs| ==> StringLeq(xs[i], xs[j])
  }

  /** One insertion step of the sort: `x` goes before the first element it does not follow. */
  function Insert(x: string, xs: seq<string>): seq<string> {
    if xs == [] then [x]
    else if StringLeq(x, xs[0]) then [x] + xs
    else [xs[0]] + Insert(x, xs[1..])
  }

  lemma {:induction false} InsertMultiset(x: string, xs: seq<string>)
    ensures multiset(Insert(x, xs)) == multiset(xs) + multiset{x}
  {
    if xs != [] && !StringLeq(x, xs[0]) {
      InsertMultiset(x, xs[1..]);
      assert xs == [xs[0]] + xs[1..];
    }
  }

  /** Inserting into a sorted list keeps it sorted. */
  lemma {:induction false} InsertSorted(x: string, xs: seq<string>)
    requires Sorted(xs)
    ensures Sorted(Insert(x, xs))
  {
    if xs == [] {
    } else if StringLeq(x, xs[0]) {
      forall j | 0 <= j < |xs| ensures StringLeq(x, xs[j]) {
        if j > 0 { StringLeqTransitive(x, xs[0], xs[j]); }
      }
    } else {
      var rest := Insert(x, xs[1..]);
      InsertSorted(x, xs[1..]);
      InsertMultiset(x, xs[1..]);
      StringLeqTotal(x, xs[0]);
      forall j | 0 <= j < |rest| ensures StringLeq(xs[0], rest[j]) {
        assert rest[j] in multiset(rest);
      }
    }
  }

  lemma InsertNoDuplicates(x: string, xs: seq<string>)
    requires x !in xs && NoDuplicates(xs)
    ensures NoDuplicates(Insert(x, xs))
  {
    if xs != [] && !StringLeq(x, xs[0]) {
      InsertNoDuplicates(x, xs[1..]);
      InsertMultiset(x, xs[1..]);
      assert xs[0] !in multiset(xs[1..]) + multiset{x};
    }
  }

  /** `sort()` on strings: insertion of each element into the sorted rest. */
  function Sort(xs: seq<string>): (r: seq<string>)
    ensures Sorted(r)
    ensures multiset(r) == multiset(xs)
    ensures NoDuplicates(xs) ==> NoDuplicates(r)
  {
    if xs == [] then []
    else
      var rest := Sort(xs[1..]);
      assert xs == [xs[0]] + xs[1..];
      InsertSorted(xs[0], rest);
      InsertMultiset(xs[0], rest);
      assert NoDuplicates(xs) ==> NoDuplicates(Insert(xs[0], rest)) by {
        if NoDuplicates(xs) {
          assert xs[0] !in multiset(rest);
          InsertNoDuplicates(xs[0], rest);
        }
      }
      Insert(xs[0], rest)
  }

  /** Two sorted lists with the same elements start with the same element. */
  lemma SortedSameHead(a: seq<string>, b: seq<string>)
    requires Sorted(a) && Sorted(b) && multiset(a) == multiset(b) && a != []
    ensures b != [] && a[0] == b[0]
  {
    assert a[0] in multiset(b) && b[0] in multiset(a) by {
      assert a[0] in multiset(a) && b != [] && b[0] in multiset(b);
    }
    var j :| 0 <= j < |b| && b[j] == a[0];
    var i :| 0 <= i < |a| && a[i] == b[0];
    if i > 0 && j > 0 {
      assert StringLeq(a[0], a[i]) && StringLeq(b[0], b[j]);
      StringLeqAntisymmetric(a[0], b[0]);
    }
  }

  lemma MultisetTail(a: seq<string>)
    requires a != []
    ensures multiset(a[1..]) == multiset(a) - multiset{a[0]}
  {
    assert a == [a[0]] + a[1..];
  }

  /** A sorted list is determined by its elements: `sort()` has exactly one possible result. */
  lemma {:induction false} SortedPermutationUnique(a: seq<string>, b: seq<string>)
    requires Sorted(a) && Sorted(b) && multiset(a) == multiset(b)
    ensures a == b
  {
    if a != [] {
      SortedSameHead(a, b);
      MultisetTail(a);
      MultisetTail(b);
      SortedPermutationUnique(a[1..], b[1..]);
      assert a == [a[0]] + a[1..] && b == [b[0]] + b[1..];
    }
  }

  /** Any ascending rearrangement of `xs` is what `Sort` returns. */
  lemma SortIsTheOrder(xs: seq<string>, r: seq<string>)
    requires Sorted(r) && multiset(r) == multiset(xs)
    ensures r == Sort(xs)
  {
    SortedPermutationUnique(r, Sort(xs));
  }

  /** A duplicate-free list holds each of its elements exactly once. */
  lemma {:induction false} NoDuplicatesMultiset(xs: seq<string>, x: string)
    requires NoDuplicates(xs)
    ensures multiset(xs)[x] == if x in xs then 1 else 0
  {
    if xs != [] {
      assert xs == [xs[0]] + xs[1..];
      NoDuplicatesMultiset(xs[1..], x);
    }
  }

  /** The category list: "All", then each distinct category once, ascending. */
  function Categories(ps: seq<Project>): (r: seq<string>)
    ensures |r| >= 1 && r[0] == "All"
    ensures Sorted(r[1..]) && NoDuplicates(r[1..])
    ensures forall c :: c in r[1..] <==> exists i :: 0 <= i < |ps| && ps[i].category == c
  {
    var s := Sort(Distinct(CategoryColumn(ps)));
    forall c ensures c in s <==> c in CategoryColumn(ps) {
      assert c in s <==> c in multiset(s);
    }
    assert (["All"] + s)[1..] == s;
    ["All"] + s
  }

  /**
   * The category list is the only one with "All" first and the distinct
   * categories after it in ascending order.
   */
  lemma CategoriesUnique(ps: seq<Project>, cs: seq<string>)
    requires Sorted(cs) && NoDuplicates(cs)
    requires forall c :: c in cs <==> exists i :: 0 <= i < |ps| && ps[i].category == c
    ensures Categories(ps) == ["All"] + cs
  {
    var r := Categories(ps)[1..];
    forall x ensures multiset(cs)[x] == multiset(r)[x] {
      NoDuplicatesMultiset(cs, x);
      NoDuplicatesMultiset(r, x);
    }
    assert multiset(cs) == multiset(r);
    SortedPermutationUnique(cs, r);
    assert Categories(ps) == [Categories(ps)[0]] + r;
  }

  /** Every project's category is offered. */
  lemma EveryCategoryListed(ps: seq<Project>, k: nat)
    requires k < |ps|
    ensures ps[k].category in Categories(ps)[1..]
  {
  }

  // ---------------------------------------------------------------------
  // The filter

  /** The text searched: title, tagline and the tags joined by spaces, lower-cased. */
  function SearchText(p: Project): string {
    Lower(p.title + " " + p.tagline + " " + Join(p.tags, " "))
  }

  /** The query as the filter uses it: lower-cased, then trimmed. */
  function NormalizeQuery(q: string): string {
    Trim(Lower(q))
  }

  predicate InCategory(p: Project, cat: string) {
    cat == "All" || p.category == cat
  }

  /** An empty query matches everything; otherwise the search text must contain it. */
  predicate MatchesQuery(p: Project, query: string) {
    query == "" || Includes(SearchText(p), query)
  }

  /** `projects.filter(...)` with an already normalised query. */
  function FilterProjects(ps: seq<Project>, query: string, cat: string): seq<Project> {
    if ps == [] then []
    else
      var rest := FilterProjects(ps[1..], query, cat);
      if InCategory(ps[0], cat) && MatchesQuery(ps[0], query) then [ps[0]] + rest else rest
  }

  /** The projects the page lists for search box text `q` and category `cat`. */
  function Filtered(ps: seq<Project>, q: string, cat: string): seq<Project> {
    FilterProjects(ps, NormalizeQuery(q), cat)
  }

  /** The decision for one project, stated with the substring relation rather than the search loop. */
  ghost predicate Kept(p: Project, q: string, cat: string) {
    InCategory(p, cat) && IsSubstring(NormalizeQuery(q), SearchText(p))
  }

  lemma MatchesIsSubstring(p: Project, query: string)
    ensures MatchesQuery(p, query) <==> IsSubstring(query, SearchText(p))
  {
    if query == "" { EmptyIsSubstring(SearchText(p)); }
  }

  /** The filter keeps a subsequence of the catalogue, in catalogue order. */
  lemma {:induction false} FilterIsSubsequence(ps: seq<Project>, query: string, cat: string)
    ensures IsSubsequence(FilterProjects(ps, query, cat), ps)
  {
    if ps != [] {
      var rest := FilterProjects(ps[1..], query, cat);
      FilterIsSubsequence(ps[1..], query, cat);
      if InCategory(ps[0], cat) && MatchesQuery(ps[0], query) {
        assert ([ps[0]] + rest)[1..] == rest;
      }
    }
  }

  /** A project is listed exactly when it is in the catalogue and passes both tests. */
  lemma {:induction false} FilterMembership(ps: seq<Project>, q: string, cat: string, p: Project)
    ensures p in Filtered(ps, q, cat) <==> p in ps && Kept(p, q, cat)
  {
    MatchesIsSubstring(p, NormalizeQuery(q));
    if ps != [] {
      FilterMembership(ps[1..], q, cat, p);
      assert ps == [ps[0]] + ps[1..];
    }
  }

  /** The listing is the catalogue order with the rejected projects dropped. */
  lemma FilteredSpec(ps: seq<Project>, q: string, cat: string)
    ensures IsSubsequence(Filtered(ps, q, cat), ps)
    ensures forall p :: p in Filtered(ps, q, cat) <==> p in ps && Kept(p, q, cat)
  {
    FilterIsSubsequence(ps, NormalizeQuery(q), cat);
    forall p ensures p in Filtered(ps, q, cat) <==> p in ps && Kept(p, q, cat) {
      FilterMembership(ps, q, cat, p);
    }
  }

  /** With a specific category chosen, only that category is listed. */
  lemma CategoryRespected(ps: seq<Project>, q: string, cat: string)
    requires cat != "All"
    ensures forall p :: p in Filtered(ps, q, cat) ==> p.category == cat
  {
    FilteredSpec(ps, q, cat);
  }

  lemma {:induction false} FilterNothing(ps: seq<Project>)
    ensures FilterProjects(ps, "", "All") == ps
  {
    if ps != [] {
      FilterNothing(ps[1..]);
      assert ps == [ps[0]] + ps[1..];
    }
  }

  /** Category "All" and a blank search box list the whole catalogue. */
  lemma BlankQueryListsAll(ps: seq<Project>, q: string)
    requires AllWhitespace(q)
    ensures Filtered(ps, q, "All") == ps
  {
    forall i | 0 <= i < |q| ensures IsWhitespace(Lower(q)[i]) {
      LowerKeepsWhitespace(q[i]);
    }
    TrimEmptyIff(Lower(q));
    FilterNothing(ps);
  }

  /**
   * Two queries that differ only in letter case and surrounding
   * whitespace give the same listing.
   */
  lemma CaseAndPaddingIgnored(ps: seq<Project>, q: string, r: string, w1: string, w2: string, cat: string)
    requires Lower(r) == Lower(q)
    requires AllWhitespace(w1) && AllWhitespace(w2)
    ensures Filtered(ps, w1 + r + w2, cat) == Filtered(ps, q, cat)
  {
    LowerConcat(w1 + r, w2);
    LowerConcat(w1, r);
    forall i | 0 <= i < |w1| ensures IsWhitespace(Lower(w1)[i]) {
      LowerKeepsWhitespace(w1[i]);
    }
    forall i | 0 <= i < |w2| ensures IsWhitespace(Lower(w2)[i]) {
      LowerKeepsWhitespace(w2[i]);
    }
    TrimPadded(Lower(w1), Lower(q), Lower(w2));
  }

  /** Letter case and surrounding whitespace in the search box do not change the listing. */
  lemma QueryNormalizationInvariant(ps: seq<Project>, q: string, w1: string, w2: string, cat: string)
    requires AllWhitespace(w1) && AllWhitespace(w2)
    ensures Filtered(ps, w1 + Lower(q) + w2, cat) == Filtered(ps, q, cat)
  {
    LowerIdempotent(q);
    CaseAndPaddingIgnored(ps, q, Lower(q), w1, w2, cat);
  }

  /** A longer (more specific) query keeps a subsequence of what a query it contains keeps. */
  lemma {:induction false} FilterMonotone(ps: seq<Project>, u: string, v: string, cat: string)
    requires IsSubstring(u, v)
    ensures IsSubsequence(FilterProjects(ps, v, cat), FilterProjects(ps, u, cat))
  {
    if ps != [] {
      var p := ps[0];
      var rv := FilterProjects(ps[1..], v, cat);
      var ru := FilterProjects(ps[1..], u, cat);
      FilterMonotone(ps[1..], u, v, cat);
      var keepV := InCategory(p, cat) && MatchesQuery(p, v);
      var keepU := InCategory(p, cat) && MatchesQuery(p, u);
      MatchesIsSubstring(p, u);
      MatchesIsSubstring(p, v);
      if keepV {
        SubstringTransitive(u, v, SearchText(p));
        assert ([p] + rv)[1..] == rv && ([p] + ru)[1..] == ru;
      } else if keepU {
        assert ([p] + ru)[1..] == ru;
        SubsequenceOfTail(rv, [p] + ru);
      }
    }
  }

  lemma SubsequenceOfTail<T>(a: seq<T>, b: seq<T>)
    requires b != [] && IsSubsequence(a, b[1..])
    ensures IsSubsequence(a, b)
  {
  }

  /** Narrowing the normalised query narrows the listing. */
  lemma NarrowerQueryListsSubset(ps: seq<Project>, qu: string, qv: string, cat: string)
    requires IsSubstring(NormalizeQuery(qu), NormalizeQuery(qv))
    ensures IsSubsequence(Filtered(ps, qv, cat), Filtered(ps, qu, cat))
    ensures forall p :: p in Filtered(ps, qv, cat) ==> p in Filtered(ps, qu, cat)
  {
    FilterMonotone(ps, NormalizeQuery(qu), NormalizeQuery(qv), cat);
    SubsequenceMembership(Filtered(ps, qv, cat), Filtered(ps, qu, cat));
  }

  lemma {:induction false} SubsequenceMembership<T>(a: seq<T>, b: seq<T>)
    requires IsSubsequence(a, b)
    ensures forall x :: x in a ==> x in b
    decreases |b|
  {
    if a != [] {
      if a[0] == b[0] && IsSubsequence(a[1..], b[1..]) {
        SubsequenceMembership(a[1..], b[1..]);
        assert a == [a[0]] + a[1..];
      } else {
        SubsequenceMembership(a, b[1..]);
      }
    }
  }

  // ---------------------------------------------------------------------
  // What the search text contains

  lemma LowerKeepsSubstring(u: string, v: string)
    requires IsSubstring(u, v)
    ensures IsSubstring(Lower(u), Lower(v))
  {
    var i :| OccursAt(u, v, i);
    assert Lower(v)[i..i + |u|] == Lower(u);
    assert OccursAt(Lower(u), Lower(v), i);
  }

  /** The normalised query is a piece of the lower-cased query. */
  lemma NormalizedWithinLower(s: string)
    ensures IsSubstring(NormalizeQuery(s), Lower(s))
  {
    TrimIsSubstring(Lower(s));
  }

  /** Searching for any piece of the title-tagline-tags text, in any letter case, keeps the project. */
  lemma PieceOfTextFindsProject(ps: seq<Project>, p: Project, s: string, cat: string)
    requires p in ps && InCategory(p, cat)
    requires IsSubstring(Lower(s), SearchText(p))
    ensures p in Filtered(ps, s, cat)
  {
    NormalizedWithinLower(s);
    SubstringTransitive(NormalizeQuery(s), Lower(s), SearchText(p));
    FilterMembership(ps, s, cat, p);
  }

  /** Typing one of a project's tags, in any letter case and with any padding, keeps that project. */
  lemma SearchingATagFindsProject(ps: seq<Project>, p: Project, k: nat, q: string, w1: string, w2: string, cat: string)
    requires p in ps && InCategory(p, cat) && k < |p.tags|
    requires Lower(q) == Lower(p.tags[k])
    requires AllWhitespace(w1) && AllWhitespace(w2)
    ensures p in Filtered(ps, w1 + q + w2, cat)
  {
    var tag := p.tags[k];
    var front := p.title + " " + p.tagline + " ";
    var joined := Join(p.tags, " ");
    JoinContainsItems(p.tags, " ", k);
    var i :| OccursAt(tag, joined, i);
    assert (front + joined)[|front| + i..|front| + i + |tag|] == joined[i..i + |tag|];
    assert OccursAt(tag, front + joined, |front| + i);
    LowerKeepsSubstring(tag, front + joined);
    PieceOfTextFindsProject(ps, p, tag, cat);
    CaseAndPaddingIgnored(ps, tag, q, w1, w2, cat);
  }

  /** Typing a project's title, in any letter case, keeps that project. */
  lemma SearchingTheTitleFindsProject(ps: seq<Project>, p: Project, q: string, cat: string)
    requires p in ps && InCategory(p, cat)
    requires Lower(q) == Lower(p.title)
    ensures p in Filtered(ps, q, cat)
  {
    var text := p.title + " " + p.tagline + " " + Join(p.tags, " ");
    assert OccursAt(p.title, text, 0);
    LowerKeepsSubstring(p.title, text);
    PieceOfTextFindsProject(ps, p, q, cat);
  }

  // ---------------------------------------------------------------------
  // The page

  /** The cards the page renders: one per listed project, in listing order. */
  function ListingCards(q: string, cat: string): (cards: seq<ProjectCard.CardView>)
    ensures |cards| == |Filtered(Projects, q, cat)|
    ensures forall i :: 0 <= i < |cards| ==> cards[i] == ProjectCard.Card(Filtered(Projects, q, cat)[i])
  {
    var f := Filtered(Projects, q, cat);
    seq(|f|, i requires 0 <= i < |f| => ProjectCard.Card(f[i]))
  }
}
