/**
 * server/controllers/expertController.js: the expert directory. A listing
 * filters by name search and category, sorts by rating (highest first),
 * returns one page without the slots, and reports how many experts matched
 * and how many pages that makes. A single expert is returned with its slots.
 */
module ExpertController {
  import opened Common
  import opened Text
  import opened ExpertModel

  const DEFAULT_PAGE: int := 1
  const DEFAULT_LIMIT: int := 6
  const ALL_CATEGORIES: string := "All"
  const EXPERT_NOT_FOUND: string := "Expert not found"

  /**
   * The query string of `GET /api/experts`. An absent or empty `search` or
   * `category` is the empty string; `page` and `limit` are already parsed.
   */
  datatype ListQuery = ListQuery(search: string, category: string, page: Option<int>, limit: Option<int>)

  /** An expert as listed: the document with `slots` deselected. */
  datatype ExpertSummary = ExpertSummary(
    id: Id,
    name: string,
    category: string,
    experience: int,
    rating: int,
    bio: Option<string>,
    avatar: Option<string>,
    hourlyRate: Option<int>)

  datatype Pagination = Pagination(total: nat, page: int, pages: nat)

  datatype ExpertList = ExpertList(data: seq<ExpertSummary>, pagination: Pagination)

  /** `.select('-slots')`. */
  function Summary(e: Expert): (s: ExpertSummary)
    ensures Expert(s.id, s.name, s.category, s.experience, s.rating, s.bio, s.avatar, s.hourlyRate, e.slots) == e
  {
    ExpertSummary(e.id, e.name, e.category, e.experience, e.rating, e.bio, e.avatar, e.hourlyRate)
  }

  /**
   * The filter object: a non-empty search matches the name ignoring case; a
   * category other than absent or "All" must be equal.
   */
  predicate Matches(e: Expert, search: string, category: string) {
    && (search == "" || ContainsIgnoreCase(e.name, search))
    && (category == "" || category == ALL_CATEGORIES || e.category == category)
  }

  /** The matching experts, each as often as it is stored, in store order. */
  function Filter(experts: seq<Expert>, search: string, category: string): (r: seq<Expert>)
    ensures |r| <= |experts|
    ensures forall x :: x in r <==> x in experts && Matches(x, search, category)
  {
    if experts == [] then []
    else
      (if Matches(experts[0], search, category) then [experts[0]] else [])
        + Filter(experts[1..], search, category)
  }

  /** Each matching expert is kept as often as it is stored; the others are dropped. */
  lemma {:induction false} FilterCounts(experts: seq<Expert>, search: string, category: string, x: Expert)
    ensures multiset(Filter(experts, search, category))[x] ==
      if Matches(x, search, category) then multiset(experts)[x] else 0
  {
    if experts != [] {
      assert experts == [experts[0]] + experts[1..];
      FilterCounts(experts[1..], search, category, x);
    }
  }

  /** Appending an expert to the store appends it to the matches exactly when it matches. */
  lemma {:induction false} FilterSnoc(experts: seq<Expert>, e: Expert, search: string, category: string)
    ensures Filter(experts + [e], search, category) ==
      Filter(experts, search, category) + (if Matches(e, search, category) then [e] else [])
  {
    if experts != [] {
      assert (experts + [e])[1..] == experts[1..] + [e];
      FilterSnoc(experts[1..], e, search, category);
    }
  }

  /** "All" and an absent category both leave the category unfiltered. */
  lemma AllIsNoCategoryFilter(experts: seq<Expert>, search: string)
    ensures Filter(experts, search, ALL_CATEGORIES) == Filter(experts, search, "")
  {
  }

  // ----------------------------------------------------------- ordering

  predicate SortedByRating(xs: seq<Expert>) {
    forall i, j :: 0 <= i < j < |xs| ==> xs[i].rating >= xs[j].rating
  }

  function InsertByRating(x: Expert, xs: seq<Expert>): (r: seq<Expert>)
    requires SortedByRating(xs)
    ensures |r| == |xs| + 1
    ensures r[0] == x || (xs != [] && r[0] == xs[0])
    ensures SortedByRating(r)
    ensures multiset(r) == multiset(xs) + multiset{x}
  {
    if xs == [] || x.rating >= xs[0].rating then [x] + xs
    else
      var tail := InsertByRating(x, xs[1..]);
      assert xs == [xs[0]] + xs[1..];
      assert tail[0].rating <= xs[0].rating;
      [xs[0]] + tail
  }

  /** `.sort({ rating: -1 })`: highest rating first, a permutation of the input. */
  function SortByRating(xs: seq<Expert>): (r: seq<Expert>)
    ensures SortedByRating(r)
    ensures multiset(r) == multiset(xs)
  {
    if xs == [] then []
    else
      assert xs == [xs[0]] + xs[1..];
      InsertByRating(xs[0], SortByRating(xs[1..]))
  }

  /** The sequence with positions 0 and k exchanged. */
  function SwapFront<T>(s: seq<T>, k: nat): (r: seq<T>)
    requires k < |s|
    ensures |r| == |s| && r[0] == s[k] && r[k] == s[0]
    ensures forall i :: 0 <= i < |s| && i != 0 && i != k ==> r[i] == s[i]
    ensures multiset(r) == multiset(s)
  {
    s[0 := s[k]][k := s[0]]
  }

  /** Exchanging two experts of equal rating leaves the rating at every rank as it was. */
  lemma SwapKeepsRatings(b: seq<Expert>, k: nat)
    requires k < |b| && b[k].rating == b[0].rating && SortedByRating(b)
    ensures forall i :: 0 <= i < |b| ==> SwapFront(b, k)[i].rating == b[i].rating
    ensures SortedByRating(SwapFront(b, k))
  {
    var c := SwapFront(b, k);
    assert forall i :: 0 <= i < |b| ==> c[i].rating == b[i].rating;
  }

  /**
   * MongoDB may order experts of equal rating differently from one query to
   * the next. Any two rating-descending arrangements of the same experts still
   * agree on the rating at every rank: ties only swap experts of equal rating.
   */
  lemma {:induction false} TiesOnlyReorder(a: seq<Expert>, b: seq<Expert>)
    requires SortedByRating(a) && SortedByRating(b) && multiset(a) == multiset(b)
    ensures |a| == |b|
    ensures forall i :: 0 <= i < |a| ==> a[i].rating == b[i].rating
    decreases |a|
  {
    assert |a| == |multiset(a)| == |multiset(b)| == |b|;
    if a != [] {
      var k := SameTopRating(a, b);
      // Exchanging b[0] and b[k], which have equal ratings, puts a[0] in front.
      var c := SwapFront(b, k);
      SwapKeepsRatings(b, k);
      DropSameHead(a, c);
      TiesOnlyReorder(a[1..], c[1..]);
      forall i | 1 <= i < |a| ensures a[i].rating == b[i].rating {
        assert a[1..][i - 1] == a[i] && c[1..][i - 1] == c[i];
      }
    }
  }

  /** Both arrangements start with the top rating, and a's first expert sits at some k in b. */
  lemma SameTopRating(a: seq<Expert>, b: seq<Expert>) returns (k: nat)
    requires SortedByRating(a) && SortedByRating(b) && multiset(a) == multiset(b) && a != []
    ensures k < |b| && b[k] == a[0] && b[k].rating == b[0].rating
  {
    assert a[0] in multiset(b);
    assert a[0] in b;
    k :| 0 <= k < |b| && b[k] == a[0];
    assert b[0] in multiset(a);
    assert b[0] in a;
    var j :| 0 <= j < |a| && a[j] == b[0];
    assert a[0].rating >= a[j].rating;
  }

  /** Removing the same first element from two sequences with the same elements. */
  lemma DropSameHead<T>(a: seq<T>, c: seq<T>)
    requires a != [] && c != [] && a[0] == c[0] && multiset(a) == multiset(c)
    ensures multiset(a[1..]) == multiset(c[1..])
  {
    assert a == [a[0]] + a[1..] && c == [c[0]] + c[1..];
    assert multiset(a[1..]) == multiset(a) - multiset{a[0]};
    assert multiset(c[1..]) == multiset(c) - multiset{a[0]};
  }

  /**
   * An expert whose rating no other match shares holds the same rank in
   * every rating-descending arrangement of the matches as in Ranked.
   */
  lemma UniqueRatingSameRank(experts: seq<Expert>, search: string, category: string,
                             other: seq<Expert>, i: nat)
    requires SortedByRating(other)
    requires multiset(other) == multiset(Filter(experts, search, category))
    requires i < |other|
    requires forall y :: y in Filter(experts, search, category) && y.rating == other[i].rating ==> y == other[i]
    ensures i < |Ranked(experts, search, category)| && Ranked(experts, search, category)[i] == other[i]
  {
    var ranked := Ranked(experts, search, category);
    TiesOnlyReorder(ranked, other);
    assert ranked[i] in multiset(Filter(experts, search, category));
  }

  // --------------------------------------------------------- pagination

  /** `Math.ceil(n / d)` for a positive divisor. */
  function CeilDiv(n: nat, d: nat): (r: nat)
    requires d > 0
    ensures r * d >= n
    ensures r > 0 ==> (r - 1) * d < n
  {
    if n == 0 then 0 else 1 + CeilDiv(if n <= d then 0 else n - d, d)
  }

  /** `.skip(skip).limit(limit)`. */
  function Window<T>(xs: seq<T>, skip: nat, limit: nat): (r: seq<T>)
    ensures |r| <= limit
    ensures skip <= |xs| ==> |r| == if skip + limit <= |xs| then limit else |xs| - skip
    ensures forall i :: 0 <= i < |r| ==> skip + i < |xs| && r[i] == xs[skip + i]
  {
    if skip >= |xs| then []
    else if skip + limit <= |xs| then xs[skip..skip + limit]
    else xs[skip..]
  }

  function EffectivePage(q: ListQuery): int {
    if q.page.Some? then q.page.value else DEFAULT_PAGE
  }

  function EffectiveLimit(q: ListQuery): int {
    if q.limit.Some? then q.limit.value else DEFAULT_LIMIT
  }

  /** Multiplying by a non-negative factor keeps order. */
  lemma MulMonotone(a: int, b: int, c: nat)
    requires a <= b
    ensures a * c <= b * c
  {
  }

  /** The experts listed, best rated first. */
  function Ranked(experts: seq<Expert>, search: string, category: string): (r: seq<Expert>)
    ensures |r| == |Filter(experts, search, category)|
    ensures SortedByRating(r)
    ensures multiset(r) == multiset(Filter(experts, search, category))
    ensures forall x :: x in r ==> x in experts && Matches(x, search, category)
  {
    var matches := Filter(experts, search, category);
    var sorted := SortByRating(matches);
    assert |sorted| == |multiset(sorted)| == |multiset(matches)| == |matches|;
    forall x | x in sorted ensures x in matches {
      assert x in multiset(sorted);
    }
    sorted
  }

  /** The summaries of one window of the ranked matches. */
  function PageEntries(ranked: seq<Expert>, skip: nat, limit: nat): (r: seq<ExpertSummary>)
    ensures |r| == if skip >= |ranked| then 0 else if skip + limit <= |ranked| then limit else |ranked| - skip
    ensures forall i :: 0 <= i < |r| ==> skip + i < |ranked| && r[i] == Summary(ranked[skip + i])
  {
    var shown := Window(ranked, skip, limit);
    seq(|shown|, i requires 0 <= i < |shown| => Summary(shown[i]))
  }

  /** `(parseInt(page) - 1) * parseInt(limit)`: how many ranked matches precede the page. */
  function Skip(q: ListQuery): nat
    requires q.page.Some? ==> q.page.value >= 1
    requires q.limit.Some? ==> q.limit.value >= 1
  {
    MulMonotone(0, EffectivePage(q) - 1, EffectiveLimit(q));
    (EffectivePage(q) - 1) * EffectiveLimit(q)
  }

  /**
   * `GET /api/experts`: the window of the rating-ordered matches that the page
   * selects, without slots, and `{ total, page, pages }` where total counts
   * every match, not only those on the page.
   */
  function GetExperts(experts: seq<Expert>, q: ListQuery): (r: Reply<ExpertList>)
    requires q.page.Some? ==> q.page.value >= 1
    requires q.limit.Some? ==> q.limit.value >= 1
    ensures r.Success? && r.code == OK
    ensures r.data.pagination.total == |Filter(experts, q.search, q.category)|
    ensures r.data.pagination.page == EffectivePage(q)
    ensures r.data.pagination.pages == CeilDiv(r.data.pagination.total, EffectiveLimit(q))
    ensures var n, skip, limit := r.data.pagination.total, Skip(q), EffectiveLimit(q);
      |r.data.data| == if skip >= n then 0 else if skip + limit <= n then limit else n - skip
    ensures forall i :: 0 <= i < |r.data.data| ==>
      Skip(q) + i < |Ranked(experts, q.search, q.category)|
      && r.data.data[i] == Summary(Ranked(experts, q.search, q.category)[Skip(q) + i])
  {
    var ranked := Ranked(experts, q.search, q.category);
    var entries := PageEntries(ranked, Skip(q), EffectiveLimit(q));
    Success(OK, ExpertList(entries, Pagination(|ranked|, EffectivePage(q), CeilDiv(|ranked|, EffectiveLimit(q)))))
  }

  /** Every listed entry is the summary of a matching expert. */
  lemma ListedMatch(experts: seq<Expert>, q: ListQuery, i: nat)
    requires q.page.Some? ==> q.page.value >= 1
    requires q.limit.Some? ==> q.limit.value >= 1
    requires i < |GetExperts(experts, q).data.data|
    ensures exists e :: (e in experts && Matches(e, q.search, q.category)
      && GetExperts(experts, q).data.data[i] == Summary(e))
  {
    var ranked := Ranked(experts, q.search, q.category);
    var e := ranked[Skip(q) + i];
    assert e in ranked;
  }

  /** A page lists its experts best rated first. */
  lemma ListedByRating(experts: seq<Expert>, q: ListQuery, i: nat, j: nat)
    requires q.page.Some? ==> q.page.value >= 1
    requires q.limit.Some? ==> q.limit.value >= 1
    requires i < j < |GetExperts(experts, q).data.data|
    ensures GetExperts(experts, q).data.data[i].rating >= GetExperts(experts, q).data.data[j].rating
  {
    var ranked := Ranked(experts, q.search, q.category);
    assert ranked[Skip(q) + i].rating >= ranked[Skip(q) + j].rating;
  }

  /** The page, counting from 1, on which the match with rank k (from 0) is listed. */
  function PageOf(k: nat, limit: nat): (p: nat)
    requires limit >= 1
    ensures p >= 1 && (p - 1) * limit <= k < p * limit
  {
    k / limit + 1
  }

  /** Element k of a sequence is in the window of page PageOf(k, limit), and that page exists. */
  lemma WindowCovers<T>(xs: seq<T>, limit: nat, k: nat)
    requires limit >= 1 && k < |xs|
    ensures PageOf(k, limit) <= CeilDiv(|xs|, limit)
    ensures var skip := (PageOf(k, limit) - 1) * limit;
      && skip <= k < skip + |Window(xs, skip, limit)|
      && Window(xs, skip, limit)[k - skip] == xs[k]
  {
    var page := PageOf(k, limit);
    var pages := CeilDiv(|xs|, limit);
    if pages < page {
      MulMonotone(pages, page - 1, limit);
    }
  }

  /**
   * The pages partition the ordered matches: the match with rank k is listed
   * on page PageOf(k, limit), at offset k minus the matches before that page,
   * and that page number does not exceed `pages`.
   */
  lemma PagesCoverMatches(experts: seq<Expert>, search: string, category: string, limit: nat, k: nat)
    requires limit >= 1 && k < |Filter(experts, search, category)|
    ensures var q := ListQuery(search, category, Some(PageOf(k, limit)), Some(limit));
      var r := GetExperts(experts, q);
      && PageOf(k, limit) <= r.data.pagination.pages
      && Skip(q) <= k < Skip(q) + |r.data.data|
      && r.data.data[k - Skip(q)] == Summary(Ranked(experts, search, category)[k])
  {
    WindowCovers(Ranked(experts, search, category), limit, k);
  }

  // ------------------------------------------------------------ one expert

  /** `GET /api/experts/:id`: 404 for an unknown id, else the whole document with its slots. */
  function GetExpertById(experts: seq<Expert>, id: Id): (r: Reply<Expert>)
    ensures r.Failure? <==> forall i :: 0 <= i < |experts| ==> experts[i].id != id
    ensures r.Failure? ==> r == Failure(NOT_FOUND, EXPERT_NOT_FOUND)
    ensures r.Success? ==> r.code == OK && r.data in experts && r.data.id == id
  {
    match FindExpert(experts, id)
    case None => Failure(NOT_FOUND, EXPERT_NOT_FOUND)
    case Some(i) => Success(OK, experts[i])
  }
}
