/**
 * The favorites page shared by both `view_favorites` handlers: drop falsy
 * entries, then show page `page` of 12 using Python slice semantics.
 */
module Pagination {
  import opened Options
  import Text
  import opened Responses

  const ItemsPerPage := 12

  /** Python truthiness of a film entry: `None` and an empty dict are falsy. */
  predicate Truthy(f: FilmEntry) {
    f.Film? && |f.fields| > 0
  }

  /** `[film for film in films if film]`. */
  function KeepTruthy(films: seq<FilmEntry>): (r: seq<FilmEntry>)
    ensures |r| <= |films|
    ensures forall k :: 0 <= k < |r| ==> Truthy(r[k])
  {
    if films == [] then []
    else if Truthy(films[0]) then [films[0]] + KeepTruthy(films[1..])
    else KeepTruthy(films[1..])
  }

  /** The filter keeps relative order: filtering a concatenation concatenates the filtered parts. */
  lemma {:induction false} KeepTruthyAppend(a: seq<FilmEntry>, b: seq<FilmEntry>)
    ensures KeepTruthy(a + b) == KeepTruthy(a) + KeepTruthy(b)
  {
    if a != [] {
      assert (a + b)[1..] == a[1..] + b;
      KeepTruthyAppend(a[1..], b);
    } else {
      assert a + b == b;
    }
  }

  /** The filter keeps exactly the truthy films of the list. */
  lemma {:induction false} KeepTruthyMembers(films: seq<FilmEntry>)
    ensures forall f :: f in KeepTruthy(films) <==> f in films && Truthy(f)
  {
    if films != [] {
      KeepTruthyMembers(films[1..]);
      assert films == [films[0]] + films[1..];
    }
  }

  /** `(n // 12) + (1 if n % 12 != 0 else 0)`: the least page count that holds `n` films. */
  function TotalPages(n: nat): (r: nat)
    ensures r * ItemsPerPage >= n
    ensures r > 0 ==> (r - 1) * ItemsPerPage < n
    ensures r == 0 <==> n == 0
  {
    n / ItemsPerPage + (if n % ItemsPerPage != 0 then 1 else 0)
  }

  /** Python's normalisation of a slice bound against a length `n`. */
  function SliceBound(i: int, n: nat): (r: nat)
    ensures r <= n
    ensures 0 <= i <= n ==> r == i
  {
    if i < 0 then (if i + n < 0 then 0 else i + n) else if i > n then n else i
  }

  /** Python's `s[i:j]` for a step of 1, negative bounds counting from the end. */
  function Slice<T>(s: seq<T>, i: int, j: int): (r: seq<T>)
    ensures |r| <= |s|
    ensures 0 <= i <= j <= |s| ==> r == s[i..j]
  {
    var a := SliceBound(i, |s|);
    var b := SliceBound(j, |s|);
    if a < b then s[a..b] else []
  }

  /** `films[start:end]` with `start = (page - 1) * 12`, `end = start + 12`. */
  function PageOf(films: seq<FilmEntry>, page: int): (r: seq<FilmEntry>)
    ensures |r| <= ItemsPerPage
  {
    var start := (page - 1) * ItemsPerPage;
    Slice(films, start, start + ItemsPerPage)
  }

  /** `request.args.get('page', 1, type=int)`: a missing or non-integer argument gives 1. */
  function PageNumber(arg: Option<string>): (r: int)
    ensures arg.None? ==> r == 1
    ensures arg.Some? && Text.ParseInt(arg.value).None? ==> r == 1
    ensures arg.Some? && Text.ParseInt(arg.value).Some? ==> r == Text.ParseInt(arg.value).value
  {
    match arg
    case None => 1
    case Some(t) => Text.ParseInt(t).GetOr(1)
  }

  /** A page argument of more digits than `int()` converts is ignored like any other bad one. */
  lemma LongPageArgument(d: string)
    requires Text.AllDigits(d) && |d| > Text.MaxStrDigits
    ensures PageNumber(Some(d)) == 1
  {
    Text.LongDigitsRefused(d);
  }

  /** The values handed to `favorites.html`. */
  datatype FavoritesPage = FavoritesPage(films: seq<FilmEntry>, totalPages: nat, currentPage: int)

  /** What either `view_favorites` computes for a logged-in user. */
  function ShowFavorites(all: seq<FilmEntry>, pageArg: Option<string>): (r: FavoritesPage)
    ensures r.films == PageOf(KeepTruthy(all), PageNumber(pageArg))
    ensures forall k :: 0 <= k < |r.films| ==> Truthy(r.films[k])
    ensures |r.films| <= ItemsPerPage
    ensures r.totalPages == TotalPages(|KeepTruthy(all)|)
    ensures r.currentPage == PageNumber(pageArg)
    ensures forall f :: f in r.films ==> f in all
  {
    var films := KeepTruthy(all);
    var page := PageNumber(pageArg);
    KeepTruthyMembers(all);
    PageOfMembers(films, page);
    FavoritesPage(PageOf(films, page), TotalPages(|films|), page)
  }

  /** A page shows only films of the list it is cut from. */
  lemma PageOfMembers(films: seq<FilmEntry>, page: int)
    ensures forall f :: f in PageOf(films, page) ==> f in films
  {
    var shown := PageOf(films, page);
    forall f | f in shown ensures f in films {
      var k :| 0 <= k < |shown| && shown[k] == f;
    }
  }

  /** A page from 1 to the page count is non-empty and is that page's run of films. */
  lemma PageInRange(films: seq<FilmEntry>, page: int)
    requires 1 <= page <= TotalPages(|films|)
    ensures var start := (page - 1) * ItemsPerPage;
      var end := if start + ItemsPerPage <= |films| then start + ItemsPerPage else |films|;
      start < end && PageOf(films, page) == films[start..end]
  {
    var start := (page - 1) * ItemsPerPage;
    assert start < |films|;
  }

  /** Past the last page there is nothing. */
  lemma PageBeyondLast(films: seq<FilmEntry>, page: int)
    requires page > TotalPages(|films|)
    ensures PageOf(films, page) == []
  {
    var n := |films|;
    var t := TotalPages(n);
    assert (page - 1) * ItemsPerPage >= t * ItemsPerPage;
  }

  /** Page 0 is empty: its slice is `films[-12:0]`. */
  lemma PageZero(films: seq<FilmEntry>)
    ensures PageOf(films, 0) == []
  {
  }

  /**
   * A negative page is a window counted from the end of the list, by
   * Python's negative slice indices: page -1 of 30 films shows films 6 to 17.
   */
  lemma NegativePage(films: seq<FilmEntry>, page: int)
    requires page < 0
    ensures var n := |films|;
      var a := if n + (page - 1) * ItemsPerPage < 0 then 0 else n + (page - 1) * ItemsPerPage;
      var b := if n + page * ItemsPerPage < 0 then 0 else n + page * ItemsPerPage;
      PageOf(films, page) == films[a..b]
  {
  }

  /** Pages 1 to `k`, concatenated. */
  function PagesUpTo(films: seq<FilmEntry>, k: nat): seq<FilmEntry> {
    if k == 0 then [] else PagesUpTo(films, k - 1) + PageOf(films, k)
  }

  lemma {:induction false} PagesUpToIsPrefix(films: seq<FilmEntry>, k: nat)
    requires k <= TotalPages(|films|)
    ensures var end := if k * ItemsPerPage <= |films| then k * ItemsPerPage else |films|;
      PagesUpTo(films, k) == films[..end]
  {
    if k > 0 {
      PagesUpToIsPrefix(films, k - 1);
      PageInRange(films, k);
      var start := (k - 1) * ItemsPerPage;
      var end := if k * ItemsPerPage <= |films| then k * ItemsPerPage else |films|;
      assert films[..start] + films[start..end] == films[..end];
    }
  }

  /** The pages 1 to the page count, in order, give back exactly the filtered list. */
  lemma PagesPartition(films: seq<FilmEntry>)
    ensures PagesUpTo(films, TotalPages(|films|)) == films
  {
    PagesUpToIsPrefix(films, TotalPages(|films|));
    assert films[..|films|] == films;
  }

  /** The films shown for `?page=1` to `?page=k`, one request after another, concatenated. */
  function ShownUpTo(all: seq<FilmEntry>, k: nat): seq<FilmEntry> {
    if k == 0 then [] else ShownUpTo(all, k - 1) + ShowFavorites(all, Some(Text.IntText(k))).films
  }

  lemma {:induction false} ShownUpToIsPagesUpTo(all: seq<FilmEntry>, k: nat)
    requires |Text.NatText(k)| <= Text.MaxStrDigits
    ensures ShownUpTo(all, k) == PagesUpTo(KeepTruthy(all), k)
  {
    if k > 0 {
      Text.NatTextLengthMonotone(k - 1, k);
      ShownUpToIsPagesUpTo(all, k - 1);
      Text.IntTextRoundTrip(k);
    }
  }

  /**
   * Following the page links from 1 to the page count the template is given
   * shows every favorite film exactly once, in the model's order, and drops
   * only the falsy entries, as long as the page numbers stay within the digit
   * limit of `int()`.
   */
  lemma ShownPagesCoverFavorites(all: seq<FilmEntry>)
    requires |Text.NatText(TotalPages(|KeepTruthy(all)|))| <= Text.MaxStrDigits
    ensures ShownUpTo(all, ShowFavorites(all, None).totalPages) == KeepTruthy(all)
  {
    ShownUpToIsPagesUpTo(all, TotalPages(|KeepTruthy(all)|));
    PagesPartition(KeepTruthy(all));
  }
}
