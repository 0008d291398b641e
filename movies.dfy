/**
 * The catalogue entry type of src/lib/catalog.ts and the list operations the
 * lookups use (`find` by id, `filter` by genre), over any list of entries.
 */
module Movies {
  import opened Wrappers

  /** One catalogue entry (`CatalogMovie`); year and duration in minutes are whole numbers. */
  datatype Movie = Movie(
    id: string,
    title: string,
    description: string,
    videoUrl: string,
    posterUrl: string,
    streamUrl: string,
    year: int,
    duration: int,
    genre: string)

  predicate DistinctMovieIds(ms: seq<Movie>) {
    forall i, j :: 0 <= i < j < |ms| ==> ms[i].id != ms[j].id
  }

  /** The position `ms.find(movie => movie.id === id)` stops at. */
  function IndexOfMovie(ms: seq<Movie>, id: string): (r: Option<nat>)
    ensures r.Some? ==> r.value < |ms| && ms[r.value].id == id
    ensures r.Some? ==> forall j :: 0 <= j < r.value ==> ms[j].id != id
    ensures r.None? <==> forall k :: 0 <= k < |ms| ==> ms[k].id != id
  {
    if |ms| == 0 then None
    else if ms[0].id == id then Some(0)
    else match IndexOfMovie(ms[1..], id)
      case None => None
      case Some(k) => Some(k + 1)
  }

  /** `ms.find(movie => movie.id === id)` */
  function FindById(ms: seq<Movie>, id: string): Option<Movie> {
    match IndexOfMovie(ms, id)
    case None => None
    case Some(k) => Some(ms[k])
  }

  /** In a list with distinct ids, finding an entry's id gives back that entry. */
  lemma FindOwnId(ms: seq<Movie>, k: nat)
    requires DistinctMovieIds(ms) && k < |ms|
    ensures FindById(ms, ms[k].id) == Some(ms[k])
  {
    var i := IndexOfMovie(ms, ms[k].id);
    assert i == Some(k);
  }

  /** `ms.filter(movie => movie.genre === genre)` */
  function FilterByGenre(ms: seq<Movie>, genre: string): (r: seq<Movie>)
    ensures |r| <= |ms|
  {
    if |ms| == 0 then []
    else
      var rest := FilterByGenre(ms[1..], genre);
      if ms[0].genre == genre then [ms[0]] + rest else rest
  }

  /** The filter keeps exactly the entries of that genre. */
  lemma {:induction false} FilterByGenreMembers(ms: seq<Movie>, genre: string)
    ensures forall m :: m in FilterByGenre(ms, genre) <==> m in ms && m.genre == genre
    decreases |ms|
  {
    if |ms| > 0 {
      FilterByGenreMembers(ms[1..], genre);
      assert ms == [ms[0]] + ms[1..];
    }
  }

  /** Filtering keeps the order: the filter of a concatenation is the concatenation of the filters. */
  lemma {:induction false} FilterByGenreAppend(a: seq<Movie>, b: seq<Movie>, genre: string)
    ensures FilterByGenre(a + b, genre) == FilterByGenre(a, genre) + FilterByGenre(b, genre)
    decreases |a|
  {
    if |a| == 0 {
      assert a + b == b;
    } else {
      var ab := a + b;
      assert ab[0] == a[0];
      assert ab[1..] == a[1..] + b;
      FilterByGenreAppend(a[1..], b, genre);
      var head := if a[0].genre == genre then [a[0]] else [];
      assert FilterByGenre(ab, genre) == head + FilterByGenre(a[1..] + b, genre);
      assert FilterByGenre(a, genre) == head + FilterByGenre(a[1..], genre);
    }
  }
}
