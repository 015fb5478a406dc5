/** The movie catalog and the search by genre: validate, filter, draw ten rows. */
module Catalog {
  import opened Text

  /** One row of the catalog file: its `Title` and `Genre` columns. */
  datatype Movie = Movie(title: string, genre: string)

  type MovieTable = seq<Movie>

  /** `sample(n=10)`: the number of rows a search draws. */
  const SampleSize: nat := 10

  /** What `search_by_genre` does with one input. */
  datatype SearchOutcome =
    | Rejected                      // not a catalog genre: a warning is shown and the function returns None
    | Sampled(titles: seq<string>)  // the titles of the ten drawn rows, in draw order
    | SampleTooLarge                // fewer than ten rows match: `sample(n=10)` raises ValueError

  /** The `Genre` column, row by row. */
  function GenreColumn(catalog: MovieTable): seq<string> {
    seq(|catalog|, i requires 0 <= i < |catalog| => catalog[i].genre)
  }

  /** `unique().tolist()`: each value once, in order of first appearance. */
  function Unique(s: seq<string>): (u: seq<string>)
    ensures forall x :: x in u <==> x in s
    ensures forall i, j :: 0 <= i < j < |u| ==> u[i] != u[j]
    ensures |u| <= |s|
    decreases |s|
  {
    if |s| == 0 then []
    else
      var front := s[..|s| - 1];
      assert s == front + [s[|s| - 1]];
      var u := Unique(front);
      if s[|s| - 1] in u then u else u + [s[|s| - 1]]
  }

  /** `available_genres`: the distinct genres of the catalog. */
  function Genres(catalog: MovieTable): (gs: seq<string>)
    ensures forall g :: g in gs <==> exists i :: 0 <= i < |catalog| && catalog[i].genre == g
    ensures forall i, j :: 0 <= i < j < |gs| ==> gs[i] != gs[j]
  {
    var col := GenreColumn(catalog);
    assert forall i :: 0 <= i < |catalog| ==> col[i] == catalog[i].genre;
    Unique(col)
  }

  /** `df[df['Genre'] == genre]`, as the positions of the kept rows in catalog order. */
  function MatchingRows(catalog: MovieTable, genre: string): (rows: seq<nat>)
    ensures forall k :: 0 <= k < |rows| ==> rows[k] < |catalog| && catalog[rows[k]].genre == genre
    ensures forall i :: 0 <= i < |catalog| && catalog[i].genre == genre ==> i in rows
    ensures forall k, l :: 0 <= k < l < |rows| ==> rows[k] < rows[l]
    decreases |catalog|
  {
    if |catalog| == 0 then []
    else
      var last := |catalog| - 1;
      var rows := MatchingRows(catalog[..last], genre);
      if catalog[last].genre == genre then rows + [last] else rows
  }

  /** A draw of `sample(n=10)` without replacement: ten distinct positions into `population` rows. */
  predicate ValidDraw(draw: seq<nat>, population: nat) {
    && |draw| == SampleSize
    && (forall k :: 0 <= k < |draw| ==> draw[k] < population)
    && (forall k, l :: 0 <= k < l < |draw| ==> draw[k] != draw[l])
  }

  /** What the random source must supply: a valid draw whenever the sample is taken. */
  predicate DrawAdmissible(catalog: MovieTable, input: string, draw: seq<nat>) {
    var population := |MatchingRows(catalog, Lower(input))|;
    population >= SampleSize ==> ValidDraw(draw, population)
  }

  /** The catalog positions of the drawn rows. */
  function DrawnRows(catalog: MovieTable, genre: string, draw: seq<nat>): (picked: seq<nat>)
    requires ValidDraw(draw, |MatchingRows(catalog, genre)|)
    ensures |picked| == SampleSize
    ensures forall k :: 0 <= k < |picked| ==> picked[k] < |catalog| && catalog[picked[k]].genre == genre
    ensures forall k, l :: 0 <= k < l < |picked| ==> picked[k] != picked[l]
  {
    var rows := MatchingRows(catalog, genre);
    seq(SampleSize, k requires 0 <= k < SampleSize => rows[draw[k]])
  }

  /** The titles of all rows of one genre. */
  function TitlesOf(catalog: MovieTable, genre: string): set<string> {
    set m | m in catalog && m.genre == genre :: m.title
  }

  /** `search_by_genre(genre)`. */
  function SearchByGenre(catalog: MovieTable, input: string, draw: seq<nat>): (r: SearchOutcome)
    requires DrawAdmissible(catalog, input, draw)
    ensures r.Rejected? <==> Lower(input) !in Genres(catalog)
    ensures r.SampleTooLarge? <==>
              Lower(input) in Genres(catalog) && |MatchingRows(catalog, Lower(input))| < SampleSize
    ensures r.Sampled? ==> |r.titles| == SampleSize
    ensures r.Sampled? ==> forall k :: 0 <= k < |r.titles| ==> r.titles[k] in TitlesOf(catalog, Lower(input))
  {
    var available := Genres(catalog);
    var genre := Lower(input);
    if genre !in available then Rejected
    else
      var filtered := MatchingRows(catalog, genre);
      if |filtered| < SampleSize then SampleTooLarge
      else
        var picked := DrawnRows(catalog, genre, draw);
        Sampled(seq(SampleSize, k requires 0 <= k < SampleSize => catalog[picked[k]].title))
  }

  /** A genre is accepted exactly when at least one row carries it. */
  lemma AcceptedIffSomeRowMatches(catalog: MovieTable, genre: string)
    ensures genre in Genres(catalog) <==> |MatchingRows(catalog, genre)| > 0
  {
    var rows := MatchingRows(catalog, genre);
    if genre in Genres(catalog) {
      var i :| 0 <= i < |catalog| && GenreColumn(catalog)[i] == genre;
      assert i in rows;
    }
    if |rows| > 0 {
      assert GenreColumn(catalog)[rows[0]] == genre;
    }
  }

  /** Pigeonhole: distinct positions below `population` number at most `population`. */
  lemma {:induction false} DistinctBelowBound(draw: seq<nat>, population: nat)
    requires forall k :: 0 <= k < |draw| ==> draw[k] < population
    requires forall k, l :: 0 <= k < l < |draw| ==> draw[k] != draw[l]
    ensures |draw| <= population
    decreases |draw|
  {
    if |draw| > 0 {
      var x := draw[|draw| - 1];
      var top := population - 1;
      // Rename `top` to `x` in the rest of the draw: every position is then below `top`.
      var rest := seq(|draw| - 1, k requires 0 <= k < |draw| - 1 => if draw[k] == top then x else draw[k]);
      forall k | 0 <= k < |rest| ensures rest[k] < top {
        assert draw[k] != x;
      }
      forall k, l | 0 <= k < l < |rest| ensures rest[k] != rest[l] {
        assert draw[k] != draw[l] && draw[k] != x && draw[l] != x;
      }
      DistinctBelowBound(rest, top);
    }
  }

  /** `sample(n=10)` can succeed exactly when at least ten rows match. */
  lemma DrawExistsIffEnoughRows(population: nat)
    ensures population >= SampleSize <==> exists draw :: ValidDraw(draw, population)
  {
    if population >= SampleSize {
      var first := seq(SampleSize, k requires 0 <= k < SampleSize => k);
      assert ValidDraw(first, population);
    } else {
      forall draw | ValidDraw(draw, population) ensures false {
        DistinctBelowBound(draw, population);
      }
    }
  }

  /** A successful search returns the titles of ten distinct rows of the lower-cased genre. */
  lemma SampledFromDistinctRows(catalog: MovieTable, input: string, draw: seq<nat>)
    requires DrawAdmissible(catalog, input, draw)
    requires SearchByGenre(catalog, input, draw).Sampled?
    ensures exists picked: seq<nat> ::
              && |picked| == SampleSize
              && (forall k, l :: 0 <= k < l < SampleSize ==> picked[k] != picked[l])
              && (forall k :: 0 <= k < SampleSize ==>
                    picked[k] < |catalog| && catalog[picked[k]].genre == Lower(input)
                    && SearchByGenre(catalog, input, draw).titles[k] == catalog[picked[k]].title)
    ensures ValidDraw(draw, |MatchingRows(catalog, Lower(input))|)
    ensures forall k :: 0 <= k < SampleSize ==>
              SearchByGenre(catalog, input, draw).titles[k] == catalog[MatchingRows(catalog, Lower(input))[draw[k]]].title
  {
    var genre := Lower(input);
    var rows := MatchingRows(catalog, genre);
    var picked := DrawnRows(catalog, genre, draw);
    var titles := SearchByGenre(catalog, input, draw).titles;
    assert titles == seq(SampleSize, k requires 0 <= k < SampleSize => catalog[picked[k]].title);
    forall k | 0 <= k < SampleSize
      ensures titles[k] == catalog[picked[k]].title && picked[k] == rows[draw[k]]
    {
    }
  }

  /** Inputs that differ only in the case of their letters give the same search. */
  lemma CaseInsensitive(catalog: MovieTable, a: string, b: string, draw: seq<nat>)
    requires SameUpToCase(a, b)
    requires DrawAdmissible(catalog, a, draw)
    ensures DrawAdmissible(catalog, b, draw)
    ensures SearchByGenre(catalog, a, draw) == SearchByGenre(catalog, b, draw)
  {
    SameUpToCaseLowersEqually(a, b);
  }

  /** The input is not trimmed: a leading or trailing blank is never a catalog genre unless some row has one. */
  lemma UntrimmedInputRejected(catalog: MovieTable, input: string, draw: seq<nat>)
    requires forall i :: 0 <= i < |catalog| ==>
               var g := catalog[i].genre; |g| == 0 || (g[0] != ' ' && g[|g| - 1] != ' ')
    requires |input| > 0 && (input[0] == ' ' || input[|input| - 1] == ' ')
    ensures DrawAdmissible(catalog, input, draw)
    ensures SearchByGenre(catalog, input, draw) == Rejected
  {
    var g := Lower(input);
    assert g[0] == ' ' || g[|g| - 1] == ' ';
    assert forall i :: 0 <= i < |catalog| ==> catalog[i].genre != g;
    assert g !in GenreColumn(catalog);
    AcceptedIffSomeRowMatches(catalog, g);
  }

  /** Only the input is lower-cased: a row whose genre has a capital letter is never selected. */
  lemma CapitalizedGenreNeverMatched(catalog: MovieTable, input: string, i: nat, j: nat)
    requires i < |catalog| && j < |catalog[i].genre| && IsUpper(catalog[i].genre[j])
    ensures i !in MatchingRows(catalog, Lower(input))
  {
    var g := Lower(input);
    assert j >= |g| || g[j] != catalog[i].genre[j];
    assert catalog[i].genre != g;
  }
}
