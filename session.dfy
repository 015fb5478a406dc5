/**
 * The app's script, run once per interaction. Widget values are inputs of each run;
 * the only state the script keeps itself is the session's genre. `Step` is one run as a function; the class `Session` does the
 * same run in place and is proved against it.
 */
module App {
  import opened Text
  import opened Catalog
  import opened Recommendations

  /** The button whose press caused this run; a run is caused by at most one press. */
  datatype Click = NoClick | SearchClick | ContinueClick | GoBackClick

  /** The inputs of one run: whether a key file is uploaded, the text box, the press, the checkbox, the random draw. */
  datatype Interaction = Interaction(keyUploaded: bool, typed: string, click: Click, checkbox: bool, draw: seq<nat>)

  /** What the search area shows. */
  datatype SearchView = NotSearched | EmptyWarning | Searched(outcome: SearchOutcome)

  /** The AI recommendations area: absent, or present with the list `ai_recommendations` returned. */
  datatype RecommendationView = Hidden | Shown(items: seq<string>)

  /** The page a run produces: nothing but the key uploader, an uncaught exception, or the app. */
  datatype Page = KeyRequired | Raised | Rendered(search: SearchView, recommendations: RecommendationView)

  datatype After = After(genre: string, page: Page)

  /** The random source gives a valid draw to a run that searches. */
  predicate Admissible(catalog: MovieTable, ev: Interaction) {
    ev.click == SearchClick ==> DrawAdmissible(catalog, ev.typed, ev.draw)
  }

  /** One run of `main` from session genre `genre`. */
  function Step(genre: string, ev: Interaction, catalog: MovieTable, model: ChatModel): (r: After)
    requires Admissible(catalog, ev)
    ensures r.genre == genre || r.genre == "" || (ev.keyUploaded && ev.click == SearchClick && r.genre == ev.typed)
    ensures r.page.Rendered? && r.page.recommendations.Shown? ==>
              ev.keyUploaded && ev.checkbox && |r.page.recommendations.items| <= 1
    ensures r.page.Rendered? && r.page.recommendations.Shown? && r.page.recommendations.items != [] ==>
              ev.click == ContinueClick
  {
    if !ev.keyUploaded then After(genre, KeyRequired)
    else
      var searching := ev.click == SearchClick && ev.typed != "";
      if searching && SearchByGenre(catalog, ev.typed, ev.draw).SampleTooLarge? then After(genre, Raised)
      else
        var view :=
          if ev.click != SearchClick then NotSearched
          else if ev.typed == "" then EmptyWarning
          else Searched(SearchByGenre(catalog, ev.typed, ev.draw));
        var current := if searching then ev.typed else genre;
        var recommendations :=
          if ev.checkbox && current != "" then Shown(RecommendationList(current, ev.click == ContinueClick, model))
          else Hidden;
        After(if ev.click == GoBackClick then "" else current, Rendered(view, recommendations))
  }

  /** The session genre after a sequence of runs. */
  function Replay(genre: string, evs: seq<Interaction>, catalog: MovieTable, model: ChatModel): (r: string)
    requires forall k :: 0 <= k < |evs| ==> Admissible(catalog, evs[k])
    ensures (forall k :: 0 <= k < |evs| ==> !evs[k].keyUploaded) ==> r == genre
    ensures |evs| > 0 && evs[|evs| - 1].keyUploaded && evs[|evs| - 1].click == GoBackClick ==> r == ""
    decreases |evs|
  {
    if |evs| == 0 then genre
    else Step(Replay(genre, evs[..|evs| - 1], catalog, model), evs[|evs| - 1], catalog, model).genre
  }

  class Session {
    var genre: string

    /** `session_state.genre = ""` on the first run. */
    constructor ()
      ensures genre == ""
    {
      genre := "";
    }

    /** A press of Search with the text box holding `typed`. */
    method Search(catalog: MovieTable, typed: string, draw: seq<nat>) returns (view: SearchView)
      requires DrawAdmissible(catalog, typed, draw)
      modifies this
      ensures typed == "" ==> view == EmptyWarning && genre == old(genre)
      ensures typed != "" ==> view == Searched(SearchByGenre(catalog, typed, draw))
      ensures typed != "" && view.outcome.SampleTooLarge? ==> genre == old(genre)
      ensures typed != "" && !view.outcome.SampleTooLarge? ==> genre == typed
    {
      if typed != "" {
        var outcome := SearchByGenre(catalog, typed, draw);
        view := Searched(outcome);
        if !outcome.SampleTooLarge? {
          genre := typed;
        }
      } else {
        view := EmptyWarning;
      }
    }

    /** The recommendations area, shown only with the checkbox ticked and a non-empty session genre. */
    method Recommend(checkbox: bool, continuePressed: bool, model: ChatModel) returns (view: RecommendationView)
      ensures view.Shown? <==> checkbox && genre != ""
      ensures view.Shown? && !continuePressed ==> view.items == []
      ensures view.Shown? && continuePressed ==> view.items == [model(Conversation(genre))]
    {
      if checkbox && genre != "" {
        var items := AiRecommendations(genre, continuePressed, model);
        view := Shown(items);
      } else {
        view := Hidden;
      }
    }

    /** A press of Go back. */
    method GoBack()
      modifies this
      ensures genre == ""
    {
      genre := "";
    }

    /** One run of `main`, in place. */
    method Run(ev: Interaction, catalog: MovieTable, model: ChatModel) returns (page: Page)
      requires Admissible(catalog, ev)
      modifies this
      ensures After(genre, page) == Step(old(genre), ev, catalog, model)
    {
      if !ev.keyUploaded {
        return KeyRequired;
      }
      var view := NotSearched;
      if ev.click == SearchClick {
        view := Search(catalog, ev.typed, ev.draw);
        if view == Searched(SampleTooLarge) {
          return Raised;
        }
      }
      var recommendations := Recommend(ev.checkbox, ev.click == ContinueClick, model);
      if ev.click == GoBackClick {
        GoBack();
      }
      page := Rendered(view, recommendations);
    }
  }

  /** Without a key file nothing is shown and nothing changes. */
  lemma KeyGatesEverything(genre: string, ev: Interaction, catalog: MovieTable, model: ChatModel)
    requires Admissible(catalog, ev) && !ev.keyUploaded
    ensures Step(genre, ev, catalog, model) == After(genre, KeyRequired)
  {
  }

  /** Search stores the raw text, not its lower-cased form, even when the genre is rejected; only a failed sample keeps the old genre. */
  lemma SearchStoresRawInput(genre: string, ev: Interaction, catalog: MovieTable, model: ChatModel)
    requires Admissible(catalog, ev)
    requires ev.keyUploaded && ev.click == SearchClick && ev.typed != ""
    ensures Lower(ev.typed) !in Genres(catalog) ==>
              && Step(genre, ev, catalog, model).genre == ev.typed
              && Step(genre, ev, catalog, model).page.Rendered?
              && Step(genre, ev, catalog, model).page.search == Searched(Rejected)
    ensures Step(genre, ev, catalog, model).page.Raised? <==>
              Lower(ev.typed) in Genres(catalog) && |MatchingRows(catalog, Lower(ev.typed))| < SampleSize
    ensures !Step(genre, ev, catalog, model).page.Raised? ==> Step(genre, ev, catalog, model).genre == ev.typed
    ensures Step(genre, ev, catalog, model).page.Raised? ==> Step(genre, ev, catalog, model).genre == genre
  {
  }

  /** Search with an empty text box only warns. */
  lemma EmptySearchOnlyWarns(genre: string, ev: Interaction, catalog: MovieTable, model: ChatModel)
    requires Admissible(catalog, ev)
    requires ev.keyUploaded && ev.click == SearchClick && ev.typed == ""
    ensures Step(genre, ev, catalog, model).genre == genre
    ensures Step(genre, ev, catalog, model).page.Rendered?
    ensures Step(genre, ev, catalog, model).page.search == EmptyWarning
  {
  }

  /** Go back clears the genre; doing it again changes nothing. */
  lemma GoBackIdempotent(genre: string, ev: Interaction, catalog: MovieTable, model: ChatModel)
    requires Admissible(catalog, ev)
    requires ev.keyUploaded && ev.click == GoBackClick
    ensures Step(genre, ev, catalog, model).genre == ""
    ensures Step(Step(genre, ev, catalog, model).genre, ev, catalog, model).genre
            == Step(genre, ev, catalog, model).genre
  {
  }

  /** Without a search in the same run, recommendations appear exactly for a ticked box and a non-empty genre, and call the model exactly on Continue. */
  lemma RecommendationGate(genre: string, ev: Interaction, catalog: MovieTable, model: ChatModel)
    requires Admissible(catalog, ev)
    requires ev.keyUploaded && ev.click != SearchClick
    ensures Step(genre, ev, catalog, model).page.Rendered?
    ensures Step(genre, ev, catalog, model).page.recommendations.Shown? <==> ev.checkbox && genre != ""
    ensures Step(genre, ev, catalog, model).page.recommendations.Shown? ==>
              Step(genre, ev, catalog, model).page.recommendations.items ==
                (if ev.click == ContinueClick then [model(Conversation(genre))] else [])
  {
  }

  /** After Go back, a run without a search shows no recommendations. */
  lemma NoRecommendationsAfterGoBack(genre: string, back: Interaction, next: Interaction, catalog: MovieTable, model: ChatModel)
    requires Admissible(catalog, back) && Admissible(catalog, next)
    requires back.keyUploaded && back.click == GoBackClick
    requires next.click != SearchClick
    ensures !Step(Step(genre, back, catalog, model).genre, next, catalog, model).page.Raised?
    ensures var p := Step(Step(genre, back, catalog, model).genre, next, catalog, model).page;
            p.Rendered? ==> p.recommendations == Hidden
  {
  }

  /** A rejected genre still reaches the model on the next run, as the user's message, as typed. */
  lemma RejectedGenreReachesModel(genre: string, search: Interaction, next: Interaction, catalog: MovieTable, model: ChatModel)
    requires Admissible(catalog, search) && Admissible(catalog, next)
    requires search.keyUploaded && search.click == SearchClick && search.typed != ""
    requires Lower(search.typed) !in Genres(catalog)
    requires next.keyUploaded && next.checkbox && next.click == ContinueClick
    ensures Step(Step(genre, search, catalog, model).genre, next, catalog, model).page
            == Rendered(NotSearched, Shown([model([SystemMessage(Prompt), HumanMessage(search.typed)])]))
  {
    SearchStoresRawInput(genre, search, catalog, model);
  }

  /** Starting from a fresh session, the genre is empty or is text some earlier run submitted with Search. */
  lemma {:induction false} GenreComesFromSearch(evs: seq<Interaction>, catalog: MovieTable, model: ChatModel)
    requires forall k :: 0 <= k < |evs| ==> Admissible(catalog, evs[k])
    ensures var g := Replay("", evs, catalog, model);
            g == "" || exists k :: 0 <= k < |evs| && evs[k].keyUploaded && evs[k].click == SearchClick && evs[k].typed == g
    decreases |evs|
  {
    if |evs| > 0 {
      var front := evs[..|evs| - 1];
      var last := evs[|evs| - 1];
      GenreComesFromSearch(front, catalog, model);
      var before := Replay("", front, catalog, model);
      var g := Step(before, last, catalog, model).genre;
      if g != "" && g != before {
        assert last.keyUploaded && last.click == SearchClick && last.typed == g;
      } else if g != "" {
        var k :| 0 <= k < |front| && front[k].keyUploaded && front[k].click == SearchClick && front[k].typed == g;
        assert evs[k] == front[k];
      }
    }
  }

  /** Before any Search, a fresh session never shows recommendations. */
  lemma NoRecommendationsBeforeSearch(evs: seq<Interaction>, ev: Interaction, catalog: MovieTable, model: ChatModel)
    requires forall k :: 0 <= k < |evs| ==> Admissible(catalog, evs[k])
    requires forall k :: 0 <= k < |evs| ==> evs[k].click != SearchClick
    requires Admissible(catalog, ev) && ev.click != SearchClick
    ensures var p := Step(Replay("", evs, catalog, model), ev, catalog, model).page;
            p.Rendered? ==> p.recommendations == Hidden
  {
    GenreComesFromSearch(evs, catalog, model);
  }
}
