# Movie search by genre: a Dafny model

This project models the logic of a small movie-search app. The app is a Streamlit script over a catalog of movies, each with a `Title` and a `Genre`. It has three parts that carry contracts:

- **Search by genre** (`Catalog`). The user's text is lower-cased but not trimmed. It is then checked for exact membership in the catalog's distinct genres. A genre that is not in the catalog gets a warning and no list (`None`). A genre that is in the catalog has its rows filtered, and `sample(n=10)` draws ten of them without replacement. That call raises an error when fewer than ten rows match.
- **AI recommendations** (`Recommendations`). The returned list is empty unless Continue is pressed. After a press it holds exactly one element, the chat model's reply. The model receives a fixed system prompt and the genre as the user's message. The prompt contains the text `'{genre}'`, but the string is never formatted, so the placeholder is sent as it is written and the prompt is the same for every genre.
- **The session** (`App`). Streamlit runs the whole script again on every interaction. Widget values (the text box, the checkbox, the uploaded file) are inputs of each run; the only state the script keeps itself is the session genre. `Step` is one run written as a function. The class `App.Session` does the same run by updating its `genre` field, and `Run` is proved equal to `Step`. Across runs:
  - The session genre starts as `""`.
  - Search with non-empty text stores the text as typed. It does this even when the genre is rejected.
  - Search with an empty box only warns.
  - Go back clears the genre.
  - The recommendations area appears only when the checkbox is ticked and the genre is non-empty.
  - Nothing happens until a key file is uploaded.

Modelling choices:

- The catalog is a sequence of `Movie(title, genre)` rows. Reading the CSV file is not modelled.
- Lower-casing is ASCII: `A`–`Z` become `a`–`z`, and every other character is left as it is.
- The random draw of `sample(n=10)` is a parameter `draw`. It holds ten distinct positions into the filtered rows, supplied by the random source. The model states what happens for every such draw.
- When fewer than ten rows match, the outcome is `SampleTooLarge` rather than a precondition. `DrawExistsIffEnoughRows` shows that no valid draw exists in that case.
- The chat model is a parameter of type `seq<ChatMessage> -> string`.
- One run is caused by at most one button press (`Click`). The checkbox and the text box are inputs of the run.
- An exception from `sample` ends the run before line 108. The genre is then not stored, and the rest of the page is not drawn (`Raised`).

Behaviour worth noting:

- The input is not trimmed.
- Fewer than ten matching rows make `sample` fail; the catalog's rows are not returned instead.
- A search that the genre check rejects still stores the typed text as the session genre, so recommendations stay reachable for it (`RejectedGenreReachesModel`).
- The system prompt is not parameterised by the genre.

## Model

| member | source | states |
|---|---|---|
| `Text.Lower` | search.py:32 | lower-casing keeps the length and lower-cases each character in place; no character is removed, so nothing is trimmed |
| `Text.LowerIdempotent` | search.py:32 | lower-casing an already lower-cased string changes nothing |
| `Text.LowerHasNoCapitals` | search.py:32 | the lower-cased input contains no capital letter |
| `Text.SameUpToCaseLowersEqually` | search.py:32 | two inputs lower-case to the same string exactly when, position by position, their characters are equal or one is a capital letter and the other its small letter |
| `Catalog.Unique` | search.py:31 | the distinct genres hold every value of the column and nothing else, each exactly once |
| `Catalog.Genres` | search.py:31 | a value is among the available genres exactly when some row has it as its genre, and each appears once |
| `Catalog.MatchingRows` | search.py:46 | the filter keeps exactly the rows whose genre equals the lower-cased input, in catalog order, each once |
| `Catalog.DrawnRows` | search.py:47 | a draw picks ten distinct catalog rows, all of the searched genre |
| `Catalog.SearchByGenre` | search.py:30-47 | no list exactly when the lower-cased input is not a catalog genre; a sampling failure exactly when it is one with fewer than ten rows; otherwise ten titles, each a title of that genre |
| `Catalog.AcceptedIffSomeRowMatches` | search.py:31-46 | the lower-cased input passes the genre check exactly when the filter keeps at least one row |
| `Catalog.DistinctBelowBound` | search.py:47 | distinct positions below n number at most n (the reason a draw without replacement needs enough rows) |
| `Catalog.DrawExistsIffEnoughRows` | search.py:47 | ten rows can be drawn without replacement exactly when at least ten rows match |
| `Catalog.SampledFromDistinctRows` | search.py:46-47 | the ten returned titles come from ten distinct rows whose genre equals the lower-cased input; the k-th title is the title of the filtered row at the k-th drawn position |
| `Catalog.CaseInsensitive` | search.py:32-35 | inputs differing only in letter case give the same search outcome for the same draw |
| `Catalog.UntrimmedInputRejected` | search.py:32-35 | an input with a leading or trailing blank is rejected when no catalog genre has one |
| `Catalog.CapitalizedGenreNeverMatched` | search.py:32-46 | a row whose stored genre has a capital letter is never selected, whatever is typed |
| `Recommendations.Conversation` | search.py:57-72 | the model gets two messages, system first: the system message is the constant prompt, the human message is the genre |
| `Recommendations.RecommendationList` | search.py:53-75 | at most one element; empty exactly when Continue is not pressed; otherwise the model's reply to the fixed conversation |
| `Recommendations.AiRecommendations` | search.py:53-75 | starts empty and appends the reply to the constant prompt and the genre only on Continue; equals the list specification |
| `Recommendations.GenreOnlyInHumanMessage` | search.py:57-72 | the system message is the same constant prompt for every genre, and the human message carries the genre |
| `Recommendations.PlaceholderNotSubstituted` | search.py:60-64 | the prompt sent still contains the literal placeholder `{genre}` |
| `App.Session.constructor` | search.py:94-95 | a new session's genre is empty |
| `App.Session.Search` | search.py:100-111 | empty text only warns; other text is searched and stored as typed unless sampling raised |
| `App.Session.Recommend` | search.py:114-119 | the area appears exactly with the box ticked and a non-empty genre; empty list without Continue, the model's reply with it |
| `App.Session.GoBack` | search.py:122-123 | the genre becomes empty |
| `App.Session.Run` | search.py:80-128 | one run in place leaves exactly the genre and page that `Step` gives |
| `App.Step` | search.py:80-128 | one run leaves the genre unchanged, empty, or equal to text submitted with Search in that run; recommendations appear only with a key file and the box ticked, hold at most one reply, and a reply only on Continue |
| `App.Replay` | search.py:80-128 | runs without a key file never change the genre; runs ending with a keyed Go back leave it empty |
| `App.KeyGatesEverything` | search.py:85 | without a key file the page shows only the uploader and the genre is unchanged |
| `App.SearchStoresRawInput` | search.py:100-108 | after a search the genre is the raw typed text, rejected or not; only a sampling failure keeps the old genre, and it happens exactly for a valid genre with fewer than ten rows |
| `App.EmptySearchOnlyWarns` | search.py:110-111 | searching with an empty box leaves the genre as it was and shows the warning |
| `App.GoBackIdempotent` | search.py:122-123 | Go back leaves the genre empty, and a second Go back gives the same genre as the first |
| `App.RecommendationGate` | search.py:114-117 | without a search in the run, recommendations appear exactly for a ticked box and a non-empty genre, and hold the model's reply exactly on Continue |
| `App.NoRecommendationsAfterGoBack` | search.py:116-123 | after Go back, the next run without a search shows no recommendations |
| `App.RejectedGenreReachesModel` | search.py:100-117 | after a rejected search, Continue sends the typed text as it was typed to the model |
| `App.GenreComesFromSearch` | search.py:94-123 | from a fresh session, the genre is always empty or text that an earlier run submitted with Search |
| `App.NoRecommendationsBeforeSearch` | search.py:94-117 | from a fresh session, no run shows recommendations before some run presses Search |

## Left out

- Rendering: warnings, subheaders, numbered title lists, the spinner, the logo image and the link (search.py:36-43, 66-67, 104-107, 118-119, 125-128). The model keeps only which areas appear and what the functions return.
- Reading the key file and writing it to the process environment (search.py:82-87). The upload is the boolean `keyUploaded`. A missing or wrong key making the model call fail is not modelled.
- Loading the catalog from `final_movies.csv` (search.py:25). The catalog is a given sequence of rows.
- The chat-model call itself (search.py:55, 71-72). It is a function parameter, so network failures and its exceptions are not modelled.
- The distribution of `DataFrame.sample`. Any draw of ten distinct rows is allowed; probabilities are not modelled.
- Python's Unicode `str.lower`. Only ASCII letters are lower-cased.
- `Text.Lower`: weaker than Python's `str.lower` for non-ASCII letters, which are left unchanged because Unicode case mapping is not modelled.
- Streamlit's text box default (search.py:97). The typed text is an input of each run, and showing the stored genre as the initial value is not modelled.
- Missing values in the `Genre` column, which pandas would keep as NaN. Every row has a string genre.
