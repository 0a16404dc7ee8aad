# Travel request extractor and movie wishlist bookkeeping

This project models two small programs.

**The travel-request service** (`Desktop/tripmcp/travel_mcp.py`) takes a
free-text hotel request and works out a destination and a traveler count.
It then returns hotel listings from a mocked supplier. The model covers:

- the destination rule: the first place entity (label `GPE`) from the
  named-entity recognizer, otherwise the stripped capture of an
  `in <letters and spaces>` phrase;
- the count rule: a `plan a trip with N of my friends` phrase gives N + 1,
  otherwise a `with/for N friends|people|…` phrase gives N (N + 1 when it
  mentions friends), otherwise a bare `N people|travelers|guests` gives N,
  otherwise 1;
- the mock supplier's five listings;
- the endpoint's choice between HTTP 400, HTTP 404 and the listings.

The four regular expressions are modelled by hand-written matchers
(`TravelPatterns`). Each one comes with a declarative description of what
a match is. The matchers are proved sound and complete against those
descriptions, and `Search` is proved to return the leftmost match.
`Travel.ExtractTravelInfo` follows the source's step-by-step overwriting of
the count and is proved equal to the declarative precedence definition
`Travel.TravelerCount`. The lemmas about that definition state the
precedence rules.

**The movie wishlist app** (`MovieManager.java`, `MainActivity.java`) keeps
a list of movies and two counters that each operation adjusts by hand.
`MainActivity` is a class with the list and the two counters as fields, and
`Valid()` says the counters agree with the list. Its constructor, Save
(add and edit), and removal of a movie are each proved to keep `Valid()`,
and each states its exact new state. The statistics text is proved to read
back as the true counts.

The traveler count is not bounded below by 1. The bare-number rule takes
N as written (`travel_mcp.py`, line 55), so "0 people" gives 0, as
`TravelExamples.ZeroPeople` proves.

Files:

- `wrappers.dfy`: the option type;
- `text.dfy`: character classes, ASCII lower-casing, `str.strip()`, decimal
  conversion in both directions;
- `travel_patterns.dfy`: the four patterns and `re.search`;
- `travel.dfy`: the extractor, the mock supplier and the endpoint;
- `travel_examples.dfy`: three queries worked through;
- `movie_wishlist.dfy`: the movie wishlist.

## Model

| member | source | states |
|---|---|---|
| Text.Strip | Desktop/tripmcp/travel_mcp.py:61 | `str.strip()`: the result is the text between the leading and the trailing white-space runs, with no white space at either end |
| Text.DecimalRoundTrip | Desktop/tripmcp/travel_mcp.py:41 | reading back the decimal digits of n gives n, the `int(...)` conversion being the inverse of the digit rendering |
| Text.IntToString | Desktop/CMPUT_301/Imajekod-MyMovieWishlist/imajekod-MyMovieWishlist/app/src/main/java/com/example/almost/MainActivity.java:74-75 | Java's `"" + i`: a minus sign exactly for negative i, then digits without leading zeros that parse back to the magnitude of i |
| TravelPatterns.MatchAt | Desktop/tripmcp/travel_mcp.py:39 | a match returned at position i starts at i, lies inside the text and has the pattern's shape; for the three count patterns the group is a run of digits |
| TravelPatterns.Search | Desktop/tripmcp/travel_mcp.py:39-59 | `re.search`: the match returned is the one found at its start position, and no earlier position from `from` on matches |
| TravelPatterns.WithForComplete | Desktop/tripmcp/travel_mcp.py:39 | every text span of the shape `(with|for)\s+(\d+)\s+(of my friends|friends|people|travelers)` is exactly what the matcher returns at its start |
| TravelPatterns.PlanTripComplete | Desktop/tripmcp/travel_mcp.py:47 | every span `plan a trip with (\d+) of my friends` is exactly what the matcher returns at its start |
| TravelPatterns.GenericComplete | Desktop/tripmcp/travel_mcp.py:53 | every span `(\d+)\s*(people|travelers|guests)` is exactly what the matcher returns at its start |
| TravelPatterns.InCityComplete | Desktop/tripmcp/travel_mcp.py:59 | wherever an `in\s+([A-Za-z\s]+)(\.|,|\?|$)` span starts, the matcher finds a match there whose group ends no earlier (greedy) |
| TravelPatterns.MatchComplete | Desktop/tripmcp/travel_mcp.py:39-59 | for each of the four patterns, a span of its shape is found at its start |
| TravelPatterns.SearchIsLeftmost | Desktop/tripmcp/travel_mcp.py:39-59 | the search fails exactly when no span of the text has the pattern's shape; otherwise it returns a match of that shape that starts leftmost |
| TravelPatterns.SearchNone | Desktop/tripmcp/travel_mcp.py:39-59 | the search fails when the pattern matches at no position |
| TravelPatterns.SearchFrom | Desktop/tripmcp/travel_mcp.py:39-59 | the search returns the match at the first matching position |
| Travel.FirstGpeAt | Desktop/tripmcp/travel_mcp.py:32-35 | when entity k is the first labelled GPE, the recognizer's destination is its text |
| Travel.FirstGpeNone | Desktop/tripmcp/travel_mcp.py:32-35 | the recognizer gives no destination exactly when no entity is labelled GPE |
| Travel.LaterEntitiesIgnored | Desktop/tripmcp/travel_mcp.py:32-35 | once a GPE entity occurs, appending further entities does not change the destination (the `break`) |
| Travel.ExtractTravelInfo | Desktop/tripmcp/travel_mcp.py:23-63 | `extract_travel_info`, run step by step: its destination and count equal the declarative precedence definitions Destination and TravelerCount |
| Travel.SearchFindsLeftmost | Desktop/tripmcp/travel_mcp.py:39-53 | for the count patterns, the search returns precisely the leftmost match of the pattern's shape |
| Travel.DefaultTravelerCount | Desktop/tripmcp/travel_mcp.py:29-55 | with none of the three count patterns in the text, the count is 1 |
| Travel.PlanTripOverrides | Desktop/tripmcp/travel_mcp.py:47-49 | a plan-a-trip phrase with N gives N + 1, whatever the with/for phrase said |
| Travel.WithForRule | Desktop/tripmcp/travel_mcp.py:39-43 | without a plan-a-trip phrase, the leftmost with/for phrase gives N, plus 1 when it mentions friends |
| Travel.GenericRule | Desktop/tripmcp/travel_mcp.py:52-55 | the bare N people/travelers/guests rule gives N, and applies only when neither earlier pattern matched |
| Travel.FriendsFlag | Desktop/tripmcp/travel_mcp.py:42-43 | a with/for phrase mentions "friends" exactly when its noun is "of my friends" or "friends" |
| Travel.GpeDestination | Desktop/tripmcp/travel_mcp.py:32-35 | the first GPE entity with non-empty text is the destination, whatever the text says |
| Travel.FallbackDestination | Desktop/tripmcp/travel_mcp.py:58-61 | without a usable GPE entity the leftmost `in <city>` match gives the destination, stripped of white space at both ends and with a greedy capture |
| Travel.NoFallbackDestination | Desktop/tripmcp/travel_mcp.py:58-61 | with neither a usable GPE entity nor an `in <city>` match, the recognizer's answer stands, so no entity gives no destination |
| Travel.ListingIsFor | Desktop/tripmcp/travel_mcp.py:107-112 | a listing built from a city carries the city in its name, ends its link with the lower-cased city, and has a USD price and an X.Y/5 rating |
| Travel.MockListingFor | Desktop/tripmcp/travel_mcp.py:106-112 | each of the six canned listings is a listing for the requested city |
| Travel.HotelSuggestions | Desktop/tripmcp/travel_mcp.py:106-115 | the mock returns exactly five listings, the first five of the six canned ones in order, each for the requested city |
| Travel.Respond | Desktop/tripmcp/travel_mcp.py:160-169 | 400 with the fixed message exactly when the destination is None or empty; 404 with the destination's message exactly when a destination exists and the supplier returns nothing; otherwise `Listings` holding the supplier's list unchanged |
| Travel.GetHotelRecommendations | Desktop/tripmcp/travel_mcp.py:151-169 | with the mocked supplier the endpoint fails exactly when no destination is extracted, always with 400, and otherwise returns exactly HotelSuggestions' five listings in order, each for the destination |
| TravelExamples.ZeroPeople | Desktop/tripmcp/travel_mcp.py:52-55 | the query "0 people" gives a count of 0 |
| TravelExamples.FiveFriends | Desktop/tripmcp/travel_mcp.py:39-43 | the query "with 5 of my friends" gives a count of 6 |
| TravelExamples.TokyoDestination | Desktop/tripmcp/travel_mcp.py:58-61 | with no entities, "I want to relax in Tokyo." gives the destination Tokyo |
| MovieWishlist.WatchedCount | Desktop/CMPUT_301/Imajekod-MyMovieWishlist/imajekod-MyMovieWishlist/app/src/main/java/com/example/almost/MainActivity.java:18 | the number of watched movies: at most the collection's length, 0 exactly when none is watched and the length exactly when all are |
| MovieWishlist.WatchedCountConcat | Desktop/CMPUT_301/Imajekod-MyMovieWishlist/imajekod-MyMovieWishlist/app/src/main/java/com/example/almost/MainActivity.java:18 | the watched count of two lists joined is the sum of their counts |
| MovieWishlist.WatchedCountAppend | Desktop/CMPUT_301/Imajekod-MyMovieWishlist/imajekod-MyMovieWishlist/app/src/main/java/com/example/almost/MovieManager.java:60-63 | appending a movie raises the watched count by 1 exactly when that movie is watched |
| MovieWishlist.WatchedCountUpdate | Desktop/CMPUT_301/Imajekod-MyMovieWishlist/imajekod-MyMovieWishlist/app/src/main/java/com/example/almost/MovieManager.java:65-72 | overwriting a movie changes the watched count by the difference of the two watched flags |
| MovieWishlist.RemoveAt | Desktop/CMPUT_301/Imajekod-MyMovieWishlist/imajekod-MyMovieWishlist/app/src/main/java/com/example/almost/MainActivity.java:68 | `ArrayList.remove(index)`: one element shorter, the elements before the index in place and those after it shifted down by one |
| MovieWishlist.WatchedCountRemove | Desktop/CMPUT_301/Imajekod-MyMovieWishlist/imajekod-MyMovieWishlist/app/src/main/java/com/example/almost/MainActivity.java:65-68 | removing a movie lowers the watched count by 1 exactly when that movie was watched |
| MovieWishlist.ValidEntryMeaning | Desktop/CMPUT_301/Imajekod-MyMovieWishlist/imajekod-MyMovieWishlist/app/src/main/java/com/example/almost/MovieManager.java:54 | input is accepted exactly when title, director and genre are non-empty and the year has four characters |
| MovieWishlist.MainActivity.constructor | Desktop/CMPUT_301/Imajekod-MyMovieWishlist/imajekod-MyMovieWishlist/app/src/main/java/com/example/almost/MainActivity.java:17-33 | the activity starts with an empty collection and both counters 0, so the counters agree with the collection |
| MovieWishlist.MainActivity.RemoveMovie | Desktop/CMPUT_301/Imajekod-MyMovieWishlist/imajekod-MyMovieWishlist/app/src/main/java/com/example/almost/MainActivity.java:62-71 | the movie at the index is removed and the others keep their order; the total drops by 1 and the watched counter by 1 exactly when the removed movie was watched; the counters keep agreeing with the collection |
| MovieWishlist.MainActivity.MovieStats | Desktop/CMPUT_301/Imajekod-MyMovieWishlist/imajekod-MyMovieWishlist/app/src/main/java/com/example/almost/MainActivity.java:73-76 | the texts are "Movies: " and "Watched: " followed by the counters in decimal without leading zeros (a minus sign before a negative counter), and while the counters agree with the collection the digits read back as its length and its watched count |
| MovieWishlist.MovieManager.constructor | Desktop/CMPUT_301/Imajekod-MyMovieWishlist/imajekod-MyMovieWishlist/app/src/main/java/com/example/almost/MovieManager.java:19-24 | the manager works on the given activity |
| MovieWishlist.MovieManager.Save | Desktop/CMPUT_301/Imajekod-MyMovieWishlist/imajekod-MyMovieWishlist/app/src/main/java/com/example/almost/MovieManager.java:47-78 | rejected input changes nothing; a new movie is appended with exactly the entered fields, the total rises by 1 and the watched counter by 1 exactly when it is watched; an edit overwrites all five fields of that movie only, keeps the total and moves the watched counter by the flip of the flag; either way the counters keep agreeing with the collection |
| MovieWishlist.MovieManager.Cancel | Desktop/CMPUT_301/Imajekod-MyMovieWishlist/imajekod-MyMovieWishlist/app/src/main/java/com/example/almost/MovieManager.java:80 | Cancel changes nothing |

## Left out

- The named-entity recognizer (spaCy) is not modelled. Its entity list is an input of `ExtractTravelInfo` and `GetHotelRecommendations`, each entity given as text and label.
- General Python `re` semantics are not modelled. Only the four fixed patterns are, by dedicated matchers that follow the backtracking engine's choices for them.
- Character classes and case-insensitivity are ASCII only. Python's `re.IGNORECASE`, `\s`, `\d`, `str.lower()`, `str.strip()` and `int()` also accept or fold characters outside ASCII, and the model does not.
- FastAPI, uvicorn and pydantic wiring, the environment variable for the API key, and every `print` are I/O and configuration, so they are left out.
- The commented-out real supplier call and the `RequestException` and `Exception` fallbacks are left out. They sit behind the mock and cannot be reached: the key always has a string value, so nothing in the `try` block raises. `Respond` still takes the supplier as a parameter, so its 404 branch is stated for any supplier.
- Travel.ExtractTravelInfo and Travel.GroupValue convert a digit run of any length. CPython 3.11 and later, and the 3.7 to 3.10 security releases, have a default `int_max_str_digits` limit of 4300: `int()` on a longer digit string raises `ValueError`, and the endpoint then answers HTTP 500. Interpreter configuration is outside the model, so the model returns a count for such queries.
- HotelSuggestions: the guest count is ignored. The source only prints it and passes it to the commented-out call.
- The Android UI is treated as inputs: dialog building, the pre-filled fields, reading the text fields and the check box, Toast, `notifyDataSetChanged` and `setText`. Save takes the dialog's outputs as parameters, and `MovieStats` returns the two texts instead of setting them.
- MovieAdapter is a view renderer with no bookkeeping, so it is left out.
- MovieManager.Save: the movie being edited is identified by its position in the list. The source holds a reference to the same object and mutates it in place, so aliasing is not modelled beyond that position.
- The separate `movieCollection` reference that MovieManager shares with MainActivity is modelled as the one list held by MainActivity.
- MainActivity.RemoveMovie: the index must be a valid position. The source's only caller passes a position of the displayed list, and an out-of-range index would throw in `ArrayList.get`.
- MovieWishlist.MainActivity.MovieStats: counters are unbounded integers. The source's 32-bit `int` cannot overflow in practice, since each counter is bounded by the list's length.
- MovieWishlist.ValidEntry: the year's length is counted in characters. Java's `String.length()` counts UTF-16 code units, which differs only outside the Basic Multilingual Plane.
