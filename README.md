# Perfume catalogue queries

This project models the two read-only query endpoints of a small perfume
catalogue service and proves what they return. The catalogue is an ordered
list of records with a name, a brand and free-text scent notes. It is loaded
once at startup and afterwards only read.

- **Recommendation** (`GetRecommendation`). The caller gives a list of
  preference strings. An empty list is answered with the "No preferences
  provided" error. Otherwise the catalogue is scanned in order. A record is
  kept when its lower-cased notes contain every lower-cased preference as a
  substring. If no record is kept, the answer is the not-found error
  ("Note(s) not found"). Otherwise the answer is the kept records.
- **Notes lookup** (`GetPerfumeNotes`). The answer holds the notes of every
  record whose name equals the query, ignoring case, in catalogue order,
  together with the query string unchanged. If no record matches, the answer
  is the not-found error ("Perfume not found").

Files and modules:

- `text.dfy`, module `Text`. ASCII lower-casing (`LowerChar`, `Lower`) and
  substring search (`Contains`). The contract of `Contains` states that it
  agrees with a reference definition, `Occurs`: some position of the string
  holds the substring.
- `filtering.dfy`, module `Filtering`. Order-preserving selection. `Filter`
  keeps the elements that satisfy a predicate. `FilterIndices` gives their
  positions. Both queries are instances of it.
- `perfumes.dfy`, module `Perfumes`. The `Perfume` record and the two result
  types, which replace the error dictionary and the HTTP 404 exceptions. It
  also holds the specification functions `Recommend` and `NotesNamed`, the
  lemmas about them, and the class `PerfumeCatalogue`. That class holds the
  catalogue as a field and has the two endpoints as members.
  `GetRecommendation` is a method with the source's loop. `GetPerfumeNotes`
  is a function, matching the source's list comprehension.

The catalogue stays unchanged under both queries. `GetRecommendation` has no
`modifies` clause and states `perfumes == old(perfumes)`.
`GetPerfumeNotes` is a function, so it cannot change state.

## Model

| member | source | states |
|---|---|---|
| Text.LowerChar | main.py:19 | ASCII upper-case letters move to lower case (code point + 32); every other character is unchanged; the result is never an upper-case letter |
| Text.Lower | main.py:19 | the lower-cased string has the same length and no upper-case letter; every character that is not an upper-case letter stays in place unchanged, and each upper-case letter becomes its lower-case letter at the same position |
| Text.LowerIdempotent | main.py:20 | lower-casing an already lower-cased string changes nothing |
| Text.OccursPastFirst | main.py:20 | a string that is not a prefix occurs exactly when it occurs after the first character, which is the step the left-to-right search takes |
| Text.Contains | main.py:20 | the substring search (`in`) succeeds exactly when the substring occurs at some position (both directions) |
| Text.ContainsEmpty | main.py:20 | the empty string is a substring of every string, so an empty preference matches every record |
| Perfumes.ContainsAllPreferences | main.py:20 | the `all(...)` test holds exactly when every lower-cased preference occurs as a substring of the lower-cased notes |
| Perfumes.Matches | main.py:19-20 | a record matches exactly when each lower-cased preference occurs in its lower-cased notes; with no preferences every record matches |
| Perfumes.NameMatches | main.py:31 | a record answers a name query exactly when the names have the same length and agree character by character ignoring ASCII case; identical names always match |
| Filtering.FilterIndices | main.py:18-21 | the selected positions are in range, strictly increasing, and are exactly the positions whose element satisfies the predicate |
| Filtering.Filter | main.py:18-21 | the selection is the input's elements at the selected positions, in order |
| Filtering.FilterSound | main.py:20-21 | every selected element is in the input and satisfies the predicate |
| Filtering.FilterComplete | main.py:20-21 | every input element that satisfies the predicate is selected |
| Filtering.FilterEmpty | main.py:23 | the selection is empty exactly when no element satisfies the predicate |
| Filtering.FilterAgrees | main.py:20 | predicates that agree on the input select the same positions and elements |
| Perfumes.Recommend | main.py:13-26 | no preferences gives NoPreferences, whatever the catalogue; with preferences, NotesNotFound exactly when no record matches; a successful answer is non-empty and is the order-preserving selection of matching records |
| Perfumes.RecommendationSound | main.py:18-21 | a recommended record is in the catalogue, and each lower-cased preference occurs in its lower-cased notes |
| Perfumes.RecommendationComplete | main.py:18-21 | with at least one preference, every record whose lower-cased notes contain all lower-cased preferences is recommended |
| Perfumes.RecommendationInCatalogueOrder | main.py:17-21 | the recommendations are the catalogue records at strictly increasing positions, and those are exactly the matching positions: nothing is dropped, duplicated or reordered |
| Perfumes.RecommendIgnoresPreferenceCase | main.py:20 | replacing a preference by its lower-case form does not change the answer |
| Perfumes.NotesNamed | main.py:31 | the notes are those of the catalogue records at the name-matching positions, one entry per matching record, in order |
| Perfumes.NotesNamedExactly | main.py:31 | every record whose name matches the query ignoring case contributes its notes (not only the first one), only those records do, and they appear in catalogue order |
| Perfumes.NotesNamedIgnoresCase | main.py:31 | asking with the lower-cased name returns the same notes |
| Perfumes.PerfumeCatalogue.constructor | main.py:8-9 | the catalogue holds exactly the records it was loaded with |
| Perfumes.PerfumeCatalogue.GetRecommendation | main.py:13-26 | the loop's answer is `Recommend` of the catalogue and preferences, and the catalogue is unchanged |
| Perfumes.PerfumeCatalogue.GetPerfumeNotes | main.py:30-34 | not-found exactly when no record's name matches ignoring case; otherwise the query string echoed unchanged with the notes of all matching records |

## Left out

- Startup file reading and JSON parsing of the catalogue file (main.py:8-9). The constructor takes the loaded records as a parameter.
- A record missing its "Name" or "Notes" key. The source would raise a KeyError; the `Perfume` datatype always has all three fields.
- FastAPI app creation, routing, `async`, and turning results into HTTP responses (main.py:1-5, 12, 29). The three outcomes are values of `RecommendationResult` and `NotesResult`.
- Text.Lower: it folds only the ASCII letters A-Z. Python's `str.lower()` also folds non-ASCII letters, and some of them expand to several characters. Those are not modelled.
- Text.Contains: it decides substring membership by naive left-to-right search. Python's `in` gives the same truth value by a faster algorithm; only the truth value is modelled.
- Aliasing: the source's result list holds the same dictionary objects as the catalogue. Here records are immutable values, so the result holds copies.
- The wider service (user accounts, tokens, roles, the external notes service, dislikes in recommendations, and adding, updating and deleting perfumes) is not part of this model. None of it appears in main.py.
