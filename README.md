# SWAPI record operations (Problem Set 10), modelled in Dafny

Problem Set 10 fetches Star Wars API (SWAPI) entities as decoded JSON
dictionaries and reshapes them with six small operations, modelled here:

- `create_starship`, `create_person` and the thinning step of `get_homeworld`
  build a new dict with a fixed key set. A field the input has is copied
  verbatim. A missing field becomes `""`. `passengers` and `dialogue` are
  always `[]`.
- `get_homeworld` sends the identifier to the fetch as a URL when
  `"https://"` occurs anywhere in it. Otherwise it searches the given
  endpoint, with `{"search": identifier}` as the query.
- `board_starship` appends each `(person, is_intruder)` pair to the starship's
  `"intruder"` or `"passengers"` list, creating the list on first use.
- `capture_starship` creates `{"docked": [prey]}` under
  `"primary_docking_bay"` on first use and appends to it afterwards.
- `insert_dialogue` extends a person's `"dialogue"` list with the lines
  a name-keyed table holds for that person's name.

Layout:

- `Values.dfy` is the data model. `Value` is a decoded JSON value. `Fields` is
  a dict with string keys. `Record` is a dict object changed in place. `Error`
  lists the Python exceptions that can be raised. `Exec` is the outcome of an
  in-place operation: either it returns, or it raises and leaves the dict as
  changed so far.
- `Projection.dfy` holds the `.get(key, "")` projection that the three
  record builders share.
- `Homeworld.dfy` holds `get_homeworld`. The HTTP call `get_swapi_resource`
  is a parameter `fetch: Request -> Result<Value>`. It receives either
  `Direct(identifier)` or `Search(url, {"search": identifier})`.
- `Starship.dfy` holds `create_starship`, `board_starship` and
  `capture_starship`.
- `Person.dfy` holds `create_person` and `insert_dialogue`.

Each in-place operation is a method on a `Record`. Its postcondition equates
the new dict with a function of the old one: `Board`, `Capture` or
`MergeDialogue`. That function also covers the partial state Python leaves when
it raises part-way through a loop. The lemmas then state what the source
promises about those functions.

`create_person` raises whenever `get_homeworld` raises. For example, a person
with no `"homeworld"` field gives `"https://" in None`, which raises a
TypeError (`CreatePersonWithoutHomeworld`).

Where the documentation and the code disagree, the model follows the code:

- The docstring of `get_homeworld` says a URL is recognised when the
  identifier *starts with* `"https://"`. The code tests whether that text
  occurs *anywhere*. `MentionedUrlIsDirect` shows the difference.
- A search by name returns the search envelope, and `get_homeworld` thins the
  envelope itself, not `results[0]`. When the envelope carries none of the
  planet fields, the name branch resolves to five empty strings
  (`SearchEnvelopeThinsToBlank`).

## Model

| member | source | states |
|---|---|---|
| Projection.Project | Problem-10/solution_set_10.py:208-214 | the result has exactly the requested keys; a key the input has keeps its value, a missing one is `""` |
| Projection.ProjectIdempotent | Problem-10/solution_set_10.py:208-214 | projecting a projection onto the same keys leaves it unchanged |
| Projection.ProjectFixedPoint | Problem-10/solution_set_10.py:208-214 | a record whose keys are exactly the projected ones is its own projection |
| Projection.ProjectReadsOnlyKeys | Problem-10/solution_set_10.py:171-177 | two inputs that agree on the projected keys give the same result, so other fields are ignored |
| Projection.ProjectOfSuperset | Problem-10/solution_set_10.py:208-214 | a record that holds an expected record's fields, plus any others, projects to exactly that expected record |
| Homeworld.Occurs | Problem-10/solution_set_10.py:203 | Python's `needle in s` on strings: the empty needle occurs in every string, and a needle that occurs is no longer than the string (tied to the slice definition by `OccursIff`) |
| Homeworld.OccursIff | Problem-10/solution_set_10.py:203 | the left-to-right scan for `needle in s` succeeds exactly when some slice of `s` equals the needle |
| Homeworld.PrefixOccurs | Problem-10/solution_set_10.py:185-187 | a string that starts with the needle contains it |
| Homeworld.Contains | Problem-10/solution_set_10.py:203 | Python's `in`: substring for a str, element equality for a list, key membership for a dict, TypeError for None, bool or number |
| Homeworld.HomeworldRequest | Problem-10/solution_set_10.py:203-207 | the fetch receives the identifier itself exactly when `"https://" in identifier` is true, and otherwise `url` with params `{"search": identifier}`; the `in` test's TypeError propagates |
| Homeworld.GetHomeworld | Problem-10/solution_set_10.py:203-214 | a successful result has exactly the keys name, diameter, climate, terrain and population |
| Homeworld.DispatchOnString | Problem-10/solution_set_10.py:203-207 | a string identifier takes the URL branch if "https://" occurs at some index, and the search branch if it occurs at none |
| Homeworld.UrlPrefixIsDirect | Problem-10/solution_set_10.py:185-187 | an identifier that begins with "https://" is fetched as a URL |
| Homeworld.MentionedUrlIsDirect | Problem-10/solution_set_10.py:203 | an identifier that has "https://" after some leading text is also fetched as a URL, though it does not begin with "https://" (a substring test, not a prefix test) |
| Homeworld.AbsentHomeworldRaises | Problem-10/solution_set_10.py:203 | a None identifier raises TypeError (`Contains` states the same for a bool or a number) |
| Homeworld.ThinIdempotent | Problem-10/solution_set_10.py:208-214 | thinning a thinned planet leaves it unchanged |
| Homeworld.ResolvedIsThinned | Problem-10/solution_set_10.py:204-214 | a dict answer from the fetch is thinned; a non-dict answer raises AttributeError (`.get`); a fetch failure propagates unchanged |
| Homeworld.PlanetByUrl | Problem-10/solution_set_10.py:203-214 | a planet URL whose fetched record agrees with an expected five-field record resolves to exactly that record, whatever extra fields the fetched record has |
| Homeworld.NabooResolves | Problem-10/solution_set_10.py:381-387 | a planet URL whose fetched record carries the Naboo fields resolves to exactly the Naboo record the script asserts for R2-D2 |
| Homeworld.TatooineResolves | Problem-10/solution_set_10.py:388-394 | a planet URL whose fetched record carries the Tatooine fields resolves to exactly the Tatooine record the script asserts for C-3PO |
| Homeworld.SearchEnvelopeThinsToBlank | Problem-10/solution_set_10.py:205-214 | a name search thins the returned envelope, so an envelope without the planet fields gives five empty strings |
| Starship.CreateStarship | Problem-10/solution_set_10.py:171-177 | the key set is exactly name, model, passengers, max_atmosphering_speed and length; passengers is `[]`; the other four keys are copied when present and `""` otherwise |
| Starship.CreateStarshipIdempotent | Problem-10/solution_set_10.py:171-177 | re-creating a created starship gives it back unchanged |
| Starship.BoardOne | Problem-10/solution_set_10.py:65-76 | one boarding step raises AttributeError, leaving the dict unchanged, exactly when the target bucket holds a non-list; otherwise the person is appended, and an absent bucket becomes `[person]` |
| Starship.Board | Problem-10/solution_set_10.py:64-78 | the dict `board_starship` leaves behind, also when it raises part-way; the only exception it raises is AttributeError (the contents and the frame are stated by the lemmas below) |
| Starship.FlaggedPartition | Problem-10/solution_set_10.py:64-76 | the intruders and the passengers together are a permutation of the people, so their counts add up to `len(people)` |
| Starship.BoardFillsBucket | Problem-10/solution_set_10.py:64-76 | when every person is headed for a bucket that is absent or a list (the other bucket may hold anything), boarding returns, and the bucket for a flag is its old contents followed by the people with that flag, in input order |
| Starship.BoardAppends | Problem-10/solution_set_10.py:64-78 | when every person is headed for a bucket that is absent or a list, boarding returns; "intruder" is its old contents followed by the people flagged True, "passengers" its old contents followed by those flagged False, both in input order; which keys can be appended to is unchanged |
| Starship.BoardKeepsOtherKeys | Problem-10/solution_set_10.py:64-78 | when every person is headed for a bucket that is absent or a list, boarding returns, a bucket exists exactly when it existed before or someone went to it, and every key other than the two buckets is unchanged |
| Starship.BoardKeepsNonLists | Problem-10/solution_set_10.py:64-78 | when boarding returns, every key that held something other than a list (such as a raw `"passengers"` count nobody is sent to) holds exactly the same value afterwards |
| Starship.BoardCounts | Problem-10/solution_set_10.py:64-76 | when every person is headed for a bucket that is absent or a list, the intruder bucket grows by the number flagged True, the passenger bucket by the number flagged False, and the two together by `len(people)` |
| Starship.BoardRaises | Problem-10/solution_set_10.py:64-76 | boarding raises (AttributeError) exactly when some person is headed for a bucket holding a non-list; when it returns, every key can be appended to exactly when it could before |
| Starship.BoardRaisedSticks | Problem-10/solution_set_10.py:64-76 | once boarding has raised, the later people change nothing |
| Starship.BoardStopsAtFirstBad | Problem-10/solution_set_10.py:64-76 | boarding raises at the first person headed for a non-list bucket, with everyone before that person boarded |
| Starship.BoardCreatedStarship | Problem-10/solution_set_10.py:64-76 | on a starship from `create_starship`, passengers becomes exactly the non-intruders, an intruder list exists only if someone was flagged, no other key is added, and the four copied fields keep the values `create_starship` gave them |
| Starship.BoardStarship | Problem-10/solution_set_10.py:64-78 | the method leaves the dict equal to `Board` of the old dict, and returns the same dict object, or the error that was raised |
| Starship.Capture | Problem-10/solution_set_10.py:102-106 | an absent bay becomes `{"docked": [prey]}`; otherwise prey is appended to "docked", with the other keys of the attacker and of the bay unchanged; the call raises, leaving the dict unchanged, exactly when the bay is not a dict whose "docked" is a list: TypeError for a bay that is not a dict, KeyError for a missing "docked", AttributeError for a "docked" that is not a list |
| Starship.CaptureInOrder | Problem-10/solution_set_10.py:102-106 | `CaptureAll` stands for N successive `capture_starship` calls on one attacker, stopping at the first raise; when the bay starts absent or a dict with a "docked" list, N captures add N docked entries, in call order, after those already there; no key of the attacker other than the bay changes |
| Starship.CaptureStarship | Problem-10/solution_set_10.py:102-106 | the method leaves the dict equal to `Capture` of the old dict, and returns the same dict object, or the error that was raised |
| Person.CreatePerson | Problem-10/solution_set_10.py:142-150 | fails exactly when `get_homeworld(person.get("homeworld"), url)` fails; otherwise the key set is the seven person keys, dialogue is `[]`, homeworld is that resolution, and the other five keys are copied or `""` |
| Person.CreatedHomeworldIsThin | Problem-10/solution_set_10.py:148 | a created person's homeworld is a flat dict with exactly the five planet keys |
| Person.CreatePersonWithoutHomeworld | Problem-10/solution_set_10.py:148 | a person without a "homeworld" field makes `create_person` raise TypeError |
| Person.MergeDialogue | Problem-10/solution_set_10.py:259-262 | the dict `insert_dialogue` leaves behind, also when it raises part-way; the only exceptions are KeyError and TypeError, and whether it returns or raises the key set is unchanged and no key other than "dialogue" changes |
| Person.MergeDialogueExtends | Problem-10/solution_set_10.py:259-261 | when "dialogue" is a list, the call returns, and the list is extended (not replaced) by the lines of the matching entries, in table order |
| Person.NoMatchNoLines | Problem-10/solution_set_10.py:259-260 | when no table key equals the person's name, no lines are collected |
| Person.MatchedLinesOfKey | Problem-10/solution_set_10.py:259-261 | with distinct table keys, the collected lines are exactly the lines of the one matching entry |
| Person.MergeDialogueNoMatch | Problem-10/solution_set_10.py:259-262 | a person that no table key names is returned unchanged |
| Person.MergeDialogueRaises | Problem-10/solution_set_10.py:259-261 | without a "dialogue" list, a match raises KeyError (key absent) or TypeError (not a list), with nothing changed |
| Person.MergeDialogueTwice | Problem-10/solution_set_10.py:259-261 | calling it twice appends the matching lines twice |
| Person.DialogueFromEmpty | Problem-10/solution_set_10.py:259-261 | a person whose dialogue list is empty ends up with exactly the lines of the table entry for its name |
| Person.DialogueOfCreatedPerson | Problem-10/solution_set_10.py:259-261 | a person from `create_person` ends up with exactly the lines of the table entry for its name |
| Person.MergeDialogueRaisedSticks | Problem-10/solution_set_10.py:259-261 | once the merge has raised, the later entries change nothing |
| Person.InsertDialogue | Problem-10/solution_set_10.py:259-262 | the method leaves the dict equal to `MergeDialogue` of the old dict, and returns the same dict object, or the error that was raised |

## Left out

- `get_swapi_resource`: this is HTTP through `requests`, with a timeout. It is a function parameter of `GetHomeworld` and `CreatePerson`. Its failures are one `RequestFailed` error, or whatever error the parameter returns.
- `read_csv_to_dicts` and `write_json`: these are file I/O through the `csv` and `json` libraries.
- `main`: this is script glue with printing. That includes the `bool(int(trooper["intruder"]))` conversion, which relies on Python's integer parsing.
- Shared references between dicts are not modelled. A person boarded onto a starship, or a ship docked in another, is a value snapshot. A later in-place change to the original does not show through it.
- Dict key order is not kept. Insertion order, and therefore the key order of the JSON output, is not represented by `map`. The dialogue table is a sequence of pairs, so its iteration order is kept.
- JSON numbers are integers. Floating-point values are not modelled.
- Starship.BoardStarship: each element of `people` is typed as a `(Value, bool)` pair. A Python tuple of the wrong length, and the truthiness of a non-bool flag, are therefore not modelled.
- Person.InsertDialogue: the table's keys are strings and its values are lists. In Python `+=` extends the list by any iterable (`[] += "ab"` gives `["a", "b"]`, and a string dialogue joined with a string line does not raise), and a `None` key matches a person with no "name". The model does not capture those cases.
- Homeworld.HomeworldRequest: when a list or dict identifier takes the URL branch, it is passed to the fetch as is. What `requests` then does with it is up to the fetch parameter.
- The operations of Problem Set 9 are not part of this model: field filtering, predicate filtering, classification by year and de-duplication.
