# News-story API views, modelled in Dafny

This project models the request handlers of a small news-story publishing API
(`cwk1/cwk1api/api/views.py`). Users log in with a username and password. While
logged in they post stories with a headline, category, region and details. Anyone
can list stories filtered by category, region and date. A logged-in session can
delete any story.

The handlers are modelled as one object, `Views.Api`. It holds:

- `session`: the client's session bag. The views use the keys `login_status` and `username`; either may be absent.
- `stories`: the story table, a map from id to `Story` (headline, category, region, details, date, author id).
- `users`: the user table, a map from user id to username. The views never change it.

Each view is a method. It takes an abstract `Request` (HTTP verb: `Get`, `Post`, `Delete`, or `OtherVerb(name)` for any other method name, form fields, query
parameters, and the JSON body already decoded, or `None` when the body cannot be
decoded). It returns a `Response`:

- `Message(status)` for a JSON message with that status code;
- `StoryList(entries)` for the 200 listing;
- `NoResponse` when the view returns nothing;
- `Error` when the view raises an exception it does not catch.

Each state-changing method is proved equal to a pure transition function:

- `Session.Login` and `Session.Logout` for the session;
- `StoryRules.PostStory` and `StoryRules.DeleteStory` for the story table.

The properties are proved as lemmas about those functions.

`get_story` is read-only. The order of its output is whatever the datastore yields,
so its answer is specified by a relation, `StoryRules.AnswersGet`. It is built on
`StoryRules.Lists`: one entry per selected story, each keyed by the decimal numeral
of its id and rendered from that story, with no key repeated.

External collaborators become inputs:

- The authentication backend is the function-valued field `authenticate`.
- The datastore's date-string parsing is the function-valued field `parseDate`.
- The current date is the `today` parameter. Dates are day numbers.
- The id the datastore gives a new row is the `newId` parameter. Its precondition
  `newId !in stories` is the datastore's own guarantee. `StoryRules.FreshId` shows
  such an id always exists.

The object invariant `Valid()` holds two facts. Usernames are unique, which the
user model enforces. The pure `StoryRules.PostStory` does not assume it: a shared
username there is the `MultipleObjectsReturned` error. Every story's author is a user, which the foreign key enforces.
Every method keeps `Valid()`.

## Model

| member | source | states |
|---|---|---|
| `Decimal.DecimalString` | cwk1/cwk1api/api/views.py:139 | `str(id)` is a canonical decimal numeral: at least one digit, and it starts with `0` only for the id 0 |
| `Decimal.ValueOfString` | cwk1/cwk1api/api/views.py:139 | reading a listing key back as a number gives the story id it was written from |
| `Decimal.StringOfValue` | cwk1/cwk1api/api/views.py:139 | every canonical numeral is the key of exactly the id it denotes (the other direction of the round trip) |
| `Decimal.DecimalStringInjective` | cwk1/cwk1api/api/views.py:139 | distinct story ids get distinct listing keys |
| `Types.MethodName` | cwk1/cwk1api/api/views.py:58-61 | a verb stands for `GET`, `POST` or `DELETE` exactly when it is `Get`, `Post` or `Delete`; any other method keeps its own name, so each `request.method` string has one verb |
| `Session.IsLoggedIn` | cwk1/cwk1api/api/views.py:66-72 | the login guard of `post_story` and `delete_story` fails on an absent `login_status` and on `"logged_out"`; it passes only on a present value other than `"logged_out"` |
| `Session.Login` | cwk1/cwk1api/api/views.py:18-37 | 400 exactly when `username` or `password` is missing; 401 exactly when authentication rejects them, with the session unchanged; 200 exactly when it accepts them, with `login_status = "logged_in"`, `username` = the supplied name, and every other key unchanged |
| `Session.Logout` | cwk1/cwk1api/api/views.py:41-53 | 400 exactly when `login_status` is absent; 200 exactly when it is `"logged_in"`, leaving `login_status = "logged_out"`, `username = ""` and other keys unchanged; 401 for any other present value; the session is unchanged unless the answer is 200 |
| `Session.LogoutLeavesLoggedOut` | cwk1/cwk1api/api/views.py:42-53 | whatever the session was, it is not logged in after a logout |
| `Session.LogoutTwice` | cwk1/cwk1api/api/views.py:42-53 | from a logged-in session two logouts answer 200 then 401, and the second changes nothing |
| `Session.LoginLogoutLogout` | cwk1/cwk1api/api/views.py:20-53 | with accepted credentials, login, logout, logout answer 200, 200, 401 from any starting session |
| `Session.LoginIdempotent` | cwk1/cwk1api/api/views.py:20-35 | logging in twice with the same form leaves the same session and answer as logging in once |
| `StoryRules.AuthorId` | cwk1/cwk1api/api/views.py:82 | the author lookup by username finds a user exactly when exactly one user has that username, and that user is the one it finds; no user is `DoesNotExist`, several are `MultipleObjectsReturned` |
| `StoryRules.UniqueLookup` | cwk1/cwk1api/api/views.py:82 | with unique usernames the lookup succeeds exactly when some user has the name |
| `StoryRules.Validate` | cwk1/cwk1api/api/views.py:84-91 | a story is accepted exactly when headline and details are non-empty, the category is one of pol, art, tech, trivia and the region one of uk, eu, w; the empty-field rejection comes first, then category, then region |
| `StoryRules.PostStory` | cwk1/cwk1api/api/views.py:65-97 | 401 exactly when not logged in; an uncaught error exactly when logged in but the body cannot be read, lacks a field, or the session username is missing, unknown or shared by several users; 400 exactly when those pass and validation fails; 200 exactly when all pass. Anything but 200 leaves the table unchanged. On 200 exactly one story is added under a fresh id: it carries the given fields, `date = today` and the user whose username is the session's, and every other story is unchanged |
| `StoryRules.FreshId` | cwk1/cwk1api/api/views.py:93-95 | for any set of ids in use there is an id above all of them, so a new row always has a free id |
| `StoryRules.LoginEnablesPost` | cwk1/cwk1api/api/views.py:30-97 | with unique usernames, after a successful login as an existing user a valid story is created (200); after a logout from there the same post answers 401 |
| `StoryRules.PostKeepsAuthorsKnown` | cwk1/cwk1api/api/views.py:82-95 | posting keeps every story's author a user of the user table |
| `StoryRules.SharedUsernameIsError` | cwk1/cwk1api/api/views.py:82 | when two users have the session's username, the post ends in the uncaught error |
| `StoryRules.AuthorLookupPrecedesValidation` | cwk1/cwk1api/api/views.py:77-85 | when logged in with an unknown username, even a story with empty fields ends in the uncaught error, not in 400 |
| `StoryRules.DeleteStory` | cwk1/cwk1api/api/views.py:156-174 | 405 exactly when the method name is not `DELETE`, whatever the session; then 401 exactly when not logged in; then 404 exactly when the id is absent; 200 otherwise, removing exactly that id and leaving every other story unchanged; the table is unchanged on every other answer |
| `StoryRules.DeleteTwice` | cwk1/cwk1api/api/views.py:168-174 | deleting the same story twice while logged in answers 200, then 404 |
| `StoryRules.DeleteIgnoresOwnership` | cwk1/cwk1api/api/views.py:160-174 | the answer depends only on the verb, the login flag and which ids exist, not on who is logged in or who wrote the story |
| `StoryRules.DeleteKeepsAuthorsKnown` | cwk1/cwk1api/api/views.py:173 | deleting keeps every story's author a user |
| `StoryRules.ReadFilter` | cwk1/cwk1api/api/views.py:103-126 | the listing is refused (400) exactly when `story_cat`, `story_region` or `story_date` is missing; an unparsable non-`*` date is an uncaught error; otherwise the filter carries the given category and region, and no date bound exactly when the date is `*` |
| `StoryRules.WithCategory` | cwk1/cwk1api/api/views.py:116 | the category filter keeps exactly the stories of that category, unchanged |
| `StoryRules.WithRegion` | cwk1/cwk1api/api/views.py:121 | the region filter keeps exactly the stories of that region, unchanged |
| `StoryRules.WithDateIn` | cwk1/cwk1api/api/views.py:126 | the date range filter keeps exactly the stories dated from the bound to today inclusive, unchanged |
| `StoryRules.Filtered` | cwk1/cwk1api/api/views.py:111-126 | the chained querysets keep exactly the stories selected by every filter: category `*` or equal, region `*` or equal, date `*` or `from <= date <= today`; kept stories are unchanged |
| `StoryRules.WildcardSelectsAll` | cwk1/cwk1api/api/views.py:113-124 | with all three filters at `*` the whole table is selected |
| `StoryRules.FutureDateSelectsNothing` | cwk1/cwk1api/api/views.py:123-126 | a date bound later than today selects nothing |
| `StoryRules.Render` | cwk1/cwk1api/api/views.py:133-145 | an entry's key reads back as the story id, it shows the story's headline, category, region, date and details, and the author is the username of the story's author |
| `StoryRules.ListsFromIds` | cwk1/cwk1api/api/views.py:132-147 | entries rendered one by one from distinct selected ids, covering every selected id, form a listing of the selection |
| `StoryRules.ListingsAgree` | cwk1/cwk1api/api/views.py:128-147 | any two listings of the same selection hold the same entries; only the order is left open |
| `StoryRules.ListsEmpty` | cwk1/cwk1api/api/views.py:149-152 | a listing is empty exactly when nothing is selected |
| `StoryRules.PostedStoryIsSelected` | cwk1/cwk1api/api/views.py:93-126 | a story just posted is selected by its own category and region with any date bound up to today, and by the all-wildcard query |
| `StoryRules.PostedStoryIsListed` | cwk1/cwk1api/api/views.py:93-147 | a story just posted is in every listing filtered by its own category and region with a date bound up to today, keyed by its id and showing its headline, details, today's date and the poster's username |
| `Views.Route` | cwk1/cwk1api/api/views.py:57-62 | GET goes to the listing, POST to the creation, and every other method to no handler, stated both on verbs and on method names |
| `Views.Api.Login` | cwk1/cwk1api/api/views.py:18-37 | updates the session in place exactly as `Session.Login` prescribes and answers its response |
| `Views.Api.Logout` | cwk1/cwk1api/api/views.py:41-53 | updates the session in place exactly as `Session.Logout` prescribes and answers its response |
| `Views.Api.Stories` | cwk1/cwk1api/api/views.py:57-62 | GET answers as `get_story` and changes nothing; POST acts as `StoryRules.PostStory`; any other method answers `NoResponse` and changes nothing |
| `Views.Api.PostStory` | cwk1/cwk1api/api/views.py:65-97 | updates the story table exactly as `StoryRules.PostStory` prescribes and keeps `Valid()` |
| `Views.Api.GetStory` | cwk1/cwk1api/api/views.py:100-152 | reads only: 400 on a missing parameter, an uncaught error on an unparsable date, 404 when the selection is empty, else a listing of exactly the selected stories (`AnswersGet`) |
| `Views.Api.ListStories` | cwk1/cwk1api/api/views.py:130-147 | the output loop lists every selected story once, each rendered with key `str(id)`, its fields and its author's username |
| `Views.Api.DeleteStory` | cwk1/cwk1api/api/views.py:156-174 | updates the story table exactly as `StoryRules.DeleteStory` prescribes and keeps `Valid()` |

## Left out

- The `index` view: it returns a constant string.
- Response message texts, `JsonResponse`/`HttpResponse`, URL routing and `csrf_exempt`: only status codes and the listing payload are modelled.
- UTF-8 decoding and `json.loads` of the story body: the body arrives already decoded. A body that cannot be decoded is `None`, which ends in `Error`. JSON values that are not strings (numbers, null, nested objects) are not modelled: every field is a string.
- `authenticate` and password hashing: the credential check is the oracle `authenticate`. The model does not tie it to the user table.
- `date.today()` and the datastore's parsing of `story_date`: the date is the `today` parameter, and parsing is the oracle `parseDate`. A string it rejects is the validation error the datastore raises, so `Error`. In a listing, dates are day numbers, not ISO strings.
- The ORM query engine, `.values()` ordering and id allocation. Tables are maps, and the listing order is left open. The new row's id is the `newId` parameter.
- Case-insensitive matching: filters compare strings exactly, as a case-sensitive collation does. A datastore whose collation ignores case would match more stories.
- `session.save()`, session creation, expiry and cookies: they belong to the external session store. The model has one client's session.
- Concurrency between requests: requests are handled one after another.
- `Views.Api.GetStory`: the `User.objects.get(id=...)` lookup in the output loop cannot fail in the model. `Valid()` guarantees every author is a user, as the foreign key does, so the `DoesNotExist` path of line 136 is not modelled.
