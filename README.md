# Polling system: vote path and results, in Dafny

A model of the core of a small Django polling API. The system stores three tables:

- **Poll** rows hold a question and an expiry time.
- **Option** rows belong to exactly one poll and carry a text and a `votes` counter that starts at 0.
- **Vote** rows bind an option to a `voter_id`. The pair (option, voter_id) is unique.

Two views hold logic:

- `VoteCreate.post` casts a vote. It looks up the option and rejects the vote if the option's poll expired strictly before now. Otherwise it calls `update_or_create` for the (option, voter_id) vote row and then adds one to the option's counter. As written, that call also passes a `voter` keyword that names no field of `Vote`, so Django raises `FieldError` before the counter line runs (see "## Left out"). The model describes the call with that keyword removed.
- `PollResults.get` lists the id, text and counter of every option of a poll.

Layout:

- `models.dfy` (module `Models`) holds the rows and the `Db` value, which is the three tables keyed by their auto-increment ids. It also holds the store invariant `Valid` and the row-level operations: creating a poll, creating an option, and `update_or_create` of a vote row.
- `views.dfy` (module `Views`) specifies the vote path (`CastVote`) and the results view (`Results`) as functions of a `Db`, with lemmas about them.
- `storage.dfy` (module `Storage`) holds the class `Store`. Its fields are the tables, and its methods update them in place. `Store.CastVote` follows the view step by step and is proved equal to `Views.CastVote`.

In the model, with the `voter` keyword removed, the counter is raised on every accepted call, including a repeated vote by the same voter for the same option. A repeated vote leaves the vote table unchanged. So "each counter equals the number of vote rows for its option" is not an invariant of this code. The model proves three things about it:

- `TallyKeptIffNewVote`: a consistent store stays consistent after a recorded vote exactly when the vote is new.
- `RepeatedVoteBreaksTally`: a consistent store exists that one more vote makes inconsistent.
- `RepeatVoteScenario`: on a fresh store, two identical votes leave the counter at 2 with one vote row.

The source's own comment on the `unique_together` constraint reads "Prevent duplicate votes" (polling_system/polls/models.py:23). The constraint does stop a second vote row, but it does not stop the counter from being raised again. The model follows the code.

## Model

| member | source | states |
|---|---|---|
| `Models.EmptyDb` | polling_system/polls/models.py:7-26 | the empty store satisfies the invariant and has consistent counters |
| `Models.AddPoll` | polling_system/polls/models.py:7-10 | creating a poll adds exactly one row under a fresh id, keeps the invariant, and leaves options and votes alone; the new poll has no options |
| `Models.AddOption` | polling_system/polls/models.py:12-15 | a new option gets a fresh id, belongs to the given poll, and has counter 0 and no vote rows; it joins that poll's options and no other poll's; the invariant and counter consistency are kept |
| `Models.UpdateOrCreate` | polling_system/polls/views.py:52-57 | after update_or_create the (option, voter_id) pair is present; the set of pairs grows by exactly that pair; existing rows are untouched; the row count grows by one exactly when the pair was new; the invariant (uniqueness included) is kept |
| `Models.VoteCountAfterUpdateOrCreate` | polling_system/polls/views.py:52-57 | only the voted option can gain a vote row, and it gains one exactly when the pair was new |
| `Models.VotesAreASet` | polling_system/polls/models.py:22-23 | under the unique (option, voter_id) constraint, the vote table has as many rows as distinct pairs |
| `Models.OptionBelongsToOnePoll` | polling_system/polls/models.py:13 | exposes part of the store invariant: every option's poll exists, and the option is among that poll's options and no other poll's |
| `Models.VoteReferencesOption` | polling_system/polls/models.py:18-19 | exposes part of the store invariant: every vote row refers to an existing option, whose poll exists, and has a voter_id of at most 40 characters |
| `Views.CastVote` | polling_system/polls/views.py:37-61 | NotFound exactly when the option is missing; a rejection leaves the store unchanged; a recorded vote puts the pair in the vote set, grows the rows by at most one, and raises that option's counter by exactly 1 without changing its text or poll; every other option and all polls are unchanged; the invariant is kept |
| `Views.ExpiredIff` | polling_system/polls/views.py:46-47 | the result is Expired exactly when the option exists and its poll's expires_at is strictly before now |
| `Views.RecordedIff` | polling_system/polls/views.py:41-61 | a vote is recorded exactly when the option exists and now is not past expires_at, so a vote exactly at expires_at is accepted |
| `Views.RepeatedVote` | polling_system/polls/views.py:52-61 | a second identical vote is also recorded; it leaves the vote rows unchanged but raises the counter by 1 again |
| `Views.TallyKeptIffNewVote` | polling_system/polls/views.py:52-61 | from a store whose counters equal its vote-row counts, a recorded vote keeps that equality if and only if the voter had not voted for that option |
| `Views.RepeatedVoteBreaksTally` | polling_system/polls/views.py:52-61 | counterexample: some valid store with consistent counters becomes inconsistent after one more recorded vote |
| `Views.ResultsFromSound` | polling_system/polls/views.py:26-31 | every entry listed from key `lo` upward is an option of the poll with key at least `lo`, and carries that option's id, text and current counter |
| `Views.ResultsFromComplete` | polling_system/polls/views.py:26-31 | every option of the poll with key at least `lo` has an entry |
| `Views.ResultsFromIncreasing` | polling_system/polls/views.py:26-31 | entries come in strictly increasing key order, so no option is listed twice |
| `Views.ResultsFromListsOptions` | polling_system/polls/views.py:26-31 | the three above together: each option of the poll with key at least `lo` is listed exactly once, in key order, with its current text and counter, and nothing else is listed |
| `Views.Results` | polling_system/polls/views.py:24-31 | NotFound exactly when the poll is missing; otherwise exactly one entry per option of the poll, in creation order, each carrying that option's id, text and current counter |
| `Views.ResultsFromAfterIncrement` | polling_system/polls/views.py:27-31 | if two stores differ only in one option's counter, which is one higher in the second, the listed rows are the same except for that counter |
| `Views.ResultsAfterVote` | polling_system/polls/views.py:24-31 | after a recorded vote, every poll's results list the same options in the same order, and only the voted option's counter is one higher |
| `Storage.Store.constructor` | polling_system/polls/models.py:7-26 | a new store is empty and satisfies the invariant |
| `Storage.Store.CreatePoll` | polling_system/polls/models.py:7-10 | the tables after the insert are those `AddPoll` gives |
| `Storage.Store.CreateOption` | polling_system/polls/models.py:12-15 | the tables after the insert are those `AddOption` gives; the new counter is 0 |
| `Storage.Store.CastVote` | polling_system/polls/views.py:37-63 | the in-place vote path yields the outcome and tables of `Views.CastVote`; polls are unchanged; a rejection changes nothing; a recorded vote stores the pair, raises the chosen counter by 1, and leaves every other option as it was |
| `Storage.RepeatVoteScenario` | polling_system/polls/views.py:52-61 | the same voter votes twice for the same option of a fresh poll: the counter ends at 2 with one vote row |

## Left out

- HTTP and framework plumbing is not modelled: `get_object_or_404`, `Response`, status codes, the `IsAuthenticated` permission, swagger decorators and URL routing (`polls/urls.py`). A missing option or poll becomes the `NotFound` outcome. An expired poll becomes `Expired`.
- `UserRegistrationView` and `PollListCreate` are generic library views with no logic of their own.
- The GraphQL schema (`polls/schema.py`) and `security_config.py` are left out. They are configuration, environment reads and declarative field lists that the vote path does not use.
- Serializer validation is left out except the 40-character bound on `voter_id`. That bound is a precondition of `CastVote`, because the request fails validation before the view's logic runs. `option_id` is any integer.
- `Models.UpdateOrCreate`, `Views.CastVote` and `Storage.Store.CastVote` model the `update_or_create` call at polling_system/polls/views.py:52-57 with its `voter=user` keyword removed. `Vote` has no `voter` field (polling_system/polls/models.py:17-20). Django treats every keyword except `defaults` as a lookup field, so as written the call raises `FieldError`. That happens before the counter update at polling_system/polls/views.py:60-61, so the code as written stores no row, raises no counter and ends the request in a server error on every vote that passes the expiry test. The model keys the vote row on (option, voter_id) only, which is what the constraint at polling_system/polls/models.py:23 implies was intended. The authenticated user is not modelled.
- The timestamps `created_at` and `voted_at` are not modelled. The current time is an integer `now` supplied by the caller.
- Concurrency and transactions are not modelled. Every call is atomic and sequential, so the read-modify-write race on `option.votes` is not covered.
- Views.CastVote: the vote counter is an unbounded integer. The source's `IntegerField` (polling_system/polls/models.py:15) is documented as safe only from -2147483648 to 2147483647. With a counter at 2147483647, `option.save()` (polling_system/polls/views.py:61) fails on backends that enforce the range, but the model records the vote. `Storage.Store.CastVote` has the same gap.
- Column widths (200, 100 and 40 characters) are preconditions of row creation and part of the store invariant. Whether the database rejects an over-long value is not modelled.
- `AddPoll`, `AddOption`, `Store.CreatePoll` and `Store.CreateOption` require their poll to exist and their text to fit. The ORM's errors for a dangling foreign key or an over-long value are not modelled.
- `Views.Results`: the source does not order `poll.options.all()`. The model lists options in increasing id order, which is creation order.
- A second vote by the same voter is not rejected as a duplicate, and there is no poll-creation validation (option count, unique texts, expiry horizon). The code has neither, so the model has neither.
