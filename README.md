# Movie database API: resolvers over an abstract store

This project models the query and mutation resolvers of a small movie
database API. The API exposes movies, actors, cast links and reviews. The
relational store behind it is replaced by four maps from integer keys to
records (Movie, Actor, MovieCast, Review), one key counter per table, and the
rules the table definitions impose:

- at most one cast row per (movie, actor) pair;
- foreign keys that always resolve;
- cascading deletes;
- ratings in 1..5;
- default listing orders.

Modules:

- `Models` (models.dfy): the records and the `Db` snapshot of the whole store. It holds the
  consistency rules (`Consistent`), the cascades on delete, the proofs that each
  kind of insert keeps the rules, the default orders and a table scan in key order.
- `Query` (query.dfy): the read-only resolvers, as functions of a `Db`. A lookup
  that misses gives `None`. A filter that matches nothing gives `[]`.
- `Arguments` (arguments.dfy): the keyword arguments of the two update
  mutations and the loop that copies the non-null ones onto the fetched record.
  The loop is a method, proved against a fold (`PatchMovie`, `PatchReview`).
  The fold is characterised field by field (`PatchMovieByField`,
  `PatchReviewByField`).
- `Mutation` (mutation.dfy): the `Store` class, with one method per mutation.
  Each method returns an envelope (`entity`, `success`, `message`), keeps
  `Valid()` and states the complete new state.
- `Ordering` (ordering.dfy): lexicographic string order and an insertion sort, used by
  the listing queries.

Modelling choices that follow the code:

- The summary column is spelled `sunnary`. `createMovie` stores its summary
  argument there. `updateMovie` assigns attributes by argument name, so a
  supplied summary lands on an attribute that is not a column and is never
  saved. `SetMovieAttr` skips `SummaryArg`, and `PatchMovieByField` proves
  `sunnary` unchanged.
- The success message of `updateMovie` ends in a comma: "Movie updated successfully,".
- The schema object registers only the query type. The mutation classes are
  therefore modelled as direct operations on the store, not through dispatch.
- The 1..5 validators on the rating column are not run when a row is created or
  saved. The rating rule (`RatingsValid`) rests on the resolvers' own checks,
  and `Valid()` carries it through every mutation.
- An update's keyword arguments are a sequence of typed items, one per argument the
  client wrote. A left-out argument has no item. An argument written as null has an
  item holding `None`, and the loop skips it.
- The rating check of `updateReview` runs after the lookup and before any
  assignment. So an unknown review id yields "Review not found." whatever
  the rating.
- `createActor`'s biography defaults to the empty string when left out. An explicit
  null reaches a column that allows no nulls. The storage layer refuses it, and the
  envelope carries `StorageError(NullBiography)`.
- The storage layer's own error text is opaque. `StorageError(DuplicateCast)` stands for
  the uniqueness violation of a second cast row for a pair.
- The clock reading for `created_at` is the parameter `now` of `CreateReview`.
  No update changes it.
- The cast of a movie is found by scanning the cast table. The table declares no
  ordering, so the model returns rows in key order.

## Model

| member | source | states |
|---|---|---|
| `Mutation.Store.CreateReview` | graphql_movie_api/movies/schema.py:217-233 | A rating outside 1..5 fails with "Rating must be between 1 and 5." and leaves the store unchanged, even for an unknown movie. An in-range rating for an unknown movie fails with "Movie not found." and adds nothing. Otherwise exactly one review is added under a fresh key, with the given movie, description, rating, recommendation and creation time, with success=true. `Valid()` is kept. |
| `Mutation.Store.UpdateReview` | graphql_movie_api/movies/schema.py:247-267 | An unknown id fails with "Review not found." whatever the rating. A supplied non-null rating outside 1..5 fails with the rating message and changes nothing. Otherwise only this review is replaced, by the result of the update loop. All other rows and tables stay the same. `Valid()` is kept. |
| `Mutation.Store.UpdateMovie` | graphql_movie_api/movies/schema.py:115-126 | An unknown id fails with "Movie not found." and leaves the store unchanged. Otherwise only this movie is replaced, by the result of the update loop, and the reply is the updated row with "Movie updated successfully,". `Valid()` is kept. |
| `Mutation.Store.DeleteMovie` | graphql_movie_api/movies/schema.py:136-144 | An unknown id fails with "Movie not found." and leaves the store unchanged. A known id succeeds with no entity, and the new state is the cascade of that movie. `Valid()` is kept. |
| `Mutation.Store.CreateMovie` | graphql_movie_api/movies/schema.py:88-99 | Adds exactly one movie under a fresh key, with the summary in `sunnary`, and returns it with success=true and "Movie created successfully.". Nothing else changes. `Valid()` is kept. |
| `Mutation.Store.CreateActor` | graphql_movie_api/movies/schema.py:160-169 | An explicit null biography fails with a storage error and leaves the store unchanged. Otherwise exactly one actor is added under a fresh key, with the biography defaulting to "". `Valid()` is kept. |
| `Mutation.Store.AddActorToMovie` | graphql_movie_api/movies/schema.py:181-200 | The movie is checked before the actor, so with both missing the reply is "Movie not found.". An already linked pair fails with a storage error and changes nothing. Otherwise exactly one cast row is added. Whenever both keys exist, the pair is linked afterwards, and `Valid()` makes that link the only one. |
| `Arguments.ApplyMovieArgs` | graphql_movie_api/movies/schema.py:118-120 | The update loop over the movie arguments returns the fold of one assignment per item over the items in order, skipping null values. |
| `Arguments.PatchMovieByField` | graphql_movie_api/movies/schema.py:105-121 | After the update loop, each of title, duration, release date and trailer URL holds the last non-null value supplied for it, or else its old value. `sunnary` never changes, even when a summary is supplied. |
| `Arguments.ApplyReviewArgs` | graphql_movie_api/movies/schema.py:259-261 | The update loop over the review arguments returns the fold of one assignment per item over the items in order, skipping null values. |
| `Arguments.PatchReviewByField` | graphql_movie_api/movies/schema.py:259-262 | After the update loop, description, rating and recommendation each hold the last non-null value supplied, or else their old value. The movie and `created_at` never change. |
| `Arguments.LastGiven` | graphql_movie_api/movies/schema.py:118-119 | The value found is `None` exactly when no selected item is non-null. Otherwise it is the value of a selected item after which no selected item is non-null. |
| `Arguments.LastGivenOfOnlyItem` | graphql_movie_api/movies/schema.py:115 | With one item per argument name, as in a keyword dictionary, the value found for a name is that item's value. |
| `Arguments.RatingGiven` | graphql_movie_api/movies/schema.py:251 | A rating counts as supplied exactly when some rating item is non-null, and the value found is one of the supplied values. |
| `Models.CascadeMovie` | graphql_movie_api/movies/models.py:33-47 | Deleting a movie removes it, every cast row and every review referencing it, and nothing else. The consistency rules are kept. |
| `Models.CascadeActor` | graphql_movie_api/movies/models.py:36 | Deleting an actor removes it and every cast row referencing it, and nothing else. The consistency rules are kept. |
| `Models.NoRowReferencesDeletedMovie` | graphql_movie_api/movies/models.py:35-47 | After a movie's cascade, no cast row or review references it, and every remaining reference resolves. |
| `Models.ExactlyOneCastRow` | graphql_movie_api/movies/models.py:42-43 | Under the uniqueness rule, a linked (movie, actor) pair has exactly one cast row. |
| `Models.InsertMovieKeepsConsistent` | graphql_movie_api/movies/models.py:18-30 | A new movie under the next key keeps keys fresh, references resolved, pairs unique and ratings in range. |
| `Models.InsertActorKeepsConsistent` | graphql_movie_api/movies/models.py:6-15 | A new actor under the next key keeps every consistency rule. |
| `Models.InsertCastKeepsConsistent` | graphql_movie_api/movies/models.py:33-43 | A new cast row whose movie and actor exist and whose pair is not yet linked keeps every rule, pair uniqueness included. |
| `Models.InsertReviewKeepsConsistent` | graphql_movie_api/movies/models.py:46-51 | A new review of an existing movie with a rating in 1..5 keeps every rule, the rating range included. |
| `Models.ActorOrderTotal` | graphql_movie_api/movies/models.py:14-15 | The name order on actors relates every pair, so sorting by it yields a list in name order. |
| `Models.RowsOf` | graphql_movie_api/movies/schema.py:49-50 | A table scan lists every row exactly once, in ascending key order. |
| `Query.AllMovies` | graphql_movie_api/movies/schema.py:49-50 | Lists every movie exactly once, latest release date first. |
| `Query.MovieById` | graphql_movie_api/movies/schema.py:52-56 | Null exactly when the id is unknown. Otherwise the movie stored under that id. |
| `Query.AllActors` | graphql_movie_api/movies/schema.py:58-59 | Lists every actor exactly once, in name order. |
| `Query.ActorById` | graphql_movie_api/movies/schema.py:61-65 | Null exactly when the id is unknown. Otherwise the actor stored under that id. |
| `Query.AllReviews` | graphql_movie_api/movies/schema.py:67-68 | Lists every review exactly once, latest creation time first. |
| `Query.ReviewsByMovie` | graphql_movie_api/movies/schema.py:70-71 | Lists exactly the reviews whose movie is the given id, each once, latest first. The list is empty for a movie that does not exist. |
| `Query.CastOf` | graphql_movie_api/movies/schema.py:29-30 | Lists exactly the cast rows of the given movie, each once. |
| `Query.DeletedMovieListsNothing` | graphql_movie_api/movies/schema.py:136-140 | After a movie is deleted, its reviews and its cast both list as empty. |

## Left out

- Mutation.Store.CreateMovie: has no failure path. The storage errors its catch-all would report (length limits, engine faults) are not modelled.
- Mutation.Store.CreateActor: the only refused write modelled is an explicit null biography. Other storage errors are not modelled.
- Mutation.Store.CreateReview: a movie deleted between the lookup and the insert is not modelled. Each mutation runs as one atomic step.
- The storage layer's error text is not modelled. A refused write carries a `Fault` instead.
- The GraphQL type declarations and the schema assembly are not modelled. They are framework field mapping and dispatch. So is the `summary` field that the movie type declares but the table does not have.
- The admin site configuration (graphql_movie_api/movies/admin.py) is not modelled. It holds no logic.
- `max_length`, URL format and date parsing are not modelled. Dates and timestamps are integers, and strings are opaque.
- Names are ordered by code point. Orderings that depend on a database collation are not modelled.
- No mutation deletes an actor. `Models.CascadeActor` states the table rule on its own.
- The `__str__` methods, HTTP transport, and the ORM and SQL engine are not modelled.
