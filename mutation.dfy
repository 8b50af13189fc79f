/** The mutations, as methods of the store they change. Every mutation returns
    an envelope (the entity or null, a success flag and a message) and never
    raises: a missing key, an out-of-range rating and a refused write all come
    back as `success == false` with their message. */
module Mutation {
  import opened Models
  import opened Arguments

  /** What the storage layer refuses; its own error text is not modelled. */
  datatype Fault =
    | DuplicateCast   // a second cast row for the same movie and actor
    | NullBiography   // a null biography for a column that allows no nulls

  datatype Message = Text(text: string) | StorageError(fault: Fault)

  /** The reply of every mutation that returns an entity. */
  datatype Envelope<T> = Envelope(entity: Option<Row<T>>, success: bool, message: Message)

  /** The reply of `deleteMovie`, which has no entity field. */
  datatype Status = Status(success: bool, message: Message)

  const MovieCreated := "Movie created successfully."
  const MovieUpdated := "Movie updated successfully,"
  const MovieDeleted := "Movie deleted successfully."
  const MovieNotFound := "Movie not found."
  const ActorCreated := "Actor created successfully."
  const ActorNotFound := "Actor not found."
  const ActorAdded := "Actor added to movie successfully."
  const RatingOutOfRange := "Rating must be between 1 and 5."
  const ReviewCreated := "Review created successfully."
  const ReviewUpdated := "Review updated successfully."
  const ReviewNotFound := "Review not found."

  function Succeeded<T>(row: Row<T>, text: string): Envelope<T> {
    Envelope(Some(row), true, Text(text))
  }

  function Failed<T>(message: Message): Envelope<T> {
    Envelope(None, false, message)
  }

  /** An optional argument that has no default-skipping loop behind it: left
      out, written as null, or given. */
  datatype Optional<T> = Omitted | Null | Given(value: T)

  /** The database: one map per table and one key counter per table. */
  class Store {
    var movies: map<Id, Movie>
    var actors: map<Id, Actor>
    var casts: map<Id, MovieCast>
    var reviews: map<Id, Review>
    var nextMovieId: Id
    var nextActorId: Id
    var nextCastId: Id
    var nextReviewId: Id

    /** The state the queries read. */
    function Snapshot(): Db
      reads this
    {
      Db(movies, actors, casts, reviews, nextMovieId, nextActorId, nextCastId, nextReviewId)
    }

    ghost predicate Valid()
      reads this
    {
      Consistent(Snapshot())
    }

    /** An empty database. */
    constructor ()
      ensures Valid()
      ensures Snapshot() == Db(map[], map[], map[], map[], 1, 1, 1, 1)
    {
      movies, actors, casts, reviews := map[], map[], map[], map[];
      nextMovieId, nextActorId, nextCastId, nextReviewId := 1, 1, 1, 1;
    }

    /** `createMovie`: the summary argument is stored in the `sunnary` column. */
    method CreateMovie(title: string, summary: string, duration: int, releaseDate: Date, trailerUrl: string)
      returns (env: Envelope<Movie>)
      requires Valid()
      modifies this
      ensures Valid()
      ensures var row := Row(old(nextMovieId), Movie(title, summary, duration, releaseDate, trailerUrl));
        && row.id !in old(movies)
        && env == Succeeded(row, MovieCreated)
        && Snapshot() == old(Snapshot()).(movies := old(movies)[row.id := row.rec], nextMovieId := row.id + 1)
    {
      var movie := Movie(title, summary, duration, releaseDate, trailerUrl);
      InsertMovieKeepsConsistent(Snapshot(), movie);
      var id := nextMovieId;
      movies := movies[id := movie];
      nextMovieId := nextMovieId + 1;
      env := Succeeded(Row(id, movie), MovieCreated);
    }

    /** `updateMovie`: looks the movie up, runs the update loop over the
        arguments and saves every column of the result. */
    method UpdateMovie(id: Id, args: seq<MovieArg>) returns (env: Envelope<Movie>)
      requires Valid()
      modifies this
      ensures Valid()
      ensures id !in old(movies) ==> env == Failed(Text(MovieNotFound)) && Snapshot() == old(Snapshot())
      ensures id in old(movies) ==>
        var movie := PatchMovie(old(movies)[id], args);
        && env == Succeeded(Row(id, movie), MovieUpdated)
        && Snapshot() == old(Snapshot()).(movies := old(movies)[id := movie])
    {
      if id !in movies {
        return Failed(Text(MovieNotFound));
      }
      var movie := ApplyMovieArgs(movies[id], args);
      movies := movies[id := movie];
      env := Succeeded(Row(id, movie), MovieUpdated);
    }

    /** `deleteMovie`: removes the movie together with its cast rows and reviews. */
    method DeleteMovie(id: Id) returns (status: Status)
      requires Valid()
      modifies this
      ensures Valid()
      ensures id !in old(movies) ==> status == Status(false, Text(MovieNotFound)) && Snapshot() == old(Snapshot())
      ensures id in old(movies) ==> status == Status(true, Text(MovieDeleted)) && Snapshot() == CascadeMovie(old(Snapshot()), id)
    {
      if id !in movies {
        return Status(false, Text(MovieNotFound));
      }
      var after := CascadeMovie(Snapshot(), id);
      movies, casts, reviews := after.movies, after.casts, after.reviews;
      status := Status(true, Text(MovieDeleted));
    }

    /** `createActor`: a left-out biography is stored empty; one written as
        null is refused by the column, which allows no nulls. */
    method CreateActor(name: string, dateOfBirth: Date, biography: Optional<string>)
      returns (env: Envelope<Actor>)
      requires Valid()
      modifies this
      ensures Valid()
      ensures biography.Null? ==> env == Failed(StorageError(NullBiography)) && Snapshot() == old(Snapshot())
      ensures !biography.Null? ==>
        var row := Row(old(nextActorId), Actor(name, dateOfBirth, if biography.Given? then biography.value else ""));
        && row.id !in old(actors)
        && env == Succeeded(row, ActorCreated)
        && Snapshot() == old(Snapshot()).(actors := old(actors)[row.id := row.rec], nextActorId := row.id + 1)
    {
      if biography.Null? {
        return Failed(StorageError(NullBiography));
      }
      var actor := Actor(name, dateOfBirth, if biography.Given? then biography.value else "");
      InsertActorKeepsConsistent(Snapshot(), actor);
      var id := nextActorId;
      actors := actors[id := actor];
      nextActorId := nextActorId + 1;
      env := Succeeded(Row(id, actor), ActorCreated);
    }

    /** `addActorToMovie`: the movie is looked up before the actor, and the
        storage layer refuses a second row for the same pair. */
    method AddActorToMovie(movieId: Id, actorId: Id, characterName: string)
      returns (env: Envelope<MovieCast>)
      requires Valid()
      modifies this
      ensures Valid()
      ensures movieId !in old(movies) ==> env == Failed(Text(MovieNotFound)) && Snapshot() == old(Snapshot())
      ensures movieId in old(movies) && actorId !in old(actors) ==>
        env == Failed(Text(ActorNotFound)) && Snapshot() == old(Snapshot())
      ensures movieId in old(movies) && actorId in old(actors) && HasPair(old(casts), movieId, actorId) ==>
        env == Failed(StorageError(DuplicateCast)) && Snapshot() == old(Snapshot())
      ensures movieId in old(movies) && actorId in old(actors) && !HasPair(old(casts), movieId, actorId) ==>
        var row := Row(old(nextCastId), MovieCast(movieId, actorId, characterName));
        && row.id !in old(casts)
        && env == Succeeded(row, ActorAdded)
        && Snapshot() == old(Snapshot()).(casts := old(casts)[row.id := row.rec], nextCastId := row.id + 1)
      ensures movieId in old(movies) && actorId in old(actors) ==> HasPair(casts, movieId, actorId)
    {
      if movieId !in movies {
        return Failed(Text(MovieNotFound));
      }
      if actorId !in actors {
        return Failed(Text(ActorNotFound));
      }
      if HasPair(casts, movieId, actorId) {
        return Failed(StorageError(DuplicateCast));
      }
      var cast := MovieCast(movieId, actorId, characterName);
      InsertCastKeepsConsistent(Snapshot(), cast);
      var id := nextCastId;
      casts := casts[id := cast];
      nextCastId := nextCastId + 1;
      assert casts[id] == cast;
      env := Succeeded(Row(id, cast), ActorAdded);
    }

    /** `createReview`: the rating is checked before the movie is looked up;
        the creation time is the clock reading `now`. */
    method CreateReview(movieId: Id, description: string, rating: int, wouldRecommend: bool, now: Timestamp)
      returns (env: Envelope<Review>)
      requires Valid()
      modifies this
      ensures Valid()
      ensures !RatingInRange(rating) ==> env == Failed(Text(RatingOutOfRange)) && Snapshot() == old(Snapshot())
      ensures RatingInRange(rating) && movieId !in old(movies) ==>
        env == Failed(Text(MovieNotFound)) && Snapshot() == old(Snapshot())
      ensures RatingInRange(rating) && movieId in old(movies) ==>
        var row := Row(old(nextReviewId), Review(movieId, description, rating, wouldRecommend, now));
        && row.id !in old(reviews)
        && env == Succeeded(row, ReviewCreated)
        && Snapshot() == old(Snapshot()).(reviews := old(reviews)[row.id := row.rec], nextReviewId := row.id + 1)
    {
      if rating < 1 || rating > 5 {
        return Failed(Text(RatingOutOfRange));
      }
      if movieId !in movies {
        return Failed(Text(MovieNotFound));
      }
      var review := Review(movieId, description, rating, wouldRecommend, now);
      InsertReviewKeepsConsistent(Snapshot(), review);
      var id := nextReviewId;
      reviews := reviews[id := review];
      nextReviewId := nextReviewId + 1;
      env := Succeeded(Row(id, review), ReviewCreated);
    }

    /** `updateReview`: the review is looked up first, then a supplied rating
        is checked, and only then does the update loop run and the row get saved. */
    method UpdateReview(id: Id, args: seq<ReviewArg>) returns (env: Envelope<Review>)
      requires Valid()
      modifies this
      ensures Valid()
      ensures id !in old(reviews) ==> env == Failed(Text(ReviewNotFound)) && Snapshot() == old(Snapshot())
      ensures id in old(reviews) && RatingGiven(args).Some? && !RatingInRange(RatingGiven(args).value) ==>
        env == Failed(Text(RatingOutOfRange)) && Snapshot() == old(Snapshot())
      ensures id in old(reviews) && (RatingGiven(args).None? || RatingInRange(RatingGiven(args).value)) ==>
        var review := PatchReview(old(reviews)[id], args);
        && env == Succeeded(Row(id, review), ReviewUpdated)
        && Snapshot() == old(Snapshot()).(reviews := old(reviews)[id := review])
    {
      if id !in reviews {
        return Failed(Text(ReviewNotFound));
      }
      var given := RatingGiven(args);
      if given.Some? && (given.value < 1 || given.value > 5) {
        return Failed(Text(RatingOutOfRange));
      }
      var review := ApplyReviewArgs(reviews[id], args);
      PatchReviewByField(reviews[id], args);
      reviews := reviews[id := review];
      env := Succeeded(Row(id, review), ReviewUpdated);
    }
  }
}
