/** The read-only resolvers of the `Query` type and `MovieType.resolve_cast`,
    as functions of the store's state. A lookup that finds nothing yields
    `None` (null) and a filter that matches nothing yields the empty list. */
module Query {
  import opened Ordering
  import opened Models

  /** `allMovies`: every movie, newest release first. */
  function AllMovies(db: Db): (r: seq<Row<Movie>>)
    ensures Lists(r, db.movies)
    ensures Sorted(r, MovieBefore)
  {
    MovieOrderTotal();
    var scan := RowsOf(db.movies);
    var r := SortBy(scan, MovieBefore);
    PermutationLists(scan, r, db.movies);
    r
  }

  /** `movie(id)`: the movie with that key, or null. */
  function MovieById(db: Db, id: Id): (r: Option<Row<Movie>>)
    ensures r.None? <==> id !in db.movies
    ensures r.Some? ==> r.value.id == id && r.value.rec == db.movies[id]
  {
    if id in db.movies then Some(Row(id, db.movies[id])) else None
  }

  /** `allActors`: every actor, by name. */
  function AllActors(db: Db): (r: seq<Row<Actor>>)
    ensures Lists(r, db.actors)
    ensures Sorted(r, ActorBefore)
  {
    ActorOrderTotal();
    var scan := RowsOf(db.actors);
    var r := SortBy(scan, ActorBefore);
    PermutationLists(scan, r, db.actors);
    r
  }

  /** `actor(id)`: the actor with that key, or null. */
  function ActorById(db: Db, id: Id): (r: Option<Row<Actor>>)
    ensures r.None? <==> id !in db.actors
    ensures r.Some? ==> r.value.id == id && r.value.rec == db.actors[id]
  {
    if id in db.actors then Some(Row(id, db.actors[id])) else None
  }

  /** `allReviews`: every review, newest first. */
  function AllReviews(db: Db): (r: seq<Row<Review>>)
    ensures Lists(r, db.reviews)
    ensures Sorted(r, ReviewBefore)
  {
    ReviewOrderTotal();
    var scan := RowsOf(db.reviews);
    var r := SortBy(scan, ReviewBefore);
    PermutationLists(scan, r, db.reviews);
    r
  }

  /** The reviews of one movie, keyed as in the review table. */
  function ReviewsOf(db: Db, movieId: Id): (m: map<Id, Review>)
    ensures forall k :: k in m <==> k in db.reviews && db.reviews[k].movie == movieId
    ensures forall k :: k in m ==> m[k] == db.reviews[k]
  {
    map k | k in db.reviews && db.reviews[k].movie == movieId :: db.reviews[k]
  }

  /** `reviewsByMovie(movieId)`: exactly the reviews of that movie, newest
      first; the empty list when the movie has none or does not exist. */
  function ReviewsByMovie(db: Db, movieId: Id): (r: seq<Row<Review>>)
    ensures Lists(r, ReviewsOf(db, movieId))
    ensures forall x :: x in r <==> x.id in db.reviews && db.reviews[x.id] == x.rec && x.rec.movie == movieId
    ensures Sorted(r, ReviewBefore)
    ensures ReviewRefsValid(db) && movieId !in db.movies ==> r == []
  {
    ReviewOrderTotal();
    var scan := RowsOf(ReviewsOf(db, movieId));
    var r := SortBy(scan, ReviewBefore);
    PermutationLists(scan, r, ReviewsOf(db, movieId));
    r
  }

  /** The cast rows of one movie, keyed as in the cast table. */
  function CastRowsOf(db: Db, movieId: Id): (m: map<Id, MovieCast>)
    ensures forall c :: c in m <==> c in db.casts && db.casts[c].movie == movieId
    ensures forall c :: c in m ==> m[c] == db.casts[c]
  {
    map c | c in db.casts && db.casts[c].movie == movieId :: db.casts[c]
  }

  /** `MovieType.resolve_cast`: the cast rows of one movie, found by scanning
      the cast table (in key order; the table declares no ordering). */
  function CastOf(db: Db, movieId: Id): (r: seq<Row<MovieCast>>)
    ensures Lists(r, CastRowsOf(db, movieId))
    ensures forall x :: x in r <==> x.id in db.casts && db.casts[x.id] == x.rec && x.rec.movie == movieId
    ensures forall i, j :: 0 <= i < j < |r| ==> r[i].id < r[j].id
  {
    RowsOf(CastRowsOf(db, movieId))
  }

  /** Once a movie is deleted, listing its reviews or its cast gives the empty list. */
  lemma DeletedMovieListsNothing(db: Db, id: Id)
    ensures ReviewsByMovie(CascadeMovie(db, id), id) == []
    ensures CastOf(CascadeMovie(db, id), id) == []
  {
  }
}
