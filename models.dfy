/** The four tables of the movie database (Actor, Movie, MovieCast, Review),
    the rules the store keeps on them, the cascades on delete and the default
    listing orders. Dates and timestamps are plain integers and strings are
    opaque; every table is a map from its integer primary key to a record. */
module Models {
  import opened Ordering

  datatype Option<T> = None | Some(value: T) {
    function GetOr(default: T): T {
      match this
      case Some(v) => v
      case None => default
    }
  }

  /** An auto-assigned primary key. */
  type Id = int
  /** A calendar date, as a day number. */
  type Date = int
  /** A point in time, as read from the clock when a row is created. */
  type Timestamp = int

  datatype Actor = Actor(name: string, dateOfBirth: Date, biography: string)

  /** The summary column is spelled `sunnary` in the table definition. */
  datatype Movie = Movie(title: string, sunnary: string, duration: int, releaseDate: Date, trailerUrl: string)

  /** A link between a movie and an actor, with the actor's character name. */
  datatype MovieCast = MovieCast(movie: Id, actor: Id, characterName: string)

  datatype Review = Review(movie: Id, description: string, rating: int, wouldRecommend: bool, createdAt: Timestamp)

  /** A record together with its primary key, as a query or a mutation returns it. */
  datatype Row<T> = Row(id: Id, rec: T)

  const MinRating: int := 1
  const MaxRating: int := 5

  predicate RatingInRange(rating: int) {
    MinRating <= rating <= MaxRating
  }

  /** The whole store: the four tables and, per table, the key the next insert gets. */
  datatype Db = Db(
    movies: map<Id, Movie>,
    actors: map<Id, Actor>,
    casts: map<Id, MovieCast>,
    reviews: map<Id, Review>,
    nextMovieId: Id,
    nextActorId: Id,
    nextCastId: Id,
    nextReviewId: Id)

  /** Keys start at 1 and stay below the next key to be handed out. */
  predicate KeysBelow<T>(m: map<Id, T>, next: Id) {
    1 <= next && forall k :: k in m ==> 1 <= k < next
  }

  /** No two cast rows link the same movie and actor. */
  predicate UniquePairs(casts: map<Id, MovieCast>) {
    forall c, d :: c in casts && d in casts && casts[c].movie == casts[d].movie && casts[c].actor == casts[d].actor ==> c == d
  }

  /** The two foreign keys of every cast row resolve. */
  predicate CastRefsValid(db: Db) {
    forall c :: c in db.casts ==> db.casts[c].movie in db.movies && db.casts[c].actor in db.actors
  }

  /** The movie foreign key of every review resolves. */
  predicate ReviewRefsValid(db: Db) {
    forall k :: k in db.reviews ==> db.reviews[k].movie in db.movies
  }

  /** The declared 1..5 range of every stored rating. */
  predicate RatingsValid(reviews: map<Id, Review>) {
    forall k :: k in reviews ==> RatingInRange(reviews[k].rating)
  }

  predicate Consistent(db: Db) {
    && KeysBelow(db.movies, db.nextMovieId)
    && KeysBelow(db.actors, db.nextActorId)
    && KeysBelow(db.casts, db.nextCastId)
    && KeysBelow(db.reviews, db.nextReviewId)
    && UniquePairs(db.casts)
    && CastRefsValid(db)
    && ReviewRefsValid(db)
    && RatingsValid(db.reviews)
  }

  /** Some cast row links `movie` and `actor`. */
  predicate HasPair(casts: map<Id, MovieCast>, movie: Id, actor: Id) {
    exists c :: c in casts && casts[c].movie == movie && casts[c].actor == actor
  }

  /** Under the uniqueness rule a linked pair has exactly one cast row. */
  lemma ExactlyOneCastRow(casts: map<Id, MovieCast>, movie: Id, actor: Id)
    requires UniquePairs(casts) && HasPair(casts, movie, actor)
    ensures exists c ::
      && c in casts && casts[c].movie == movie && casts[c].actor == actor
      && (forall d :: d in casts && casts[d].movie == movie && casts[d].actor == actor ==> d == c)
  {
  }

  /** A new movie under the next movie key keeps every rule. */
  lemma InsertMovieKeepsConsistent(db: Db, m: Movie)
    requires Consistent(db)
    ensures Consistent(db.(movies := db.movies[db.nextMovieId := m], nextMovieId := db.nextMovieId + 1))
  {
  }

  /** A new actor under the next actor key keeps every rule. */
  lemma InsertActorKeepsConsistent(db: Db, a: Actor)
    requires Consistent(db)
    ensures Consistent(db.(actors := db.actors[db.nextActorId := a], nextActorId := db.nextActorId + 1))
  {
  }

  /** A new cast row whose keys resolve and whose pair is not yet linked keeps every rule. */
  lemma InsertCastKeepsConsistent(db: Db, c: MovieCast)
    requires Consistent(db)
    requires c.movie in db.movies && c.actor in db.actors && !HasPair(db.casts, c.movie, c.actor)
    ensures Consistent(db.(casts := db.casts[db.nextCastId := c], nextCastId := db.nextCastId + 1))
  {
  }

  /** A new review of an existing movie with a rating in range keeps every rule. */
  lemma InsertReviewKeepsConsistent(db: Db, rv: Review)
    requires Consistent(db)
    requires rv.movie in db.movies && RatingInRange(rv.rating)
    ensures Consistent(db.(reviews := db.reviews[db.nextReviewId := rv], nextReviewId := db.nextReviewId + 1))
  {
  }

  /** Deleting a movie cascades along both foreign keys that reference it:
      every cast row and every review of the movie goes with it. */
  function CascadeMovie(db: Db, id: Id): (r: Db)
    ensures r.movies == db.movies - {id} && r.actors == db.actors
    ensures forall c :: c in r.casts <==> c in db.casts && db.casts[c].movie != id
    ensures forall c :: c in r.casts ==> r.casts[c] == db.casts[c]
    ensures forall k :: k in r.reviews <==> k in db.reviews && db.reviews[k].movie != id
    ensures forall k :: k in r.reviews ==> r.reviews[k] == db.reviews[k]
    ensures r.nextMovieId == db.nextMovieId && r.nextActorId == db.nextActorId
    ensures r.nextCastId == db.nextCastId && r.nextReviewId == db.nextReviewId
    ensures Consistent(db) ==> Consistent(r)
  {
    db.(movies := db.movies - {id},
        casts := map c | c in db.casts && db.casts[c].movie != id :: db.casts[c],
        reviews := map k | k in db.reviews && db.reviews[k].movie != id :: db.reviews[k])
  }

  /** Deleting an actor cascades to the actor's cast rows; movies and reviews stay. */
  function CascadeActor(db: Db, id: Id): (r: Db)
    ensures r.actors == db.actors - {id} && r.movies == db.movies && r.reviews == db.reviews
    ensures forall c :: c in r.casts <==> c in db.casts && db.casts[c].actor != id
    ensures forall c :: c in r.casts ==> r.casts[c] == db.casts[c]
    ensures r.nextMovieId == db.nextMovieId && r.nextActorId == db.nextActorId
    ensures r.nextCastId == db.nextCastId && r.nextReviewId == db.nextReviewId
    ensures Consistent(db) ==> Consistent(r)
  {
    db.(actors := db.actors - {id},
        casts := map c | c in db.casts && db.casts[c].actor != id :: db.casts[c])
  }

  /** After a movie's cascade no row references it, and every foreign key still resolves. */
  lemma {:induction false} NoRowReferencesDeletedMovie(db: Db, id: Id)
    requires Consistent(db)
    ensures var r := CascadeMovie(db, id);
      && id !in r.movies
      && (forall c :: c in r.casts ==> r.casts[c].movie != id && r.casts[c].movie in r.movies)
      && (forall k :: k in r.reviews ==> r.reviews[k].movie != id && r.reviews[k].movie in r.movies)
  {
  }

  /** `k` is the smallest of `keys`. */
  predicate IsLeast(k: Id, keys: set<Id>) {
    k in keys && forall j :: j in keys ==> k <= j
  }

  lemma {:induction false} LeastKeyExists(keys: set<Id>)
    requires keys != {}
    ensures exists k :: IsLeast(k, keys)
  {
    if forall j :: j !in keys {
      assert false;
    }
    var x :| x in keys;
    if forall j :: j in keys ==> j == x {
      assert IsLeast(x, keys);
    } else {
      var y :| y in keys && y != x;
      var rest := keys - {x};
      assert y in rest;
      LeastKeyExists(rest);
      var m :| IsLeast(m, rest);
      forall j | j in keys ensures j == x || j in rest { }
      if x < m {
        forall j | j in keys ensures x <= j { if j != x { assert m <= j; } }
        assert IsLeast(x, keys);
      } else {
        forall j | j in keys ensures m <= j { if j != x { assert j in rest; } }
        assert IsLeast(m, keys);
      }
    }
  }

  function LeastKey(keys: set<Id>): (k: Id)
    requires keys != {}
    ensures IsLeast(k, keys)
  {
    LeastKeyExists(keys);
    var k :| IsLeast(k, keys); k
  }

  predicate Increasing(ks: seq<Id>) {
    forall i, j :: 0 <= i < j < |ks| ==> ks[i] < ks[j]
  }

  /** The keys of a table in ascending order, each once. */
  function KeysInOrder(keys: set<Id>): (r: seq<Id>)
    ensures |r| == |keys|
    ensures forall k :: k in r <==> k in keys
    ensures Increasing(r)
    decreases keys
  {
    if keys == {} then []
    else
      var k := LeastKey(keys);
      [k] + KeysInOrder(keys - {k})
  }

  /** `r` lists the rows of table `m`, each exactly once. */
  ghost predicate Lists<T(!new)>(r: seq<Row<T>>, m: map<Id, T>) {
    && |r| == |m|
    && (forall x :: x in r <==> x.id in m && m[x.id] == x.rec)
  }

  /** A scan of a table in primary-key order. */
  function RowsOf<T(!new)>(m: map<Id, T>): (r: seq<Row<T>>)
    ensures Lists(r, m)
    ensures forall i, j :: 0 <= i < j < |r| ==> r[i].id < r[j].id
  {
    var ks := KeysInOrder(m.Keys);
    var r := seq(|ks|, i requires 0 <= i < |ks| => Row(ks[i], m[ks[i]]));
    assert forall k :: k in m ==> Row(k, m[k]) in r by {
      forall k | k in m ensures Row(k, m[k]) in r {
        var i :| 0 <= i < |ks| && ks[i] == k;
        assert r[i] == Row(k, m[k]);
      }
    }
    r
  }

  /** Reordering a listing of a table still lists it. */
  lemma PermutationLists<T(!new)>(s: seq<Row<T>>, r: seq<Row<T>>, m: map<Id, T>)
    requires Lists(s, m) && multiset(r) == multiset(s)
    ensures Lists(r, m)
  {
    assert |r| == |multiset(r)| == |multiset(s)| == |s|;
    forall x ensures x in r <==> x in s {
      assert x in r <==> x in multiset(r);
      assert x in s <==> x in multiset(s);
    }
  }

  /** Actors list in name order. */
  predicate ActorBefore(a: Row<Actor>, b: Row<Actor>) {
    StrLe(a.rec.name, b.rec.name)
  }

  /** Movies list latest release date first. */
  predicate MovieBefore(a: Row<Movie>, b: Row<Movie>) {
    a.rec.releaseDate >= b.rec.releaseDate
  }

  /** Reviews list latest creation time first. */
  predicate ReviewBefore(a: Row<Review>, b: Row<Review>) {
    a.rec.createdAt >= b.rec.createdAt
  }

  lemma ActorOrderTotal()
    ensures Total(ActorBefore)
  {
    forall a: Row<Actor>, b: Row<Actor>
      ensures ActorBefore(a, b) || ActorBefore(b, a)
    {
      StrLeTotal(a.rec.name, b.rec.name);
    }
  }

  lemma MovieOrderTotal()
    ensures Total(MovieBefore)
  {
  }

  lemma ReviewOrderTotal()
    ensures Total(ReviewBefore)
  {
  }
}
