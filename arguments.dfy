/** The keyword arguments of `updateMovie` and `updateReview` and the loop
    that copies them onto the fetched record. The arguments dictionary is a
    sequence of items in the order the client wrote them: an argument left out
    has no item, one written as null has an item holding `None`. The loop sets
    every item whose value is not null, by argument name. */
module Arguments {
  import opened Models

  /** An optional argument of `updateMovie`, by name. */
  datatype MovieArg =
    | TitleArg(title: Option<string>)
    | SummaryArg(summary: Option<string>)
    | DurationArg(duration: Option<int>)
    | ReleaseDateArg(releaseDate: Option<Date>)
    | TrailerUrlArg(trailerUrl: Option<string>)

  /** An optional argument of `updateReview`, by name. */
  datatype ReviewArg =
    | DescriptionArg(description: Option<string>)
    | RatingArg(rating: Option<int>)
    | WouldRecommendArg(wouldRecommend: Option<bool>)

  /** The value of the last item that `pick` selects and that is not null. */
  function LastGiven<A, T>(args: seq<A>, pick: A -> Option<T>): (r: Option<T>)
    ensures r.None? <==> forall i :: 0 <= i < |args| ==> pick(args[i]).None?
    ensures r.Some? ==> exists i :: 0 <= i < |args| && pick(args[i]) == r &&
                                    forall j :: i < j < |args| ==> pick(args[j]).None?
    decreases |args|
  {
    if args == [] then None
    else
      var last := args[|args| - 1];
      var init := args[..|args| - 1];
      assert forall i :: 0 <= i < |init| ==> init[i] == args[i];
      if pick(last).Some? then pick(last) else LastGiven(init, pick)
  }

  /** With at most one item per name, as in a dictionary, the value given for
      a name is that of its one item. */
  lemma LastGivenOfOnlyItem<A, T>(args: seq<A>, pick: A -> Option<T>, i: nat)
    requires i < |args| && pick(args[i]).Some?
    requires forall j :: 0 <= j < |args| && j != i ==> pick(args[j]).None?
    ensures LastGiven(args, pick) == pick(args[i])
  {
  }

  function PickTitle(a: MovieArg): Option<string> { if a.TitleArg? then a.title else None }
  function PickDuration(a: MovieArg): Option<int> { if a.DurationArg? then a.duration else None }
  function PickReleaseDate(a: MovieArg): Option<Date> { if a.ReleaseDateArg? then a.releaseDate else None }
  function PickTrailerUrl(a: MovieArg): Option<string> { if a.TrailerUrlArg? then a.trailerUrl else None }

  function PickDescription(a: ReviewArg): Option<string> { if a.DescriptionArg? then a.description else None }
  function PickRating(a: ReviewArg): Option<int> { if a.RatingArg? then a.rating else None }
  function PickWouldRecommend(a: ReviewArg): Option<bool> { if a.WouldRecommendArg? then a.wouldRecommend else None }

  /** One turn of the loop on a movie: a null value is skipped. The attribute
      named `summary` is not the stored `sunnary` column, so a summary argument
      never reaches the record. */
  function SetMovieAttr(m: Movie, a: MovieArg): Movie {
    match a
    case TitleArg(v) => if v.Some? then m.(title := v.value) else m
    case SummaryArg(_) => m
    case DurationArg(v) => if v.Some? then m.(duration := v.value) else m
    case ReleaseDateArg(v) => if v.Some? then m.(releaseDate := v.value) else m
    case TrailerUrlArg(v) => if v.Some? then m.(trailerUrl := v.value) else m
  }

  /** The movie after the loop has run over `args`. */
  function PatchMovie(m: Movie, args: seq<MovieArg>): Movie
    decreases |args|
  {
    if args == [] then m
    else SetMovieAttr(PatchMovie(m, args[..|args| - 1]), args[|args| - 1])
  }

  /** The update loop on a movie: visits the items in order and assigns each
      non-null value to the attribute of the same name. */
  method ApplyMovieArgs(m: Movie, args: seq<MovieArg>) returns (r: Movie)
    ensures r == PatchMovie(m, args)
  {
    r := m;
    for i := 0 to |args|
      invariant r == PatchMovie(m, args[..i])
    {
      assert args[..i + 1][..i] == args[..i];
      r := SetMovieAttr(r, args[i]);
    }
    assert args[..|args|] == args;
  }

  /** Partial update, field by field: each column takes the last non-null value
      given for it and otherwise keeps its old value; `sunnary` never changes. */
  lemma {:induction false} PatchMovieByField(m: Movie, args: seq<MovieArg>)
    ensures PatchMovie(m, args) == Movie(
      LastGiven(args, PickTitle).GetOr(m.title),
      m.sunnary,
      LastGiven(args, PickDuration).GetOr(m.duration),
      LastGiven(args, PickReleaseDate).GetOr(m.releaseDate),
      LastGiven(args, PickTrailerUrl).GetOr(m.trailerUrl))
    decreases |args|
  {
    if args != [] {
      PatchMovieByField(m, args[..|args| - 1]);
    }
  }

  /** One turn of the loop on a review; `movie` and `created_at` are not arguments. */
  function SetReviewAttr(rv: Review, a: ReviewArg): Review {
    match a
    case DescriptionArg(v) => if v.Some? then rv.(description := v.value) else rv
    case RatingArg(v) => if v.Some? then rv.(rating := v.value) else rv
    case WouldRecommendArg(v) => if v.Some? then rv.(wouldRecommend := v.value) else rv
  }

  /** The review after the loop has run over `args`. */
  function PatchReview(rv: Review, args: seq<ReviewArg>): Review
    decreases |args|
  {
    if args == [] then rv
    else SetReviewAttr(PatchReview(rv, args[..|args| - 1]), args[|args| - 1])
  }

  /** The update loop on a review: visits the items in order and assigns each
      non-null value to the attribute of the same name. */
  method ApplyReviewArgs(rv: Review, args: seq<ReviewArg>) returns (r: Review)
    ensures r == PatchReview(rv, args)
  {
    r := rv;
    for i := 0 to |args|
      invariant r == PatchReview(rv, args[..i])
    {
      assert args[..i + 1][..i] == args[..i];
      r := SetReviewAttr(r, args[i]);
    }
    assert args[..|args|] == args;
  }

  /** Partial update, field by field; the movie and the creation time stay. */
  lemma {:induction false} PatchReviewByField(rv: Review, args: seq<ReviewArg>)
    ensures PatchReview(rv, args) == Review(
      rv.movie,
      LastGiven(args, PickDescription).GetOr(rv.description),
      LastGiven(args, PickRating).GetOr(rv.rating),
      LastGiven(args, PickWouldRecommend).GetOr(rv.wouldRecommend),
      rv.createdAt)
    decreases |args|
  {
    if args != [] {
      PatchReviewByField(rv, args[..|args| - 1]);
    }
  }

  /** The rating the client supplied, when it supplied one that is not null. */
  function RatingGiven(args: seq<ReviewArg>): (r: Option<int>)
    ensures r.None? <==> forall i :: 0 <= i < |args| ==> !(args[i].RatingArg? && args[i].rating.Some?)
    ensures r.Some? ==> RatingArg(r) in args
  {
    LastGiven(args, PickRating)
  }
}
