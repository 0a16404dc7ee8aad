/**
 * The bookkeeping of the movie wishlist app: MainActivity keeps the list of
 * movies and two counters that every operation updates by hand; the Save
 * button of MovieManager's dialog adds or edits a movie; MainActivity removes
 * one and renders the two counters as text.
 */
module MovieWishlist {
  import opened Text

  /** A movie record: the four text fields of the dialog and the watched check box. */
  datatype Movie = Movie(title: string, director: string, genre: string, year: string, watched: bool)

  function WatchedFlag(m: Movie): nat {
    if m.watched then 1 else 0
  }

  /** How many movies of `movies` are marked watched. */
  function WatchedCount(movies: seq<Movie>): (n: nat)
    ensures n <= |movies|
    ensures n == 0 <==> forall k :: 0 <= k < |movies| ==> !movies[k].watched
    ensures n == |movies| <==> forall k :: 0 <= k < |movies| ==> movies[k].watched
  {
    if movies == [] then 0
    else
      assert forall k :: 0 < k < |movies| ==> movies[k] == movies[1..][k - 1];
      WatchedFlag(movies[0]) + WatchedCount(movies[1..])
  }

  lemma {:induction false} WatchedCountConcat(a: seq<Movie>, b: seq<Movie>)
    ensures WatchedCount(a + b) == WatchedCount(a) + WatchedCount(b)
  {
    if a == [] {
      assert a + b == b;
    } else {
      assert (a + b)[0] == a[0];
      assert (a + b)[1..] == a[1..] + b;
      WatchedCountConcat(a[1..], b);
    }
  }

  /** Appending a movie adds its watched flag to the count. */
  lemma WatchedCountAppend(movies: seq<Movie>, m: Movie)
    ensures WatchedCount(movies + [m]) == WatchedCount(movies) + WatchedFlag(m)
  {
    WatchedCountConcat(movies, [m]);
    assert [m][1..] == [];
  }

  /** Replacing a movie swaps its watched flag for the new one's. */
  lemma {:induction false} WatchedCountUpdate(movies: seq<Movie>, i: nat, m: Movie)
    requires i < |movies|
    ensures WatchedCount(movies[i := m]) == WatchedCount(movies) - WatchedFlag(movies[i]) + WatchedFlag(m)
  {
    if i == 0 {
      assert movies[i := m][1..] == movies[1..];
    } else {
      assert movies[i := m][1..] == movies[1..][i - 1 := m];
      WatchedCountUpdate(movies[1..], i - 1, m);
    }
  }

  /** `ArrayList.remove(int)`: the element at `i` goes, the others close up in order. */
  function RemoveAt(movies: seq<Movie>, i: int): (r: seq<Movie>)
    requires 0 <= i < |movies|
    ensures |r| == |movies| - 1
    ensures forall k :: 0 <= k < i ==> r[k] == movies[k]
    ensures forall k :: i <= k < |r| ==> r[k] == movies[k + 1]
  {
    movies[..i] + movies[i + 1..]
  }

  /** Removing a movie takes its watched flag off the count. */
  lemma {:induction false} WatchedCountRemove(movies: seq<Movie>, i: int)
    requires 0 <= i < |movies|
    ensures WatchedCount(RemoveAt(movies, i)) == WatchedCount(movies) - WatchedFlag(movies[i])
  {
    var r := RemoveAt(movies, i);
    if i == 0 {
      assert r == movies[1..];
    } else {
      assert r[0] == movies[0];
      assert r[1..] == RemoveAt(movies[1..], i - 1);
      WatchedCountRemove(movies[1..], i - 1);
    }
  }

  /** The Save handler's check: no field left empty and a year of exactly four characters. */
  predicate ValidEntry(title: string, director: string, genre: string, year: string) {
    !(title == "" || director == "" || genre == "" || year == "" || |year| != 4)
  }

  /** The emptiness test on the year is subsumed by its length test. */
  lemma ValidEntryMeaning(title: string, director: string, genre: string, year: string)
    ensures ValidEntry(title, director, genre, year) <==>
              |title| > 0 && |director| > 0 && |genre| > 0 && |year| == 4
  {
  }

  class MainActivity {
    var movieCollection: seq<Movie>
    var totalMovies: int
    var watchedMovies: int

    /** The two counters agree with the collection. */
    ghost predicate Valid()
      reads this
    {
      totalMovies == |movieCollection| && watchedMovies == WatchedCount(movieCollection)
    }

    /** The field initialisers and the empty collection created by onCreate. */
    constructor ()
      ensures movieCollection == [] && totalMovies == 0 && watchedMovies == 0
      ensures Valid()
    {
      totalMovies := 0;
      watchedMovies := 0;
      movieCollection := [];
    }

    /** removeMovie: the index is a position of the displayed list. */
    method RemoveMovie(index: int)
      requires 0 <= index < |movieCollection|
      modifies this
      ensures movieCollection == RemoveAt(old(movieCollection), index)
      ensures totalMovies == old(totalMovies) - 1
      ensures watchedMovies == old(watchedMovies) - WatchedFlag(old(movieCollection[index]))
      ensures old(Valid()) ==> Valid()
    {
      var removedMovie := movieCollection[index];
      if removedMovie.watched {
        watchedMovies := watchedMovies - 1;
      }
      totalMovies := totalMovies - 1;
      WatchedCountRemove(movieCollection, index);
      movieCollection := RemoveAt(movieCollection, index);
    }

    /** updateMovieStats: the two lines shown above the list, each counter in
        Java's decimal form. While the counters agree with the collection they
        read back as its length and its watched count. */
    function MovieStats(): (lines: (string, string))
      reads this
      ensures |lines.0| > 8 && lines.0[..8] == "Movies: "
      ensures |lines.1| > 9 && lines.1[..9] == "Watched: "
      ensures totalMovies >= 0 ==> IsDecimalOf(lines.0[8..], totalMovies)
      ensures totalMovies < 0 ==> lines.0[8] == '-' && IsDecimalOf(lines.0[9..], -totalMovies)
      ensures watchedMovies >= 0 ==> IsDecimalOf(lines.1[9..], watchedMovies)
      ensures watchedMovies < 0 ==> lines.1[9] == '-' && IsDecimalOf(lines.1[10..], -watchedMovies)
      ensures Valid() ==> IsDecimalOf(lines.0[8..], |movieCollection|)
                          && IsDecimalOf(lines.1[9..], WatchedCount(movieCollection))
    {
      var total := IntToString(totalMovies);
      var watched := IntToString(watchedMovies);
      assert ("Movies: " + total)[8..] == total;
      assert ("Watched: " + watched)[9..] == watched;
      ("Movies: " + total, "Watched: " + watched)
    }
  }

  /** What the dialog was opened for: a new movie, or the movie at a list position. */
  datatype DialogTarget = NewMovie | ExistingMovie(index: int)

  class MovieManager {
    /** The activity whose collection and counters the dialog updates. */
    const mainActivity: MainActivity

    constructor (activity: MainActivity)
      ensures mainActivity == activity
    {
      mainActivity := activity;
    }

    /** The Save button: reject incomplete input and change nothing; otherwise
        append a new movie, or overwrite the edited one, keeping both counters
        in step. The result says whether the input was accepted. */
    method Save(target: DialogTarget, title: string, director: string, genre: string, year: string, watched: bool)
      returns (saved: bool)
      requires target.ExistingMovie? ==> 0 <= target.index < |mainActivity.movieCollection|
      modifies mainActivity
      ensures saved == ValidEntry(title, director, genre, year)
      ensures !saved ==> unchanged(mainActivity)
      ensures saved && target.NewMovie? ==>
                mainActivity.movieCollection == old(mainActivity.movieCollection) + [Movie(title, director, genre, year, watched)]
                && mainActivity.totalMovies == old(mainActivity.totalMovies) + 1
                && mainActivity.watchedMovies == old(mainActivity.watchedMovies) + (if watched then 1 else 0)
      ensures saved && target.ExistingMovie? ==>
                mainActivity.movieCollection
                  == old(mainActivity.movieCollection)[target.index := Movie(title, director, genre, year, watched)]
                && mainActivity.totalMovies == old(mainActivity.totalMovies)
                && mainActivity.watchedMovies == old(mainActivity.watchedMovies)
                     + (if watched && !old(mainActivity.movieCollection[target.index].watched) then 1
                        else if !watched && old(mainActivity.movieCollection[target.index].watched) then -1
                        else 0)
      ensures old(mainActivity.Valid()) ==> mainActivity.Valid()
    {
      if title == "" || director == "" || genre == "" || year == "" || |year| != 4 {
        return false;
      }
      var entered := Movie(title, director, genre, year, watched);
      match target {
        case NewMovie =>
          WatchedCountAppend(mainActivity.movieCollection, entered);
          mainActivity.movieCollection := mainActivity.movieCollection + [entered];
          mainActivity.totalMovies := mainActivity.totalMovies + 1;
          if watched {
            mainActivity.watchedMovies := mainActivity.watchedMovies + 1;
          }
        case ExistingMovie(index) =>
          var movie := mainActivity.movieCollection[index];
          if watched && !movie.watched {
            mainActivity.watchedMovies := mainActivity.watchedMovies + 1;
          } else if !watched && movie.watched {
            mainActivity.watchedMovies := mainActivity.watchedMovies - 1;
          }
          WatchedCountUpdate(mainActivity.movieCollection, index, entered);
          mainActivity.movieCollection := mainActivity.movieCollection[index := entered];
      }
      saved := true;
    }

    /** The Cancel button only dismisses the dialog. */
    method Cancel()
      ensures unchanged(mainActivity)
    {
    }
  }
}
