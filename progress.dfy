/** The saved session (progress.json) and the merge of saved ratings with the
    images currently in the folder. */
module Progress {
  import opened Basics
  import Elo

  /** The saved record: ratings, recorded comparisons, the number of decided
      comparisons (`.get(..., 0)`: may be missing) and the pending comparison
      (written only when one is pending). */
  datatype Record = Record(
    ratings: map<ImageId, real>,
    comparisons: seq<Pair>,
    comparisonNumber: Option<int>,
    current: Option<Pair>)

  /** The restored counter: the saved number, or 0 when the record has none. */
  function NumberOrZero(record: Record): int {
    if record.comparisonNumber.Some? then record.comparisonNumber.value else 0
  }

  /** `merged` is the saved ratings with every image of `files` that has no
      saved rating added at the starting rating. */
  predicate IsRatingsMerge(merged: map<ImageId, real>, loaded: map<ImageId, real>, files: seq<ImageId>) {
    && merged.Keys == loaded.Keys + (set x | x in files)
    && (forall x :: x in loaded ==> merged[x] == loaded[x])
    && (forall x :: x in merged && x !in loaded ==> merged[x] == Elo.InitialRating)
  }

  /** The loop of `load_progress` that gives every live image a rating. */
  method MergeRatings(loaded: map<ImageId, real>, files: seq<ImageId>) returns (merged: map<ImageId, real>)
    ensures IsRatingsMerge(merged, loaded, files)
    ensures forall x :: x in files ==> x in merged
  {
    merged := loaded;
    for i := 0 to |files|
      invariant merged.Keys == loaded.Keys + (set x | x in files[..i])
      invariant forall x :: x in loaded ==> merged[x] == loaded[x]
      invariant forall x :: x in merged && x !in loaded ==> merged[x] == Elo.InitialRating
    {
      assert files[..i + 1] == files[..i] + [files[i]];
      if files[i] !in merged {
        merged := merged[files[i] := Elo.InitialRating];
      }
    }
    assert files[..|files|] == files;
  }

  /** The merge is determined by its inputs. */
  lemma MergeIsUnique(m1: map<ImageId, real>, m2: map<ImageId, real>,
                      loaded: map<ImageId, real>, files: seq<ImageId>)
    requires IsRatingsMerge(m1, loaded, files) && IsRatingsMerge(m2, loaded, files)
    ensures m1 == m2
  {
    forall x | x in m1 ensures m1[x] == m2[x] {
      if x in loaded {
        assert m1[x] == loaded[x] == m2[x];
      }
    }
  }

  /** Saved ratings that already cover every image come back unchanged. */
  lemma MergeOfCompleteIsIdentity(merged: map<ImageId, real>, loaded: map<ImageId, real>, files: seq<ImageId>)
    requires IsRatingsMerge(merged, loaded, files)
    requires forall x :: x in files ==> x in loaded
    ensures merged == loaded
  {
    assert merged.Keys == loaded.Keys;
    forall x | x in merged ensures merged[x] == loaded[x] { }
  }
}
