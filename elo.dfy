/** The rating update applied after every left/right decision: a logistic
    pairwise (Elo-style) rule with K-factor 32.

    The source computes the expected score of an image as
    1 / (1 + 10 ** (difference / 400)) in floating point. The model keeps the
    structure of that computation (the expectation is a function of the
    opponent's rating minus one's own, evaluated on the PRE-update ratings) but
    takes the function itself as a parameter of which only 0 < e(d) < 1 is
    assumed. */
module Elo {
  import opened Basics

  /** The K-factor: the largest change a single decision can make. */
  const K: real := 32.0

  /** The rating every newly seen image starts with. */
  const InitialRating: real := 1500.0

  /** `e` maps a rating difference (opponent minus self) to an expected score
      strictly between 0 and 1. */
  ghost predicate IsExpectedScore(e: real -> real) {
    forall d :: 0.0 < e(d) < 1.0
  }

  /** The logistic formula satisfies e(d) + e(-d) == 1 in exact arithmetic:
      the two expectations of one match add up to one. */
  ghost predicate IsSymmetricScore(e: real -> real) {
    forall d :: e(d) + e(-d) == 1.0
  }

  /** `update_ratings(image1, image2, winner)`: both new ratings are computed
      from the ratings before the update; `image1` is the winner when it equals
      `winner`, otherwise `image2` is. Every other entry is left alone. */
  function Updated(ratings: map<ImageId, real>, image1: ImageId, image2: ImageId,
                   winner: ImageId, e: real -> real): (r: map<ImageId, real>)
    requires image1 in ratings && image2 in ratings
    requires IsExpectedScore(e)
    ensures r.Keys == ratings.Keys
    ensures forall x :: x in ratings && x != image1 && x != image2 ==> r[x] == ratings[x]
    ensures image1 != image2 && winner == image1 ==> r[image1] > ratings[image1] && r[image2] < ratings[image2]
    ensures image1 != image2 && winner != image1 ==> r[image1] < ratings[image1] && r[image2] > ratings[image2]
  {
    var r1 := ratings[image1];
    var r2 := ratings[image2];
    var expected1 := e(r2 - r1);
    var expected2 := e(r1 - r2);
    if winner == image1 then
      var m := ratings[image1 := r1 + K * (1.0 - expected1)];
      m[image2 := m[image2] + K * (0.0 - expected2)]
    else
      var m := ratings[image1 := r1 + K * (0.0 - expected1)];
      m[image2 := m[image2] + K * (1.0 - expected2)]
  }

  /** The change of each rating, in terms of the pre-update ratings only: the
      winner gains K * (1 - its expectation), which is between 0 and K, and the
      loser loses K * its expectation, also between 0 and K. */
  lemma UpdateAmounts(ratings: map<ImageId, real>, winner: ImageId, loser: ImageId,
                      e: real -> real, leftWins: bool)
    requires winner in ratings && loser in ratings && winner != loser
    requires IsExpectedScore(e)
    ensures var image1 := if leftWins then winner else loser;
            var image2 := if leftWins then loser else winner;
            var r := Updated(ratings, image1, image2, winner, e);
            var rw := ratings[winner];
            var rl := ratings[loser];
            && r[winner] - rw == K * (1.0 - e(rl - rw))
            && r[loser] - rl == -K * e(rw - rl)
            && 0.0 < r[winner] - rw < K
            && -K < r[loser] - rl < 0.0
  {
    var rw, rl := ratings[winner], ratings[loser];
    assert 0.0 < e(rl - rw) < 1.0 && 0.0 < e(rw - rl) < 1.0;
  }

  /** With a symmetric expectation no rating is created or destroyed: the sum
      of the two ratings is the same before and after a decision. */
  lemma ZeroSum(ratings: map<ImageId, real>, image1: ImageId, image2: ImageId,
                winner: ImageId, e: real -> real)
    requires image1 in ratings && image2 in ratings && image1 != image2
    requires IsExpectedScore(e) && IsSymmetricScore(e)
    ensures var r := Updated(ratings, image1, image2, winner, e);
            r[image1] + r[image2] == ratings[image1] + ratings[image2]
  {
    var d := ratings[image2] - ratings[image1];
    assert e(d) + e(-d) == 1.0;
    assert ratings[image1] - ratings[image2] == -d;
  }

  /** Two images at the starting rating: the expectation is 1/2 each, so the
      winner moves to 1516 and the loser to 1484. */
  lemma EvenMatch(ratings: map<ImageId, real>, image1: ImageId, image2: ImageId,
                  winner: ImageId, e: real -> real)
    requires image1 in ratings && image2 in ratings && image1 != image2
    requires ratings[image1] == InitialRating && ratings[image2] == InitialRating
    requires winner == image1 || winner == image2
    requires IsExpectedScore(e) && IsSymmetricScore(e)
    ensures var r := Updated(ratings, image1, image2, winner, e);
            var loser := if winner == image1 then image2 else image1;
            r[winner] == 1516.0 && r[loser] == 1484.0
  {
    assert e(0.0) + e(-0.0) == 1.0;
    assert e(0.0) == 0.5;
  }
}
