/** The ranking engine of the image rater: the state of one rating session and
    the operations the window calls when the user decides, rejects or the next
    pair is needed. Window, image decoding and file moves are not modelled;
    the listing of the rejected folder and the expected-score function are
    passed in. */
module Rater {
  import opened Basics
  import opened Pairs
  import opened Collection
  import Elo
  import Progress

  class ImageRater {
    /** The live images, in directory-listing order. */
    var imageFiles: seq<ImageId>
    /** The number of images, decremented on each rejection. */
    var numImages: nat
    var ratings: map<ImageId, real>
    /** Every pair shown so far, in the order shown. */
    var comparisons: seq<Pair>
    /** The pair on screen, if any. */
    var currentComparison: Option<Pair>
    /** The number of decided comparisons. */
    var currentComparisonNumber: int

    /** The live images are distinct and all rated (the saved ratings may hold
        further entries), and no more live images exist than `numImages`. */
    ghost predicate Valid()
      reads this
    {
      && NoDup(imageFiles)
      && (forall x :: x in imageFiles ==> x in ratings)
      && |imageFiles| <= numImages
    }

    /** `__init__`: every listed image starts at 1500, nothing is compared,
        and a saved session, when there is one, is loaded on top. `files` is
        the folder's listing already narrowed to image files. */
    constructor (files: seq<ImageId>, saved: Option<Progress.Record>)
      requires NoDup(files)
      ensures Valid()
      ensures imageFiles == files && numImages == |files|
      ensures saved.None? ==> && ratings == (map x | x in files :: Elo.InitialRating)
                              && comparisons == [] && currentComparison == None
                              && currentComparisonNumber == 0
      ensures saved.Some? ==> && Progress.IsRatingsMerge(ratings, saved.value.ratings, files)
                              && comparisons == saved.value.comparisons
                              && currentComparison == saved.value.current
                              && currentComparisonNumber == Progress.NumberOrZero(saved.value)
    {
      imageFiles := files;
      numImages := |files|;
      ratings := map x | x in files :: Elo.InitialRating;
      comparisons := [];
      currentComparison := None;
      currentComparisonNumber := 0;
      new;
      if saved.Some? {
        LoadProgress(saved.value);
      }
    }

    /** `load_progress`: restores comparisons, counter and pending pair from
        the record and merges its ratings with the live images. */
    method LoadProgress(record: Progress.Record)
      requires Valid()
      modifies this
      ensures Valid()
      ensures imageFiles == old(imageFiles) && numImages == old(numImages)
      ensures Progress.IsRatingsMerge(ratings, record.ratings, imageFiles)
      ensures comparisons == record.comparisons
      ensures currentComparison == record.current
      ensures currentComparisonNumber == Progress.NumberOrZero(record)
    {
      var merged := Progress.MergeRatings(record.ratings, imageFiles);
      comparisons := record.comparisons;
      currentComparisonNumber := Progress.NumberOrZero(record);
      currentComparison := record.current;
      ratings := merged;
    }

    /** `save_progress`: the record written to disk. */
    function Snapshot(): Progress.Record
      reads this
    {
      Progress.Record(ratings, comparisons, Some(currentComparisonNumber), currentComparison)
    }

    /** `get_next_comparison`: the random retry loop is a nondeterministic
        choice of a fresh pair, which exists by the precondition. */
    method GetNextComparison() returns (image1: ImageId, image2: ImageId)
      requires HasUnrecordedPair(imageFiles, comparisons)
      modifies this`comparisons
      ensures IsFreshPair(imageFiles, old(comparisons), image1, image2)
      ensures comparisons == old(comparisons) + [(image1, image2)]
      ensures old(NoDuplicatePairs(comparisons)) ==> NoDuplicatePairs(comparisons)
    {
      image1, image2 :| image1 in imageFiles && image2 in imageFiles && image1 != image2
                        && !Compared(comparisons, image1, image2);
      if NoDuplicatePairs(comparisons) {
        AppendFreshPair(comparisons, image1, image2);
      }
      comparisons := comparisons + [(image1, image2)];
    }

    /** `get_next_image(current)`: the first live image in list order that can
        be paired with `currentImage`; the pair (currentImage, image) is
        recorded. Nothing is recorded when there is none. */
    method GetNextImage(currentImage: ImageId) returns (image: Option<ImageId>)
      modifies this`comparisons
      ensures image.None? <==> forall x :: x in imageFiles ==> !IsPartner(old(comparisons), currentImage, x)
      ensures image.None? ==> comparisons == old(comparisons)
      ensures image.Some? ==> && comparisons == old(comparisons) + [(currentImage, image.value)]
                              && exists k: nat :: IsFirstPartnerAt(imageFiles, old(comparisons), currentImage, k)
                                             && imageFiles[k] == image.value
      ensures old(NoDuplicatePairs(comparisons)) ==> NoDuplicatePairs(comparisons)
    {
      var k := FirstPartnerIndex(imageFiles, comparisons, currentImage);
      if k.Some? {
        var partner := imageFiles[k.value];
        if NoDuplicatePairs(comparisons) {
          AppendFreshPair(comparisons, currentImage, partner);
        }
        comparisons := comparisons + [(currentImage, partner)];
        image := Some(partner);
      } else {
        image := None;
      }
    }

    /** `update_ratings(image1, image2, winner)`. */
    method UpdateRatings(image1: ImageId, image2: ImageId, winner: ImageId, expected: real -> real)
      requires image1 in ratings && image2 in ratings
      requires Elo.IsExpectedScore(expected)
      modifies this`ratings
      ensures ratings == Elo.Updated(old(ratings), image1, image2, winner, expected)
    {
      var k := Elo.K;
      var r1 := ratings[image1];
      var r2 := ratings[image2];
      var expected1 := expected(r2 - r1);
      var expected2 := expected(r1 - r2);
      var updated := ratings;
      if winner == image1 {
        updated := updated[image1 := updated[image1] + k * (1.0 - expected1)];
        updated := updated[image2 := updated[image2] + k * (0.0 - expected2)];
      } else {
        updated := updated[image1 := updated[image1] + k * (0.0 - expected1)];
        updated := updated[image2 := updated[image2] + k * (1.0 - expected2)];
      }
      ratings := updated;
    }

    /** The first half of `choose_left` / `choose_right`: with a pending pair,
        the image on `side` wins, the counter goes up by one and the pending
        pair is cleared. Without one nothing happens. When a pending image has
        no rating the lookup fails (`ok` is false) before anything changes. */
    method RecordDecision(side: Side, expected: real -> real) returns (ok: bool)
      requires Valid() && Elo.IsExpectedScore(expected)
      modifies this
      ensures Valid()
      ensures imageFiles == old(imageFiles) && numImages == old(numImages)
      ensures comparisons == old(comparisons)
      ensures old(currentComparison).None? ==> ok && unchanged(this)
      ensures var p := old(currentComparison);
              p.Some? && !(p.value.0 in old(ratings) && p.value.1 in old(ratings)) ==> !ok && unchanged(this)
      ensures var p := old(currentComparison);
              p.Some? && p.value.0 in old(ratings) && p.value.1 in old(ratings) ==>
                && ok
                && ratings == Elo.Updated(old(ratings), p.value.0, p.value.1, OnSide(p.value, side), expected)
                && currentComparisonNumber == old(currentComparisonNumber) + 1
                && currentComparison == None
    {
      ok := true;
      if currentComparison.Some? {
        var p := currentComparison.value;
        if !(p.0 in ratings && p.1 in ratings) {
          return false;
        }
        UpdateRatings(p.0, p.1, OnSide(p, side), expected);
        currentComparisonNumber := currentComparisonNumber + 1;
        currentComparison := None;
      }
    }

    /** `compare_images`: drops the images found in the rejected folder; ends
        the round when fewer than two images are left; otherwise, when no pair
        is pending, shows a fresh pair or ends the round when none is left.
        The last test is the corrected guard described in the README. */
    method CompareImages(rejectedListing: set<ImageId>) returns (ended: bool)
      requires Valid()
      modifies this
      ensures Valid()
      ensures imageFiles == ExcludeRejected(old(imageFiles), rejectedListing)
      ensures ratings == old(ratings) && numImages == old(numImages)
      ensures currentComparisonNumber == old(currentComparisonNumber)
      ensures ended <==> |imageFiles| < 2
                         || (old(currentComparison).None? && !HasUnrecordedPair(imageFiles, old(comparisons)))
      ensures ended || old(currentComparison).Some? ==>
                comparisons == old(comparisons) && currentComparison == old(currentComparison)
      ensures !ended && old(currentComparison).None? ==>
                && currentComparison.Some?
                && IsFreshPair(imageFiles, old(comparisons), currentComparison.value.0, currentComparison.value.1)
                && comparisons == old(comparisons) + [currentComparison.value]
      ensures old(NoDuplicatePairs(comparisons)) ==> NoDuplicatePairs(comparisons)
    {
      imageFiles := ExcludeRejected(imageFiles, rejectedListing);
      if |imageFiles| < 2 {
        return true;
      }
      ended := false;
      if currentComparison.None? {
        if HasUnrecordedPair(imageFiles, comparisons) {
          var image1, image2 := GetNextComparison();
          currentComparison := Some((image1, image2));
        } else {
          ended := true;
        }
      }
    }

    /** `choose_left` (side Left) and `choose_right` (side Right): record the
        decision, then ask for the next pair. */
    method Choose(side: Side, expected: real -> real, rejectedListing: set<ImageId>) returns (ok: bool, ended: bool)
      requires Valid() && Elo.IsExpectedScore(expected)
      modifies this
      ensures Valid()
      ensures old(currentComparison).None? ==> ok && !ended && unchanged(this)
      ensures var p := old(currentComparison);
              p.Some? && !(p.value.0 in old(ratings) && p.value.1 in old(ratings)) ==> !ok && !ended && unchanged(this)
      ensures var p := old(currentComparison);
              p.Some? && p.value.0 in old(ratings) && p.value.1 in old(ratings) ==>
                && ok
                && ratings == Elo.Updated(old(ratings), p.value.0, p.value.1, OnSide(p.value, side), expected)
                && currentComparisonNumber == old(currentComparisonNumber) + 1
                && numImages == old(numImages)
                && imageFiles == ExcludeRejected(old(imageFiles), rejectedListing)
                && (ended <==> !HasUnrecordedPair(imageFiles, old(comparisons)))
                && (ended ==> currentComparison == None && comparisons == old(comparisons))
                && (!ended ==> && currentComparison.Some?
                               && IsFreshPair(imageFiles, old(comparisons), currentComparison.value.0, currentComparison.value.1)
                               && comparisons == old(comparisons) + [currentComparison.value])
      ensures old(NoDuplicatePairs(comparisons)) ==> NoDuplicatePairs(comparisons)
    {
      ended := false;
      var pending := currentComparison.Some?;
      ok := RecordDecision(side, expected);
      if ok && pending {
        ended := CompareImages(rejectedListing);
      }
    }

    /** `reject_image(side)`: with a pending pair, the image on `side` leaves
        the live list and the ratings, `numImages` goes down by one and the
        counter stays. The image on the other side is re-paired with the first
        image it has not met, keeping its side; if there is none, nothing is
        pending and the next pair is asked for. `ok` is false, and nothing
        changes, when the rejected image is not live (the source's
        `list.remove` raises). */
    method RejectImage(side: Side, rejectedListing: set<ImageId>) returns (ok: bool, ended: bool)
      requires Valid()
      modifies this
      ensures Valid()
      ensures old(currentComparison).None? ==> ok && !ended && unchanged(this)
      ensures var p := old(currentComparison);
              p.Some? && OnSide(p.value, side) !in old(imageFiles) ==> !ok && !ended && unchanged(this)
      ensures var p := old(currentComparison);
              p.Some? && OnSide(p.value, side) in old(imageFiles) ==>
                var rejected := OnSide(p.value, side);
                var survivor := OtherSide(p.value, side);
                var remaining := RemoveFirst(old(imageFiles), rejected);
                && ok
                && rejected !in remaining
                && (forall x :: x in remaining <==> x in old(imageFiles) && x != rejected)
                && ratings == old(ratings) - {rejected}
                && numImages == old(numImages) - 1
                && currentComparisonNumber == old(currentComparisonNumber)
                && ((exists x :: x in remaining && IsPartner(old(comparisons), survivor, x)) ==>
                      && !ended
                      && imageFiles == remaining
                      && exists k: nat :: && IsFirstPartnerAt(remaining, old(comparisons), survivor, k)
                                     && comparisons == old(comparisons) + [(survivor, remaining[k])]
                                     && currentComparison == Some(RePaired(side, survivor, remaining[k])))
                && ((forall x :: x in remaining ==> !IsPartner(old(comparisons), survivor, x)) ==>
                      && imageFiles == ExcludeRejected(remaining, rejectedListing)
                      && (ended <==> !HasUnrecordedPair(imageFiles, old(comparisons)))
                      && (ended ==> currentComparison == None && comparisons == old(comparisons))
                      && (!ended ==> && currentComparison.Some?
                                     && IsFreshPair(imageFiles, old(comparisons), currentComparison.value.0, currentComparison.value.1)
                                     && comparisons == old(comparisons) + [currentComparison.value]))
      ensures old(NoDuplicatePairs(comparisons)) ==> NoDuplicatePairs(comparisons)
    {
      ok, ended := true, false;
      if currentComparison.None? {
        return;
      }
      var p := currentComparison.value;
      var rejected := OnSide(p, side);
      if rejected !in imageFiles {
        return false, false;
      }
      RemoveImage(rejected);
      ended := PairSurvivor(side, OtherSide(p, side), rejectedListing);
    }

    /** Lines 100-102 of `reject_image`: the image leaves the live list and
        the ratings, and `numImages` goes down by one. */
    method RemoveImage(rejected: ImageId)
      requires Valid() && rejected in imageFiles
      modifies this`imageFiles, this`ratings, this`numImages
      ensures Valid()
      ensures imageFiles == RemoveFirst(old(imageFiles), rejected)
      ensures forall x :: x in imageFiles <==> x in old(imageFiles) && x != rejected
      ensures ratings == old(ratings) - {rejected}
      ensures numImages == old(numImages) - 1
    {
      RemoveFirstDistinct(imageFiles, rejected);
      imageFiles := RemoveFirst(imageFiles, rejected);
      ratings := ratings - {rejected};
      numImages := numImages - 1;
    }

    /** The rest of `reject_image`: `survivor` is paired with the first live
        image it has not met, the new partner taking the rejected image's
        side; if there is none, nothing is pending and the next pair is asked
        for. */
    method PairSurvivor(side: Side, survivor: ImageId, rejectedListing: set<ImageId>) returns (ended: bool)
      requires Valid()
      modifies this
      ensures Valid()
      ensures ratings == old(ratings) && numImages == old(numImages)
      ensures currentComparisonNumber == old(currentComparisonNumber)
      ensures (exists x :: x in old(imageFiles) && IsPartner(old(comparisons), survivor, x)) ==>
                && !ended
                && imageFiles == old(imageFiles)
                && exists k: nat :: && IsFirstPartnerAt(old(imageFiles), old(comparisons), survivor, k)
                               && comparisons == old(comparisons) + [(survivor, old(imageFiles)[k])]
                               && currentComparison == Some(RePaired(side, survivor, old(imageFiles)[k]))
      ensures (forall x :: x in old(imageFiles) ==> !IsPartner(old(comparisons), survivor, x)) ==>
                && imageFiles == ExcludeRejected(old(imageFiles), rejectedListing)
                && (ended <==> !HasUnrecordedPair(imageFiles, old(comparisons)))
                && (ended ==> currentComparison == None && comparisons == old(comparisons))
                && (!ended ==> && currentComparison.Some?
                               && IsFreshPair(imageFiles, old(comparisons), currentComparison.value.0, currentComparison.value.1)
                               && comparisons == old(comparisons) + [currentComparison.value])
      ensures old(NoDuplicatePairs(comparisons)) ==> NoDuplicatePairs(comparisons)
    {
      ended := false;
      var newImage := GetNextImage(survivor);
      if newImage.Some? {
        currentComparison := Some(RePaired(side, survivor, newImage.value));
      } else {
        currentComparison := None;
        ended := CompareImages(rejectedListing);
      }
    }
  }

  /** Saving a session and starting a new one on the same images from the
      saved record restores ratings, comparisons, counter and pending pair. */
  method ResumeFromSnapshot(r: ImageRater) returns (s: ImageRater)
    requires r.Valid()
    ensures s.imageFiles == r.imageFiles && s.numImages == |r.imageFiles|
    ensures s.ratings == r.ratings
    ensures s.comparisons == r.comparisons
    ensures s.currentComparison == r.currentComparison
    ensures s.currentComparisonNumber == r.currentComparisonNumber
  {
    var saved := r.Snapshot();
    s := new ImageRater(r.imageFiles, Some(saved));
    Progress.MergeOfCompleteIsIdentity(s.ratings, saved.ratings, r.imageFiles);
  }
}
