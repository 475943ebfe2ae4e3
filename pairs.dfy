/** Pair bookkeeping: which pairs have already been shown, the deterministic
    partner scan used after a rejection, and the completion guard. */
module Pairs {
  import opened Basics

  /** `(a, b) in comparisons or (b, a) in comparisons`: the recorded list is
      consulted in both orders. */
  predicate Compared(cs: seq<Pair>, a: ImageId, b: ImageId) {
    (a, b) in cs || (b, a) in cs
  }

  /** Two distinct live images that have not been shown together yet. */
  predicate IsFreshPair(files: seq<ImageId>, cs: seq<Pair>, a: ImageId, b: ImageId) {
    a in files && b in files && a != b && !Compared(cs, a, b)
  }

  /** Some pair of live images has not been compared yet: exactly the condition
      under which the random sampler of `get_next_comparison` can stop. */
  predicate HasUnrecordedPair(files: seq<ImageId>, cs: seq<Pair>) {
    exists a, b :: a in files && b in files && a != b && !Compared(cs, a, b)
  }

  /** The image set of a comparison, forgetting which side each image was on. */
  function Unordered(p: Pair): set<ImageId> {
    {p.0, p.1}
  }

  /** Every recorded comparison is of two distinct images, and no unordered
      pair is recorded twice. */
  predicate NoDuplicatePairs(cs: seq<Pair>) {
    && (forall i :: 0 <= i < |cs| ==> cs[i].0 != cs[i].1)
    && (forall i, j :: 0 <= i < j < |cs| ==> Unordered(cs[i]) != Unordered(cs[j]))
  }

  /** Every recorded comparison is between live images. */
  predicate AllLive(files: seq<ImageId>, cs: seq<Pair>) {
    forall i :: 0 <= i < |cs| ==> cs[i].0 in files && cs[i].1 in files
  }

  /** Two pairs of distinct images with the same image set are equal up to order. */
  lemma UnorderedEq(p: Pair, a: ImageId, b: ImageId)
    requires p.0 != p.1
    requires Unordered(p) == {a, b}
    ensures p == (a, b) || p == (b, a)
  {
    assert p.0 in {a, b} && p.1 in {a, b};
    assert a in Unordered(p) && b in Unordered(p);
  }

  /** Recording a pair that is fresh keeps the list free of duplicates. */
  lemma AppendFreshPair(cs: seq<Pair>, a: ImageId, b: ImageId)
    requires NoDuplicatePairs(cs)
    requires a != b && !Compared(cs, a, b)
    ensures NoDuplicatePairs(cs + [(a, b)])
  {
    var cs' := cs + [(a, b)];
    forall i | 0 <= i < |cs|
      ensures Unordered(cs'[i]) != Unordered(cs'[|cs|])
    {
      if Unordered(cs[i]) == {a, b} {
        UnorderedEq(cs[i], a, b);
        assert false;
      }
    }
  }

  /** `x` can be paired with `anchor`: it is another image and the two have not
      been compared in either order. */
  predicate IsPartner(cs: seq<Pair>, anchor: ImageId, x: ImageId) {
    x != anchor && !Compared(cs, anchor, x)
  }

  /** Position `k` holds a partner of `anchor` and no earlier position does. */
  predicate IsFirstPartnerAt(files: seq<ImageId>, cs: seq<Pair>, anchor: ImageId, k: nat) {
    && k < |files|
    && IsPartner(cs, anchor, files[k])
    && forall j :: 0 <= j < k ==> !IsPartner(cs, anchor, files[j])
  }

  /** The scan of `get_next_image(anchor)`: the position, in list order, of the
      first image that can be paired with `anchor`, or None if there is none. */
  method FirstPartnerIndex(files: seq<ImageId>, cs: seq<Pair>, anchor: ImageId) returns (k: Option<nat>)
    ensures k.Some? ==> IsFirstPartnerAt(files, cs, anchor, k.value)
    ensures k.None? <==> forall x :: x in files ==> !IsPartner(cs, anchor, x)
  {
    for i := 0 to |files|
      invariant forall j :: 0 <= j < i ==> !IsPartner(cs, anchor, files[j])
    {
      var image := files[i];
      if image != anchor && (anchor, image) !in cs && (image, anchor) !in cs {
        return Some(i);
      }
    }
    return None;
  }

  /** The number of unordered pairs of `n` images, `n * (n - 1) // 2`. */
  function TotalPairs(n: nat): nat {
    n * (n - 1) / 2
  }

  /** The completion guard of `compare_images` AS WRITTEN, for the case where
      no comparison is pending: at least two live images and fewer recorded
      comparisons than there are pairs of `num_images` images. Recorded
      comparisons with rejected images still count, and `num_images` is not
      decremented when an image is excluded from outside the program. */
  function SourceGuard(numImages: nat, files: seq<ImageId>, cs: seq<Pair>): bool {
    |files| >= 2 && |cs| < TotalPairs(numImages)
  }

  /** All unordered pairs of distinct elements of `s`. */
  ghost function AllPairs(s: set<ImageId>): set<set<ImageId>> {
    set a, b | a in s && b in s && a != b :: {a, b}
  }

  /** The pairs of `x` with each element of `s`. */
  ghost function Star(x: ImageId, s: set<ImageId>): set<set<ImageId>> {
    set b | b in s :: {x, b}
  }

  /** The image sets of the recorded comparisons. */
  ghost function PairSet(cs: seq<Pair>): set<set<ImageId>> {
    set i | 0 <= i < |cs| :: Unordered(cs[i])
  }

  lemma {:induction false} StarCount(x: ImageId, s: set<ImageId>)
    requires x !in s
    ensures |Star(x, s)| == |s|
  {
    if s == {} {
      assert Star(x, s) == {};
    } else {
      var y :| y in s;
      var s' := s - {y};
      StarCount(x, s');
      assert Star(x, s) == Star(x, s') + {{x, y}};
    }
  }

  /** Removing one element `x` splits the pairs into those without `x` and
      those with it. */
  lemma AllPairsSplit(s: set<ImageId>, x: ImageId)
    requires x in s
    ensures AllPairs(s) == AllPairs(s - {x}) + Star(x, s - {x})
    ensures AllPairs(s - {x}) !! Star(x, s - {x})
  {
    var s' := s - {x};
    forall p | p in AllPairs(s)
      ensures p in AllPairs(s') + Star(x, s')
    {
      var a, b :| a in s && b in s && a != b && p == {a, b};
      if a == x {
        assert p in Star(x, s');
      } else if b == x {
        assert p == {x, a};
        assert p in Star(x, s');
      } else {
        assert p in AllPairs(s');
      }
    }
    forall p | p in Star(x, s')
      ensures p in AllPairs(s) && p !in AllPairs(s')
    {
      var b :| b in s' && p == {x, b};
      assert x in p;
    }
  }

  /** There are n * (n - 1) / 2 unordered pairs of n elements. */
  lemma {:induction false} AllPairsCount(s: set<ImageId>)
    ensures |AllPairs(s)| == TotalPairs(|s|)
  {
    if s == {} {
      assert AllPairs(s) == {};
    } else {
      var x :| x in s;
      var s' := s - {x};
      var m := |s'|;
      AllPairsCount(s');
      StarCount(x, s');
      AllPairsSplit(s, x);
      DisjointUnionCount(AllPairs(s'), Star(x, s'));
      TotalPairsStep(m);
      assert |s| == m + 1;
      calc {
        |AllPairs(s)|;
        |AllPairs(s')| + |Star(x, s')|;
        TotalPairs(m) + m;
        TotalPairs(m + 1);
      }
    }
  }

  lemma DisjointUnionCount(a: set<set<ImageId>>, b: set<set<ImageId>>)
    requires a !! b
    ensures |a + b| == |a| + |b|
  {
  }

  /** One more image adds one pair with each of the others. */
  lemma TotalPairsStep(m: nat)
    ensures TotalPairs(m + 1) == TotalPairs(m) + m
  {
    assert (m + 1) * m == m * (m - 1) + 2 * m;
  }

  /** Without duplicates, the recorded comparisons name as many image sets as
      there are entries. */
  lemma {:induction false} PairSetCount(cs: seq<Pair>)
    requires NoDuplicatePairs(cs)
    ensures |PairSet(cs)| == |cs|
  {
    if cs == [] {
      assert PairSet(cs) == {};
    } else {
      var n := |cs| - 1;
      var cs' := cs[..n];
      assert NoDuplicatePairs(cs') by {
        forall i | 0 <= i < n ensures cs'[i] == cs[i] { }
      }
      PairSetCount(cs');
      assert PairSet(cs) == PairSet(cs') + {Unordered(cs[n])} by {
        forall p | p in PairSet(cs) ensures p in PairSet(cs') + {Unordered(cs[n])} {
          var i :| 0 <= i < |cs| && p == Unordered(cs[i]);
          if i < n { assert cs'[i] == cs[i]; }
        }
        forall p | p in PairSet(cs') ensures p in PairSet(cs) {
          var i :| 0 <= i < n && p == Unordered(cs'[i]);
          assert cs'[i] == cs[i];
        }
      }
      assert Unordered(cs[n]) !in PairSet(cs') by {
        forall i | 0 <= i < n ensures Unordered(cs'[i]) != Unordered(cs[n]) {
          assert cs'[i] == cs[i];
        }
      }
    }
  }

  /** A list without repetitions has as many elements as its set. */
  lemma {:induction false} DistinctCount(files: seq<ImageId>)
    requires NoDup(files)
    ensures |set x | x in files| == |files|
  {
    if files != [] {
      var rest := files[1..];
      assert NoDup(rest) by {
        forall i, j | 0 <= i < j < |rest| ensures rest[i] != rest[j] {
          assert rest[i] == files[i + 1] && rest[j] == files[j + 1];
        }
      }
      DistinctCount(rest);
      assert (set x | x in files) == (set x | x in rest) + {files[0]};
    }
  }

  /** The image sets of live, well-formed comparisons are pairs of live images. */
  lemma PairSetWithin(files: seq<ImageId>, cs: seq<Pair>)
    requires NoDuplicatePairs(cs)
    requires AllLive(files, cs)
    ensures PairSet(cs) <= AllPairs(set x | x in files)
  {
    var s := set x | x in files;
    forall p | p in PairSet(cs) ensures p in AllPairs(s) {
      var i :| 0 <= i < |cs| && p == Unordered(cs[i]);
      assert cs[i].0 in s && cs[i].1 in s && cs[i].0 != cs[i].1;
    }
  }

  /** A fresh pair is a pair of live images whose image set is not recorded. */
  lemma FreshPairNotRecorded(files: seq<ImageId>, cs: seq<Pair>, a: ImageId, b: ImageId)
    requires IsFreshPair(files, cs, a, b)
    requires NoDuplicatePairs(cs)
    ensures {a, b} in AllPairs(set x | x in files)
    ensures {a, b} !in PairSet(cs)
  {
    if {a, b} in PairSet(cs) {
      var i :| 0 <= i < |cs| && {a, b} == Unordered(cs[i]);
      UnorderedEq(cs[i], a, b);
      assert false;
    }
  }

  /** A pair of live images whose image set is not recorded is fresh. */
  lemma UnrecordedPairIsFresh(files: seq<ImageId>, cs: seq<Pair>, p: set<ImageId>)
    requires p in AllPairs(set x | x in files)
    requires p !in PairSet(cs)
    ensures HasUnrecordedPair(files, cs)
  {
    var s := set x | x in files;
    var a, b :| a in s && b in s && a != b && p == {a, b};
    assert Unordered((b, a)) == p;
    forall i | 0 <= i < |cs| ensures cs[i] != (a, b) && cs[i] != (b, a) {
      assert Unordered(cs[i]) in PairSet(cs);
    }
    assert a in files && b in files && a != b && !Compared(cs, a, b);
  }

  /** Without rejections, an unrecorded pair leaves the count below the total. */
  lemma FreshPairBelowTotal(files: seq<ImageId>, cs: seq<Pair>)
    requires NoDup(files)
    requires NoDuplicatePairs(cs)
    requires AllLive(files, cs)
    requires HasUnrecordedPair(files, cs)
    ensures SourceGuard(|files|, files, cs)
  {
    var s := set x | x in files;
    DistinctCount(files);
    AllPairsCount(s);
    PairSetCount(cs);
    PairSetWithin(files, cs);
    var a, b :| a in files && b in files && a != b && !Compared(cs, a, b);
    FreshPairNotRecorded(files, cs, a, b);
    MissingMemberSmaller(PairSet(cs), AllPairs(s), {a, b});
    TwoDistinct(files, a, b);
  }

  /** A subset that misses a member of the larger set is strictly smaller. */
  lemma MissingMemberSmaller(small: set<set<ImageId>>, large: set<set<ImageId>>, p: set<ImageId>)
    requires small <= large && p in large && p !in small
    ensures |small| < |large|
  {
    var rest := large - {p};
    assert small * rest == small;
    assert |rest - small| + |small * rest| == |rest|;
    assert |rest| == |large| - 1;
  }

  /** Two distinct members make a list at least two long. */
  lemma TwoDistinct(files: seq<ImageId>, a: ImageId, b: ImageId)
    requires a in files && b in files && a != b
    ensures |files| >= 2
  {
  }

  /** Without rejections, a count below the total leaves an unrecorded pair. */
  lemma BelowTotalHasFreshPair(files: seq<ImageId>, cs: seq<Pair>)
    requires NoDup(files)
    requires NoDuplicatePairs(cs)
    requires AllLive(files, cs)
    requires SourceGuard(|files|, files, cs)
    ensures HasUnrecordedPair(files, cs)
  {
    var s := set x | x in files;
    DistinctCount(files);
    AllPairsCount(s);
    PairSetCount(cs);
    PairSetWithin(files, cs);
    assert PairSet(cs) != AllPairs(s);
    var p :| p in AllPairs(s) && p !in PairSet(cs);
    UnrecordedPairIsFresh(files, cs, p);
  }

  /** While no image has been rejected (every recorded comparison is between
      live images and `num_images` is the number of live images), the source's
      count-based guard holds exactly when an unrecorded pair of live images
      exists. So the corrected guard `HasUnrecordedPair` agrees with the source
      in the situation its authors had in mind, and after n * (n - 1) / 2
      distinct comparisons of n images the round is over. */
  lemma GuardAgreesWithoutRejections(files: seq<ImageId>, cs: seq<Pair>)
    requires NoDup(files)
    requires NoDuplicatePairs(cs)
    requires AllLive(files, cs)
    ensures SourceGuard(|files|, files, cs) <==> HasUnrecordedPair(files, cs)
  {
    if HasUnrecordedPair(files, cs) {
      FreshPairBelowTotal(files, cs);
    }
    if SourceGuard(|files|, files, cs) {
      BelowTotalHasFreshPair(files, cs);
    }
  }

  /** As written, the guard can end the round while live pairs are uncompared:
      a, b, c, d; "a"/"b" decided; "a"/"c" shown and "c" rejected; the rejection
      re-pairs "a" with "d", which is decided. Now `num_images` is 3 and three
      comparisons are recorded, so the source stops: "b"/"d" was never shown. */
  lemma SourceGuardStopsEarly()
    ensures var files := ["a", "b", "d"];
            var cs := [("a", "b"), ("a", "c"), ("a", "d")];
            !SourceGuard(3, files, cs) && HasUnrecordedPair(files, cs)
  {
    var files := ["a", "b", "d"];
    var cs := [("a", "b"), ("a", "c"), ("a", "d")];
    assert "b" in files && "d" in files && "b" != "d";
    assert !Compared(cs, "b", "d");
  }

  /** As written, the guard can send `get_next_comparison` into an endless
      retry: of a, b, c, image c is moved into the rejected folder from outside
      the program, so the live list is a, b while `num_images` stays 3; after
      "a"/"b" is decided one of three pairs is recorded, the guard asks for
      another pair, and none exists. */
  lemma SourceGuardSpinsForever()
    ensures var files := ["a", "b"];
            var cs := [("a", "b")];
            SourceGuard(3, files, cs) && !HasUnrecordedPair(files, cs)
  {
    var files := ["a", "b"];
    var cs := [("a", "b")];
    forall a, b | a in files && b in files && a != b
      ensures Compared(cs, a, b)
    {
      assert a == "a" || a == "b";
      assert b == "a" || b == "b";
    }
  }
}
