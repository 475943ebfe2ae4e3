/** The export step of `copy_best_images`: images sorted by rating, highest
    first, and each position turned into one of five categories (folders
    rated_5 ... rated_1) by its percentile. */
module Categories {
  import opened Basics

  /** One entry of the ratings dictionary, in the dictionary's own order. */
  type Item = (ImageId, real)

  /** Ratings never increase along `s`. */
  predicate SortedDesc(s: seq<Item>) {
    forall i, j :: 0 <= i < j < |s| ==> s[i].1 >= s[j].1
  }

  /** Places `x` before the first entry rated at most as high as `x`. */
  function Insert(x: Item, s: seq<Item>): (r: seq<Item>)
    ensures |r| == |s| + 1
  {
    if s == [] || s[0].1 <= x.1 then [x] + s
    else [s[0]] + Insert(x, s[1..])
  }

  /** `sorted(items, key=rating, reverse=True)`: a stable sort, highest rating
      first, written as an insertion sort. */
  function SortByRatingDesc(s: seq<Item>): (r: seq<Item>)
    ensures |r| == |s|
  {
    if s == [] then [] else Insert(s[0], SortByRatingDesc(s[1..]))
  }

  /** The entries of `s` rated exactly `v`, in the order of `s`. */
  function RatedAt(s: seq<Item>, v: real): seq<Item> {
    if s == [] then []
    else (if s[0].1 == v then [s[0]] else []) + RatedAt(s[1..], v)
  }

  /** Inserting adds exactly `x`. */
  lemma {:induction false} InsertPermutes(x: Item, s: seq<Item>)
    ensures multiset(Insert(x, s)) == multiset(s) + multiset{x}
  {
    if s != [] && s[0].1 > x.1 {
      InsertPermutes(x, s[1..]);
      assert s == [s[0]] + s[1..];
    }
  }

  /** A bound on every rating of `s` and on `x` bounds every rating after
      inserting `x`. */
  lemma {:induction false} InsertBounded(x: Item, s: seq<Item>, b: real)
    requires x.1 <= b
    requires forall k :: 0 <= k < |s| ==> s[k].1 <= b
    ensures forall k :: 0 <= k < |Insert(x, s)| ==> Insert(x, s)[k].1 <= b
  {
    if s != [] && s[0].1 > x.1 {
      InsertBounded(x, s[1..], b);
    }
  }

  lemma {:induction false} InsertSorted(x: Item, s: seq<Item>)
    requires SortedDesc(s)
    ensures SortedDesc(Insert(x, s))
  {
    if s != [] && s[0].1 > x.1 {
      var t := s[1..];
      InsertSorted(x, t);
      InsertBounded(x, t, s[0].1);
    }
  }

  /** Inserting `x` puts it before every entry rated like it. */
  lemma {:induction false} InsertStable(x: Item, s: seq<Item>, v: real)
    ensures RatedAt(Insert(x, s), v) == (if x.1 == v then [x] else []) + RatedAt(s, v)
  {
    if s == [] || s[0].1 <= x.1 {
      assert ([x] + s)[1..] == s;
    } else {
      var t := Insert(x, s[1..]);
      InsertStable(x, s[1..], v);
      assert ([s[0]] + t)[1..] == t;
      assert RatedAt(Insert(x, s), v) == (if s[0].1 == v then [s[0]] else []) + RatedAt(t, v);
      if x.1 == v {
        assert s[0].1 != v;
        assert RatedAt(s, v) == RatedAt(s[1..], v);
      } else {
        assert RatedAt(t, v) == RatedAt(s[1..], v);
      }
    }
  }

  /** The sort orders by rating, highest first. */
  lemma {:induction false} SortIsSorted(s: seq<Item>)
    ensures SortedDesc(SortByRatingDesc(s))
    ensures multiset(SortByRatingDesc(s)) == multiset(s)
  {
    if s != [] {
      SortIsSorted(s[1..]);
      InsertSorted(s[0], SortByRatingDesc(s[1..]));
      InsertPermutes(s[0], SortByRatingDesc(s[1..]));
      assert s == [s[0]] + s[1..];
    }
  }

  /** The sort is stable: entries with equal ratings keep their order. */
  lemma {:induction false} SortIsStable(s: seq<Item>, v: real)
    ensures RatedAt(SortByRatingDesc(s), v) == RatedAt(s, v)
  {
    if s != [] {
      SortIsStable(s[1..], v);
      InsertStable(s[0], SortByRatingDesc(s[1..]), v);
    }
  }

  /** The category of position `i` (0 = highest rated) among `n` images: the
      percentile i / n * 100 is compared with 20, 40, 60 and 80, here in exact
      integer arithmetic (i * 100 < 20 * n and so on). */
  function Category(i: nat, n: nat): (c: int)
    requires i < n
    ensures 1 <= c <= 5
  {
    if i * 100 < 20 * n then 5
    else if i * 100 < 40 * n then 4
    else if i * 100 < 60 * n then 3
    else if i * 100 < 80 * n then 2
    else 1
  }

  /** Category at least `k` means lying among the first (6 - k) / 5 of the
      images; equivalently among the first ceil((6 - k) * n / 5) positions.
      So each of the five categories covers a block of about a fifth. */
  lemma CategoryShare(i: nat, n: nat, k: int)
    requires i < n && 1 <= k <= 5
    ensures Category(i, n) >= k <==> 5 * i < (6 - k) * n
    ensures Category(i, n) >= k <==> i < ((6 - k) * n + 4) / 5
  {
    var m := (6 - k) * n;
    assert m == if k == 1 then 5 * n else if k == 2 then 4 * n else if k == 3 then 3 * n
                else if k == 4 then 2 * n else n;
    var q := (m + 4) / 5;
    assert 5 * q <= m + 4 < 5 * q + 5;
  }

  /** Categories never increase down the sorted order. */
  lemma CategoryNonIncreasing(i: nat, j: nat, n: nat)
    requires i <= j < n
    ensures Category(i, n) >= Category(j, n)
  {
    var c := Category(j, n);
    CategoryShare(j, n, c);
    CategoryShare(i, n, c);
    assert 5 * i <= 5 * j;
    assert (6 - c) * n >= 0;
  }

  /** The highest-rated image, and so a single image, is in category 5. */
  lemma TopIsFive(n: nat)
    requires n >= 1
    ensures Category(0, n) == 5
  {
  }

  /** Ten images: positions 2c - 2 and 2c - 1 from the bottom form category c,
      so every category holds exactly two images and the top two get 5. */
  lemma TenImages(i: nat)
    requires i < 10
    ensures Category(i, 10) == 5 - i / 2
  {
    assert i == 0 || i == 1 || i == 2 || i == 3 || i == 4 || i == 5 || i == 6 || i == 7 || i == 8 || i == 9;
  }

  /** The placing loop of `copy_best_images`: walks the sorted list and gives
      every image the category of its position; copying the file into the
      folder of that category is left to the caller. */
  method CopyBestImages(items: seq<Item>) returns (placements: seq<(ImageId, int)>)
    ensures |placements| == |items|
    ensures forall j :: 0 <= j < |items| ==>
              placements[j] == (SortByRatingDesc(items)[j].0, Category(j, |items|))
    ensures forall j, k :: 0 <= j < k < |placements| ==> placements[j].1 >= placements[k].1
    ensures forall j :: 0 <= j < |placements| ==> 1 <= placements[j].1 <= 5
    ensures |items| > 0 ==> placements[0].1 == 5
  {
    var sorted := SortByRatingDesc(items);
    SortIsSorted(items);
    var n := |sorted|;
    placements := [];
    for i := 0 to n
      invariant |placements| == i
      invariant forall j :: 0 <= j < i ==> placements[j] == (sorted[j].0, Category(j, n))
    {
      placements := placements + [(sorted[i].0, Category(i, n))];
    }
    forall j, k | 0 <= j < k < n ensures placements[j].1 >= placements[k].1 {
      CategoryNonIncreasing(j, k, n);
    }
  }

  /** Of two images, the one with the strictly higher rating never ends in a
      lower category. */
  lemma HigherRatedNotLower(items: seq<Item>, j: nat, k: nat)
    requires j < |items| && k < |items|
    requires SortByRatingDesc(items)[j].1 > SortByRatingDesc(items)[k].1
    ensures Category(j, |items|) >= Category(k, |items|)
  {
    SortIsSorted(items);
    CategoryNonIncreasing(j, k, |items|);
  }
}
