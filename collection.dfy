/** The live list of images: exclusion of images found in the rejected folder
    and removal of one rejected image. */
module Collection {
  import opened Basics

  /** `[f for f in image_files if f not in os.listdir(rejected_folder)]`, with
      the listing of the rejected folder given as a set. */
  function ExcludeRejected(files: seq<ImageId>, rejected: set<ImageId>): (r: seq<ImageId>)
    ensures forall x :: x in r <==> x in files && x !in rejected
    ensures |r| <= |files|
    ensures NoDup(files) ==> NoDup(r)
  {
    if files == [] then []
    else
      var rest := ExcludeRejected(files[1..], rejected);
      assert NoDup(files) ==> NoDup(files[1..]) && files[0] !in files[1..] by {
        if NoDup(files) {
          forall i, j | 0 <= i < j < |files[1..]| ensures files[1..][i] != files[1..][j] {
            assert files[1..][i] == files[i + 1] && files[1..][j] == files[j + 1];
          }
        }
      }
      if files[0] in rejected then rest else [files[0]] + rest
  }

  /** When nothing in the list has been rejected, the exclusion changes nothing. */
  lemma {:induction false} ExcludeNothing(files: seq<ImageId>, rejected: set<ImageId>)
    requires forall x :: x in files ==> x !in rejected
    ensures ExcludeRejected(files, rejected) == files
  {
    if files != [] {
      ExcludeNothing(files[1..], rejected);
      assert [files[0]] + files[1..] == files;
    }
  }

  /** The position of the first occurrence of `x`. */
  function IndexOf(s: seq<ImageId>, x: ImageId): (i: nat)
    requires x in s
    ensures i < |s| && s[i] == x && x !in s[..i]
  {
    if s[0] == x then 0
    else
      var j := IndexOf(s[1..], x);
      assert s[..j + 1] == [s[0]] + s[1..][..j];
      j + 1
  }

  /** `list.remove(x)`: deletes the first occurrence of `x`, keeping the order
      of everything else. */
  function RemoveFirst(s: seq<ImageId>, x: ImageId): seq<ImageId>
    requires x in s
  {
    var i := IndexOf(s, x);
    s[..i] + s[i + 1..]
  }

  /** Removing a member of a list without repetitions drops exactly that member
      and shortens the list by one. */
  lemma RemoveFirstDistinct(s: seq<ImageId>, x: ImageId)
    requires x in s && NoDup(s)
    ensures var r := RemoveFirst(s, x);
            && |r| == |s| - 1
            && NoDup(r)
            && (forall y :: y in r <==> y in s && y != x)
  {
    var r := RemoveFirst(s, x);
    var i := IndexOf(s, x);
    forall a | 0 <= a < |r| ensures r[a] == s[if a < i then a else a + 1] { }
    forall y | y in s && y != x ensures y in r {
      var k :| 0 <= k < |s| && s[k] == y;
      assert r[if k < i then k else k - 1] == y;
    }
  }
}
