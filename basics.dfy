/** Shared vocabulary of the ranking engine: image identifiers, ordered pairs
    of identifiers, the optional value and the two sides of the screen. */
module Basics {

  /** An image is named by its file name inside the session folder. */
  type ImageId = string

  /** A comparison as recorded: (first image, second image). The order is kept,
      but duplicate checks treat the pair as unordered. */
  type Pair = (ImageId, ImageId)

  datatype Option<+T> = None | Some(value: T)

  /** The side of the window an image is shown on. */
  datatype Side = Left | Right

  /** The image on `side` of a shown pair. */
  function OnSide(p: Pair, side: Side): ImageId {
    if side == Left then p.0 else p.1
  }

  /** The image on the other side. */
  function OtherSide(p: Pair, side: Side): ImageId {
    if side == Left then p.1 else p.0
  }

  /** The pair shown after the image on `side` is rejected: the survivor stays
      where it was and the new partner takes the rejected image's place. */
  function RePaired(side: Side, survivor: ImageId, partner: ImageId): (r: Pair)
    ensures OnSide(r, side) == partner && OtherSide(r, side) == survivor
  {
    if side == Right then (survivor, partner) else (partner, survivor)
  }

  /** No identifier occurs twice (a directory listing never repeats a name). */
  predicate NoDup(s: seq<ImageId>) {
    forall i, j :: 0 <= i < j < |s| ==> s[i] != s[j]
  }
}
