/** Square cropping of an image (crop_to_square in create_grid.py).
    An image is seen only through its name and its dimensions; pixel data is not modelled. */
module Crop {

  /** An image as the compositor sees it: where it came from and its size in pixels. */
  datatype Image = Image(name: string, width: nat, height: nat)

  /** A crop rectangle in the image library's convention: (left, top, right, bottom),
      right and bottom exclusive. */
  datatype Box = Box(left: int, top: int, right: int, bottom: int)

  function Min(a: nat, b: nat): nat {
    if a <= b then a else b
  }

  /** The centred square box of side min(width, height); floor division puts the odd pixel
      of a margin on the right or bottom side. */
  function CropBox(width: nat, height: nat): (b: Box)
    // the box is square, of the shorter side's length
    ensures b.right - b.left == Min(width, height)
    ensures b.bottom - b.top == Min(width, height)
    // the box lies inside the image
    ensures 0 <= b.left && b.right <= width
    ensures 0 <= b.top && b.bottom <= height
    // centred: the left/top margin is at most the right/bottom one, and by at most one pixel
    ensures b.left <= width - b.right <= b.left + 1
    ensures b.top <= height - b.bottom <= b.top + 1
    // the shorter axis is not cut at all
    ensures width <= height ==> b.left == 0 && b.right == width
    ensures height <= width ==> b.top == 0 && b.bottom == height
  {
    var minDim := Min(width, height);
    var left := (width - minDim) / 2;
    var top := (height - minDim) / 2;
    Box(left, top, left + minDim, top + minDim)
  }

  /** What the image library's crop gives back: an image of the box's size. */
  function CropTo(img: Image, b: Box): (r: Image)
    requires 0 <= b.left <= b.right <= img.width && 0 <= b.top <= b.bottom <= img.height
    ensures r.name == img.name
    ensures r.width == b.right - b.left && r.height == b.bottom - b.top
    ensures r.width <= img.width && r.height <= img.height
  {
    Image(img.name, b.right - b.left, b.bottom - b.top)
  }

  /** crop_to_square: a square image is returned as it is; any other is cut to the centred box. */
  function CropToSquare(img: Image): (r: Image)
    ensures r.name == img.name
    ensures r.width == r.height == Min(img.width, img.height)
    ensures img.width == img.height ==> r == img
    ensures img.width != img.height ==> r == CropTo(img, CropBox(img.width, img.height))
  {
    if img.width == img.height then img
    else CropTo(img, CropBox(img.width, img.height))
  }

  /** The image library's resize to a fixed square size; only the dimensions are modelled. */
  function Resize(img: Image, side: nat): (r: Image)
    ensures r.name == img.name && r.width == side && r.height == side
  {
    Image(img.name, side, side)
  }

  /** The early return for square images agrees with cropping to the centred box:
      for a square image that box is the whole image. */
  lemma SquareShortcutAgrees(img: Image)
    requires img.width == img.height
    ensures CropBox(img.width, img.height) == Box(0, 0, img.width, img.height)
    ensures CropTo(img, CropBox(img.width, img.height)) == CropToSquare(img)
  {
  }

  /** Cropping to square twice is cropping once. */
  lemma CropToSquareIdempotent(img: Image)
    ensures CropToSquare(CropToSquare(img)) == CropToSquare(img)
  {
  }

  /** A 400x300 image loses 50 columns on each side. */
  lemma LandscapeExample()
    ensures CropBox(400, 300) == Box(50, 0, 350, 300)
  {
  }

  /** A 301x300 image loses its one extra column on the right: floor division rounds the
      left margin down. */
  lemma OddMarginExample()
    ensures CropBox(301, 300) == Box(0, 0, 300, 300)
  {
  }

  /** A 300x400 image loses 50 rows at the top and at the bottom. */
  lemma PortraitExample()
    ensures CropBox(300, 400) == Box(0, 50, 300, 350)
  {
  }
}
