# 3x3 image maker: a verified model of the grid compositor

`create_grid.py` arranges the images of a folder into a square grid: the file named
`pfp.jpg` goes into the reserved centre cell, the other image files fill the remaining cells
in row-major order, and each image is centre-cropped to a square and resized to the cell
size before it is pasted. This project models that logic in Dafny and proves its
properties. Images are reduced to a name and a width and height. The canvas is reduced
to a `gridSize x gridSize` array that records, for each cell, the image pasted over it
last.

Modules:

- `Crop` (`crop.dfy`) models `crop_to_square`. It computes the centred crop box with floor
  division and returns a square image unchanged.
- `FileNames` (`filenames.dfy`) models how the folder listing is turned into the list of
  non-centre files. Names are kept when their lower-cased form ends in `png`, `jpg` or
  `jpeg`. Then `pfp.jpg` is required and its first occurrence is removed, and the list is cut
  to `gridSize*gridSize - 1` entries.
- `Layout` (`layout.dfy`) covers the arithmetic of placement: the reserved index
  `gridSize*gridSize // 2`, the slot map that skips it, and the row-major pixel offsets. It
  also defines `Expected`, the image every cell should show once some images are pasted.
- `Compositor` (`compositor.dfy`) has the `Canvas` class, whose `Paste` writes one cell, and
  the two methods. `Compose` runs the `enumerate` loop with its `index += 1` shift, then
  pastes the centre image. `CreateImageGrid` is the whole procedure, with the folder listing
  and the opening of files passed in as parameters.

What is proved, in short:

- The crop box is square, has the side `min(width, height)`, lies inside the image and is
  centred. On the longer axis the left or top margin is at most the opposite margin, and
  the two differ by at most one pixel.
- The filter keeps exactly the image names and keeps them in listing order. The extension
  test ignores case.
- The selection fails exactly when `pfp.jpg` is not among the kept names. Otherwise it has
  `min(len - 1, gridSize*gridSize - 1)` entries, and entry k is entry `Slot(k, i)` of the
  kept list, where i is the position of the first `pfp.jpg`. This is the same skip map the
  grid uses around its centre cell. A listing without repeated names gives a selection
  without repeated names and without `pfp.jpg`.
- The slot map never yields the centre index and is strictly increasing. Its inverse is
  `TileOf`. Every slot on the grid is pasted at a cell-aligned offset that fits the canvas,
  and different slots get different offsets.
- After `Compose` every cell shows the image `Expected` gives it. Image k is shown in cell
  `Slot(k, centre)` and the centre image in the reserved cell. `CreateImageGrid` states the
  same for the files: the k-th selected file, opened, cropped and resized, is shown in
  slot k, and the prepared `pfp.jpg` in the reserved cell. When the listing has no repeated
  names, each file is shown in exactly that one cell. With `gridSize*gridSize - 1` images
  no cell is blank. With fewer, the blank cells are exactly the non-centre cells from the
  next free slot on.
- For odd grid sizes the reserved index is the middle cell. For even sizes it is the first
  cell of row `gridSize/2`. The code allows even sizes, and the model follows the code.

Points where the code's behaviour may surprise:

- The code accepts any grid size, not only odd ones.
- The centre image is not passed in separately. It is found in the folder listing under
  the exact, case-sensitive name `pfp.jpg`.
- The extension filter does not look for a dot, so `xpng` passes.
- If `pfp.jpg` appears twice, only the first copy is removed. The second copy is placed as
  an ordinary tile.

## Model

| member | source | states |
|---|---|---|
| `Crop.CropBox` | create_grid.py:14-17 | the box has side min(width, height) on both axes and lies inside the image; the left/top margin is at most the right/bottom one, and by at most 1; the shorter axis is not cut |
| `Crop.CropTo` | create_grid.py:17 | cropping keeps the image's name and gives an image exactly the box's width and height, no larger than the original |
| `Crop.CropToSquare` | create_grid.py:4-17 | the result is square with side min(width, height) and keeps the name; a square image comes back unchanged; any other is the image cropped to the centred box |
| `Crop.Resize` | create_grid.py:38 | resizing to the cell size gives a cellSize x cellSize image of the same file |
| `Crop.SquareShortcutAgrees` | create_grid.py:12-13 | for a square image the centred box is the whole image, so the early return agrees with cropping |
| `Crop.CropToSquareIdempotent` | create_grid.py:4-17 | cropping an already cropped image changes nothing |
| `Crop.LandscapeExample` | create_grid.py:14-17 | a 400x300 image is cut to columns 50 to 350 |
| `Crop.OddMarginExample` | create_grid.py:14-17 | a 301x300 image loses its odd column on the right, not the left |
| `Crop.PortraitExample` | create_grid.py:14-17 | a 300x400 image is cut to rows 50 to 350 |
| `FileNames.LowerChar` | create_grid.py:28 | a lower-cased character is never an upper-case letter; A-Z become the letter at the same position in a-z; every other character is kept |
| `FileNames.Lower` | create_grid.py:28 | lower-casing keeps the length and maps each character on its own |
| `FileNames.EndsWith` | create_grid.py:28 | a string ends with a suffix exactly when it is at least as long and its last characters are, one by one, those of the suffix |
| `FileNames.IsImageName` | create_grid.py:28 | a name that passes the extension test has at least three characters |
| `FileNames.LowerIdempotent` | create_grid.py:28 | lower-casing twice is lower-casing once |
| `FileNames.ImageNameIgnoresCase` | create_grid.py:28 | a name and its lower-cased form pass or fail the extension test together |
| `FileNames.FilterImages` | create_grid.py:28 | the filtered listing is no longer than the listing |
| `FileNames.FilterMembership` | create_grid.py:28 | a name is kept if and only if it is in the listing and its lower-cased form ends with png, jpg or jpeg |
| `FileNames.FilterAppend` | create_grid.py:28 | the filter preserves listing order: filtering a concatenation concatenates the filtered parts |
| `FileNames.FilterSingle` | create_grid.py:28 | a one-name listing keeps its name exactly when it is an image name |
| `FileNames.FilterCount` | create_grid.py:28 | every copy of an image name is kept and every copy of another name is dropped |
| `FileNames.NoDotNeeded` | create_grid.py:28 | "xpng" passes the filter because no dot is required |
| `FileNames.UpperCaseExtension` | create_grid.py:28 | the extension test ignores case ("a.JPEG" passes) |
| `FileNames.OtherExtensionDropped` | create_grid.py:28 | "a.gif" is dropped |
| `FileNames.CentreNameIsCaseSensitive` | create_grid.py:28-31 | "PFP.JPG" passes the filter, but a listing holding only it fails the centre-file check |
| `FileNames.IndexOf` | create_grid.py:33 | the index found holds x, and x does not occur before it |
| `FileNames.RemoveFirst` | create_grid.py:33 | list.remove deletes x at a position with no earlier copy of x and keeps the rest in order; entry k of the result is entry Slot(k, i) of the input; one entry and one copy of x fewer |
| `FileNames.IndexOfAppend` | create_grid.py:33 | the first occurrence in a concatenation is in the first part when that part contains x |
| `FileNames.RemoveFirstAppend` | create_grid.py:33 | removing from a concatenation whose first part holds x leaves the second part untouched |
| `FileNames.Truncate` | create_grid.py:34 | the slice has length min(len, cap) and is a prefix of the list |
| `FileNames.TruncateAppend` | create_grid.py:34 | entries after the cut point do not affect the slice |
| `FileNames.SelectFiles` | create_grid.py:28-34 | selection fails exactly when "pfp.jpg" is not among the filtered names; otherwise it has min(len - 1, gridSize*gridSize - 1) entries, and entry k is entry Slot(k, i) of the filtered list, i being the position of its first "pfp.jpg" |
| `FileNames.SelectedAreImages` | create_grid.py:28-34 | every selected file comes from the listing and is an image name |
| `FileNames.TruncationIgnoresExtras` | create_grid.py:28-34 | once the listing fills the grid, more names appended to it do not change the selection |
| `FileNames.FilterDistinct` | create_grid.py:28 | a listing without repeated names gives a filtered list without repeated names |
| `FileNames.RemoveFirstDistinct` | create_grid.py:33 | removing x from a list without repetitions leaves no copy of x and no repetition |
| `FileNames.SelectedDistinct` | create_grid.py:28-34 | from a listing without repeated names, the selected files are all different and do not include "pfp.jpg" |
| `FileNames.CentreNotAmongOthers` | create_grid.py:30-34 | when "pfp.jpg" appears only once in the listing, it is never selected as a non-centre tile |
| `Layout.CentreIndex` | create_grid.py:35 | the reserved index is gridSize*gridSize // 2, which is on the grid |
| `Layout.Slot` | create_grid.py:46-48 | the shifted index is never the centre index, it is before the centre exactly when k is, and it is k or k + 1 |
| `Layout.TileOf` | create_grid.py:46-48 | every non-centre cell is the slot of some image number |
| `Layout.SlotBijection` | create_grid.py:46-48 | slots and image numbers are in one-to-one correspondence over the non-centre cells |
| `Layout.SlotStrictlyIncreasing` | create_grid.py:46-48 | later images get strictly later slots, so images keep their order and no two share a cell |
| `Layout.SlotOnGrid` | create_grid.py:34-48 | every image that survives the truncation is given a slot on the grid |
| `Layout.RowMajor` | create_grid.py:49-50 | cell row*gridSize + col is in row `row` and column `col` |
| `Layout.RowMajorOf` | create_grid.py:49-50 | each index is the row-major index of its own row and column |
| `Layout.RowOnGrid` | create_grid.py:50 | a slot on the grid has its row on the grid |
| `Layout.CellIndexOnGrid` | create_grid.py:43-51 | a cell-sized paste that fits on the canvas starts in a column (or row) of the grid |
| `Layout.Offset` | create_grid.py:49-50 | the paste position of a slot is non-negative and, for cellSize >= 1, cell-aligned, in the slot's column (slot % gridSize) and row (slot // gridSize) |
| `Layout.AlignedInCanvas` | create_grid.py:43-50 | a coordinate k*cellSize with k < gridSize is cell-aligned, and the whole cell fits on the canvas |
| `Layout.OffsetInCanvas` | create_grid.py:43-54 | every slot's paste offset is cell-aligned, its cell fits on the canvas, and the cell it covers is the slot's own row and column |
| `Layout.OffsetInjective` | create_grid.py:49-50 | different slots on the grid are pasted at different offsets |
| `Layout.OddCentreIsMiddle` | create_grid.py:35 | for odd gridSize the reserved index is in row gridSize/2 and column gridSize/2 |
| `Layout.EvenCentreIsNotMiddle` | create_grid.py:35 | for even gridSize the reserved index is in row gridSize/2 and column 0, so it is not the middle |
| `Layout.CentreOffsetIsMiddle` | create_grid.py:53-55 | for odd gridSize the centre image has equal margins to all four canvas edges |
| `Layout.ExpectedStep` | create_grid.py:46-51 | pasting the next image changes what its slot shows, to that image, and no other cell |
| `Layout.SlotHoldsTile` | create_grid.py:46-51 | image k is shown in cell Slot(k, centre) |
| `Layout.TileInOneCell` | create_grid.py:46-51 | when the images differ from each other and from the centre image, image k is shown in a cell if and only if that cell is its slot |
| `Layout.CentreInOneCell` | create_grid.py:53-55 | the centre image is shown in the reserved cell and, when it is not among the other images, in no other cell |
| `Layout.BlankCells` | create_grid.py:44-55 | a non-centre cell stays blank if and only if it is at or after the next free slot |
| `Layout.FullGrid` | create_grid.py:44-55 | with gridSize*gridSize - 1 images no cell of the grid is blank |
| `Layout.ThreeByThree` | create_grid.py:35-55 | the 3x3 layout shows images 0-3, the centre image, then images 4-7, and with 100-pixel cells the centre is at (100, 100) |
| `Compositor.Canvas.constructor` | create_grid.py:43-44 | the new canvas has gridSize x gridSize cells, all blank |
| `Compositor.Canvas.Paste` | create_grid.py:51 | a cell-sized tile pasted at a cell-aligned offset is shown in the cell at (y/cellSize, x/cellSize), and no other cell changes |
| `Compositor.Prepared` | create_grid.py:38 | a prepared image keeps its file's name and is cellSize x cellSize; a square image is only resized |
| `Compositor.PreparedTiles` | create_grid.py:37-40 | one prepared image per selected file, entry k being the k-th file opened, cropped and resized |
| `Compositor.Compose` | create_grid.py:43-55 | after the loop and the centre paste every cell shows what Expected gives it: the cell at row-major index Slot(k, centre) shows image k, the reserved cell the centre image, the rest are blank |
| `Compositor.CreateImageGrid` | create_grid.py:19-55 | fails exactly when "pfp.jpg" is missing among the image names; otherwise the cell of slot k shows the k-th selected file opened, cropped and resized, the reserved cell shows the prepared "pfp.jpg", and every cell is as Expected gives it |
| `Compositor.EachFileInOneCell` | create_grid.py:28-55 | for a listing without repeated names, each selected file is shown in exactly one cell, its slot, and "pfp.jpg" in exactly the reserved cell |

## Left out

- Pixel data is not modelled. This covers decoding in `Image.open`, resampling in
  `resize`, the pixels copied by `crop` and `paste`, the black fill of `Image.new`
  (modelled as `Blank`) and `canvas.save`. They are library calls whose raster content is
  not visible here. Images are modelled by name and dimensions only.
- `os.listdir` and `os.path.join` are file-system I/O. The listing is the `names` parameter,
  in whatever order the platform returns it.
- Files that cannot be opened or decoded are left out. Opening a file is the total
  function parameter `openImage`, so a decode failure cannot be expressed.
- Compositor.EachFileInOneCell: assumes that an opened image records the file it came from
  and that the listing has no repeated names. Two files with equal content would otherwise
  be indistinguishable in the model.
- The `__main__` block only holds hard-coded example paths.
- `str.lower` is modelled for ASCII letters only. Other characters are left as they are.
- `grid_size` and `cell_size` below 1 are not modelled; `CreateImageGrid` requires both to be
  at least 1. With `grid_size` 0, the source slices with `[:-1]` and then takes a remainder
  by zero.
- Compositor.Canvas.Paste: modelled only for cell-sized tiles at cell-aligned offsets inside the
  canvas. The library accepts any offset and clips. `OffsetInCanvas` proves that every paste
  this code makes is of the modelled kind.
- `CreateImageGrid` returns the canvas instead of writing it to `output_path`.
