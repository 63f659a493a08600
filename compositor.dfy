/** The grid compositor (create_image_grid in create_grid.py): a canvas of cells that images
    are pasted into, and the procedure that selects the files, pastes each non-centre image
    into its slot and the centre image into the reserved cell. */
module Compositor {
  import opened Crop
  import opened FileNames
  import opened Layout

  /** The error the procedure raises (FileNotFoundError in the source). */
  datatype GridError = MissingCentreImage

  datatype Result<T> = Success(value: T) | Failure(error: GridError)

  /** The canvas of side gridSize * cellSize pixels, seen cell by cell: each cell records
      the image pasted over it last, or Blank for the new canvas's fill. */
  class Canvas {
    const gridSize: nat
    const cellSize: nat
    const size: nat
    const cells: array2<Owner>

    ghost predicate Valid()
      reads this
    {
      gridSize >= 1 && cellSize >= 1 && size == gridSize * cellSize &&
      cells.Length0 == gridSize && cells.Length1 == gridSize
    }

    /** Image.new: a blank canvas. */
    constructor (gridSize: nat, cellSize: nat)
      requires gridSize >= 1 && cellSize >= 1
      ensures Valid() && fresh(cells)
      ensures this.gridSize == gridSize && this.cellSize == cellSize
      ensures forall row, col :: 0 <= row < gridSize && 0 <= col < gridSize ==> cells[row, col] == Blank
    {
      this.gridSize := gridSize;
      this.cellSize := cellSize;
      this.size := gridSize * cellSize;
      this.cells := new Owner[gridSize, gridSize]((_, _) => Blank);
    }

    /** canvas.paste of a cell-sized tile at a cell-aligned position inside the canvas:
        the tile covers exactly the cell (y / cellSize, x / cellSize), and no other. */
    method Paste(tile: Image, x: int, y: int)
      requires Valid()
      requires tile.width == cellSize && tile.height == cellSize
      requires 0 <= x && x % cellSize == 0 && x + cellSize <= size
      requires 0 <= y && y % cellSize == 0 && y + cellSize <= size
      modifies cells
      ensures y / cellSize < gridSize && x / cellSize < gridSize
      ensures cells[y / cellSize, x / cellSize] == Holds(tile)
      ensures forall row, col :: 0 <= row < gridSize && 0 <= col < gridSize ==>
        (row, col) == (y / cellSize, x / cellSize) || cells[row, col] == old(cells[row, col])
    {
      CellIndexOnGrid(x, gridSize, cellSize);
      CellIndexOnGrid(y, gridSize, cellSize);
      cells[y / cellSize, x / cellSize] := Holds(tile);
    }
  }

  /** One image as it is pasted: crop_to_square, then resize to the cell size. */
  function Prepared(img: Image, cellSize: nat): (r: Image)
    ensures r.name == img.name && r.width == cellSize && r.height == cellSize
    ensures img.width == img.height ==> r == Resize(img, cellSize)
  {
    Resize(CropToSquare(img), cellSize)
  }

  /** The list of prepared images, one per selected file and in the files' order. */
  function PreparedTiles(files: seq<string>, openImage: string -> Image, cellSize: nat): (r: seq<Image>)
    ensures |r| == |files|
    ensures forall k :: 0 <= k < |files| ==> r[k] == Prepared(openImage(files[k]), cellSize)
  {
    if files == [] then []
    else [Prepared(openImage(files[0]), cellSize)] + PreparedTiles(files[1..], openImage, cellSize)
  }

  /** create_image_grid without the file system: `names` is the folder listing and
      `openImage` stands for opening a file. Fails exactly when "pfp.jpg" is not among the
      image names; otherwise the k-th selected file, prepared, is shown in slot k, the
      prepared "pfp.jpg" in the reserved cell, and every other cell is blank. */
  method CreateImageGrid(names: seq<string>, openImage: string -> Image, gridSize: nat, cellSize: nat)
    returns (r: Result<Canvas>)
    requires gridSize >= 1 && cellSize >= 1
    ensures r.Failure? <==> SelectFiles(names, gridSize).None?
    ensures r.Success? ==> fresh(r.value) && fresh(r.value.cells) && r.value.Valid()
    ensures r.Success? ==> r.value.gridSize == gridSize && r.value.cellSize == cellSize
    ensures r.Success? ==> forall row, col :: 0 <= row < gridSize && 0 <= col < gridSize ==>
      r.value.cells[row, col] ==
        Expected(CellIndex(gridSize, row, col), CentreIndex(gridSize),
          PreparedTiles(SelectFiles(names, gridSize).value, openImage, cellSize),
          Prepared(openImage(CentreName), cellSize), true)
    ensures r.Success? ==> var files := SelectFiles(names, gridSize).value;
      forall k, row, col ::
        (0 <= k < |files| && 0 <= row < gridSize && 0 <= col < gridSize &&
         CellIndex(gridSize, row, col) == Slot(k, CentreIndex(gridSize))) ==>
        r.value.cells[row, col] == Holds(Prepared(openImage(files[k]), cellSize))
    ensures r.Success? ==> forall row, col ::
      (0 <= row < gridSize && 0 <= col < gridSize && CellIndex(gridSize, row, col) == CentreIndex(gridSize)) ==>
      r.value.cells[row, col] == Holds(Prepared(openImage(CentreName), cellSize))
  {
    var imageFiles := FilterImages(names);
    if CentreName !in imageFiles {
      return Failure(MissingCentreImage);
    }
    imageFiles := RemoveFirst(imageFiles, CentreName);
    imageFiles := Truncate(imageFiles, Cells(gridSize) - 1);

    var images := PreparedTiles(imageFiles, openImage, cellSize);
    var centreImage := Prepared(openImage(CentreName), cellSize);

    var canvas := Compose(images, centreImage, gridSize, cellSize);
    return Success(canvas);
  }

  /** The canvas part of create_image_grid: a new canvas, each image pasted at the offset of
      its slot (skipping the reserved centre index), then the centre image at that index. */
  method Compose(images: seq<Image>, centreImage: Image, gridSize: nat, cellSize: nat)
    returns (canvas: Canvas)
    requires gridSize >= 1 && cellSize >= 1 && |images| < Cells(gridSize)
    requires forall k :: 0 <= k < |images| ==> images[k].width == cellSize && images[k].height == cellSize
    requires centreImage.width == cellSize && centreImage.height == cellSize
    ensures fresh(canvas) && fresh(canvas.cells) && canvas.Valid()
    ensures canvas.gridSize == gridSize && canvas.cellSize == cellSize
    ensures forall row, col :: 0 <= row < gridSize && 0 <= col < gridSize ==>
      canvas.cells[row, col] == Expected(CellIndex(gridSize, row, col), CentreIndex(gridSize), images, centreImage, true)
    ensures forall k, row, col ::
      (0 <= k < |images| && 0 <= row < gridSize && 0 <= col < gridSize &&
       CellIndex(gridSize, row, col) == Slot(k, CentreIndex(gridSize))) ==>
      canvas.cells[row, col] == Holds(images[k])
    ensures forall row, col ::
      (0 <= row < gridSize && 0 <= col < gridSize && CellIndex(gridSize, row, col) == CentreIndex(gridSize)) ==>
      canvas.cells[row, col] == Holds(centreImage)
  {
    var centreIndex := CentreIndex(gridSize);
    canvas := new Canvas(gridSize, cellSize);

    for k := 0 to |images|
      invariant canvas.Valid() && canvas.gridSize == gridSize && canvas.cellSize == cellSize
      invariant forall row, col :: 0 <= row < gridSize && 0 <= col < gridSize ==>
        canvas.cells[row, col] == Expected(CellIndex(gridSize, row, col), centreIndex, images[..k], centreImage, false)
    {
      var index := k;
      if index >= centreIndex {
        index := index + 1;  // shift past the reserved centre cell
      }
      var x := (index % gridSize) * cellSize;
      var y := (index / gridSize) * cellSize;
      assert index == Slot(k, centreIndex);
      SlotOnGrid(gridSize, k);
      OffsetInCanvas(index, gridSize, cellSize);
      RowMajorOf(gridSize, index);
      canvas.Paste(images[k], x, y);
      assert images[..k + 1] == images[..k] + [images[k]];
      forall row, col | 0 <= row < gridSize && 0 <= col < gridSize
        ensures canvas.cells[row, col] == Expected(CellIndex(gridSize, row, col), centreIndex, images[..k + 1], centreImage, false)
      {
        var cell := CellIndex(gridSize, row, col);
        RowMajor(gridSize, row, col);
        ExpectedStep(cell, centreIndex, images[..k], images[k], centreImage);
        if (row, col) == (index / gridSize, index % gridSize) {
          assert cell == index;
        } else {
          assert cell != index;
        }
      }
    }

    var centreX := (centreIndex % gridSize) * cellSize;
    var centreY := (centreIndex / gridSize) * cellSize;
    OffsetInCanvas(centreIndex, gridSize, cellSize);
    RowMajorOf(gridSize, centreIndex);
    canvas.Paste(centreImage, centreX, centreY);
    assert images[..|images|] == images;
    forall row, col | 0 <= row < gridSize && 0 <= col < gridSize
      ensures canvas.cells[row, col] == Expected(CellIndex(gridSize, row, col), centreIndex, images, centreImage, true)
    {
      var cell := CellIndex(gridSize, row, col);
      RowMajor(gridSize, row, col);
      if (row, col) == (centreIndex / gridSize, centreIndex % gridSize) {
        assert cell == centreIndex;
      } else {
        assert cell != centreIndex;
      }
    }
    forall k, row, col | 0 <= k < |images| && 0 <= row < gridSize && 0 <= col < gridSize &&
      CellIndex(gridSize, row, col) == Slot(k, centreIndex)
      ensures canvas.cells[row, col] == Holds(images[k])
    {
      SlotHoldsTile(k, centreIndex, images, centreImage, true);
    }
  }

  /** For a folder listing without repeated names, and images that remember the file they
      were opened from, each selected file is shown in exactly one cell, its slot, and
      "pfp.jpg" in exactly one cell, the reserved one. */
  lemma EachFileInOneCell(names: seq<string>, openImage: string -> Image, gridSize: nat, cellSize: nat,
                          k: nat, cell: nat)
    requires gridSize >= 1 && Distinct(names) && CentreName in FilterImages(names)
    requires forall f :: openImage(f).name == f
    requires k < |SelectFiles(names, gridSize).value|
    ensures var tiles := PreparedTiles(SelectFiles(names, gridSize).value, openImage, cellSize);
      Expected(cell, CentreIndex(gridSize), tiles, Prepared(openImage(CentreName), cellSize), true) == Holds(tiles[k])
      <==> cell == Slot(k, CentreIndex(gridSize))
    ensures var tiles := PreparedTiles(SelectFiles(names, gridSize).value, openImage, cellSize);
      var centreImage := Prepared(openImage(CentreName), cellSize);
      Expected(cell, CentreIndex(gridSize), tiles, centreImage, true) == Holds(centreImage)
      <==> cell == CentreIndex(gridSize)
  {
    var files := SelectFiles(names, gridSize).value;
    var tiles := PreparedTiles(files, openImage, cellSize);
    var centreImage := Prepared(openImage(CentreName), cellSize);
    SelectedDistinct(names, gridSize);
    forall i, j | 0 <= i < j < |tiles| ensures tiles[i] != tiles[j] {
      assert tiles[i].name == files[i] && tiles[j].name == files[j];
    }
    forall i | 0 <= i < |tiles| ensures tiles[i] != centreImage {
      assert tiles[i].name == files[i] && centreImage.name == CentreName;
    }
    TileInOneCell(cell, CentreIndex(gridSize), tiles, centreImage, true, k);
    CentreInOneCell(cell, CentreIndex(gridSize), tiles, centreImage);
  }
}
