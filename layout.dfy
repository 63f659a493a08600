/** Where each image goes on the canvas (create_grid.py, lines 35 and 43-55): the reserved
    centre index, the slot of the k-th non-centre image, row-major pixel offsets, and the
    owner every cell of the finished canvas is expected to have. */
module Layout {
  import opened Crop

  /** Number of cells of a gridSize x gridSize grid. */
  function Cells(gridSize: nat): (n: nat)
    ensures 1 <= gridSize ==> gridSize <= n
  {
    gridSize * gridSize
  }

  /** center_index = grid_size * grid_size // 2: the reserved slot, always on the grid. */
  function CentreIndex(gridSize: nat): (c: nat)
    requires gridSize >= 1
    ensures c < Cells(gridSize)
    ensures 2 * c <= Cells(gridSize) < 2 * c + 2
  {
    Cells(gridSize) / 2
  }

  /** The slot of the k-th non-centre image: indices from the centre on shift up by one. */
  function Slot(k: nat, centre: nat): (s: nat)
    ensures s != centre
    ensures s < centre <==> k < centre
    ensures k <= s <= k + 1
  {
    if k >= centre then k + 1 else k
  }

  /** Which non-centre image a non-centre slot holds: the inverse of Slot. */
  function TileOf(cell: nat, centre: nat): (k: nat)
    requires cell != centre
    ensures Slot(k, centre) == cell
  {
    if cell > centre then cell - 1 else cell
  }

  /** Slot is a bijection from image numbers onto the non-centre slots. */
  lemma SlotBijection(k: nat, cell: nat, centre: nat)
    ensures TileOf(Slot(k, centre), centre) == k
    ensures cell != centre ==> (Slot(k, centre) == cell <==> TileOf(cell, centre) == k)
  {
  }

  /** Slots grow with the image number, so images keep their order and no two share a cell. */
  lemma SlotStrictlyIncreasing(j: nat, k: nat, centre: nat)
    requires j < k
    ensures Slot(j, centre) < Slot(k, centre)
  {
  }

  /** Every image the loop places (k < gridSize*gridSize - 1) lands on the grid. */
  lemma SlotOnGrid(gridSize: nat, k: nat)
    requires gridSize >= 1 && k + 1 < Cells(gridSize)
    ensures Slot(k, CentreIndex(gridSize)) < Cells(gridSize)
  {
  }

  /** Integer division and remainder are determined by any decomposition a == q*d + r with
      0 <= r < d. */
  lemma DivModUnique(a: int, d: int, q: int, r: int)
    requires d > 0 && 0 <= r < d && a == q * d + r
    ensures a / d == q && a % d == r
  {
    var e := q - a / d;
    assert e * d == a % d - r;
    ZeroMultiple(e, d);
  }

  lemma ZeroMultiple(e: int, d: int)
    requires d > 0 && -d < e * d < d
    ensures e == 0
  {
    if e > 0 {
      MulMono(1, e, d);
    } else if e < 0 {
      MulMono(e, -1, d);
    }
  }

  lemma MulMono(a: int, b: int, d: int)
    requires a <= b && d >= 0
    ensures a * d <= b * d
  {
  }

  /** The row-major index of the cell in row `row`, column `col`. */
  function CellIndex(gridSize: nat, row: nat, col: nat): nat {
    row * gridSize + col
  }

  /** Row-major order: the cell's index gives back its row and column. */
  lemma RowMajor(gridSize: nat, row: nat, col: nat)
    requires col < gridSize
    ensures CellIndex(gridSize, row, col) / gridSize == row
    ensures CellIndex(gridSize, row, col) % gridSize == col
  {
    DivModUnique(row * gridSize + col, gridSize, row, col);
  }

  /** Every index is the row-major index of its row and column. */
  lemma RowMajorOf(gridSize: nat, slot: nat)
    requires gridSize >= 1
    ensures CellIndex(gridSize, slot / gridSize, slot % gridSize) == slot
  {
  }

  /** A slot on the grid has a row inside the grid. */
  lemma RowOnGrid(gridSize: nat, slot: nat)
    requires gridSize >= 1 && slot < Cells(gridSize)
    ensures slot / gridSize < gridSize
  {
  }

  /** A pasted cell that fits on the canvas starts in a cell of the grid. */
  lemma CellIndexOnGrid(x: int, gridSize: nat, cellSize: nat)
    requires 0 <= x && cellSize >= 1 && x + cellSize <= gridSize * cellSize
    ensures x / cellSize < gridSize
  {
    var q := x / cellSize;
    assert q * cellSize <= x;
    if q >= gridSize {
      MulMono(gridSize, q, cellSize);
    }
  }

  /** A pixel position on the canvas. */
  datatype Point = Point(x: int, y: int)

  /** A multiple of the cell size is cell aligned and gives back its factor. */
  lemma MultipleOf(k: nat, cellSize: nat)
    ensures cellSize >= 1 ==> k * cellSize % cellSize == 0 && k * cellSize / cellSize == k
  {
    if cellSize >= 1 {
      DivModUnique(k * cellSize, cellSize, k, 0);
    }
  }

  /** The paste position of a slot, from its column slot % gridSize and its row
      slot // gridSize: a cell-aligned point in the slot's own column and row. */
  function Offset(slot: nat, gridSize: nat, cellSize: nat): (p: Point)
    requires gridSize >= 1
    ensures 0 <= p.x && 0 <= p.y
    ensures cellSize >= 1 ==>
      p.x % cellSize == 0 && p.x / cellSize == slot % gridSize &&
      p.y % cellSize == 0 && p.y / cellSize == slot / gridSize
  {
    MultipleOf(slot % gridSize, cellSize);
    MultipleOf(slot / gridSize, cellSize);
    Point((slot % gridSize) * cellSize, (slot / gridSize) * cellSize)
  }

  /** A coordinate k * cellSize with k < gridSize is cell aligned and the whole cell fits
      on a canvas of side gridSize * cellSize. */
  lemma AlignedInCanvas(k: nat, gridSize: nat, cellSize: nat)
    requires k < gridSize && cellSize >= 1
    ensures k * cellSize % cellSize == 0 && k * cellSize / cellSize == k
    ensures k * cellSize + cellSize <= gridSize * cellSize
  {
    MultipleOf(k, cellSize);
    MulMono(k + 1, gridSize, cellSize);
  }

  /** Every slot on the grid is pasted at a cell-aligned position whose cell lies wholly
      on the canvas, and the cell it covers is the slot's own row and column. */
  lemma OffsetInCanvas(slot: nat, gridSize: nat, cellSize: nat)
    requires gridSize >= 1 && cellSize >= 1 && slot < Cells(gridSize)
    ensures var p := Offset(slot, gridSize, cellSize);
      0 <= p.x && p.x % cellSize == 0 && p.x / cellSize == slot % gridSize &&
      p.x + cellSize <= gridSize * cellSize &&
      0 <= p.y && p.y % cellSize == 0 && p.y / cellSize == slot / gridSize &&
      p.y + cellSize <= gridSize * cellSize
  {
    RowOnGrid(gridSize, slot);
    AlignedInCanvas(slot % gridSize, gridSize, cellSize);
    AlignedInCanvas(slot / gridSize, gridSize, cellSize);
  }

  /** Different slots on the grid are pasted at different positions. */
  lemma OffsetInjective(s: nat, t: nat, gridSize: nat, cellSize: nat)
    requires gridSize >= 1 && cellSize >= 1
    requires s < Cells(gridSize) && t < Cells(gridSize)
    ensures Offset(s, gridSize, cellSize) == Offset(t, gridSize, cellSize) ==> s == t
  {
    if Offset(s, gridSize, cellSize) == Offset(t, gridSize, cellSize) {
      OffsetInCanvas(s, gridSize, cellSize);
      OffsetInCanvas(t, gridSize, cellSize);
      assert s % gridSize == t % gridSize && s / gridSize == t / gridSize;
      calc {
        s;
        (s / gridSize) * gridSize + s % gridSize;
        (t / gridSize) * gridSize + t % gridSize;
        t;
      }
    }
  }

  /** For an odd grid size the reserved index is the geometric middle cell. */
  lemma OddCentreIsMiddle(gridSize: nat)
    requires gridSize % 2 == 1
    ensures CentreIndex(gridSize) / gridSize == gridSize / 2
    ensures CentreIndex(gridSize) % gridSize == gridSize / 2
  {
    var m := gridSize / 2;
    assert gridSize == 2 * m + 1;
    assert Cells(gridSize) == 2 * (m * gridSize + m) + 1 by {
      assert gridSize * gridSize == (2 * m + 1) * gridSize == 2 * m * gridSize + gridSize;
    }
    DivModUnique(Cells(gridSize), 2, m * gridSize + m, 1);
    DivModUnique(m * gridSize + m, gridSize, m, m);
  }

  /** For an even grid size it is not: the reserved cell is the first cell of row gridSize/2. */
  lemma EvenCentreIsNotMiddle(gridSize: nat)
    requires gridSize >= 2 && gridSize % 2 == 0
    ensures CentreIndex(gridSize) / gridSize == gridSize / 2
    ensures CentreIndex(gridSize) % gridSize == 0
  {
    var m := gridSize / 2;
    assert Cells(gridSize) == 2 * (m * gridSize) by {
      assert gridSize * gridSize == (2 * m) * gridSize;
    }
    DivModUnique(Cells(gridSize), 2, m * gridSize, 0);
    DivModUnique(m * gridSize, gridSize, m, 0);
  }

  /** For an odd grid size the centre image is pasted with equal margins on every side. */
  lemma CentreOffsetIsMiddle(gridSize: nat, cellSize: nat)
    requires gridSize % 2 == 1 && cellSize >= 1
    ensures var p := Offset(CentreIndex(gridSize), gridSize, cellSize);
      p.x == p.y && p.x == gridSize * cellSize - (p.x + cellSize)
  {
    OddCentreIsMiddle(gridSize);
    var m := gridSize / 2;
    assert gridSize * cellSize == 2 * (m * cellSize) + cellSize by {
      assert gridSize * cellSize == (2 * m + 1) * cellSize;
    }
  }

  /** What a cell of the canvas shows: the blank fill of the new canvas, or the image that
      was pasted over it last. */
  datatype Owner = Blank | Holds(img: Image)

  /** What a cell shows once the images `placed` are pasted in order, and the centre image
      too when `centreDone`; every other cell keeps the blank of the new canvas. */
  function Expected(cell: nat, centre: nat, placed: seq<Image>, centreImage: Image, centreDone: bool): Owner {
    if cell == centre then (if centreDone then Holds(centreImage) else Blank)
    else if TileOf(cell, centre) < |placed| then Holds(placed[TileOf(cell, centre)])
    else Blank
  }

  /** Pasting the next image changes exactly its slot. */
  lemma ExpectedStep(cell: nat, centre: nat, placed: seq<Image>, img: Image, centreImage: Image)
    ensures Expected(cell, centre, placed + [img], centreImage, false) ==
      if cell == Slot(|placed|, centre) then Holds(img) else Expected(cell, centre, placed, centreImage, false)
  {
  }

  /** Image k is shown in its slot. */
  lemma SlotHoldsTile(k: nat, centre: nat, placed: seq<Image>, centreImage: Image, done: bool)
    requires k < |placed|
    ensures Expected(Slot(k, centre), centre, placed, centreImage, done) == Holds(placed[k])
  {
    SlotBijection(k, 0, centre);
  }

  /** No two entries of s are equal. */
  predicate Distinct<T(==)>(s: seq<T>) {
    forall i, j :: 0 <= i < j < |s| ==> s[i] != s[j]
  }

  /** In a sequence without repetitions an entry determines its position. */
  lemma DistinctIndex<T>(s: seq<T>, i: nat, j: nat)
    requires Distinct(s) && i < |s| && j < |s| && s[i] == s[j]
    ensures i == j
  {
  }

  /** When the images differ from each other and from the centre image, each placed image
      is shown in exactly one cell, its slot. */
  lemma TileInOneCell(cell: nat, centre: nat, placed: seq<Image>, centreImage: Image, done: bool, k: nat)
    requires k < |placed| && Distinct(placed) && centreImage !in placed
    ensures Expected(cell, centre, placed, centreImage, done) == Holds(placed[k]) <==> cell == Slot(k, centre)
  {
    SlotBijection(k, cell, centre);
    if cell != centre && Expected(cell, centre, placed, centreImage, done) == Holds(placed[k]) {
      DistinctIndex(placed, TileOf(cell, centre), k);
    }
  }

  /** The centre image is shown in the reserved cell, and nowhere else unless it is also
      among the placed images. */
  lemma CentreInOneCell(cell: nat, centre: nat, placed: seq<Image>, centreImage: Image)
    ensures Expected(centre, centre, placed, centreImage, true) == Holds(centreImage)
    ensures centreImage !in placed ==>
      (Expected(cell, centre, placed, centreImage, true) == Holds(centreImage) <==> cell == centre)
  {
  }

  /** With fewer images than cells, the blank cells are exactly the non-centre cells from
      the next free slot on: earlier cells are all filled, later ones all blank. */
  lemma BlankCells(cell: nat, centre: nat, placed: seq<Image>, centreImage: Image)
    requires cell != centre
    ensures Expected(cell, centre, placed, centreImage, true) == Blank <==> cell >= Slot(|placed|, centre)
  {
  }

  /** With exactly gridSize*gridSize - 1 images the grid is full: no cell is blank. */
  lemma FullGrid(gridSize: nat, cell: nat, placed: seq<Image>, centreImage: Image)
    requires gridSize >= 1 && cell < Cells(gridSize) && |placed| == Cells(gridSize) - 1
    ensures Expected(cell, CentreIndex(gridSize), placed, centreImage, true) != Blank
  {
  }

  /** The 3x3 grid of eight images and a centre image, with 100-pixel cells: images 0-3 fill
      the first row and the left of the middle row, the centre image sits at pixel
      (100, 100), and images 4-7 follow it. */
  lemma ThreeByThree(images: seq<Image>, centreImage: Image)
    requires |images| == 8
    ensures CentreIndex(3) == 4
    ensures seq(9, i requires 0 <= i => Expected(i, 4, images, centreImage, true)) ==
      [Holds(images[0]), Holds(images[1]), Holds(images[2]), Holds(images[3]), Holds(centreImage),
       Holds(images[4]), Holds(images[5]), Holds(images[6]), Holds(images[7])]
    ensures Offset(4, 3, 100) == Point(100, 100)
  {
  }
}
