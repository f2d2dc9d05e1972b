/**
 The height map of a requested sub-chunk (bedrock/chunk_heightmap.go): each of
 256 columns is above, below or inside the 16 blocks of the sub-chunk.
 */
module HeightMap {
  import opened Options

  const SIZE: nat := 16

  /** The highest block of each column, by x and then z. */
  type Heights = h: seq<seq<int>> | |h| == SIZE && forall x :: 0 <= x < SIZE ==> |h[x]| == SIZE
    witness seq(SIZE, x => seq(SIZE, z => 0))

  datatype MapType = TooHigh | TooLow | HasData

  datatype HeightData = HeightData(mapType: MapType, data: Option<seq<int>>)

  /** Above reads 16, below reads -1, inside reads the height within the sub-chunk. */
  function Class(height: int, subY: int): int {
    if height > SIZE * subY + (SIZE - 1) then SIZE
    else if height < SIZE * subY then -1
    else height - SIZE * subY
  }

  /** What the client reads for a column. */
  function Read(h: HeightData, x: nat, z: nat): int
    requires x < SIZE && z < SIZE
    requires h.mapType == HasData ==> h.data.Some? && |h.data.value| == SIZE * SIZE
  {
    match h.mapType
    case TooHigh => SIZE
    case TooLow => -1
    case HasData => h.data.value[z * SIZE + x]
  }

  /** The columns before (x, z) in the order of the loops are filled in. */
  predicate Filled(data: seq<int>, heights: Heights, subY: int, x: nat, z: nat) {
    && |data| == SIZE * SIZE
    && forall i, j :: 0 <= i < SIZE && 0 <= j < SIZE && (i < x || (i == x && j < z)) ==>
         data[j * SIZE + i] == Class(heights[i][j], subY)
  }

  /** What the loops have found out before column (x, z). */
  predicate Scanned(data: seq<int>, heights: Heights, subY: int, x: nat, z: nat, allAbove: bool, allBelow: bool) {
    && Filled(data, heights, subY, x, z)
    && (allAbove <==> AllClass(heights, subY, x, z, SIZE))
    && (allBelow <==> AllClass(heights, subY, x, z, -1))
  }

  lemma OneMoreScanned(data: seq<int>, heights: Heights, subY: int, x: nat, z: nat, allAbove: bool, allBelow: bool)
    requires x < SIZE && z < SIZE && Scanned(data, heights, subY, x, z, allAbove, allBelow)
    ensures var reading := Class(heights[x][z], subY);
            Scanned(data[z * SIZE + x := reading], heights, subY, x, z + 1,
                    allAbove && reading == SIZE, allBelow && reading == -1)
  {
    OneMoreFilled(data, heights, subY, x, z);
    OneMoreClass(heights, subY, x, z, SIZE);
    OneMoreClass(heights, subY, x, z, -1);
  }

  lemma NextRow(data: seq<int>, heights: Heights, subY: int, x: nat, allAbove: bool, allBelow: bool)
    requires x < SIZE && Scanned(data, heights, subY, x, SIZE, allAbove, allBelow)
    ensures Scanned(data, heights, subY, x + 1, 0, allAbove, allBelow)
  {
  }

  predicate AllClass(heights: Heights, subY: int, x: nat, z: nat, reading: int) {
    forall i, j :: 0 <= i < SIZE && 0 <= j < SIZE && (i < x || (i == x && j < z)) ==>
      Class(heights[i][j], subY) == reading
  }

  /** Every column reads its class, whether or not data is sent; data is left out exactly when
      all columns are above or all are below. */
  method SubChunkHeightMap(heights: Heights, subY: int) returns (h: HeightData)
    ensures h.mapType == HasData <==> h.data.Some?
    ensures h.mapType == HasData ==>
              && |h.data.value| == SIZE * SIZE
              && forall x, z :: 0 <= x < SIZE && 0 <= z < SIZE ==>
                   h.data.value[z * SIZE + x] == Class(heights[x][z], subY)
    ensures forall x, z :: 0 <= x < SIZE && 0 <= z < SIZE ==> Read(h, x, z) == Class(heights[x][z], subY)
    ensures h.mapType == TooHigh <==> AllClass(heights, subY, SIZE, 0, SIZE)
    ensures h.mapType == TooLow <==> AllClass(heights, subY, SIZE, 0, -1)
  {
    var baseY := subY * SIZE;
    var topY := baseY + SIZE - 1;
    var data := new int[SIZE * SIZE](i => 0);
    var allAbove, allBelow := true, true;
    for x := 0 to SIZE
      invariant Scanned(data[..], heights, subY, x, 0, allAbove, allBelow)
    {
      for z := 0 to SIZE
        invariant Scanned(data[..], heights, subY, x, z, allAbove, allBelow)
      {
        var height := heights[x][z];
        var index := z * SIZE + x;
        ghost var before := data[..];
        OneMoreScanned(before, heights, subY, x, z, allAbove, allBelow);
        if height > topY {
          data[index] := SIZE;
          allBelow := false;
        } else if height < baseY {
          data[index] := -1;
          allAbove := false;
        } else {
          data[index] := height - baseY;
          allAbove, allBelow := false, false;
        }
        assert data[..] == before[index := Class(height, subY)];
      }
      NextRow(data[..], heights, subY, x, allAbove, allBelow);
    }
    if allAbove {
      assert Class(heights[0][0], subY) == SIZE;
      return HeightData(TooHigh, None);
    }
    if allBelow {
      assert Class(heights[0][0], subY) == -1;
      return HeightData(TooLow, None);
    }
    return HeightData(HasData, Some(data[..]));
  }

  lemma OneMoreFilled(data: seq<int>, heights: Heights, subY: int, x: nat, z: nat)
    requires x < SIZE && z < SIZE && Filled(data, heights, subY, x, z)
    ensures Filled(data[z * SIZE + x := Class(heights[x][z], subY)], heights, subY, x, z + 1)
  {
  }

  lemma OneMoreClass(heights: Heights, subY: int, x: nat, z: nat, reading: int)
    requires x < SIZE && z < SIZE
    ensures AllClass(heights, subY, x, z + 1, reading) <==>
            AllClass(heights, subY, x, z, reading) && Class(heights[x][z], subY) == reading
  {
  }

  /** Over all sub-chunks exactly one reads a column inside itself, and there the reading
      locates the height; lower sub-chunks read above, higher ones below. */
  lemma ExactlyOneSubChunkHoldsTheHeight(height: int, subY: int)
    ensures 0 <= Class(height, subY) < SIZE <==> subY == height / SIZE
    ensures subY == height / SIZE ==> SIZE * subY + Class(height, subY) == height
    ensures subY < height / SIZE <==> Class(height, subY) == SIZE
    ensures subY > height / SIZE <==> Class(height, subY) == -1
  {
  }
}
