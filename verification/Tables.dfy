/** The constant tables of tables.go, kept in rows as the source lays them out. */
module Tables {

  const ZIGZAG_ROWS: seq<seq<int>> := [
    [0, 1, 5, 6, 14, 15, 27, 28],
    [2, 4, 7, 13, 16, 26, 29, 42],
    [3, 8, 12, 17, 25, 30, 41, 43],
    [9, 11, 18, 24, 31, 40, 44, 53],
    [10, 19, 23, 32, 39, 45, 52, 54],
    [20, 22, 33, 38, 46, 51, 55, 60],
    [21, 34, 37, 47, 50, 56, 59, 61],
    [35, 36, 48, 49, 57, 58, 62, 63]]

  const DEZIGZAG_ROWS: seq<seq<int>> := [
    [0, 1, 8, 16, 9, 2, 3, 10],
    [17, 24, 32, 25, 18, 11, 4, 5],
    [12, 19, 26, 33, 40, 48, 41, 34],
    [27, 20, 13, 6, 7, 14, 21, 28],
    [35, 42, 49, 56, 57, 50, 43, 36],
    [29, 22, 15, 23, 30, 37, 44, 51],
    [58, 59, 52, 45, 38, 31, 39, 46],
    [53, 60, 61, 54, 47, 55, 62, 63]]

  function Zigzag(i: nat): (z: int)
    requires i < 64
    ensures 0 <= z < 64
  {
    ZIGZAG_ROWS[i / 8][i % 8]
  }

  function Dezigzag(i: nat): (z: int)
    requires i < 64
    ensures 0 <= z < 64
  {
    DEZIGZAG_ROWS[i / 8][i % 8]
  }

  /** The two scan orders are inverse permutations. */
  lemma ScanOrdersInvert(i: nat)
    requires i < 64
    ensures Zigzag(Dezigzag(i)) == i && Dezigzag(Zigzag(i)) == i
  {
    ScanInverse(i);
    ScanInverseBack(i);
  }

  lemma ScanInverse(i: nat)
    requires i < 64
    ensures Zigzag(Dezigzag(i)) == i
  {
    hide Zigzag, Dezigzag;
    if i < 32 { ScanFirstHalf(i); } else { ScanSecondHalf(i); }
  }

  lemma ScanFirstHalf(i: nat)
    requires i < 32
    ensures Zigzag(Dezigzag(i)) == i
  {
  }

  lemma ScanSecondHalf(i: nat)
    requires 32 <= i < 64
    ensures Zigzag(Dezigzag(i)) == i
  {
  }

  lemma ScanInverseBack(i: nat)
    requires i < 64
    ensures Dezigzag(Zigzag(i)) == i
  {
    hide Zigzag, Dezigzag;
    if i < 32 { ScanBackFirstHalf(i); } else { ScanBackSecondHalf(i); }
  }

  lemma ScanBackFirstHalf(i: nat)
    requires i < 32
    ensures Dezigzag(Zigzag(i)) == i
  {
  }

  lemma ScanBackSecondHalf(i: nat)
    requires 32 <= i < 64
    ensures Dezigzag(Zigzag(i)) == i
  {
  }

  /* The order as T.81 draws it: along the diagonals of an 8x8 block, up and right on even ones, down and left on
     odd ones, turning at the edges. */

  function ScanStep(p: nat): nat {
    var row, col := p / 8, p % 8;
    if (row + col) % 2 == 0 then (if col == 7 then p + 8 else if row == 0 then p + 1 else p - 7)
    else (if row == 7 then p + 1 else if col == 0 then p + 8 else p + 7)
  }

  /** The cell that the scan reaches after i steps from the first. */
  function ScanCell(i: nat): nat { if i == 0 then 0 else ScanStep(ScanCell(i - 1)) }

  /** The table walks along the diagonals. */
  lemma DezigzagWalks(i: nat)
    requires i < 63
    ensures Dezigzag(i + 1) == ScanStep(Dezigzag(i))
  {
    hide ScanStep, Dezigzag;
    if i < 16 { WalkFirst(i); } else if i < 32 { WalkSecond(i); }
    else if i < 48 { WalkThird(i); } else { WalkFourth(i); }
  }

  lemma WalkFirst(i: nat)
    requires i < 16
    ensures Dezigzag(i + 1) == ScanStep(Dezigzag(i))
  {
  }

  lemma WalkSecond(i: nat)
    requires 16 <= i < 32
    ensures Dezigzag(i + 1) == ScanStep(Dezigzag(i))
  {
  }

  lemma WalkThird(i: nat)
    requires 32 <= i < 48
    ensures Dezigzag(i + 1) == ScanStep(Dezigzag(i))
  {
  }

  lemma WalkFourth(i: nat)
    requires 48 <= i < 63
    ensures Dezigzag(i + 1) == ScanStep(Dezigzag(i))
  {
  }

  lemma {:induction false} DezigzagIsScan(i: nat)
    requires i < 64
    ensures Dezigzag(i) == ScanCell(i)
  {
    hide Dezigzag, ScanStep;
    if i > 0 {
      DezigzagIsScan(i - 1);
      DezigzagWalks(i - 1);
    } else {
      ScanStarts();
    }
  }

  lemma ScanStarts()
    ensures Dezigzag(0) == 0
  {
  }

  /** A table kept in rows of the given width, read as one list of n entries. */
  function Flatten<T>(rows: seq<seq<T>>, width: nat, n: nat): (s: seq<T>)
    requires width > 0 && forall i :: 0 <= i < n ==> i / width < |rows| && i % width < |rows[i / width]|
    ensures |s| == n && forall i :: 0 <= i < n ==> s[i] == rows[i / width][i % width]
  {
    seq(n, i requires 0 <= i < n => rows[i / width][i % width])
  }

  /** A Huffman table as handed to loadHuffmanTable: code counts per length, symbols, (bound, length) pairs. */
  datatype Code = Code(counts: seq<nat>, values: seq<int>, thresholds: seq<(int, int)>)

  const DC_LUMA_COUNTS: seq<nat> := [0, 0, 1, 5, 1, 1, 1, 1, 1, 1, 0, 0, 0, 0, 0, 0, 0]
  const DC_LUMA_VALUES: seq<seq<int>> := [
    [0, 1, 2, 3, 4, 5, 6, 7, 8, 9, 10, 11]]
  const DC_LUMA_BOUNDS: seq<seq<(int, int)>> := [
    [(0, 0), (16384, 2), (24576, 3), (32768, 3), (40960, 3), (49152, 3), (57344, 3)],
    [(61440, 4), (63488, 5), (64512, 6), (65024, 7), (65280, 8), (65535, 9)]]
  const DC_LUMA: Code :=
    Code(DC_LUMA_COUNTS, Flatten(DC_LUMA_VALUES, 12, 12), Flatten(DC_LUMA_BOUNDS, 7, 13))

  const DC_CHROMA_COUNTS: seq<nat> := [0, 0, 3, 1, 1, 1, 1, 1, 1, 1, 1, 1, 0, 0, 0, 0, 0]
  const DC_CHROMA_VALUES: seq<seq<int>> := [
    [0, 1, 2, 3, 4, 5, 6, 7, 8, 9, 10, 11]]
  const DC_CHROMA_BOUNDS: seq<seq<(int, int)>> := [
    [(0, 0), (16384, 2), (32768, 2), (49152, 2), (57344, 3), (61440, 4), (63488, 5)],
    [(64512, 6), (65024, 7), (65280, 8), (65408, 9), (65472, 10), (65535, 11)]]
  const DC_CHROMA: Code :=
    Code(DC_CHROMA_COUNTS, Flatten(DC_CHROMA_VALUES, 12, 12), Flatten(DC_CHROMA_BOUNDS, 7, 13))

  const AC_LUMA_COUNTS: seq<nat> := [0, 0, 2, 1, 3, 3, 2, 4, 3, 5, 5, 4, 4, 0, 0, 1, 125]
  const AC_LUMA_VALUES: seq<seq<int>> := [
    [1, 2, 3, 0, 4, 17, 5, 18],
    [33, 49, 65, 6, 19, 81, 97, 7],
    [34, 113, 20, 50, 129, 145, 161, 8],
    [35, 66, 177, 193, 21, 82, 209, 240],
    [36, 51, 98, 114, 130, 9, 10, 22],
    [23, 24, 25, 26, 37, 38, 39, 40],
    [41, 42, 52, 53, 54, 55, 56, 57],
    [58, 67, 68, 69, 70, 71, 72, 73],
    [74, 83, 84, 85, 86, 87, 88, 89],
    [90, 99, 100, 101, 102, 103, 104, 105],
    [106, 115, 116, 117, 118, 119, 120, 121],
    [122, 131, 132, 133, 134, 135, 136, 137],
    [138, 146, 147, 148, 149, 150, 151, 152],
    [153, 154, 162, 163, 164, 165, 166, 167],
    [168, 169, 170, 178, 179, 180, 181, 182],
    [183, 184, 185, 186, 194, 195, 196, 197],
    [198, 199, 200, 201, 202, 210, 211, 212],
    [213, 214, 215, 216, 217, 218, 225, 226],
    [227, 228, 229, 230, 231, 232, 233, 234],
    [241, 242, 243, 244, 245, 246, 247, 248],
    [249, 250]]
  const AC_LUMA_BOUNDS: seq<seq<(int, int)>> := [
    [(0, 0), (16384, 2), (32768, 2), (40960, 3), (45056, 4), (49152, 4), (53248, 4)],
    [(55296, 5), (57344, 5), (59392, 5), (60416, 6), (61440, 6), (61952, 7), (62464, 7)],
    [(62976, 7), (63488, 7), (63744, 8), (64000, 8), (64256, 8), (64384, 9), (64512, 9)],
    [(64640, 9), (64768, 9), (64896, 9), (64960, 10), (65024, 10), (65088, 10), (65152, 10)],
    [(65216, 10), (65248, 11), (65280, 11), (65312, 11), (65344, 11), (65360, 12), (65376, 12)],
    [(65392, 12), (65408, 12), (65410, 15), (65535, 16)]]
  const AC_LUMA: Code :=
    Code(AC_LUMA_COUNTS, Flatten(AC_LUMA_VALUES, 8, 162), Flatten(AC_LUMA_BOUNDS, 7, 39))

  const AC_CHROMA_COUNTS: seq<nat> := [0, 0, 2, 1, 2, 4, 4, 3, 4, 7, 5, 4, 4, 0, 1, 2, 119]
  const AC_CHROMA_VALUES: seq<seq<int>> := [
    [0, 1, 2, 3, 17, 4, 5, 33],
    [49, 6, 18, 65, 81, 7, 97, 113],
    [19, 34, 50, 129, 8, 20, 66, 145],
    [161, 177, 193, 9, 35, 51, 82, 240],
    [21, 98, 114, 209, 10, 22, 36, 52],
    [225, 37, 241, 23, 24, 25, 26, 38],
    [39, 40, 41, 42, 53, 54, 55, 56],
    [57, 58, 67, 68, 69, 70, 71, 72],
    [73, 74, 83, 84, 85, 86, 87, 88],
    [89, 90, 99, 100, 101, 102, 103, 104],
    [105, 106, 115, 116, 117, 118, 119, 120],
    [121, 122, 130, 131, 132, 133, 134, 135],
    [136, 137, 138, 146, 147, 148, 149, 150],
    [151, 152, 153, 154, 162, 163, 164, 165],
    [166, 167, 168, 169, 170, 178, 179, 180],
    [181, 182, 183, 184, 185, 186, 194, 195],
    [196, 197, 198, 199, 200, 201, 202, 210],
    [211, 212, 213, 214, 215, 216, 217, 218],
    [226, 227, 228, 229, 230, 231, 232, 233],
    [234, 242, 243, 244, 245, 246, 247, 248],
    [249, 250]]
  const AC_CHROMA_BOUNDS: seq<seq<(int, int)>> := [
    [(0, 0), (16384, 2), (32768, 2), (40960, 3), (45056, 4), (49152, 4), (51200, 5)],
    [(53248, 5), (55296, 5), (57344, 5), (58368, 6), (59392, 6), (60416, 6), (61440, 6)],
    [(61952, 7), (62464, 7), (62976, 7), (63232, 8), (63488, 8), (63744, 8), (64000, 8)],
    [(64128, 9), (64256, 9), (64384, 9), (64512, 9), (64640, 9), (64768, 9), (64896, 9)],
    [(64960, 10), (65024, 10), (65088, 10), (65152, 10), (65216, 10), (65248, 11), (65280, 11)],
    [(65312, 11), (65344, 11), (65360, 12), (65376, 12), (65392, 12), (65408, 12), (65412, 14)],
    [(65414, 15), (65416, 15), (65535, 16)]]
  const AC_CHROMA: Code :=
    Code(AC_CHROMA_COUNTS, Flatten(AC_CHROMA_VALUES, 8, 162), Flatten(AC_CHROMA_BOUNDS, 7, 45))

  /* Partial sums of the counts (number of codes of at most L bits) and the 16-bit value at which
     the codes of each length start; both are checked against their definitions by the Huffman module. */
  ghost const DC_LUMA_SUMS: seq<nat> := [0, 0, 1, 6, 7, 8, 9, 10, 11, 12, 12, 12, 12, 12, 12, 12, 12]
  ghost const DC_LUMA_FILL: seq<nat> := [0, 0, 0, 16384, 57344, 61440, 63488, 64512, 65024, 65280, 65408, 65408,
                                         65408, 65408, 65408, 65408, 65408, 65408]
  ghost const DC_CHROMA_SUMS: seq<nat> := [0, 0, 3, 4, 5, 6, 7, 8, 9, 10, 11, 12, 12, 12, 12, 12, 12]
  ghost const DC_CHROMA_FILL: seq<nat> := [0, 0, 0, 49152, 57344, 61440, 63488, 64512, 65024, 65280, 65408, 65472,
                                           65504, 65504, 65504, 65504, 65504, 65504]
  ghost const AC_LUMA_SUMS: seq<nat> := [0, 0, 2, 3, 6, 9, 11, 15, 18, 23, 28, 32, 36, 36, 36, 37, 162]
  ghost const AC_LUMA_FILL: seq<nat> := [0, 0, 0, 32768, 40960, 53248, 59392, 61440, 63488, 64256, 64896, 65216,
                                         65344, 65408, 65408, 65408, 65410, 65535]
  ghost const AC_CHROMA_SUMS: seq<nat> := [0, 0, 2, 3, 5, 9, 13, 16, 20, 27, 32, 36, 40, 40, 41, 43, 162]
  ghost const AC_CHROMA_FILL: seq<nat> := [0, 0, 0, 32768, 40960, 49152, 57344, 61440, 62976, 64000, 64896, 65216,
                                           65344, 65408, 65408, 65412, 65416, 65535]

  /** For run r and size s, the position of symbol 16 * r + s in the AC symbol list. */
  const AC_LUMA_POSITION: seq<seq<nat>> := [
    [3, 0, 1, 2, 4, 6, 11, 15, 23, 37, 38],
    [0, 5, 7, 12, 18, 28, 39, 40, 41, 42, 43],
    [0, 8, 16, 24, 32, 44, 45, 46, 47, 48, 49],
    [0, 9, 19, 33, 50, 51, 52, 53, 54, 55, 56],
    [0, 10, 25, 57, 58, 59, 60, 61, 62, 63, 64],
    [0, 13, 29, 65, 66, 67, 68, 69, 70, 71, 72],
    [0, 14, 34, 73, 74, 75, 76, 77, 78, 79, 80],
    [0, 17, 35, 81, 82, 83, 84, 85, 86, 87, 88],
    [0, 20, 36, 89, 90, 91, 92, 93, 94, 95, 96],
    [0, 21, 97, 98, 99, 100, 101, 102, 103, 104, 105],
    [0, 22, 106, 107, 108, 109, 110, 111, 112, 113, 114],
    [0, 26, 115, 116, 117, 118, 119, 120, 121, 122, 123],
    [0, 27, 124, 125, 126, 127, 128, 129, 130, 131, 132],
    [0, 30, 133, 134, 135, 136, 137, 138, 139, 140, 141],
    [0, 142, 143, 144, 145, 146, 147, 148, 149, 150, 151],
    [31, 152, 153, 154, 155, 156, 157, 158, 159, 160, 161]]
  const AC_CHROMA_POSITION: seq<seq<nat>> := [
    [0, 1, 2, 3, 5, 6, 9, 13, 20, 27, 36],
    [0, 4, 10, 16, 21, 32, 37, 43, 44, 45, 46],
    [0, 7, 17, 28, 38, 41, 47, 48, 49, 50, 51],
    [0, 8, 18, 29, 39, 52, 53, 54, 55, 56, 57],
    [0, 11, 22, 58, 59, 60, 61, 62, 63, 64, 65],
    [0, 12, 30, 66, 67, 68, 69, 70, 71, 72, 73],
    [0, 14, 33, 74, 75, 76, 77, 78, 79, 80, 81],
    [0, 15, 34, 82, 83, 84, 85, 86, 87, 88, 89],
    [0, 19, 90, 91, 92, 93, 94, 95, 96, 97, 98],
    [0, 23, 99, 100, 101, 102, 103, 104, 105, 106, 107],
    [0, 24, 108, 109, 110, 111, 112, 113, 114, 115, 116],
    [0, 25, 117, 118, 119, 120, 121, 122, 123, 124, 125],
    [0, 26, 126, 127, 128, 129, 130, 131, 132, 133, 134],
    [0, 35, 135, 136, 137, 138, 139, 140, 141, 142, 143],
    [0, 40, 144, 145, 146, 147, 148, 149, 150, 151, 152],
    [31, 42, 153, 154, 155, 156, 157, 158, 159, 160, 161]]
}
