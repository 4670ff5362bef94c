/** Address translation: a 1-based (row, column) or a 1-based linear index of the
    N x (N-1) matrix becomes an ordered pair of distinct lines, then a DiodeNode. */
module AddressMap {
  import opened CharlieTypes

  /** Zero-based positions in the pin array of a node's row line `x` and column line `y`. */
  datatype Lines = Lines(x: nat, y: nat)

  /** The number of nodes of an n-line matrix. */
  function NodeCount(n: int): int
  {
    n * (n - 1)
  }

  /** Two distinct lines of an n-line matrix. */
  predicate ValidLines(n: nat, l: Lines)
  {
    l.x < n && l.y < n && l.x != l.y
  }

  /** Row `row` is line row-1; column `col` skips the diagonal, so it is line col-1
      left of the diagonal and line col right of it. */
  function RowColLines(n: nat, row: nat, col: nat): (l: Lines)
    requires 1 <= row <= n && 1 <= col < n
    ensures ValidLines(n, l)
    ensures l.x == row - 1
    ensures col == (if l.y < l.x then l.y + 1 else l.y)
  {
    Lines(row - 1, if col < row then col - 1 else col)
  }

  /** Zero-based index-1 split into a row and a column of width n-1, the column then
      shifted past the diagonal. */
  function IndexLines(n: nat, index: nat): (l: Lines)
    requires 2 <= n && 1 <= index <= NodeCount(n)
    ensures ValidLines(n, l)
  {
    var row := (index - 1) / (n - 1);
    var col := (index - 1) % (n - 1);
    DivBelow(index - 1, n - 1, n);
    Lines(row, if col < row then col else col + 1)
  }

  /** The inverse of IndexLines: the linear index of an ordered pair of distinct lines. */
  function LinesIndex(n: nat, l: Lines): (index: nat)
    requires ValidLines(n, l)
    ensures 1 <= index <= NodeCount(n)
  {
    var col := if l.y < l.x then l.y else l.y - 1;
    MulBelow(l.x, n - 1, n);
    l.x * (n - 1) + col + 1
  }

  lemma DivBelow(i: nat, d: nat, q: nat)
    requires d > 0 && i < q * d
    ensures i / d < q
  {
    assert i == (i / d) * d + i % d;
    if i / d >= q {
      MulMonotone(q, i / d, d);
    }
  }

  lemma MulMonotone(a: nat, b: nat, d: nat)
    requires a <= b
    ensures a * d <= b * d
  {
  }

  lemma MulBelow(x: nat, d: nat, n: nat)
    requires x < n && n == d + 1
    ensures x * d + d <= n * d
  {
    MulMonotone(x + 1, n, d);
  }

  lemma DivModUnique(i: nat, d: nat, q: nat, r: nat)
    requires d > 0 && r < d && i == q * d + r
    ensures i / d == q && i % d == r
  {
    var q', r' := i / d, i % d;
    assert i == q' * d + r';
    if q' < q {
      MulMonotone(q' + 1, q, d);
    } else if q < q' {
      MulMonotone(q + 1, q', d);
    }
  }

  /** Every ordered pair of distinct lines has exactly one linear index: decoding
      the index of a pair gives the pair back ... */
  lemma LinesIndexRoundTrip(n: nat, l: Lines)
    requires 2 <= n && ValidLines(n, l)
    ensures IndexLines(n, LinesIndex(n, l)) == l
  {
    var col := if l.y < l.x then l.y else l.y - 1;
    DivModUnique(LinesIndex(n, l) - 1, n - 1, l.x, col);
  }

  /** ... and encoding the pair of an index gives the index back. */
  lemma IndexLinesRoundTrip(n: nat, index: nat)
    requires 2 <= n && 1 <= index <= NodeCount(n)
    ensures LinesIndex(n, IndexLines(n, index)) == index
  {
    var i := index - 1;
    assert i == (i / (n - 1)) * (n - 1) + i % (n - 1);
  }

  /** Over [1, n(n-1)] the index scheme is a bijection onto ordered pairs of distinct lines. */
  lemma IndexLinesBijective(n: nat)
    requires 2 <= n
    ensures forall i, j :: 1 <= i <= NodeCount(n) && 1 <= j <= NodeCount(n) && IndexLines(n, i) == IndexLines(n, j) ==> i == j
    ensures forall l :: ValidLines(n, l) ==> exists i :: 1 <= i <= NodeCount(n) && IndexLines(n, i) == l
  {
    forall i, j | 1 <= i <= NodeCount(n) && 1 <= j <= NodeCount(n) && IndexLines(n, i) == IndexLines(n, j)
      ensures i == j
    {
      IndexLinesRoundTrip(n, i);
      IndexLinesRoundTrip(n, j);
    }
    forall l | ValidLines(n, l)
      ensures exists i :: 1 <= i <= NodeCount(n) && IndexLines(n, i) == l
    {
      LinesIndexRoundTrip(n, l);
    }
  }

  /** The two addressing schemes agree: index (row-1)(n-1)+col names the same lines
      as (row, col). */
  lemma IndexAgreesWithRowCol(n: nat, row: nat, col: nat)
    requires 1 <= row <= n && 1 <= col < n
    ensures 1 <= (row - 1) * (n - 1) + col <= NodeCount(n)
    ensures IndexLines(n, (row - 1) * (n - 1) + col) == RowColLines(n, row, col)
  {
    var l := RowColLines(n, row, col);
    assert LinesIndex(n, l) == (row - 1) * (n - 1) + col;
    LinesIndexRoundTrip(n, l);
  }

  /** The polarity switch: under common anode the row line is vcc, otherwise the
      roles are swapped. */
  function Orient(commonType: uint8, x: uint8, y: uint8): DiodeNode
  {
    if commonType != 0 then DiodeNode(x, y) else DiodeNode(y, x)
  }

  function NodeOfLines(pins: seq<uint8>, commonType: uint8, l: Lines): (node: DiodeNode)
    requires ValidLines(|pins|, l)
    ensures Distinct(pins) ==> IsNodeOf(pins, node)
  {
    Orient(commonType, pins[l.x], pins[l.y])
  }

  /** `_getNode(row, col)`. */
  function GetNode(pins: seq<uint8>, commonType: uint8, row: nat, col: nat): (node: DiodeNode)
    requires 1 <= row <= |pins| && 1 <= col < |pins|
    ensures node.vcc in pins && node.gnd in pins
    ensures Distinct(pins) ==> node.vcc != node.gnd
    ensures (if commonType != 0 then node.vcc else node.gnd) == pins[row - 1]
  {
    NodeOfLines(pins, commonType, RowColLines(|pins|, row, col))
  }

  /** `_getNode(index)`, with the pin count `_noOfPins` equal to |pins|. */
  function GetNodeIndex(pins: seq<uint8>, commonType: uint8, index: nat): (node: DiodeNode)
    requires 2 <= |pins| && 1 <= index <= NodeCount(|pins|)
    ensures node.vcc in pins && node.gnd in pins
    ensures Distinct(pins) ==> node.vcc != node.gnd
  {
    NodeOfLines(pins, commonType, IndexLines(|pins|, index))
  }

  /** Both overloads of `_getNode` yield the same node for the same matrix position. */
  lemma GetNodeAgrees(pins: seq<uint8>, commonType: uint8, row: nat, col: nat)
    requires 1 <= row <= |pins| && 1 <= col < |pins|
    ensures 1 <= (row - 1) * (|pins| - 1) + col <= NodeCount(|pins|)
    ensures GetNodeIndex(pins, commonType, (row - 1) * (|pins| - 1) + col) == GetNode(pins, commonType, row, col)
  {
    IndexAgreesWithRowCol(|pins|, row, col);
  }

  /** Switching polarity swaps vcc and gnd and leaves the index arithmetic unchanged. */
  lemma PolaritySwaps(pins: seq<uint8>, commonType: uint8, row: nat, col: nat)
    requires 1 <= row <= |pins| && 1 <= col < |pins|
    ensures var a := GetNode(pins, CommonAnode, row, col);
            var c := GetNode(pins, CommonCathode, row, col);
            a.vcc == c.gnd && a.gnd == c.vcc
            && GetNode(pins, commonType, row, col) == (if commonType != 0 then a else c)
  {
  }

  /** With distinct pins, the index scheme reaches every ordered pair of distinct pins
      exactly once, whatever the polarity. */
  lemma GetNodeIndexBijective(pins: seq<uint8>, commonType: uint8)
    requires 2 <= |pins| && Distinct(pins)
    ensures forall i, j ::
              (1 <= i <= NodeCount(|pins|) && 1 <= j <= NodeCount(|pins|) &&
               GetNodeIndex(pins, commonType, i) == GetNodeIndex(pins, commonType, j)) ==> i == j
    ensures forall a, b :: a in pins && b in pins && a != b ==>
              exists i :: 1 <= i <= NodeCount(|pins|) && GetNodeIndex(pins, commonType, i) == DiodeNode(a, b)
  {
    var n := |pins|;
    IndexLinesBijective(n);
    forall i, j | 1 <= i <= NodeCount(n) && 1 <= j <= NodeCount(n) &&
                  GetNodeIndex(pins, commonType, i) == GetNodeIndex(pins, commonType, j)
      ensures i == j
    {
      var li, lj := IndexLines(n, i), IndexLines(n, j);
      assert pins[li.x] == pins[lj.x] && pins[li.y] == pins[lj.y];
      assert li == lj;
    }
    forall a, b | a in pins && b in pins && a != b
      ensures exists i :: 1 <= i <= NodeCount(n) && GetNodeIndex(pins, commonType, i) == DiodeNode(a, b)
    {
      var ia :| 0 <= ia < n && pins[ia] == a;
      var ib :| 0 <= ib < n && pins[ib] == b;
      var l := if commonType != 0 then Lines(ia, ib) else Lines(ib, ia);
      LinesIndexRoundTrip(n, l);
      assert GetNodeIndex(pins, commonType, LinesIndex(n, l)) == DiodeNode(a, b);
    }
  }

  /** A matrix with at least one node has at least two lines. */
  lemma NodeCountAtLeastOne(n: int)
    requires 0 <= n && 1 <= NodeCount(n)
    ensures 2 <= n
  {
  }

  /** `_maxNode` is a 16-bit field: N(N-1) fits in it for every byte N. */
  lemma MaxNodeFits(noOfPins: uint8)
    ensures 0 <= NodeCount(noOfPins) < 0x1_0000
  {
    if noOfPins > 0 {
      MulMonotone(noOfPins - 1, 0xFF, noOfPins);
      MulMonotone(noOfPins, 0xFF, 0xFF);
    }
  }
}
