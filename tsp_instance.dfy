/**
 * A Traveling Salesman Problem instance stored as the strict upper triangle of its
 * distance matrix, row after row: row `i` holds the distances from node `i` to the nodes
 * `i + 1 .. n - 1`. The file format is the node count on the first line and row `i` on
 * line `i + 1`; the reader appends the rows in order and `Distance` finds entry `(i, j)`
 * by the closed-form offset of its row.
 */
module TspInstance {
  import opened Wrappers
  import opened Text

  datatype TSPInstance = TSPInstance(numNodes: int, distances: seq<real>)

  /** Why reading an instance failed; `line` is 1-based, as in the message. */
  datatype InstanceError = CannotReadFile(filename: string) | BadLine(line: nat, filename: string)

  function Message(e: InstanceError): string {
    match e
    case CannotReadFile(filename) => "Cannot read file '" + filename + "'"
    case BadLine(line, filename) => "Error reading line " + NatToString(line) + " of '" + filename + "'"
  }

  /** `n * (n - 1) / 2`: the number of unordered pairs of distinct nodes. */
  function TriangleSize(n: int): int {
    n * (n - 1) / 2
  }

  /**
   * Offset of row `i` in `distances`: `i * (n - 1) - (i - 1) * i // 2`. The divisor is
   * positive, so Dafny's division is Python's floor division here.
   */
  function RowStart(n: int, i: int): int {
    i * (n - 1) - (i - 1) * i / 2
  }

  /** The index `distance(i, j)` reads for `i <= j`. */
  function PairIndex(n: int, i: int, j: int): int {
    RowStart(n, i) + (j - i - 1)
  }

  /** The instance holds an entry for every pair of distinct nodes. */
  predicate Covers(inst: TSPInstance) {
    0 <= inst.numNodes && TriangleSize(inst.numNodes) <= |inst.distances|
  }

  /** `distance(i, j)`: order the pair, then read the entry of the smaller node's row. */
  function Distance(inst: TSPInstance, i: int, j: int): real
    requires Covers(inst)
    requires 0 <= i < inst.numNodes && 0 <= j < inst.numNodes && i != j
  {
    var a := if i > j then j else i;
    var b := if i > j then i else j;
    PairIndexRange(inst.numNodes, a, b);
    inst.distances[PairIndex(inst.numNodes, a, b)]
  }

  lemma Double(x: int)
    ensures (2 * x) / 2 == x && (2 * x) % 2 == 0
  {
  }

  /** `(i - 1) * i` is even, so the floor division in the offset is exact. */
  lemma HalfProductExact(i: int)
    ensures (i - 1) * i % 2 == 0
    ensures (i - 1) * i == 2 * ((i - 1) * i / 2)
  {
    var q := i / 2;
    if i % 2 == 0 {
      assert i == 2 * q;
      assert (i - 1) * i == 2 * (q * (i - 1));
      Double(q * (i - 1));
    } else {
      assert i - 1 == 2 * q;
      assert (i - 1) * i == 2 * (q * i);
      Double(q * i);
    }
  }

  lemma RowStartZero(n: int)
    ensures RowStart(n, 0) == 0
  {
  }

  /** Row `i` holds `n - 1 - i` entries: the next row starts right after them. */
  lemma RowStartStep(n: int, i: int)
    ensures RowStart(n, i + 1) == RowStart(n, i) + (n - 1 - i)
  {
    var a := (i - 1) * i;
    assert (i + 1) * (n - 1) == i * (n - 1) + (n - 1);
    assert i * (i + 1) == a + 2 * i;
    assert (a + 2 * i) / 2 == a / 2 + i;
  }

  /** The rows of all `n` nodes together hold exactly `n * (n - 1) / 2` entries. */
  lemma RowStartEnd(n: int)
    ensures RowStart(n, n) == TriangleSize(n)
  {
    HalfProductExact(n);
    assert n * (n - 1) == (n - 1) * n;
  }

  /** Rows never shrink the offset: later rows start at or after earlier ones. */
  lemma {:induction false} RowStartMonotone(n: int, i: int, k: int)
    requires 0 <= i <= k <= n
    ensures RowStart(n, i) <= RowStart(n, k)
    decreases k - i
  {
    if i < k {
      RowStartStep(n, i);
      RowStartMonotone(n, i + 1, k);
    }
  }

  /** For `0 <= i < j < n`, entry `(i, j)` lies inside row `i`, hence inside the triangle. */
  lemma PairIndexRange(n: int, i: int, j: int)
    requires 0 <= i < j < n
    ensures RowStart(n, i) <= PairIndex(n, i, j) < RowStart(n, i + 1)
    ensures 0 <= PairIndex(n, i, j) < TriangleSize(n)
  {
    RowStartStep(n, i);
    RowStartZero(n);
    RowStartMonotone(n, 0, i);
    RowStartMonotone(n, i + 1, n);
    RowStartEnd(n);
  }

  /** Distinct pairs of distinct nodes read distinct entries. */
  lemma PairIndexInjective(n: int, i: int, j: int, i': int, j': int)
    requires 0 <= i < j < n && 0 <= i' < j' < n
    requires PairIndex(n, i, j) == PairIndex(n, i', j')
    ensures i == i' && j == j'
  {
    PairIndexRange(n, i, j);
    PairIndexRange(n, i', j');
    if i < i' {
      RowStartMonotone(n, i + 1, i');
    } else if i' < i {
      RowStartMonotone(n, i' + 1, i);
    }
  }

  /** The pair whose entry sits at offset `k`, searching the rows from row `i` on. */
  function PairAt(n: int, k: int, i: int): (r: (int, int))
    requires 0 <= i < n && RowStart(n, i) <= k < TriangleSize(n)
    ensures 0 <= r.0 < r.1 < n && PairIndex(n, r.0, r.1) == k
    decreases n - i
  {
    RowStartStep(n, i);
    if k < RowStart(n, i + 1) then
      (i, k - RowStart(n, i) + i + 1)
    else
      RowStartEnd(n);
      if i + 1 < n then PairAt(n, k, i + 1)
      else assert false; (0, 0)
  }

  /** Every offset of the triangle is read by some pair: the index map is onto. */
  lemma PairIndexOnto(n: int, k: int)
    requires 0 <= n && 0 <= k < TriangleSize(n)
    ensures exists i, j :: 0 <= i < j < n && PairIndex(n, i, j) == k
  {
    assert n != 0;
    RowStartZero(n);
    var p := PairAt(n, k, 0);
  }

  /** `distance(i, j) == distance(j, i)`. */
  lemma DistanceSymmetric(inst: TSPInstance, i: int, j: int)
    requires Covers(inst)
    requires 0 <= i < inst.numNodes && 0 <= j < inst.numNodes && i != j
    ensures Distance(inst, i, j) == Distance(inst, j, i)
  {
  }

  /**
   * `distance(i, i)` is never asked for by the callers: the formula would read the last
   * entry of row `i - 1`, or offset -1 (Python's last element) when `i` is 0.
   */
  lemma SameNodeOffset(n: int, i: int)
    requires 0 <= i
    ensures i == 0 ==> PairIndex(n, i, i) == -1
    ensures 0 < i ==> PairIndex(n, i, i) == PairIndex(n, i - 1, n - 1)
  {
    if 0 < i {
      RowStartStep(n, i - 1);
    }
  }

  /**
   * `[float(x.strip()) for x in tokens]`, or `None` when some token is not a number. The
   * tokens come from `split()` and hold no white space, so `strip()` leaves them as they are.
   */
  function ParseReals(tokens: seq<string>, conv: Converters): Option<seq<real>>
    decreases |tokens|
  {
    if tokens == [] then Some([])
    else
      match ParseReals(tokens[..|tokens| - 1], conv)
      case None => None
      case Some(front) =>
        match conv.parseReal(tokens[|tokens| - 1])
        case None => None
        case Some(x) => Some(front + [x])
  }

  /** The list is built exactly when every token parses, and then holds each token's number in order. */
  lemma {:induction false} ParseRealsMeaning(tokens: seq<string>, conv: Converters)
    ensures ParseReals(tokens, conv).Some? <==> forall k :: 0 <= k < |tokens| ==> conv.parseReal(tokens[k]).Some?
    ensures ParseReals(tokens, conv).Some? ==> (|ParseReals(tokens, conv).value| == |tokens| &&
      forall k :: 0 <= k < |tokens| ==> ParseReals(tokens, conv).value[k] == conv.parseReal(tokens[k]).value)
    decreases |tokens|
  {
    if tokens != [] {
      ParseRealsMeaning(tokens[..|tokens| - 1], conv);
    }
  }

  /** The numbers on line `i`, or `None` when the file has no line `i` or one of them does not parse. */
  function LineValues(lines: seq<string>, conv: Converters, i: int): Option<seq<real>> {
    if 0 <= i < |lines| then ParseReals(Split(lines[i]), conv) else None
  }

  /**
   * The entries read by the first `m - 1` iterations of the row loop (lines `1 .. m - 1`),
   * or the 1-based number of the first line that is missing or does not parse.
   */
  function Rows(lines: seq<string>, conv: Converters, m: int): Result<seq<real>, nat>
    decreases m
  {
    if m <= 1 then Ok([])
    else
      match Rows(lines, conv, m - 1)
      case Err(k) => Err(k)
      case Ok(front) =>
        match LineValues(lines, conv, m - 1)
        case None => Err(m)
        case Some(values) => Ok(front + values)
  }

  /**
   * The row loop fails exactly when some line `1 .. m - 1` is missing or does not parse, and
   * then it names the first such line.
   */
  lemma {:induction false} RowsMeaning(lines: seq<string>, conv: Converters, m: int)
    ensures var r := Rows(lines, conv, m);
      && (r.Err? ==> 2 <= r.error <= m && LineValues(lines, conv, r.error - 1).None?)
      && (r.Err? ==> forall i :: 1 <= i < r.error - 1 ==> LineValues(lines, conv, i).Some?)
      && (r.Ok? <==> forall i :: 1 <= i < m ==> LineValues(lines, conv, i).Some?)
    decreases m
  {
    if m > 1 {
      RowsMeaning(lines, conv, m - 1);
    }
  }

  /** Once a line fails, reading further rows reports that same line. */
  lemma {:induction false} RowsErrorPersists(lines: seq<string>, conv: Converters, m: int, m': int)
    requires m <= m' && Rows(lines, conv, m).Err?
    ensures Rows(lines, conv, m') == Rows(lines, conv, m)
    decreases m' - m
  {
    if m < m' {
      RowsErrorPersists(lines, conv, m, m' - 1);
    }
  }

  /** What `TSPInstance(filename)` builds from the file's lines, or the error it raises. */
  function ReadInstance(filename: string, lines: seq<string>, conv: Converters): Result<TSPInstance, InstanceError> {
    if lines == [] then Err(CannotReadFile(filename))
    else
      match conv.parseInt(lines[0])
      case None => Err(BadLine(1, filename))
      case Some(n) =>
        match Rows(lines, conv, n)
        case Err(k) => Err(BadLine(k, filename))
        case Ok(distances) => Ok(TSPInstance(n, distances))
  }

  /** `TSPInstance.__init__`: read the node count, then extend `distances` row by row. */
  method LoadInstance(filename: string, lines: seq<string>, conv: Converters) returns (r: Result<TSPInstance, InstanceError>)
    ensures r == ReadInstance(filename, lines, conv)
  {
    if lines == [] {
      return Err(CannotReadFile(filename));
    }
    var lineNumber := 1;
    var count := conv.parseInt(lines[0]);
    if count.None? {
      return Err(BadLine(lineNumber, filename));
    }
    var numNodes := count.value;
    var distances: seq<real> := [];
    var i := 1;
    while i < numNodes
      invariant 1 <= i && (i <= numNodes || i == 1)
      invariant Rows(lines, conv, i) == Ok(distances)
      decreases numNodes - i
    {
      lineNumber := i + 1;
      var values := LineValues(lines, conv, i);
      if values.None? {
        RowsErrorPersists(lines, conv, i + 1, numNodes);
        return Err(BadLine(lineNumber, filename));
      }
      distances := distances + values.value;
      i := i + 1;
    }
    return Ok(TSPInstance(numNodes, distances));
  }

  /** The rows concatenated in order, as the repeated `extend` leaves them. */
  function Flatten(rows: seq<seq<real>>): seq<real>
    decreases |rows|
  {
    if rows == [] then [] else Flatten(rows[..|rows| - 1]) + rows[|rows| - 1]
  }

  /** Rows of lengths `n - 1, n - 2, ...` put entry `(i, j)` at `PairIndex(n, i, j)`. */
  lemma {:induction false} FlattenLayout(rows: seq<seq<real>>, n: int)
    requires |rows| <= n
    requires forall r :: 0 <= r < |rows| ==> |rows[r]| == n - 1 - r
    ensures |Flatten(rows)| == RowStart(n, |rows|)
    ensures forall i, j :: 0 <= i < |rows| && i < j < n ==>
      0 <= PairIndex(n, i, j) < |Flatten(rows)| && Flatten(rows)[PairIndex(n, i, j)] == rows[i][j - i - 1]
    decreases |rows|
  {
    RowStartZero(n);
    if rows != [] {
      var m := |rows| - 1;
      var front := rows[..m];
      FlattenLayout(front, n);
      RowStartStep(n, m);
      assert Flatten(rows) == Flatten(front) + rows[m];
      forall i, j | 0 <= i < |rows| && i < j < n
        ensures 0 <= PairIndex(n, i, j) < |Flatten(rows)| && Flatten(rows)[PairIndex(n, i, j)] == rows[i][j - i - 1]
      {
        RowStartStep(n, i);
        if i < m {
          assert front[i] == rows[i];
          RowStartMonotone(n, i + 1, m);
        }
      }
    }
  }

  /** The values of lines `1 .. m - 1`, one row each. */
  function Table(lines: seq<string>, conv: Converters, m: int): (r: seq<seq<real>>)
    requires forall i :: 1 <= i < m ==> LineValues(lines, conv, i).Some?
    ensures |r| == if m <= 1 then 0 else m - 1
    ensures forall k :: 0 <= k < |r| ==> r[k] == LineValues(lines, conv, k + 1).value
    decreases m
  {
    if m <= 1 then [] else Table(lines, conv, m - 1) + [LineValues(lines, conv, m - 1).value]
  }

  /** When every line parses, the row loop's result is the concatenation of the lines' values. */
  lemma {:induction false} RowsFlatten(lines: seq<string>, conv: Converters, m: int)
    requires forall i :: 1 <= i < m ==> LineValues(lines, conv, i).Some?
    ensures Rows(lines, conv, m) == Ok(Flatten(Table(lines, conv, m)))
    decreases m
  {
    if m > 1 {
      RowsFlatten(lines, conv, m - 1);
      var t := Table(lines, conv, m);
      assert t[..|t| - 1] == Table(lines, conv, m - 1);
    }
  }

  /** Line `i + 1` of the file holds exactly row `i` of the triangle: `n - 1 - i` numbers. */
  predicate RowsShaped(lines: seq<string>, conv: Converters, n: int) {
    forall i :: 1 <= i < n ==> LineValues(lines, conv, i).Some? && |LineValues(lines, conv, i).value| == n - i
  }

  /**
   * For a file laid out as documented, the instance holds exactly the triangle, and
   * `distance(i, j)` for `i < j` is value `j - i - 1` on line `i + 1`.
   */
  lemma ReadLayout(filename: string, lines: seq<string>, conv: Converters, n: int)
    requires 0 <= n && lines != [] && conv.parseInt(lines[0]) == Some(n)
    requires RowsShaped(lines, conv, n)
    ensures ReadInstance(filename, lines, conv).Ok?
    ensures ReadInstance(filename, lines, conv).value.numNodes == n
    ensures |ReadInstance(filename, lines, conv).value.distances| == TriangleSize(n)
    ensures Covers(ReadInstance(filename, lines, conv).value)
    ensures forall i, j :: 0 <= i < j < n ==>
      Distance(ReadInstance(filename, lines, conv).value, i, j) == LineValues(lines, conv, i + 1).value[j - i - 1]
  {
    RowsFlatten(lines, conv, n);
    var t := Table(lines, conv, n);
    assert ReadInstance(filename, lines, conv) == Ok(TSPInstance(n, Flatten(t)));
    TableShaped(lines, conv, n);
    TriangleInstance(t, n);
    forall i, j | 0 <= i < j < n
      ensures Distance(TSPInstance(n, Flatten(t)), i, j) == LineValues(lines, conv, i + 1).value[j - i - 1]
    {
      assert t[i] == LineValues(lines, conv, i + 1).value;
    }
  }

  /** Rows of lengths `n - 1, n - 2, ..., 1`, flattened, make an instance whose `distance(i, j)` is entry `j - i - 1` of row `i`. */
  lemma TriangleInstance(rows: seq<seq<real>>, n: int)
    requires 0 <= n && |rows| == if n == 0 then 0 else n - 1
    requires forall r :: 0 <= r < |rows| ==> |rows[r]| == n - 1 - r
    ensures var inst := TSPInstance(n, Flatten(rows));
      && |inst.distances| == TriangleSize(n) && Covers(inst)
      && forall i, j :: 0 <= i < j < n ==> Distance(inst, i, j) == rows[i][j - i - 1]
  {
    FlattenLayout(rows, n);
    TriangleFlattenSize(rows, n);
    var inst := TSPInstance(n, Flatten(rows));
    forall i, j | 0 <= i < j < n
      ensures Distance(inst, i, j) == rows[i][j - i - 1]
    {
      assert Distance(inst, i, j) == Flatten(rows)[PairIndex(n, i, j)];
    }
  }

  /** Under the documented layout, the table has `n - 1` rows of lengths `n - 1, n - 2, ..., 1`. */
  lemma TableShaped(lines: seq<string>, conv: Converters, n: int)
    requires 0 <= n && RowsShaped(lines, conv, n)
    ensures |Table(lines, conv, n)| == if n == 0 then 0 else n - 1
    ensures forall r :: 0 <= r < |Table(lines, conv, n)| ==> |Table(lines, conv, n)[r]| == n - 1 - r
  {
    var t := Table(lines, conv, n);
    forall r | 0 <= r < |t| ensures |t[r]| == n - 1 - r {
      assert t[r] == LineValues(lines, conv, r + 1).value;
    }
  }

  /** The `n - 1` rows of a triangle hold exactly `n * (n - 1) / 2` entries. */
  lemma TriangleFlattenSize(rows: seq<seq<real>>, n: int)
    requires 0 <= n && |rows| == if n == 0 then 0 else n - 1
    requires forall r :: 0 <= r < |rows| ==> |rows[r]| == n - 1 - r
    ensures |Flatten(rows)| == TriangleSize(n)
  {
    FlattenLayout(rows, n);
    if n == 0 {
      RowStartZero(0);
    } else {
      LastRowStart(n);
    }
  }

  /** The last row, `n - 1`, is empty and starts where the triangle ends. */
  lemma LastRowStart(n: int)
    ensures RowStart(n, n - 1) == TriangleSize(n)
  {
    var m := n - 1;
    RowStartStep(n, m);
    assert m + 1 == n;
    RowStartEnd(n);
  }
}
