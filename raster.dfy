/** Integer facts about the row-major pixel buffer of `render_to`: pixel
    `(x, y)` of a `width × height` image sits at `y * width + x`. */
module Raster {
  import opened Grid

  lemma SmallMultiple(a: int, w: int)
    requires 0 < w && -w < a * w < w
    ensures a == 0
  {
  }

  /** Euclidean division is unique. */
  lemma DivModUnique(i: int, w: nat, q: int, r: int)
    requires 0 < w && 0 <= r < w && i == q * w + r
    ensures i / w == q && i % w == r
  {
    var q', r' := i / w, i % w;
    assert (q - q') * w == r' - r;
    SmallMultiple(q - q', w);
  }

  /** Pixel `(x, y)` is at position `y * width + x`, and that position maps back to it. */
  lemma BufferIndex(x: nat, y: nat, width: nat, height: nat)
    requires x < width && y < height
    ensures y * width + x < width * height
    ensures (y * width + x) % width == x && (y * width + x) / width == y
  {
    assert (height - y - 1) * width >= 0;
    assert (height - y - 1) * width == height * width - y * width - width;
    DivModUnique(y * width + x, width, y, x);
  }

  lemma ProductZero(w: nat, h: nat)
    requires w == 0 || h == 0
    ensures w * h == 0
  {
  }

  /** The first `count` values of row `y`, produced left to right by `f`,
      which takes a column, a row and a cursor and returns a value and the
      cursor after it; the result carries the cursor after the last one. */
  function RowScan<T>(f: (int, int, nat) -> (T, nat), y: int, count: nat, k: nat): (res: (seq<T>, nat))
    ensures |res.0| == count
  {
    if count == 0 then ([], k)
    else
      var (values, next) := RowScan(f, y, count - 1, k);
      var (v, next') := f(count - 1, y, next);
      (values + [v], next')
  }

  /** The first `rows` rows of `width` values, top to bottom, in buffer order. */
  function RowsScan<T>(f: (int, int, nat) -> (T, nat), width: nat, rows: nat, k: nat): (res: (seq<T>, nat))
    ensures |res.0| == RowStart(rows, width)
  {
    if rows == 0 then ([], k)
    else
      var (values, next) := RowsScan(f, width, rows - 1, k);
      var (row, next') := RowScan(f, rows - 1, width, next);
      (values + row, next')
  }

  /** One more row appends that row's scan, started where the earlier rows
      left the cursor. */
  lemma RowsScanStep<T>(f: (int, int, nat) -> (T, nat), width: nat, rows: nat, k: nat)
    ensures var done := RowsScan(f, width, rows, k);
      var row := RowScan(f, rows, width, done.1);
      RowsScan(f, width, rows + 1, k).0 == done.0 + row.0 &&
      RowsScan(f, width, rows + 1, k).1 == row.1
  {
  }

  /** Scanning more of a row only appends: the first `m` values never change. */
  lemma {:induction false} RowScanExtend<T>(f: (int, int, nat) -> (T, nat), y: int, m: nat, n: nat, k: nat)
    requires m <= n
    ensures RowScan(f, y, n, k).0[..m] == RowScan(f, y, m, k).0
    decreases n
  {
    if m < n {
      RowScanExtend(f, y, m, n - 1, k);
      var pre := RowScan(f, y, n - 1, k).0;
      assert RowScan(f, y, n, k).0[..m] == pre[..m];
    }
  }

  /** Scanning more rows only appends: the first `m` rows never change. */
  lemma {:induction false} RowsScanExtend<T>(f: (int, int, nat) -> (T, nat), width: nat, m: nat, n: nat, k: nat)
    requires m <= n
    ensures RowStart(m, width) <= RowStart(n, width)
    ensures RowsScan(f, width, n, k).0[..RowStart(m, width)] == RowsScan(f, width, m, k).0
    decreases n
  {
    RowStartMonotonic(m, n, width);
    if m < n {
      RowsScanExtend(f, width, m, n - 1, k);
      var pre := RowsScan(f, width, n - 1, k).0;
      assert RowsScan(f, width, n, k).0[..RowStart(m, width)] == pre[..RowStart(m, width)];
    }
  }

  /** Value `(x, y)` sits at `y * width + x` and is what `f` gives for it at
      the cursor reached after every earlier value in row-major order. */
  lemma RowsScanAt<T>(f: (int, int, nat) -> (T, nat), width: nat, height: nat, k: nat, x: nat, y: nat)
    requires x < width && y < height
    ensures var rowStart := RowsScan(f, width, y, k).1;
      y * width + x < |RowsScan(f, width, height, k).0| &&
      RowsScan(f, width, height, k).0[y * width + x] == f(x, y, RowScan(f, y, x, rowStart).1).0
  {
    var rowStart := RowsScan(f, width, y, k).1;
    var before := RowsScan(f, width, y, k).0;
    var row := RowScan(f, y, width, rowStart).0;
    RowStartIsProduct(y, width);
    RowsScanExtend(f, width, y + 1, height, k);
    assert RowsScan(f, width, height, k).0[..RowStart(y + 1, width)] == before + row;
    RowScanExtend(f, y, x + 1, width, rowStart);
    assert RowScan(f, y, x + 1, rowStart).0 == RowScan(f, y, x, rowStart).0 + [f(x, y, RowScan(f, y, x, rowStart).1).0];
    assert (before + row)[y * width + x] == row[x];
  }

  /** Cell `(x, y)` of a buffer laid out row after row, `width` cells a row. */
  function CellAt<T>(buf: seq<T>, width: nat, x: nat, y: nat): T
    requires y * width + x < |buf|
  {
    buf[y * width + x]
  }

  /** A prefix of a buffer is a shorter prefix followed by the run between them. */
  lemma PrefixSplit<T>(s: seq<T>, i: nat, j: nat)
    requires i <= j <= |s|
    ensures s[..j] == s[..i] + s[i..j]
  {
  }
}
