/** Undoing the scanline filters of PNG (section 6 of RFC 2083). */
module PngFilter {
  import Bytes

  type Byte = Bytes.Byte

  const NONE := 0
  const SUB := 1
  const UP := 2
  const AVG := 3
  const PAETH := 4
  const AVG_FIRST := 5       // the average filter for a row without a prior row

  /** The filter that replaces each filter on the first row. */
  const FIRST_ROW_FILTER: seq<nat> := [NONE, SUB, NONE, AVG_FIRST, SUB]

  /** `(x + y) & 255`, as the byte casts of the code. */
  function AddByte(x: int, y: int): Byte { (x + y) % 256 }

  function Average(a: int, b: int): int { (a + b) / 2 }

  // ------------------------------------------------------ the predictors

  /** The branch-free predictor of the code. */
  function PaethFast(a: int, b: int, c: int): int {
    var thresh := c * 3 - (a + b);
    var lo := if a < b then a else b;
    var hi := if a < b then b else a;
    var t0 := if hi <= thresh then lo else c;
    if thresh <= lo then hi else t0
  }

  function Abs(x: int): int { if x < 0 then -x else x }

  /** PaethPredictor of section 6.6: the neighbour nearest to a + b - c, ties in the order a, b, c. */
  function Paeth(a: int, b: int, c: int): int {
    var p := a + b - c;
    var pa, pb, pc := Abs(p - a), Abs(p - b), Abs(p - c);
    if pa <= pb && pa <= pc then a else if pb <= pc then b else c
  }

  lemma PaethAgree(a: int, b: int, c: int)
    ensures PaethFast(a, b, c) == Paeth(a, b, c)
  {
  }

  /** The prediction of a filter from the bytes to the left, above, and above left. */
  function Predict(f: nat, a: Byte, b: Byte, c: Byte): int {
    if f == SUB then a else if f == UP then b else if f == AVG then Average(b, a)
    else if f == PAETH then Paeth(a, b, c) else if f == AVG_FIRST then Average(0, a) else 0
  }

  /** The byte `d` places before index `k`, zero outside the row. */
  function Back(row: seq<Byte>, k: nat, d: nat): Byte {
    if d <= k && k - d < |row| then row[k - d] else 0
  }

  /** The first `k` bytes of the row whose filtered form is `raw`. */
  function Recon(f: nat, raw: seq<Byte>, prior: seq<Byte>, d: nat, k: nat): (r: seq<Byte>)
    requires k <= |raw| && 0 < d
    ensures |r| == k
  {
    if k == 0 then [] else
    var r := Recon(f, raw, prior, d, k - 1);
    r + [AddByte(raw[k - 1], Predict(f, Back(r, k - 1, d), Back(prior, k - 1, 0), Back(prior, k - 1, d)))]
  }

  /** The filtered form of a row. */
  function Filter(f: nat, row: seq<Byte>, prior: seq<Byte>, d: nat): (r: seq<Byte>)
    ensures |r| == |row|
  {
    seq(|row|, k requires 0 <= k < |row| =>
      AddByte(row[k], -Predict(f, Back(row, k, d), Back(prior, k, 0), Back(prior, k, d))))
  }

  /** Undoing a filter gives back the row. */
  lemma {:induction false} ReconFilter(f: nat, row: seq<Byte>, prior: seq<Byte>, d: nat, k: nat)
    requires k <= |row| && 0 < d
    ensures Recon(f, Filter(f, row, prior, d), prior, d, k) == row[..k]
    decreases k
  {
    if k > 0 {
      ReconFilter(f, row, prior, d, k - 1);
      var fl := Filter(f, row, prior, d);
      var p := Predict(f, Back(row, k - 1, d), Back(prior, k - 1, 0), Back(prior, k - 1, d));
      assert fl[k - 1] == AddByte(row[k - 1], -p);
      ReconLast(f, fl, prior, d, k, row, p);
    }
  }

  lemma ReconLast(f: nat, fl: seq<Byte>, prior: seq<Byte>, d: nat, k: nat, row: seq<Byte>, p: int)
    requires 0 < k <= |row| == |fl| && 0 < d && Recon(f, fl, prior, d, k - 1) == row[..k - 1]
    requires p == Predict(f, Back(row, k - 1, d), Back(prior, k - 1, 0), Back(prior, k - 1, d))
    requires fl[k - 1] == AddByte(row[k - 1], -p)
    ensures Recon(f, fl, prior, d, k) == row[..k]
  {
    BackInside(row, k - 1, d);
    AddBack(row[k - 1], p);
    assert row[..k] == row[..k - 1] + [row[k - 1]];
  }

  lemma BackInside(row: seq<Byte>, k: nat, d: nat)
    requires k < |row| && 0 < d
    ensures Back(row[..k], k, d) == Back(row, k, d)
  {
  }

  lemma AddBack(x: Byte, p: int)
    ensures AddByte(AddByte(x, -p), p) == x
  {
    var q := (x - p) / 256;
    assert (x - p) % 256 + p == x - 256 * q;
  }

  function Zeros(n: nat): (r: seq<Byte>)
    ensures |r| == n
  {
    seq(n, _ => 0)
  }

  /** On the first row the substituted filter, which never looks at a prior row, does what the
      filter itself does against a row of zeros. */
  lemma {:induction false} FirstRow(f: nat, raw: seq<Byte>, any: seq<Byte>, d: nat, k: nat)
    requires f <= 4 && k <= |raw| && 0 < d
    ensures Recon(FIRST_ROW_FILTER[f], raw, any, d, k) == Recon(f, raw, Zeros(|raw|), d, k)
    decreases k
  {
    if k > 0 {
      FirstRow(f, raw, any, d, k - 1);
      var r := Recon(f, raw, Zeros(|raw|), d, k - 1);
      FirstRowPredict(f, Back(r, k - 1, d), Back(any, k - 1, 0), Back(any, k - 1, d));
    }
  }

  lemma FirstRowPredict(f: nat, a: Byte, b: Byte, c: Byte)
    requires f <= 4
    ensures Predict(FIRST_ROW_FILTER[f], a, b, c) == Predict(f, a, 0, 0)
  {
  }

  // ------------------------------------------------------- one row in place

  method CopyRow(cur: array<Byte>, raw: seq<Byte>, n: nat, f: nat, d: nat, ghost prior: seq<Byte>)
    requires cur.Length == |raw| && n <= |raw| && 0 < d
    requires f == NONE || ((f == SUB || f == AVG_FIRST) && n <= d)
    modifies cur
    ensures cur[..n] == Recon(f, raw, prior, d, n)
  {
    for k := 0 to n
      invariant cur[..k] == Recon(f, raw, prior, d, k)
    {
      cur[k] := raw[k];
    }
  }

  method SubRow(cur: array<Byte>, raw: seq<Byte>, d: nat, ghost prior: seq<Byte>)
    requires cur.Length == |raw| && 0 < d <= |raw|
    modifies cur
    ensures cur[..] == Recon(SUB, raw, prior, d, |raw|)
  {
    CopyRow(cur, raw, d, SUB, d, prior);
    for k := d to |raw|
      invariant cur[..k] == Recon(SUB, raw, prior, d, k)
    {
      cur[k] := AddByte(raw[k], cur[k - d]);
    }
  }

  method UpRow(cur: array<Byte>, prior: array<Byte>, raw: seq<Byte>, d: nat)
    requires cur != prior && cur.Length == prior.Length == |raw| && 0 < d
    modifies cur
    ensures cur[..] == Recon(UP, raw, prior[..], d, |raw|)
  {
    for k := 0 to |raw|
      invariant cur[..k] == Recon(UP, raw, prior[..], d, k)
    {
      cur[k] := AddByte(raw[k], prior[k]);
    }
  }

  method AvgHead(cur: array<Byte>, prior: array<Byte>, raw: seq<Byte>, d: nat)
    requires cur != prior && cur.Length == prior.Length == |raw| && 0 < d <= |raw|
    modifies cur
    ensures cur[..d] == Recon(AVG, raw, prior[..], d, d)
  {
    for k := 0 to d
      invariant cur[..k] == Recon(AVG, raw, prior[..], d, k)
    {
      cur[k] := AddByte(raw[k], prior[k] / 2);
    }
  }

  method AvgRow(cur: array<Byte>, prior: array<Byte>, raw: seq<Byte>, d: nat)
    requires cur != prior && cur.Length == prior.Length == |raw| && 0 < d <= |raw|
    modifies cur
    ensures cur[..] == Recon(AVG, raw, prior[..], d, |raw|)
  {
    AvgHead(cur, prior, raw, d);
    for k := d to |raw|
      invariant cur[..k] == Recon(AVG, raw, prior[..], d, k)
    {
      cur[k] := AddByte(raw[k], Average(prior[k], cur[k - d]));
    }
  }

  method PaethHead(cur: array<Byte>, prior: array<Byte>, raw: seq<Byte>, d: nat)
    requires cur != prior && cur.Length == prior.Length == |raw| && 0 < d <= |raw|
    modifies cur
    ensures cur[..d] == Recon(PAETH, raw, prior[..], d, d)
  {
    for k := 0 to d
      invariant cur[..k] == Recon(PAETH, raw, prior[..], d, k)
    {
      cur[k] := AddByte(raw[k], prior[k]);
    }
  }

  method PaethRow(cur: array<Byte>, prior: array<Byte>, raw: seq<Byte>, d: nat)
    requires cur != prior && cur.Length == prior.Length == |raw| && 0 < d <= |raw|
    modifies cur
    ensures cur[..] == Recon(PAETH, raw, prior[..], d, |raw|)
  {
    PaethHead(cur, prior, raw, d);
    for k := d to |raw|
      invariant cur[..k] == Recon(PAETH, raw, prior[..], d, k)
    {
      PaethAgree(cur[k - d], prior[k], prior[k - d]);
      cur[k] := AddByte(raw[k], PaethFast(cur[k - d], prior[k], prior[k - d]));
    }
  }

  method AvgFirstRow(cur: array<Byte>, raw: seq<Byte>, d: nat, ghost prior: seq<Byte>)
    requires cur.Length == |raw| && 0 < d <= |raw|
    modifies cur
    ensures cur[..] == Recon(AVG_FIRST, raw, prior, d, |raw|)
  {
    CopyRow(cur, raw, d, AVG_FIRST, d, prior);
    for k := d to |raw|
      invariant cur[..k] == Recon(AVG_FIRST, raw, prior, d, k)
    {
      cur[k] := AddByte(raw[k], cur[k - d] / 2);
    }
  }

  /** Undoes one filter; the filter number must be valid. */
  method UnfilterRow(filter: nat, cur: array<Byte>, prior: array<Byte>, raw: seq<Byte>, d: nat)
    requires filter <= AVG_FIRST && cur != prior && cur.Length == prior.Length == |raw| && 0 < d <= |raw|
    modifies cur
    ensures cur[..] == Recon(filter, raw, prior[..], d, |raw|)
  {
    if filter == NONE {
      CopyRow(cur, raw, |raw|, NONE, d, prior[..]);
    } else if filter == SUB {
      SubRow(cur, raw, d, prior[..]);
    } else if filter == UP {
      UpRow(cur, prior, raw, d);
    } else if filter == AVG {
      AvgRow(cur, prior, raw, d);
    } else if filter == PAETH {
      PaethRow(cur, prior, raw, d);
    } else {
      AvgFirstRow(cur, raw, d, prior[..]);
    }
  }

  // ------------------------------------------------------------- the image

  /** `raw` holds `y` rows, each a filter byte and `w` filtered bytes. */
  predicate Enough(raw: seq<Byte>, w: nat, y: nat) {
    y == 0 || (w + 1 <= |raw| && Enough(raw[w + 1..], w, y - 1))
  }

  lemma {:induction false} EnoughIsSize(raw: seq<Byte>, w: nat, y: nat)
    ensures Enough(raw, w, y) <==> y * (w + 1) <= |raw|
    decreases y
  {
    if y > 0 {
      OneRowMore(y, w + 1);
      if w + 1 <= |raw| { EnoughIsSize(raw[w + 1..], w, y - 1); }
    }
  }

  lemma OneRowMore(y: nat, n: nat)
    requires y > 0
    ensures y * n == (y - 1) * n + n && (y - 1) * n >= 0
  {
  }

  predicate FiltersOk(raw: seq<Byte>, w: nat, y: nat)
    requires Enough(raw, w, y)
  {
    y == 0 || (raw[0] <= 4 && FiltersOk(raw[w + 1..], w, y - 1))
  }

  /** The rows of the image whose filtered form is `raw`, below the row `prior`. */
  function Rows(raw: seq<Byte>, w: nat, d: nat, y: nat, prior: seq<Byte>): (r: seq<seq<Byte>>)
    requires Enough(raw, w, y) && 0 < d
    ensures |r| == y && forall j :: 0 <= j < y ==> |r[j]| == w
    decreases y
  {
    if y == 0 then [] else
    var row := Recon(raw[0], raw[1..w + 1], prior, d, w);
    [row] + Rows(raw[w + 1..], w, d, y - 1, row)
  }

  /** The filtered form of an image below the row `prior`, with one filter per row. */
  function FilterRows(fs: seq<Byte>, rows: seq<seq<Byte>>, d: nat, prior: seq<Byte>): seq<Byte>
    requires |fs| == |rows|
    decreases |rows|
  {
    if rows == [] then []
    else [fs[0]] + Filter(fs[0], rows[0], prior, d) + FilterRows(fs[1..], rows[1..], d, rows[0])
  }

  /** Undoing the filters gives back every image, whatever filter was chosen for each row. */
  lemma {:induction false} RoundTrip(fs: seq<Byte>, rows: seq<seq<Byte>>, w: nat, d: nat, prior: seq<Byte>)
    requires |fs| == |rows| && 0 < d && forall j :: 0 <= j < |rows| ==> |rows[j]| == w
    ensures Enough(FilterRows(fs, rows, d, prior), w, |rows|)
    ensures Rows(FilterRows(fs, rows, d, prior), w, d, |rows|, prior) == rows
    decreases |rows|
  {
    if rows != [] {
      RoundTrip(fs[1..], rows[1..], w, d, rows[0]);
      FirstRowBack(fs, rows, w, d, prior);
    }
  }

  /** A filtered image has the filter numbers that were chosen, so it is accepted if they are valid. */
  lemma {:induction false} FilteredAccepted(fs: seq<Byte>, rows: seq<seq<Byte>>, w: nat, d: nat, prior: seq<Byte>)
    requires |fs| == |rows| && 0 < d && forall j :: 0 <= j < |rows| ==> |rows[j]| == w
    ensures Enough(FilterRows(fs, rows, d, prior), w, |rows|)
    ensures FiltersOk(FilterRows(fs, rows, d, prior), w, |rows|) <==> ValidFilters(fs)
    decreases |rows|
  {
    RoundTrip(fs, rows, w, d, prior);
    if rows != [] {
      FilteredAccepted(fs[1..], rows[1..], w, d, rows[0]);
      FirstRowBack(fs, rows, w, d, prior);
      FirstFilter(fs);
    }
  }

  predicate ValidFilters(fs: seq<Byte>) {
    forall j :: 0 <= j < |fs| ==> fs[j] <= 4
  }

  lemma FirstFilter(fs: seq<Byte>)
    requires fs != []
    ensures ValidFilters(fs) <==> fs[0] <= 4 && ValidFilters(fs[1..])
  {
    assert forall j :: 1 <= j < |fs| ==> fs[j] == fs[1..][j - 1];
  }

  /** The first row of a filtered image is found at its front and gives back the row. */
  lemma FirstRowBack(fs: seq<Byte>, rows: seq<seq<Byte>>, w: nat, d: nat, prior: seq<Byte>)
    requires |fs| == |rows| > 0 && 0 < d && |rows[0]| == w
    ensures var raw := FilterRows(fs, rows, d, prior);
            && |raw| > w && raw[0] == fs[0] && Recon(raw[0], raw[1..w + 1], prior, d, w) == rows[0]
            && raw[w + 1..] == FilterRows(fs[1..], rows[1..], d, rows[0])
  {
    var raw := FilterRows(fs, rows, d, prior);
    ReconFilter(fs[0], rows[0], prior, d, w);
    assert raw[1..w + 1] == Filter(fs[0], rows[0], prior, d);
    assert raw[w + 1..] == FilterRows(fs[1..], rows[1..], d, rows[0]);
    assert rows[0][..w] == rows[0];
  }

  /** Undoes the filters of `y` rows of `w` bytes, `d` bytes to the pixel, with two row buffers that
      change places after every row. */
  method Unfilter(raw: seq<Byte>, w: nat, d: nat, y: nat) returns (ok: bool, out: array2<Byte>)
    requires 0 < d <= w
    ensures ok <==> y * (w + 1) <= |raw| && Enough(raw, w, y) && FiltersOk(raw, w, y)
    ensures ok ==> out.Length0 == y && out.Length1 == w
    ensures ok ==> forall j, k :: 0 <= j < y && 0 <= k < w ==> out[j, k] == Rows(raw, w, d, y, Zeros(w))[j][k]
  {
    out := new Byte[y, w];
    EnoughIsSize(raw, w, y);
    if |raw| < y * (w + 1) { return false, out; }
    ok := UnfilterAll(raw, w, d, y, out);
  }

  /** Filtering an image and undoing the filters gives it back, exactly if the filters are valid. */
  method FilterThenUnfilter(fs: seq<Byte>, rows: seq<seq<Byte>>, w: nat, d: nat) returns (ok: bool, out: array2<Byte>)
    requires |fs| == |rows| && 0 < d <= w && forall j :: 0 <= j < |rows| ==> |rows[j]| == w
    ensures ok <==> ValidFilters(fs)
    ensures ok ==> out.Length0 == |rows| && out.Length1 == w
    ensures ok ==> forall j, k :: 0 <= j < |rows| && 0 <= k < w ==> out[j, k] == rows[j][k]
  {
    var raw := FilterRows(fs, rows, d, Zeros(w));
    RoundTrip(fs, rows, w, d, Zeros(w));
    FilteredAccepted(fs, rows, w, d, Zeros(w));
    EnoughIsSize(raw, w, |rows|);
    ok, out := Unfilter(raw, w, d, |rows|);
  }

  method UnfilterAll(raw: seq<Byte>, w: nat, d: nat, y: nat, out: array2<Byte>) returns (ok: bool)
    requires 0 < d <= w && Enough(raw, w, y) && out.Length0 == y && out.Length1 == w
    modifies out
    ensures ok <==> FiltersOk(raw, w, y)
    ensures ok ==> forall j, k :: 0 <= j < y && 0 <= k < w ==> out[j, k] == Rows(raw, w, d, y, Zeros(w))[j][k]
  {
    var even := new Byte[w](_ => 0);
    var odd := new Byte[w](_ => 0);
    ghost var image := Rows(raw, w, d, y, Zeros(w));
    var rest := raw;
    ghost var above := Zeros(w);
    for j := 0 to y
      invariant Enough(rest, w, y - j) && (FiltersOk(raw, w, y) <==> FiltersOk(rest, w, y - j))
      invariant |above| == w && image[j..] == Rows(rest, w, d, y - j, above)
      invariant above == if j == 0 then Zeros(w) else Buffer(even, odd, j - 1)[..]
      invariant forall i, k :: 0 <= i < j && 0 <= k < w ==> out[i, k] == image[i][k]
    {
      ok := OneRow(rest, j, even, odd, d, w, out, image, above);
      if !ok { return; }
      above := image[j];
      rest := rest[w + 1..];
    }
    return true;
  }

  /** The buffer of row `j`. */
  function Buffer(even: array<Byte>, odd: array<Byte>, j: nat): array<Byte> { if j % 2 == 0 then even else odd }

  /** Undoes the filter of row `j`, the first of the remaining ones, and stores it. */
  method OneRow(rest: seq<Byte>, j: nat, even: array<Byte>, odd: array<Byte>, d: nat, w: nat, out: array2<Byte>,
                ghost image: seq<seq<Byte>>, ghost above: seq<Byte>) returns (ok: bool)
    requires j < |image| && 0 < d <= w && Enough(rest, w, |image| - j)
    requires even != odd && even.Length == odd.Length == w && out.Length0 == |image| && out.Length1 == w
    requires image[j..] == Rows(rest, w, d, |image| - j, above)
    requires above == if j == 0 then Zeros(w) else Buffer(even, odd, j - 1)[..]
    modifies even, odd, out
    ensures w < |rest| && (ok <==> rest[0] <= 4)
    ensures ok ==> |image[j]| == w && Buffer(even, odd, j)[..] == image[j]
    ensures ok ==> image[j + 1..] == Rows(rest[w + 1..], w, d, |image| - j - 1, image[j])
    ensures ok ==> forall i, k :: 0 <= i < |image| && 0 <= k < w ==>
      out[i, k] == if i == j then image[j][k] else old(out[i, k])
  {
    var cur, prior := Buffer(even, odd, j), Buffer(even, odd, j + 1);
    RowsStep(image, j, rest, w, d, above);
    ok := NextRow(rest, j == 0, cur, prior, d, w);
    if ok { StoreRow(out, j, cur); }
  }

  /** The first of the remaining rows and the ones below it. */
  lemma RowsStep(image: seq<seq<Byte>>, j: nat, rest: seq<Byte>, w: nat, d: nat, above: seq<Byte>)
    requires j < |image| && 0 < d && Enough(rest, w, |image| - j)
    requires image[j..] == Rows(rest, w, d, |image| - j, above)
    ensures w < |rest| && image[j] == Recon(rest[0], rest[1..w + 1], above, d, w)
    ensures image[j + 1..] == Rows(rest[w + 1..], w, d, |image| - j - 1, image[j])
  {
    assert image[j] == image[j..][0] && image[j + 1..] == image[j..][1..];
  }

  /** Undoes the filter of the row at the front of `raw`; on the first row no prior row is read. */
  method NextRow(raw: seq<Byte>, first: bool, cur: array<Byte>, prior: array<Byte>, d: nat, w: nat) returns (ok: bool)
    requires 0 < d <= w < |raw| && cur != prior && cur.Length == prior.Length == w
    modifies cur
    ensures ok <==> raw[0] <= 4
    ensures ok ==> cur[..] == Recon(raw[0], raw[1..w + 1], if first then Zeros(w) else prior[..], d, w)
  {
    var filter: nat := raw[0];
    if filter > 4 { return false; }
    if first {
      FirstRow(filter, raw[1..w + 1], prior[..], d, w);
      filter := FIRST_ROW_FILTER[filter];
    }
    UnfilterRow(filter, cur, prior, raw[1..w + 1], d);
    return true;
  }

  method StoreRow(out: array2<Byte>, j: nat, cur: array<Byte>)
    requires j < out.Length0 && cur.Length == out.Length1
    modifies out
    ensures forall i, k :: 0 <= i < out.Length0 && 0 <= k < out.Length1 ==>
      out[i, k] == if i == j then cur[k] else old(out[i, k])
  {
    for k := 0 to cur.Length
      invariant forall i, m :: 0 <= i < out.Length0 && 0 <= m < out.Length1 ==>
        out[i, m] == if i == j && m < k then cur[m] else old(out[i, m])
    {
      out[j, k] := cur[k];
    }
  }
}
