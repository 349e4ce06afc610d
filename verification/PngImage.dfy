/** Interlaced images end to end: the seven passes, each filtered on its own and one behind the other. */
module PngImage {
  import opened PngFilter
  import opened Adam7

  /** The bytes of one pixel. */
  type Pixel = seq<Byte>

  // ------------------------------------------------------- pixels of a row

  /** The bytes of a row of pixels. */
  function Flat(row: seq<Pixel>): seq<Byte> {
    if row == [] then [] else Flat(row[..|row| - 1]) + row[|row| - 1]
  }

  /** Pixel `i` of a row of bytes, `d` bytes to the pixel. */
  function PixelIn(row: seq<Byte>, i: nat, d: nat): Pixel {
    if i * d + d <= |row| then row[i * d..i * d + d] else []
  }

  /** A row of bytes as `n` pixels. */
  function Cut(row: seq<Byte>, n: nat, d: nat): (r: seq<Pixel>)
    ensures |r| == n
  {
    seq(n, i requires 0 <= i < n => PixelIn(row, i, d))
  }

  ghost predicate Deep(row: seq<Pixel>, d: nat) {
    forall i :: 0 <= i < |row| ==> |row[i]| == d
  }

  lemma OneMore(n: nat, d: nat)
    requires n > 0
    ensures n * d == (n - 1) * d + d
  {
  }

  lemma {:induction false} FlatSize(row: seq<Pixel>, d: nat)
    requires Deep(row, d)
    ensures |Flat(row)| == |row| * d
    decreases |row|
  {
    if row != [] {
      FlatSize(row[..|row| - 1], d);
      OneMore(|row|, d);
    }
  }

  lemma {:induction false} FlatPixel(row: seq<Pixel>, d: nat, i: nat)
    requires Deep(row, d) && i < |row|
    ensures PixelIn(Flat(row), i, d) == row[i]
    decreases |row|
  {
    var last := |row| - 1;
    var front := row[..last];
    FlatSize(front, d);
    FlatSize(row, d);
    OneMore(|row|, d);
    if i < last {
      FlatPixel(front, d, i);
      Times(i + 1, last, d);
      OneMore(i + 1, d);
      assert Flat(row)[i * d..i * d + d] == Flat(front)[i * d..i * d + d];
    }
  }

  // ------------------------------------------------------ pixels of a pass

  /** The pixels of a pass, row by row. */
  function Joined(rows: seq<seq<Byte>>, n: nat, d: nat): seq<Pixel> {
    if rows == [] then [] else Joined(rows[..|rows| - 1], n, d) + Cut(rows[|rows| - 1], n, d)
  }

  lemma {:induction false} JoinedSize(rows: seq<seq<Byte>>, n: nat, d: nat)
    ensures |Joined(rows, n, d)| == |rows| * n
    decreases |rows|
  {
    if rows != [] {
      JoinedSize(rows[..|rows| - 1], n, d);
      OneMore(|rows|, n);
    }
  }

  lemma LastRow(a: seq<Pixel>, b: seq<Pixel>, i: nat)
    requires i < |b|
    ensures (a + b)[|a| + i] == b[i]
  {
  }

  lemma {:induction false} JoinedAt(rows: seq<seq<Byte>>, n: nat, d: nat, i: nat, j: nat)
    requires i < n && j < |rows|
    ensures Position(i, j, n) < |Joined(rows, n, d)| && Joined(rows, n, d)[Position(i, j, n)] == PixelIn(rows[j], i, d)
    decreases |rows|
  {
    var last := |rows| - 1;
    JoinedSize(rows, n, d);
    JoinedSize(rows[..last], n, d);
    if j < last {
      JoinedAt(rows[..last], n, d, i, j);
    } else {
      LastRow(Joined(rows[..last], n, d), Cut(rows[last], n, d), i);
    }
  }

  // ------------------------------------------------------------- the stream

  /** How many bytes a pass of `pw` by `ph` pixels takes: a filter byte and the pixels of each row. */
  function PassLength(pw: nat, ph: nat, d: nat): nat {
    if pw == 0 then 0 else ph * (pw * d + 1)
  }

  /** A pass is complete and names valid filters; an empty one takes no bytes at all. */
  predicate PassOk(raw: seq<Byte>, pw: nat, ph: nat, d: nat) {
    pw == 0 || ph == 0 || (Enough(raw, pw * d, ph) && FiltersOk(raw, pw * d, ph))
  }

  /** The pixels of the pass at the start of `raw`. */
  function PassPixels(raw: seq<Byte>, pw: nat, ph: nat, d: nat): seq<Pixel>
    requires PassOk(raw, pw, ph, d) && d > 0
  {
    if pw == 0 || ph == 0 then [] else Joined(Rows(raw, pw * d, d, ph, Zeros(pw * d)), pw, d)
  }

  /** What is left behind a pass. */
  function Behind(raw: seq<Byte>, pw: nat, ph: nat, d: nat): seq<Byte> {
    if PassLength(pw, ph, d) <= |raw| then raw[PassLength(pw, ph, d)..] else []
  }

  /** The size of every pass. */
  datatype Size = Size(pw: nat, ph: nat)

  function Sizes(w: nat, h: nat): (r: seq<Size>)
    ensures |r| == 7 && forall p :: 0 <= p < 7 ==> r[p] == Size(Width(w, p), Height(h, p))
  {
    seq(7, p requires 0 <= p < 7 => Size(Width(w, p), Height(h, p)))
  }

  predicate PassesOk(raw: seq<Byte>, sizes: seq<Size>, d: nat)
    decreases |sizes|
  {
    sizes == [] || (
      var s := sizes[0];
      PassOk(raw, s.pw, s.ph, d) && PassesOk(Behind(raw, s.pw, s.ph, d), sizes[1..], d))
  }

  /** The pixels of the passes that stand one behind the other. */
  function Passes(raw: seq<Byte>, sizes: seq<Size>, d: nat): (r: seq<seq<Pixel>>)
    requires PassesOk(raw, sizes, d) && d > 0
    ensures |r| == |sizes|
    decreases |sizes|
  {
    if sizes == [] then []
    else
      var s := sizes[0];
      [PassPixels(raw, s.pw, s.ph, d)] + Passes(Behind(raw, s.pw, s.ph, d), sizes[1..], d)
  }

  // ------------------------------------------------------------- encoding

  /** One pixel of an image. */
  function At(image: seq<seq<Pixel>>, x: nat, y: nat): Pixel {
    if y < |image| && x < |image[y]| then image[y][x] else []
  }

  /** Row `j` of pass `p`. */
  function PassRow(image: seq<seq<Pixel>>, p: nat, pw: nat, j: nat): (r: seq<Pixel>)
    requires p < 7
    ensures |r| == pw
  {
    seq(pw, i requires 0 <= i < pw => At(image, OutX(Place(p, i, j)), OutY(Place(p, i, j))))
  }

  function PassRows(image: seq<seq<Pixel>>, p: nat, s: Size): (r: seq<seq<Byte>>)
    requires p < 7
    ensures |r| == s.ph
  {
    seq(s.ph, j requires 0 <= j < s.ph => Flat(PassRow(image, p, s.pw, j)))
  }

  /** A pass of the image with one filter per row; nothing at all if the pass is empty. */
  function EncodePass(image: seq<seq<Pixel>>, p: nat, s: Size, d: nat, fs: seq<Byte>): seq<Byte>
    requires p < 7 && |fs| == s.ph
  {
    if s.pw == 0 || s.ph == 0 then [] else FilterRows(fs, PassRows(image, p, s), d, Zeros(s.pw * d))
  }

  /** The passes from `p` on, one behind the other. */
  function EncodeFrom(image: seq<seq<Pixel>>, sizes: seq<Size>, d: nat, filters: seq<seq<Byte>>, p: nat): seq<Byte>
    requires |sizes| == |filters| == 7 && forall q :: 0 <= q < 7 ==> |filters[q]| == sizes[q].ph
    decreases 7 - p
  {
    if p >= 7 then [] else EncodePass(image, p, sizes[p], d, filters[p]) + EncodeFrom(image, sizes, d, filters, p + 1)
  }

  // ------------------------------------------------- decoding what was encoded

  lemma SplitRow(x: seq<Byte>, t: seq<Byte>, w: nat)
    requires w + 1 <= |x|
    ensures (x + t)[w + 1..] == x[w + 1..] + t && (x + t)[1..w + 1] == x[1..w + 1] && (x + t)[0] == x[0]
  {
  }

  /** What follows the rows of a pass does not matter. */
  lemma {:induction false} RowsThenMore(x: seq<Byte>, t: seq<Byte>, w: nat, d: nat, y: nat, prior: seq<Byte>)
    requires Enough(x, w, y) && 0 < d
    ensures Enough(x + t, w, y) && (FiltersOk(x + t, w, y) <==> FiltersOk(x, w, y))
    ensures Rows(x + t, w, d, y, prior) == Rows(x, w, d, y, prior)
    decreases y
  {
    if y > 0 {
      SplitRow(x, t, w);
      RowsThenMore(x[w + 1..], t, w, d, y - 1, Recon(x[0], x[1..w + 1], prior, d, w));
    }
  }

  lemma {:induction false} FilteredSize(fs: seq<Byte>, rows: seq<seq<Byte>>, w: nat, d: nat, prior: seq<Byte>)
    requires |fs| == |rows| && forall j :: 0 <= j < |rows| ==> |rows[j]| == w
    ensures |FilterRows(fs, rows, d, prior)| == |rows| * (w + 1)
    decreases |rows|
  {
    if rows != [] {
      FilteredSize(fs[1..], rows[1..], w, d, rows[0]);
      OneMore(|rows|, w + 1);
    }
  }

  /** All pixels that a pass takes from the image have `d` bytes. */
  ghost predicate PassDeep(image: seq<seq<Pixel>>, p: nat, s: Size, d: nat)
    requires p < 7
  {
    forall j: nat :: j < s.ph ==> Deep(PassRow(image, p, s.pw, j), d)
  }

  /** A pass is found at the front of what was encoded, and gives back its pixels, if its filters are valid. */
  lemma PassBack(image: seq<seq<Pixel>>, p: nat, s: Size, d: nat, fs: seq<Byte>, t: seq<Byte>)
    requires p < 7 && |fs| == s.ph && d > 0 && PassDeep(image, p, s, d)
    ensures var raw := EncodePass(image, p, s, d, fs) + t;
            && Behind(raw, s.pw, s.ph, d) == t
            && (PassOk(raw, s.pw, s.ph, d) <==> s.pw == 0 || s.ph == 0 || ValidFilters(fs))
            && (PassOk(raw, s.pw, s.ph, d) && s.pw != 0 && s.ph != 0 ==>
                  PassPixels(raw, s.pw, s.ph, d) == Joined(PassRows(image, p, s), s.pw, d))
  {
    var x, rows := EncodePass(image, p, s, d, fs), PassRows(image, p, s);
    if s.pw == 0 || s.ph == 0 {
      assert x + t == t;
    } else {
      RowSizes(image, p, s, d);
      FilteredSize(fs, rows, s.pw * d, d, Zeros(s.pw * d));
      RoundTrip(fs, rows, s.pw * d, d, Zeros(s.pw * d));
      FilteredAccepted(fs, rows, s.pw * d, d, Zeros(s.pw * d));
      RowsThenMore(x, t, s.pw * d, d, s.ph, Zeros(s.pw * d));
      assert (x + t)[|x|..] == t;
    }
  }

  lemma RowSizes(image: seq<seq<Pixel>>, p: nat, s: Size, d: nat)
    requires p < 7 && PassDeep(image, p, s, d)
    ensures forall j :: 0 <= j < s.ph ==> |PassRows(image, p, s)[j]| == s.pw * d
  {
    forall j | 0 <= j < s.ph ensures |PassRows(image, p, s)[j]| == s.pw * d {
      assert Deep(PassRow(image, p, s.pw, j), d);
      FlatSize(PassRow(image, p, s.pw, j), d);
    }
  }

  /** The pixel at a place of an encoded pass. */
  lemma PixelBack(image: seq<seq<Pixel>>, p: nat, s: Size, d: nat, i: nat, j: nat)
    requires p < 7 && PassDeep(image, p, s, d) && i < s.pw && j < s.ph
    ensures var pixels := Joined(PassRows(image, p, s), s.pw, d);
            && Position(i, j, s.pw) < |pixels|
            && pixels[Position(i, j, s.pw)] == At(image, OutX(Place(p, i, j)), OutY(Place(p, i, j)))
  {
    JoinedAt(PassRows(image, p, s), s.pw, d, i, j);
    assert Deep(PassRow(image, p, s.pw, j), d);
    FlatPixel(PassRow(image, p, s.pw, j), d, i);
  }

  ghost predicate Encodable(image: seq<seq<Pixel>>, sizes: seq<Size>, d: nat, filters: seq<seq<Byte>>) {
    && |sizes| == |filters| == 7 && d > 0
    && (forall q :: 0 <= q < 7 ==> |filters[q]| == sizes[q].ph)
    && (forall q :: 0 <= q < 7 ==> PassDeep(image, q, sizes[q], d))
  }

  /** The filters of every pass that is not empty are valid, from pass `p` on. */
  ghost predicate FiltersValid(sizes: seq<Size>, filters: seq<seq<Byte>>, p: nat)
    requires |sizes| == |filters|
  {
    forall q :: p <= q < |sizes| && sizes[q].pw != 0 && sizes[q].ph != 0 ==> ValidFilters(filters[q])
  }

  /** What `Passes` makes of the encoded passes, unrolled once. */
  lemma NextPass(image: seq<seq<Pixel>>, sizes: seq<Size>, d: nat, filters: seq<seq<Byte>>, p: nat)
    requires Encodable(image, sizes, d, filters) && p < 7
    ensures var raw, rest := EncodeFrom(image, sizes, d, filters, p), EncodeFrom(image, sizes, d, filters, p + 1);
            var s := sizes[p];
            && (PassesOk(raw, sizes[p..], d) <==>
                  (s.pw == 0 || s.ph == 0 || ValidFilters(filters[p])) && PassesOk(rest, sizes[p + 1..], d))
            && (PassesOk(raw, sizes[p..], d) ==>
                  && Passes(raw, sizes[p..], d)[1..] == Passes(rest, sizes[p + 1..], d)
                  && (s.pw != 0 && s.ph != 0 ==>
                        Passes(raw, sizes[p..], d)[0] == Joined(PassRows(image, p, s), s.pw, d)))
  {
    assert PassDeep(image, p, sizes[p], d);
    PassBack(image, p, sizes[p], d, filters[p], EncodeFrom(image, sizes, d, filters, p + 1));
    assert sizes[p..][0] == sizes[p] && sizes[p..][1..] == sizes[p + 1..];
  }

  /** Encoded passes are accepted exactly if their filters are valid. */
  lemma {:induction false} PassesAccepted(image: seq<seq<Pixel>>, sizes: seq<Size>, d: nat, filters: seq<seq<Byte>>,
                                          p: nat)
    requires Encodable(image, sizes, d, filters) && p <= 7
    ensures PassesOk(EncodeFrom(image, sizes, d, filters, p), sizes[p..], d) <==> FiltersValid(sizes, filters, p)
    decreases 7 - p
  {
    if p < 7 {
      NextPass(image, sizes, d, filters, p);
      PassesAccepted(image, sizes, d, filters, p + 1);
    }
  }

  /** Of the passes encoded from `p` on, pass `q` gives back its pixels. */
  ghost predicate GivesBack(image: seq<seq<Pixel>>, sizes: seq<Size>, d: nat, filters: seq<seq<Byte>>, p: nat, q: nat)
    requires Encodable(image, sizes, d, filters) && p <= q < 7
  {
    var raw, s := EncodeFrom(image, sizes, d, filters, p), sizes[q];
    PassesOk(raw, sizes[p..], d) && s.pw != 0 && s.ph != 0 ==>
      Passes(raw, sizes[p..], d)[q - p] == Joined(PassRows(image, q, s), s.pw, d)
  }

  lemma FurtherBack(image: seq<seq<Pixel>>, sizes: seq<Size>, d: nat, filters: seq<seq<Byte>>, p: nat, q: nat)
    requires Encodable(image, sizes, d, filters) && p < q < 7 && GivesBack(image, sizes, d, filters, p + 1, q)
    ensures GivesBack(image, sizes, d, filters, p, q)
  {
    var raw := EncodeFrom(image, sizes, d, filters, p);
    NextPass(image, sizes, d, filters, p);
    if PassesOk(raw, sizes[p..], d) {
      assert Passes(raw, sizes[p..], d)[1..][q - p - 1] == Passes(raw, sizes[p..], d)[q - p];
    }
  }

  /** Each encoded pass gives back its pixels. */
  lemma {:induction false} PassesBack(image: seq<seq<Pixel>>, sizes: seq<Size>, d: nat, filters: seq<seq<Byte>>,
                                      p: nat, q: nat)
    requires Encodable(image, sizes, d, filters) && p <= q < 7
    ensures GivesBack(image, sizes, d, filters, p, q)
    decreases q - p
  {
    if p < q {
      PassesBack(image, sizes, d, filters, p + 1, q);
      FurtherBack(image, sizes, d, filters, p, q);
    } else {
      NextPass(image, sizes, d, filters, p);
    }
  }

  // --------------------------------------------------------------- decoding

  /** Undoes filters and interlacing of an image of `w` by `h` pixels, pass by pass. Every pixel is the one at its
      place in the passes; it fails exactly on too little data or an unknown filter. */
  method CreateInterlaced(raw: seq<Byte>, w: nat, h: nat, d: nat) returns (ok: bool, final: array2<Pixel>)
    requires d > 0
    ensures final.Length0 == h && final.Length1 == w && (ok <==> PassesOk(raw, Sizes(w, h), d))
    ensures ok ==> forall x, y :: 0 <= x < w && 0 <= y < h ==>
      Written(Passes(raw, Sizes(w, h), d), w, final[y, x], PlaceOf(x, y))
  {
    PlaceOfInverse(w, h);
    ok, final := CopyInterlaced(raw, w, h, d, PlaceOf);
  }

  /** Pass `p` of the image has been found, and so have all before it. */
  ghost predicate Found(raw: seq<Byte>, sizes: seq<Size>, d: nat, passes: seq<seq<Pixel>>, rest: seq<Byte>, p: nat)
    requires d > 0
  {
    && p <= |sizes| == |passes|
    && (PassesOk(raw, sizes, d) <==> PassesOk(rest, sizes[p..], d))
    && (PassesOk(rest, sizes[p..], d) ==> Passes(raw, sizes, d) == passes[..p] + Passes(rest, sizes[p..], d))
  }

  method CopyInterlaced(raw: seq<Byte>, w: nat, h: nat, d: nat, ghost place: (nat, nat) -> Place)
    returns (ok: bool, final: array2<Pixel>)
    requires d > 0 && Inverse(place, w, h)
    ensures final.Length0 == h && final.Length1 == w && (ok <==> PassesOk(raw, Sizes(w, h), d))
    ensures ok ==> forall x, y {:trigger final[y, x]} :: 0 <= x < w && 0 <= y < h ==>
      Written(Passes(raw, Sizes(w, h), d), w, final[y, x], place(x, y))
  {
    final := new Pixel[h, w];
    ghost var sizes := Sizes(w, h);
    var passes, rest := seq(7, _ => []), raw;
    FoundNone(raw, sizes, d, passes);
    for p := 0 to 7
      invariant Found(raw, sizes, d, passes, rest, p)
      invariant forall x, y {:trigger final[y, x]} :: 0 <= x < w && 0 <= y < h && place(x, y).p < p ==>
        Written(passes, w, final[y, x], place(x, y))
    {
      var pixels;
      ok, pixels := ReadPass(rest, Width(w, p), Height(h, p), d);
      NextFound(raw, sizes, d, passes, rest, p, pixels);
      if !ok { return; }
      passes := StorePass(final, passes, p, pixels, w, h, place);
      rest := Behind(rest, Width(w, p), Height(h, p), d);
    }
    ok := true;
    FoundAll(raw, sizes, d, passes, rest);
  }

  /** Copies the pixels of pass `p` into the image. */
  method StorePass(final: array2<Pixel>, passes: seq<seq<Pixel>>, p: nat, pixels: seq<Pixel>, w: nat, h: nat,
                   ghost place: (nat, nat) -> Place) returns (passes': seq<seq<Pixel>>)
    requires p < 7 == |passes| && |pixels| == Width(w, p) * Height(h, p)
    requires final.Length0 == h && final.Length1 == w && Inverse(place, w, h)
    requires forall x, y {:trigger final[y, x]} :: 0 <= x < w && 0 <= y < h && place(x, y).p < p ==>
      Written(passes, w, final[y, x], place(x, y))
    modifies final
    ensures passes' == passes[p := pixels]
    ensures forall x, y {:trigger final[y, x]} :: 0 <= x < w && 0 <= y < h && place(x, y).p < p + 1 ==>
      Written(passes', w, final[y, x], place(x, y))
  {
    passes' := passes[p := pixels];
    if Width(w, p) > 0 && Height(h, p) > 0 {
      CopyPass(final, passes', p, w, h, place);
    }
  }

  lemma FoundNone(raw: seq<Byte>, sizes: seq<Size>, d: nat, passes: seq<seq<Pixel>>)
    requires d > 0 && |sizes| == |passes|
    ensures Found(raw, sizes, d, passes, raw, 0)
  {
    assert sizes[0..] == sizes;
    if PassesOk(raw, sizes, d) { assert passes[..0] + Passes(raw, sizes, d) == Passes(raw, sizes, d); }
  }

  lemma FoundAll(raw: seq<Byte>, sizes: seq<Size>, d: nat, passes: seq<seq<Pixel>>, rest: seq<Byte>)
    requires d > 0 && Found(raw, sizes, d, passes, rest, |sizes|)
    ensures PassesOk(raw, sizes, d) && Passes(raw, sizes, d) == passes
  {
    assert sizes[|sizes|..] == [];
    assert passes[..|sizes|] + Passes(rest, [], d) == passes;
  }

  lemma NextFound(raw: seq<Byte>, sizes: seq<Size>, d: nat, passes: seq<seq<Pixel>>, rest: seq<Byte>, p: nat,
                  pixels: seq<Pixel>)
    requires d > 0 && Found(raw, sizes, d, passes, rest, p) && p < |sizes|
    requires var s := sizes[p]; PassOk(rest, s.pw, s.ph, d) ==> pixels == PassPixels(rest, s.pw, s.ph, d)
    ensures var s := sizes[p];
            if PassOk(rest, s.pw, s.ph, d)
            then Found(raw, sizes, d, passes[p := pixels], Behind(rest, s.pw, s.ph, d), p + 1)
            else !PassesOk(raw, sizes, d)
  {
    var s := sizes[p];
    assert sizes[p..][0] == s && sizes[p..][1..] == sizes[p + 1..];
    assert passes[p := pixels][..p + 1] == passes[..p] + [pixels];
  }

  /** Undoes the filters of one pass; a pass without pixels is not looked at. */
  method ReadPass(raw: seq<Byte>, pw: nat, ph: nat, d: nat) returns (ok: bool, pixels: seq<Pixel>)
    requires d > 0
    ensures ok <==> PassOk(raw, pw, ph, d)
    ensures ok ==> pixels == PassPixels(raw, pw, ph, d) && |pixels| == pw * ph
  {
    if pw == 0 || ph == 0 { return true, []; }
    Times(1, pw, d);
    var out;
    EnoughIsSize(raw, pw * d, ph);
    ok, out := Unfilter(raw, pw * d, d, ph);
    if !ok { return false, []; }
    pixels := TakePixels(out, pw, d, Rows(raw, pw * d, d, ph, Zeros(pw * d)));
    JoinedSize(Rows(raw, pw * d, d, ph, Zeros(pw * d)), pw, d);
  }

  method TakePixels(out: array2<Byte>, pw: nat, d: nat, ghost rows: seq<seq<Byte>>) returns (pixels: seq<Pixel>)
    requires |rows| == out.Length0 && forall j :: 0 <= j < |rows| ==> |rows[j]| == out.Length1
    requires forall j, k :: 0 <= j < out.Length0 && 0 <= k < out.Length1 ==> out[j, k] == rows[j][k]
    ensures pixels == Joined(rows, pw, d)
  {
    pixels := [];
    for j := 0 to out.Length0
      invariant pixels == Joined(rows[..j], pw, d)
    {
      var row := RowOf(out, j);
      assert row == rows[j];
      assert rows[..j + 1][..j] == rows[..j];
      pixels := pixels + Cut(row, pw, d);
    }
    assert rows[..|rows|] == rows;
  }

  method RowOf(out: array2<Byte>, j: nat) returns (row: seq<Byte>)
    requires j < out.Length0
    ensures |row| == out.Length1 && forall k :: 0 <= k < |row| ==> row[k] == out[j, k]
  {
    row := [];
    for k := 0 to out.Length1
      invariant |row| == k && forall m :: 0 <= m < k ==> row[m] == out[j, m]
    {
      row := row + [out[j, k]];
    }
  }

  // ------------------------------------------------------------- end to end

  ghost predicate ImageOk(image: seq<seq<Pixel>>, w: nat, h: nat, d: nat) {
    && |image| == h && d > 0
    && forall y :: 0 <= y < h ==> |image[y]| == w && Deep(image[y], d)
  }

  lemma ImageEncodable(image: seq<seq<Pixel>>, w: nat, h: nat, d: nat, filters: seq<seq<Byte>>)
    requires ImageOk(image, w, h, d)
    requires |filters| == 7 && forall q :: 0 <= q < 7 ==> |filters[q]| == Height(h, q)
    ensures Encodable(image, Sizes(w, h), d, filters)
  {
    PlaceOfInverse(w, h);
    forall q: nat, j: nat, i: nat | q < 7 && j < Height(h, q) && i < Width(w, q)
      ensures |At(image, OutX(Place(q, i, j)), OutY(Place(q, i, j)))| == d
    {
      assert InPass(Place(q, i, j), w, h);
    }
  }

  /** Interlacing an image, filtering each pass with any filters and undoing both gives back every pixel; it fails
      exactly if a filter of a pass that is not empty is invalid. */
  method InterlaceThenCreate(image: seq<seq<Pixel>>, w: nat, h: nat, d: nat, filters: seq<seq<Byte>>)
    returns (ok: bool, final: array2<Pixel>)
    requires ImageOk(image, w, h, d)
    requires |filters| == 7 && forall q :: 0 <= q < 7 ==> |filters[q]| == Height(h, q)
    ensures ok <==> FiltersValid(Sizes(w, h), filters, 0)
    ensures final.Length0 == h && final.Length1 == w
    ensures ok ==> forall x, y :: 0 <= x < w && 0 <= y < h ==> final[y, x] == image[y][x]
  {
    var sizes := Sizes(w, h);
    var raw := EncodeFrom(image, sizes, d, filters, 0);
    ImageEncodable(image, w, h, d, filters);
    PassesAccepted(image, sizes, d, filters, 0);
    assert sizes[0..] == sizes;
    ok, final := CreateInterlaced(raw, w, h, d);
    if ok {
      forall x, y | 0 <= x < w && 0 <= y < h ensures final[y, x] == image[y][x] {
        OnePixelBack(image, w, h, d, filters, x, y, final[y, x]);
      }
    }
  }

  lemma OnePixelBack(image: seq<seq<Pixel>>, w: nat, h: nat, d: nat, filters: seq<seq<Byte>>, x: nat, y: nat, v: Pixel)
    requires ImageOk(image, w, h, d) && Encodable(image, Sizes(w, h), d, filters) && x < w && y < h
    requires PassesOk(EncodeFrom(image, Sizes(w, h), d, filters, 0), Sizes(w, h), d)
    requires Written(Passes(EncodeFrom(image, Sizes(w, h), d, filters, 0), Sizes(w, h), d), w, v, PlaceOf(x, y))
    ensures v == image[y][x]
  {
    var sizes, at := Sizes(w, h), PlaceOf(x, y);
    PlaceOfInverse(w, h);
    assert sizes[0..] == sizes && InPass(at, w, h);
    PassesBack(image, sizes, d, filters, 0, at.p);
    PixelBack(image, at.p, sizes[at.p], d, at.i, at.j);
  }
}
