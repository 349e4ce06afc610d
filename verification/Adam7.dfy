/** De-interlacing the seven passes of Adam7 (section 2.6 of RFC 2083). */
module Adam7 {

  const XORIG: seq<nat> := [0, 4, 0, 2, 0, 1, 0]
  const YORIG: seq<nat> := [0, 0, 4, 0, 2, 0, 1]
  const XSPC: seq<nat> := [8, 8, 4, 4, 2, 2, 1]
  const YSPC: seq<nat> := [8, 8, 8, 4, 4, 2, 2]

  /** The size of a pass along one axis: `(n - orig + spc - 1) / spc`. */
  function PassSize(n: nat, orig: nat, spc: nat): nat
    requires orig < spc
  {
    (n - orig + spc - 1) / spc
  }

  /** A step of the pass stays inside the image exactly when it stays inside the pass. */
  lemma PassSizeExact(n: nat, orig: nat, spc: nat, i: nat)
    requires orig < spc
    ensures i < PassSize(n, orig, spc) <==> i * spc + orig < n
  {
    var m := n - orig + spc - 1;
    var q := m / spc;
    assert m == q * spc + m % spc;
    if i < q { Times(i + 1, q, spc); } else { Times(q, i, spc); }
    assert (i + 1) * spc == i * spc + spc;
  }

  lemma Times(a: nat, b: nat, k: nat)
    requires a <= b
    ensures a * k <= b * k
  {
  }

  function Width(w: nat, p: nat): nat
    requires p < 7
  {
    PassSize(w, XORIG[p], XSPC[p])
  }

  function Height(h: nat, p: nat): nat
    requires p < 7
  {
    PassSize(h, YORIG[p], YSPC[p])
  }

  /** The pass that carries pixel (x, y). */
  function PassOf(x: nat, y: nat): (p: nat)
    ensures p < 7
  {
    if y % 2 == 1 then 6 else if x % 2 == 1 then 5 else if y % 4 == 2 then 4 else if x % 4 == 2 then 3
    else if y % 8 == 4 then 2 else if x % 8 == 4 then 1 else 0
  }

  /** Column `i`, row `j` of pass `p` is pixel (x, y). */
  predicate Maps(p: nat, i: nat, j: nat, x: nat, y: nat) {
    p < 7 && x == i * XSPC[p] + XORIG[p] && y == j * YSPC[p] + YORIG[p]
  }

  lemma Axis(i: nat, spc: nat, orig: nat, x: nat)
    requires orig < spc && (spc == 1 || spc == 2 || spc == 4 || spc == 8)
    ensures x == i * spc + orig <==> i == x / spc && orig == x % spc
  {
    if spc == 2 { Axis2(i, orig, x); } else if spc == 4 { Axis4(i, orig, x); } else if spc == 8 { Axis8(i, orig, x); }
  }

  lemma Axis2(i: nat, orig: nat, x: nat)
    requires orig < 2
    ensures x == i * 2 + orig <==> i == x / 2 && orig == x % 2
  {
  }

  lemma Axis4(i: nat, orig: nat, x: nat)
    requires orig < 4
    ensures x == i * 4 + orig <==> i == x / 4 && orig == x % 4
  {
  }

  lemma Axis8(i: nat, orig: nat, x: nat)
    requires orig < 8
    ensures x == i * 8 + orig <==> i == x / 8 && orig == x % 8
  {
  }

  /** The residues of a pixel decide its pass. */
  lemma PassByResidue(p: nat, x: nat, y: nat)
    requires p < 7
    ensures p == PassOf(x, y) <==> XORIG[p] == x % XSPC[p] && YORIG[p] == y % YSPC[p]
  {
    Residues(x);
    Residues(y);
  }

  lemma Residues(x: nat)
    ensures x % 4 == x % 8 % 4 && x % 2 == x % 8 % 2 && x % 1 == 0
  {
    Mod4(2 * (x / 8), x % 8);
    Mod2(4 * (x / 8), x % 8);
  }

  lemma Mod4(q: nat, r: nat)
    ensures (4 * q + r) % 4 == r % 4
  {
  }

  lemma Mod2(q: nat, r: nat)
    ensures (2 * q + r) % 2 == r % 2
  {
  }

  /** Every pixel belongs to exactly one place of exactly one pass. */
  lemma PlaceUnique(p: nat, i: nat, j: nat, x: nat, y: nat)
    ensures Maps(p, i, j, x, y) <==>
            p == PassOf(x, y) && i == x / XSPC[p] && j == y / YSPC[p]
  {
    if p < 7 {
      Axis(i, XSPC[p], XORIG[p], x);
      Axis(j, YSPC[p], YORIG[p], y);
      PassByResidue(p, x, y);
    }
  }

  /** The seven passes cover the image one-to-one: a pixel lies in the image exactly when its one
      place lies in its pass. */
  lemma Tiling(w: nat, h: nat, x: nat, y: nat)
    ensures var p := PassOf(x, y);
            x < w && y < h <==> x / XSPC[p] < Width(w, p) && y / YSPC[p] < Height(h, p)
  {
    var p := PassOf(x, y);
    PlaceUnique(p, x / XSPC[p], y / YSPC[p], x, y);
    PassSizeExact(w, XORIG[p], XSPC[p], x / XSPC[p]);
    PassSizeExact(h, YORIG[p], YSPC[p], y / YSPC[p]);
  }

  /** The position of column `i`, row `j` in the pixels of a pass that is `pw` pixels wide. */
  function Position(i: nat, j: nat, pw: nat): nat { j * pw + i }

  /** A place in a pass. */
  datatype Place = Place(p: nat, i: nat, j: nat)

  /** The one place of the seven passes that carries pixel (x, y). */
  function PlaceOf(x: nat, y: nat): (at: Place)
    ensures at.p < 7
  {
    var p := PassOf(x, y);
    Place(p, x / XSPC[p], y / YSPC[p])
  }

  /** The pixel that a place is copied to. */
  function OutX(at: Place): nat
    requires at.p < 7
  {
    at.i * XSPC[at.p] + XORIG[at.p]
  }

  function OutY(at: Place): nat
    requires at.p < 7
  {
    at.j * YSPC[at.p] + YORIG[at.p]
  }

  predicate InPass(at: Place, w: nat, h: nat) {
    at.p < 7 && at.i < Width(w, at.p) && at.j < Height(h, at.p)
  }

  /** `place` is the inverse of copying: it maps the pixels of the image one-to-one onto the places of the passes. */
  ghost predicate Inverse(place: (nat, nat) -> Place, w: nat, h: nat) {
    && (forall x: nat, y: nat {:trigger place(x, y)} ::
          place(x, y).p < 7 && OutX(place(x, y)) == x && OutY(place(x, y)) == y)
    && (forall x: nat, y: nat {:trigger place(x, y)} :: x < w && y < h ==> InPass(place(x, y), w, h))
    && (forall at {:trigger InPass(at, w, h)} ::
          InPass(at, w, h) ==> OutX(at) < w && OutY(at) < h && place(OutX(at), OutY(at)) == at)
  }

  lemma PlaceOfInverse(w: nat, h: nat)
    ensures Inverse(PlaceOf, w, h)
  {
    forall x: nat, y: nat ensures OutX(PlaceOf(x, y)) == x && OutY(PlaceOf(x, y)) == y
      ensures x < w && y < h ==> InPass(PlaceOf(x, y), w, h)
    {
      var at := PlaceOf(x, y);
      PlaceUnique(at.p, at.i, at.j, x, y);
      Tiling(w, h, x, y);
    }
    forall at | InPass(at, w, h) ensures OutX(at) < w && OutY(at) < h && PlaceOf(OutX(at), OutY(at)) == at {
      PassSizeExact(w, XORIG[at.p], XSPC[at.p], at.i);
      PassSizeExact(h, YORIG[at.p], YSPC[at.p], at.j);
      PlaceUnique(at.p, at.i, at.j, OutX(at), OutY(at));
    }
  }

  /** The value is what the passes have at the place. */
  ghost predicate Written<T>(passes: seq<seq<T>>, w: nat, v: T, at: Place) {
    && at.p < 7 == |passes| && var k := Position(at.i, at.j, Width(w, at.p));
    k < |passes[at.p]| && v == passes[at.p][k]
  }

  /** Copies every pass into the final image. The pixels of pass `p` come row by row in `passes[p]`. */
  method Deinterlace<T(0)>(passes: seq<seq<T>>, w: nat, h: nat) returns (final: array2<T>)
    requires |passes| == 7 && forall p :: 0 <= p < 7 ==> |passes[p]| == Width(w, p) * Height(h, p)
    ensures final.Length0 == h && final.Length1 == w
    ensures forall x, y :: 0 <= x < w && 0 <= y < h ==> Written(passes, w, final[y, x], PlaceOf(x, y))
  {
    PlaceOfInverse(w, h);
    final := CopyPasses(passes, w, h, PlaceOf);
  }

  method CopyPasses<T(0)>(passes: seq<seq<T>>, w: nat, h: nat, ghost place: (nat, nat) -> Place)
    returns (final: array2<T>)
    requires |passes| == 7 && forall p :: 0 <= p < 7 ==> |passes[p]| == Width(w, p) * Height(h, p)
    requires Inverse(place, w, h)
    ensures final.Length0 == h && final.Length1 == w
    ensures forall x, y {:trigger final[y, x]} :: 0 <= x < w && 0 <= y < h ==>
      Written(passes, w, final[y, x], place(x, y))
  {
    final := new T[h, w];
    for p := 0 to 7
      invariant forall x, y {:trigger final[y, x]} :: 0 <= x < w && 0 <= y < h && place(x, y).p < p ==>
        Written(passes, w, final[y, x], place(x, y))
    {
      var x, y := Width(w, p), Height(h, p);
      if x > 0 && y > 0 {
        CopyPass(final, passes, p, w, h, place);
      }
    }
  }

  /** Copies one pass; pixels of other passes keep their values. */
  method CopyPass<T>(final: array2<T>, passes: seq<seq<T>>, p: nat, w: nat, h: nat, ghost place: (nat, nat) -> Place)
    requires p < 7 == |passes| && |passes[p]| == Width(w, p) * Height(h, p)
    requires final.Length0 == h && final.Length1 == w && Inverse(place, w, h)
    modifies final
    ensures forall x, y {:trigger final[y, x]} :: 0 <= x < w && 0 <= y < h ==>
      if place(x, y).p == p then Written(passes, w, final[y, x], place(x, y)) else final[y, x] == old(final[y, x])
  {
    for j := 0 to Height(h, p)
      invariant forall x, y {:trigger final[y, x]} :: 0 <= x < w && 0 <= y < h ==>
        if place(x, y).p == p then place(x, y).j < j ==> Written(passes, w, final[y, x], place(x, y))
        else final[y, x] == old(final[y, x])
    {
      CopyPassRow(final, passes, p, w, h, j, place);
    }
  }

  /** Copies row `j` of one pass. */
  method CopyPassRow<T>(final: array2<T>, passes: seq<seq<T>>, p: nat, w: nat, h: nat, j: nat,
                        ghost place: (nat, nat) -> Place)
    requires p < 7 == |passes| && |passes[p]| == Width(w, p) * Height(h, p) && j < Height(h, p)
    requires final.Length0 == h && final.Length1 == w && Inverse(place, w, h)
    modifies final
    ensures forall x, y {:trigger final[y, x]} :: 0 <= x < w && 0 <= y < h ==>
      if place(x, y).p == p && place(x, y).j == j then Written(passes, w, final[y, x], place(x, y))
      else final[y, x] == old(final[y, x])
  {
    var pw := Width(w, p);
    for i := 0 to pw
      invariant forall x, y {:trigger final[y, x]} :: 0 <= x < w && 0 <= y < h ==>
        if place(x, y).p == p && place(x, y).j == j && place(x, y).i < i
        then Written(passes, w, final[y, x], place(x, y)) else final[y, x] == old(final[y, x])
    {
      var at := Place(p, i, j);
      assert InPass(at, w, h);
      PositionInside(i, j, pw, Height(h, p));
      final[OutY(at), OutX(at)] := passes[p][Position(i, j, pw)];
    }
  }

  lemma PositionInside(i: nat, j: nat, pw: nat, ph: nat)
    requires i < pw && j < ph
    ensures Position(i, j, pw) < pw * ph
  {
    assert pw * ph == (j + 1) * pw + (ph - j - 1) * pw;
    assert (j + 1) * pw == j * pw + pw;
  }
}
