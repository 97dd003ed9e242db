/** In-place outlining of rmosdlib/rmimage256.c against a pure dilation. */
module Border {
  import opened ModArith

  /** A byte of the image as the code reads it, through a pointer to signed char. */
  type Pixel = c: int | -128 <= c < 128

  /** What is left of an int stored in a char. */
  function Stored(c: int): Pixel { (c + 128) % 256 - 128 }

  datatype Picture = Picture(w: nat, h: nat, px: seq<Pixel>)

  datatype Request = Request(xx: int, yy: int, xl: int, yl: int, fc: int, bc: int, bw: int)

  predicate Inside(w: nat, h: nat, x: int, y: int) { 0 <= x < w && 0 <= y < h }

  function At(w: nat, x: int, y: int): int { x + y * w }

  lemma AtIs(w: nat, x: int, y: int)
    ensures At(w, x, y) == x + y * w
  {
  }

  lemma AtInside(w: nat, h: nat, x: int, y: int)
    requires Inside(w, h, x, y)
    ensures 0 <= At(w, x, y) < w * h
  {
    var up := h - 1 - y;
    assert up * w >= 0;
    assert y * w == (h - 1 - up) * w == h * w - w - up * w;
    assert 0 <= y * w;
  }

  lemma AtDistinct(w: nat, h: nat, x: int, y: int, u: int, v: int)
    requires Inside(w, h, x, y) && Inside(w, h, u, v)
    ensures At(w, x, y) == At(w, u, v) <==> x == u && y == v
  {
    MulBound(w, y - v);
    assert y * w - v * w == (y - v) * w;
  }

  predicate Sized(p: Picture) { |p.px| == p.w * p.h }

  function Get(p: Picture, x: int, y: int): Pixel
    requires Sized(p) && Inside(p.w, p.h, x, y)
  {
    AtInside(p.w, p.h, x, y);
    p.px[At(p.w, x, y)]
  }

  /** Pixels lie row after row. */
  lemma RowMajor(a: Pixel, b: Pixel, c: Pixel, d: Pixel)
    ensures var p := Picture(2, 2, [a, b, c, d]);
            && Sized(p) && Get(p, 0, 0) == a && Get(p, 1, 0) == b && Get(p, 0, 1) == c && Get(p, 1, 1) == d
  {
  }

  function Abs(n: int): nat { if n >= 0 then n else -n }

  predicate Reaches(x: int, y: int, u: int, v: int, bw: int) { Abs(u - x) + Abs(v - y) <= bw }

  /** Some pixel of colour fc lies within distance bw of (x, y). */
  ghost predicate Near(p: Picture, fc: int, bw: int, x: int, y: int)
    requires Sized(p)
  {
    exists u, v :: Inside(p.w, p.h, u, v) && Reaches(x, y, u, v, bw) && Get(p, u, v) == fc
  }

  /** The part of the requested rectangle that lies on the picture. */
  predicate InWindow(p: Picture, r: Request, x: int, y: int) {
    Inside(p.w, p.h, x, y) && r.xx <= x < r.xx + r.xl && r.yy <= y < r.yy + r.yl
  }

  /** A window of two by two inside the picture, and one that sticks out at the top left. */
  lemma WindowCorners(p: Picture, x: int, y: int)
    requires p.w == 4 && p.h == 4
    ensures InWindow(p, Request(1, 1, 2, 2, 0, 0, 0), x, y) <==> 1 <= x <= 2 && 1 <= y <= 2
    ensures InWindow(p, Request(-1, -1, 2, 2, 0, 0, 0), x, y) <==> x == 0 && y == 0
    ensures InWindow(p, Request(3, 3, 2, 2, 0, 0, 0), x, y) <==> x == 3 && y == 3
  {
  }

  predicate Open(p: Picture, r: Request, x: int, y: int)
    requires Sized(p)
  {
    InWindow(p, r, x, y) && Get(p, x, y) != r.fc && Get(p, x, y) != r.bc
  }

  /** The outline: every open pixel near the foreground, judged on the picture as it was. */
  ghost predicate Outlined(p: Picture, q: Picture, r: Request)
    requires Sized(p) && Sized(q) && p.w == q.w && p.h == q.h
  {
    forall x, y :: Inside(p.w, p.h, x, y) ==> OutlinedAt(p, q, r, x, y)
  }

  ghost predicate OutlinedAt(p: Picture, q: Picture, r: Request, x: int, y: int)
    requires Sized(p) && Sized(q) && p.w == q.w && p.h == q.h && Inside(p.w, p.h, x, y)
  {
    Get(q, x, y) == if Open(p, r, x, y) && Near(p, r.fc, r.bw, x, y) then Stored(r.bc) else Get(p, x, y)
  }

  // What one pass in scan order computes, whatever the colours.

  predicate Before(u: int, v: int, x: int, y: int) { v < y || (v == y && u < x) }

  /** The pixel at (u, v) as found when the scan is at (x, y): new before it, old from there on. */
  function Seen(p: Picture, q: Picture, x: int, y: int, u: int, v: int): Pixel
    requires Sized(p) && Sized(q) && p.w == q.w && p.h == q.h && Inside(p.w, p.h, u, v)
  {
    if Before(u, v, x, y) then Get(q, u, v) else Get(p, u, v)
  }

  ghost predicate SeenNear(p: Picture, q: Picture, fc: int, bw: int, x: int, y: int)
    requires Sized(p) && Sized(q) && p.w == q.w && p.h == q.h
  {
    exists u, v :: Inside(p.w, p.h, u, v) && Reaches(x, y, u, v, bw) && Seen(p, q, x, y, u, v) == fc
  }

  ghost predicate SweptAt(p: Picture, q: Picture, r: Request, x: int, y: int)
    requires Sized(p) && Sized(q) && p.w == q.w && p.h == q.h && Inside(p.w, p.h, x, y)
  {
    Get(q, x, y) == if Open(p, r, x, y) && SeenNear(p, q, r.fc, r.bw, x, y) then Stored(r.bc) else Get(p, x, y)
  }

  ghost predicate Swept(p: Picture, q: Picture, r: Request) {
    && Sized(p) && Sized(q) && p.w == q.w && p.h == q.h
    && forall x, y :: Inside(p.w, p.h, x, y) ==> SweptAt(p, q, r, x, y)
  }

  /** The scan has treated every pixel before (x, y) and none from there on. */
  ghost predicate Partly(p: Picture, q: Picture, r: Request, x: int, y: int) {
    && Sized(p) && Sized(q) && p.w == q.w && p.h == q.h
    && forall u, v :: Inside(p.w, p.h, u, v) ==>
         if Before(u, v, x, y) then SweptAt(p, q, r, u, v) else Get(q, u, v) == Get(p, u, v)
  }

  lemma SameShape(p: Picture, q: Picture, r: Request, x: int, y: int)
    requires Partly(p, q, r, x, y)
    ensures Sized(p) && Sized(q) && p.w == q.w && p.h == q.h
    ensures Inside(p.w, p.h, x, y) ==> Get(q, x, y) == Get(p, x, y)
  {
  }

  /** Pixels outside the window need no treatment. */
  lemma Skip(p: Picture, q: Picture, r: Request, x: int, y: int, x': int, y': int)
    requires Partly(p, q, r, x, y)
    requires forall u, v :: InWindow(p, r, u, v) ==> (Before(u, v, x, y) <==> Before(u, v, x', y'))
    requires Before(x, y, x', y') || (x == x' && y == y')
    ensures Partly(p, q, r, x', y')
  {
  }

  /** At (x, y) the buffer shows exactly what the scan sees. */
  lemma NearIsSeen(p: Picture, q: Picture, r: Request, x: int, y: int)
    requires Partly(p, q, r, x, y)
    ensures Near(q, r.fc, r.bw, x, y) <==> SeenNear(p, q, r.fc, r.bw, x, y)
  {
    hide SweptAt;
    if Near(q, r.fc, r.bw, x, y) {
      var u, v :| Inside(q.w, q.h, u, v) && Reaches(x, y, u, v, r.bw) && Get(q, u, v) == r.fc;
      assert Seen(p, q, x, y, u, v) == r.fc;
    }
    if SeenNear(p, q, r.fc, r.bw, x, y) {
      var u, v :| Inside(p.w, p.h, u, v) && Reaches(x, y, u, v, r.bw) && Seen(p, q, x, y, u, v) == r.fc;
      assert Get(q, u, v) == r.fc;
    }
  }

  /** A later change is not seen by an earlier pixel. */
  lemma SeenStable(p: Picture, q: Picture, q': Picture, r: Request, x: int, y: int)
    requires Sized(p) && Sized(q) && Sized(q') && p.w == q.w == q'.w && p.h == q.h == q'.h
    requires forall u, v :: Inside(p.w, p.h, u, v) && Before(u, v, x, y) ==> Get(q, u, v) == Get(q', u, v)
    ensures SeenNear(p, q, r.fc, r.bw, x, y) <==> SeenNear(p, q', r.fc, r.bw, x, y)
  {
    hide Get, Reaches, Before;
    assert forall u, v :: Inside(p.w, p.h, u, v) ==> Seen(p, q, x, y, u, v) == Seen(p, q', x, y, u, v);
  }

  lemma Treated(p: Picture, q: Picture, q': Picture, r: Request, x: int, y: int)
    requires Partly(p, q, r, x, y) && Inside(p.w, p.h, x, y)
    requires Sized(q') && q'.w == q.w && q'.h == q.h
    requires forall u, v :: Inside(p.w, p.h, u, v) && (u != x || v != y) ==> Get(q', u, v) == Get(q, u, v)
    requires Get(q', x, y) ==
      if Open(p, r, x, y) && Near(q, r.fc, r.bw, x, y) then Stored(r.bc) else Get(q, x, y)
    ensures Partly(p, q', r, x + 1, y)
  {
    hide Get, Near, SeenNear, Stored;
    forall u, v | Inside(p.w, p.h, u, v) && Before(u, v, x + 1, y)
      ensures SweptAt(p, q', r, u, v)
    {
      SeenStable(p, q, q', r, u, v);
      if u == x && v == y {
        NearIsSeen(p, q, r, x, y);
      }
    }
  }

  // When the pass is the outline.

  /** The outline of one window pixel would reach a later one that the foreground does not. */
  ghost predicate Spills(p: Picture, r: Request)
    requires Sized(p)
  {
    exists x, y :: Open(p, r, x, y) && !Near(p, r.fc, r.bw, x, y) && SpillsTo(p, r, x, y)
  }

  ghost predicate SpillsTo(p: Picture, r: Request, x: int, y: int)
    requires Sized(p)
  {
    exists u, v :: Open(p, r, u, v) && Near(p, r.fc, r.bw, u, v) && Before(u, v, x, y) && Reaches(x, y, u, v, r.bw)
  }

  /** An outline colour of its own never makes foreground, so the scan sees the old foreground. */
  lemma DistinctColours(p: Picture, q: Picture, r: Request)
    requires Swept(p, q, r) && r.fc != Stored(r.bc)
    ensures Outlined(p, q, r)
  {
    hide Get, Reaches, Stored;
    forall x, y | Inside(p.w, p.h, x, y) ensures OutlinedAt(p, q, r, x, y) {
      assert SweptAt(p, q, r, x, y);
      forall u, v | Inside(p.w, p.h, u, v)
        ensures Seen(p, q, x, y, u, v) == r.fc <==> Get(p, u, v) == r.fc
      {
        assert SweptAt(p, q, r, u, v);
      }
      assert SeenNear(p, q, r.fc, r.bw, x, y) <==> Near(p, r.fc, r.bw, x, y);
    }
  }

  /** With one colour for both, the scan sees the old foreground and the outline made so far. */
  lemma SeenOrSpilt(p: Picture, q: Picture, r: Request, x: int, y: int)
    requires Swept(p, q, r) && r.fc == Stored(r.bc)
    requires forall u, v :: Inside(p.w, p.h, u, v) && Before(u, v, x, y) ==> OutlinedAt(p, q, r, u, v)
    ensures SeenNear(p, q, r.fc, r.bw, x, y) <==> Near(p, r.fc, r.bw, x, y) || SpillsTo(p, r, x, y)
  {
    hide Get, Reaches, Stored;
    if Near(p, r.fc, r.bw, x, y) {
      var u, v :| Inside(p.w, p.h, u, v) && Reaches(x, y, u, v, r.bw) && Get(p, u, v) == r.fc;
      assert SweptAt(p, q, r, u, v);
      assert Seen(p, q, x, y, u, v) == r.fc;
    }
    if SpillsTo(p, r, x, y) {
      var u, v :| Open(p, r, u, v) && Near(p, r.fc, r.bw, u, v) && Before(u, v, x, y) && Reaches(x, y, u, v, r.bw);
      assert OutlinedAt(p, q, r, u, v);
      assert Seen(p, q, x, y, u, v) == r.fc;
    }
    if SeenNear(p, q, r.fc, r.bw, x, y) {
      var u, v :| Inside(p.w, p.h, u, v) && Reaches(x, y, u, v, r.bw) && Seen(p, q, x, y, u, v) == r.fc;
      if Before(u, v, x, y) {
        assert OutlinedAt(p, q, r, u, v);
        if Get(p, u, v) != r.fc {
          assert Open(p, r, u, v) && Near(p, r.fc, r.bw, u, v);
        }
      }
    }
  }

  lemma {:induction false} SameColour(p: Picture, q: Picture, r: Request, x: int, y: int)
    requires Swept(p, q, r) && r.fc == Stored(r.bc) && !Spills(p, r) && Inside(p.w, p.h, x, y)
    ensures OutlinedAt(p, q, r, x, y)
    decreases y, x
  {
    hide Get, Reaches, Stored, Near, SeenNear, SpillsTo;
    forall u, v | Inside(p.w, p.h, u, v) && Before(u, v, x, y) ensures OutlinedAt(p, q, r, u, v) {
      SameColour(p, q, r, u, v);
    }
    SeenOrSpilt(p, q, r, x, y);
    assert SweptAt(p, q, r, x, y);
  }

  lemma SpillShows(p: Picture, q: Picture, r: Request)
    requires Swept(p, q, r) && r.fc == Stored(r.bc) && Spills(p, r)
    ensures !Outlined(p, q, r)
  {
    hide Get, Reaches, Stored, Near, SeenNear, SpillsTo;
    var x, y :| Open(p, r, x, y) && !Near(p, r.fc, r.bw, x, y) && SpillsTo(p, r, x, y);
    if forall u, v :: Inside(p.w, p.h, u, v) && Before(u, v, x, y) ==> OutlinedAt(p, q, r, u, v) {
      SeenOrSpilt(p, q, r, x, y);
      assert SweptAt(p, q, r, x, y);
      assert !OutlinedAt(p, q, r, x, y);
    }
  }

  /** The exact condition under which one pass in place is the dilation. */
  lemma SweepIsOutline(p: Picture, q: Picture, r: Request)
    requires Swept(p, q, r)
    ensures Outlined(p, q, r) <==> r.fc != Stored(r.bc) || !Spills(p, r)
  {
    if r.fc != Stored(r.bc) {
      DistinctColours(p, q, r);
    } else if Spills(p, r) {
      SpillShows(p, q, r);
    } else {
      forall x, y | Inside(p.w, p.h, x, y) ensures OutlinedAt(p, q, r, x, y) {
        SameColour(p, q, r, x, y);
      }
    }
  }

  lemma RowOfThree(p: Picture)
    requires p.w == 3 && p.h == 1 && Sized(p)
    ensures p.px == [Get(p, 0, 0), Get(p, 1, 0), Get(p, 2, 0)]
  {
  }

  /** Outlining in the foreground's own colour can flood: a row of three with one foreground pixel. */
  lemma Floods(q: Picture)
    requires Swept(Picture(3, 1, [5, 0, 0]), q, Request(0, 0, 3, 1, 5, 5, 1))
    ensures q.px == [5, 5, 5] && Spills(Picture(3, 1, [5, 0, 0]), Request(0, 0, 3, 1, 5, 5, 1))
  {
    hide Get, At;
    var p, r := Picture(3, 1, [5, 0, 0]), Request(0, 0, 3, 1, 5, 5, 1);
    RowOfThree(p);
    RowOfThree(q);
    assert p.px[0] == Get(p, 0, 0) == 5 && p.px[1] == Get(p, 1, 0) == 0 && p.px[2] == Get(p, 2, 0) == 0;
    assert SweptAt(p, q, r, 0, 0);
    assert SeenNear(p, q, 5, 1, 1, 0) by { assert Seen(p, q, 1, 0, 0, 0) == 5; }
    assert SweptAt(p, q, r, 1, 0);
    assert SeenNear(p, q, 5, 1, 2, 0) by { assert Seen(p, q, 2, 0, 1, 0) == 5; }
    assert SweptAt(p, q, r, 2, 0);
    assert SpillsTo(p, r, 2, 0) by {
      assert Near(p, 5, 1, 1, 0) by { NearHere(p, 5, 1, 1, 0, 0, 0); }
    }
    assert !Near(p, 5, 1, 2, 0);
  }

  /** Palette entries from 128 up never match a signed char: such a foreground gets no outline. */
  lemma HighForeground(p: Picture, q: Picture, r: Request)
    requires Swept(p, q, r) && r.fc >= 128
    ensures q == p
  {
    DistinctColours(p, q, r);
    forall i | 0 <= i < |p.px| ensures q.px[i] == p.px[i] {
      var x, y := i % p.w, i / p.w;
      assert Inside(p.w, p.h, x, y) by { Unflatten(p.w, p.h, i); }
      assert OutlinedAt(p, q, r, x, y) && At(p.w, x, y) == i;
    }
  }

  lemma Unflatten(w: nat, h: nat, i: nat)
    requires w > 0 && i < w * h
    ensures Inside(w, h, i % w, i / w)
  {
    MulBound(w, i / w - h + 1);
    assert (i / w - h + 1) * w == i / w * w - h * w + w;
  }

  // What an outline means over palette indices.

  /** The palette index that a stored byte stands for. */
  function Index(c: Pixel): nat { c % 256 }

  predicate OpenByIndex(p: Picture, r: Request, x: int, y: int)
    requires Sized(p)
  {
    InWindow(p, r, x, y) && Index(Get(p, x, y)) != r.fc && Index(Get(p, x, y)) != r.bc
  }

  ghost predicate NearByIndex(p: Picture, r: Request, x: int, y: int)
    requires Sized(p)
  {
    exists u, v :: Inside(p.w, p.h, u, v) && Reaches(x, y, u, v, r.bw) && Index(Get(p, u, v)) == r.fc
  }

  ghost predicate MeantAt(p: Picture, q: Picture, r: Request, x: int, y: int)
    requires Sized(p) && Sized(q) && p.w == q.w && p.h == q.h && Inside(p.w, p.h, x, y)
  {
    Index(Get(q, x, y)) ==
      if OpenByIndex(p, r, x, y) && NearByIndex(p, r, x, y) then r.bc else Index(Get(p, x, y))
  }

  ghost predicate Meant(p: Picture, q: Picture, r: Request)
    requires Sized(p) && Sized(q) && p.w == q.w && p.h == q.h
  {
    forall x, y :: Inside(p.w, p.h, x, y) ==> MeantAt(p, q, r, x, y)
  }

  /** Somewhere there is an outline to be drawn. */
  ghost predicate Wanted(p: Picture, r: Request)
    requires Sized(p)
  {
    exists x, y :: OpenByIndex(p, r, x, y) && NearByIndex(p, r, x, y)
  }

  lemma IndexSigned(c: Pixel, n: int)
    requires 0 <= n < 256
    ensures Index(c) == n <==> c == Stored(n)
    ensures n < 128 <==> Stored(n) == n
    ensures Index(Stored(n)) == n
  {
  }

  lemma IndexFaithful(c: Pixel, d: Pixel)
    ensures Index(c) == Index(d) <==> c == d
  {
  }

  /** For a foreground index below 128 the signed reading and the index agree. */
  lemma LowMeant(p: Picture, q: Picture, r: Request, x: int, y: int)
    requires Sized(p) && Sized(q) && p.w == q.w && p.h == q.h && Inside(p.w, p.h, x, y)
    requires 0 <= r.fc < 128 && 0 <= r.bc < 256
    ensures MeantAt(p, q, r, x, y) <==> OutlinedAt(p, q, r, x, y)
  {
    hide Get, Stored, Reaches, Index;
    IndexSigned(Get(p, x, y), r.fc);
    IndexSigned(Get(p, x, y), r.bc);
    IndexSigned(Get(q, x, y), r.bc);
    IndexFaithful(Get(q, x, y), Get(p, x, y));
    forall u, v | Inside(p.w, p.h, u, v)
      ensures Get(p, u, v) == r.fc <==> Index(Get(p, u, v)) == r.fc
    {
      IndexSigned(Get(p, u, v), r.fc);
    }
    assert Near(p, r.fc, r.bw, x, y) <==> NearByIndex(p, r, x, y);
  }

  /** Over palette indices the code draws what is meant exactly when the foreground index is below
      128 and the outline has another colour or does not spill, or when there is nothing to draw. */
  lemma PaletteExact(p: Picture, q: Picture, r: Request)
    requires Swept(p, q, r) && 0 <= r.fc < 256 && 0 <= r.bc < 256
    ensures Meant(p, q, r) <==> if r.fc < 128 then r.fc != r.bc || !Spills(p, r) else !Wanted(p, r)
  {
    hide Get, Reaches, Index, NearByIndex, Near, Spills;
    if r.fc < 128 {
      SweepIsOutline(p, q, r);
      IndexSigned(0, r.bc);
      forall x, y | Inside(p.w, p.h, x, y) ensures MeantAt(p, q, r, x, y) <==> OutlinedAt(p, q, r, x, y) {
        LowMeant(p, q, r, x, y);
      }
    } else {
      HighForeground(p, q, r);
      forall x, y | Inside(p.w, p.h, x, y)
        ensures MeantAt(p, q, r, x, y) <==> !(OpenByIndex(p, r, x, y) && NearByIndex(p, r, x, y))
      {
        IndexFaithful(Get(q, x, y), Get(p, x, y));
      }
    }
  }

  /** A row of two: index 200 stands beside an open pixel that should become 5 and stays 0. */
  lemma HighMissed(q: Picture)
    requires Swept(Picture(2, 1, [-56, 0]), q, Request(0, 0, 2, 1, 200, 5, 1))
    ensures q.px == [-56, 0] && !Meant(Picture(2, 1, [-56, 0]), q, Request(0, 0, 2, 1, 200, 5, 1))
  {
    var p, r := Picture(2, 1, [-56, 0]), Request(0, 0, 2, 1, 200, 5, 1);
    RowOfTwo(-56, 0);
    hide Get, At, NearByIndex, Swept;
    HighForeground(p, q, r);
    ByIndexHere(p, r, 1, 0, 0, 0);
    assert !MeantAt(p, q, r, 1, 0);
  }

  lemma RowOfTwo(a: Pixel, b: Pixel)
    ensures var p := Picture(2, 1, [a, b]); Sized(p) && Get(p, 0, 0) == a && Get(p, 1, 0) == b
  {
  }

  lemma ByIndexHere(p: Picture, r: Request, x: int, y: int, u: int, v: int)
    requires Sized(p) && Inside(p.w, p.h, u, v) && Reaches(x, y, u, v, r.bw) && Index(Get(p, u, v)) == r.fc
    ensures NearByIndex(p, r, x, y)
  {
  }

  // The search for a foreground pixel, column by column.

  ghost predicate Clear(p: Picture, fc: int, bw: int, x: int, y: int, i: int, j: int)
    requires Sized(p)
  {
    forall u, v :: Inside(p.w, p.h, u, v) && Reaches(x, y, u, v, bw) && (u < x + i || (u == x + i && v < y + j)) ==>
      Get(p, u, v) != fc
  }

  lemma ClearStart(p: Picture, fc: int, bw: int, x: int, y: int)
    requires Sized(p)
    ensures Clear(p, fc, bw, x, y, -bw, -bw)
  {
    hide Get;
  }

  lemma NearHere(p: Picture, fc: int, bw: int, x: int, y: int, u: int, v: int)
    requires Sized(p) && Inside(p.w, p.h, u, v) && Reaches(x, y, u, v, bw) && Get(p, u, v) == fc
    ensures Near(p, fc, bw, x, y)
  {
  }

  lemma ClearCell(p: Picture, fc: int, bw: int, x: int, y: int, i: int, j: int)
    requires Sized(p) && Clear(p, fc, bw, x, y, i, j)
    requires Inside(p.w, p.h, x + i, y + j) && Abs(i) + Abs(j) <= bw ==> Get(p, x + i, y + j) != fc
    ensures Clear(p, fc, bw, x, y, i, j + 1)
  {
    hide Get;
  }

  lemma ClearColumn(p: Picture, fc: int, bw: int, x: int, y: int, i: int, j: int)
    requires Sized(p) && Clear(p, fc, bw, x, y, i, j) && (j > bw || !(0 <= x + i < p.w))
    ensures Clear(p, fc, bw, x, y, i + 1, -bw)
  {
    hide Get;
  }

  lemma ClearAll(p: Picture, fc: int, bw: int, x: int, y: int, i: int)
    requires Sized(p) && Clear(p, fc, bw, x, y, i, -bw) && i > bw
    ensures !Near(p, fc, bw, x, y)
  {
    hide Get;
  }

  // The code.

  class Image {
    const width: nat
    const height: nat
    const ptr: array<Pixel>

    predicate Valid() { ptr.Length == width * height }

    function Show(): Picture
      reads ptr
    {
      Picture(width, height, ptr[..])
    }

    constructor (w: nat, h: nat)
      ensures width == w && height == h && fresh(ptr) && Valid()
    {
      width, height := w, h;
      ptr := new Pixel[w * h](i => 0);
    }

    /** The two inner loops: is there a foreground pixel within reach of (x, y)? */
    method Touches(x: int, y: int, fc: int, bw: int) returns (found: bool)
      requires Valid() && Inside(width, height, x, y) && Get(Show(), x, y) != fc
      ensures found <==> Near(Show(), fc, bw, x, y)
    {
      hide Clear, Near, At, Get;
      ghost var p := Show();
      found := false;
      var i := -bw;
      ClearStart(p, fc, bw, x, y);
      while i <= bw
        invariant found ==> Near(p, fc, bw, x, y) && i > bw
        invariant !found ==> Clear(p, fc, bw, x, y, i, -bw)
        decreases bw - i
      {
        var j := -bw;
        if 0 <= x + i < width {
          while j <= bw
            invariant !found && 0 <= x + i < width && i <= bw && Clear(p, fc, bw, x, y, i, j)
            decreases bw - j
          {
            var hit := Probe(x, y, i, j, fc, bw);
            if hit {
              NearHere(p, fc, bw, x, y, x + i, y + j);
              found := true;
              i, j := bw, bw;
              break;
            }
            ClearCell(p, fc, bw, x, y, i, j);
            j := j + 1;
          }
        }
        if !found {
          ClearColumn(p, fc, bw, x, y, i, j);
        }
        i := i + 1;
      }
      if !found {
        ClearAll(p, fc, bw, x, y, i);
      }
    }

    /** One round of the innermost loop. */
    method Probe(x: int, y: int, i: int, j: int, fc: int, bw: int) returns (hit: bool)
      requires Valid() && Inside(width, height, x, y) && Get(Show(), x, y) != fc && 0 <= x + i < width
      ensures hit <==> Inside(width, height, x + i, y + j) && Reaches(x, y, x + i, y + j, bw)
                       && Get(Show(), x + i, y + j) == fc
    {
      hide At;
      if y + j < 0 || y + j >= height { return false; }
      var dist := Abs(i) + Abs(j);
      if dist == 0 || dist > bw { return false; }
      AtInside(width, height, x + i, y + j);
      var pos := (x + i) + (y + j) * width;
      AtIs(width, x + i, y + j);
      hit := ptr[pos] == fc;
    }

    method Border(xx: int, yy: int, xl: int, yl: int, fc: int, bc: int, bw: int)
      requires Valid()
      modifies ptr
      ensures var r := Request(xx, yy, xl, yl, fc, bc, bw);
              && Swept(old(Show()), Show(), r)
              && (Outlined(old(Show()), Show(), r) <==> fc != Stored(bc) || !Spills(old(Show()), r))
    {
      hide Stored, Near;
      ghost var p := Show();
      var r := Request(xx, yy, xl, yl, fc, bc, bw);
      var xe, ye := xx + xl, yy + yl;
      var xb, yb := if xx > 0 then xx else 0, if yy > 0 then yy else 0;
      xe := if xe < width then xe else width;
      ye := if ye < height then ye else height;
      var y := yb;
      while y < ye
        invariant yb <= y && Partly(p, Show(), r, xb, y)
      {
        var x := xb;
        while x < xe
          invariant xb <= x && Partly(p, Show(), r, x, y)
        {
          Visit(x, y, p, r);
          x := x + 1;
        }
        Skip(p, Show(), r, x, y, xb, y + 1);
        y := y + 1;
      }
      SweepIsOutline(p, Show(), r);
    }

    /** The body of the scan at one pixel of the window. */
    method Visit(x: int, y: int, ghost p: Picture, r: Request)
      requires Valid() && InWindow(p, r, x, y) && Partly(p, Show(), r, x, y)
      modifies ptr
      ensures Partly(p, Show(), r, x + 1, y)
    {
      hide At, Near, Partly;
      ghost var q := Show();
      SameShape(p, q, r, x, y);
      AtInside(width, height, x, y);
      AtIs(width, x, y);
      var k := y * width;
      var c := ptr[x + k];
      if c != r.fc && c != r.bc {
        var found := Touches(x, y, r.fc, r.bw);
        if found {
          ptr[x + k] := Stored(r.bc);
        }
      }
      forall u, v | Inside(p.w, p.h, u, v) && (u != x || v != y)
        ensures Get(Show(), u, v) == Get(q, u, v)
      {
        AtInside(width, height, u, v);
        AtDistinct(width, height, x, y, u, v);
      }
      Treated(p, q, Show(), r, x, y);
    }
  }
}
