/** The fixed-point exponential blur of a glyph (fons__blurCols and fons__blurRows, fontstash.h). */
module Blur {
  import opened Bits
  import opened Atlas
  import opened Texture

  /** Fixed-point fractions: alpha has 16 fraction bits, the accumulator z has 7. */
  const A_ONE: nat := 0x1_0000
  const Z_ONE: nat := 128

  /** One step of the filter. Division by a positive number rounds down, as the arithmetic shift does. */
  function Smooth(z: int, v: int, alpha: int): int {
    z + (alpha * (v * Z_ONE - z)) / A_ONE
  }

  lemma ScaleBound(alpha: int, d: int)
    requires 0 <= alpha <= A_ONE
    ensures d >= 0 ==> 0 <= alpha * d <= A_ONE * d
    ensures d <= 0 ==> A_ONE * d <= alpha * d <= 0
  {
    if d >= 0 {
      assert (A_ONE - alpha) * d >= 0;
    } else {
      assert (A_ONE - alpha) * (-d) >= 0;
    }
  }

  lemma DivBound(p: int, d: int)
    requires 0 <= p <= A_ONE * d || A_ONE * d <= p <= 0
    ensures 0 <= p / A_ONE <= d || d <= p / A_ONE <= 0
  {
  }

  /** The accumulator moves towards the new value and not past it, so it never leaves the range of the
      values seen, and the product fits in 32 bits. */
  lemma SmoothBound(z: int, v: int, alpha: int, m: int)
    requires 0 <= z <= m * Z_ONE && 0 <= v <= m <= 255 && 0 <= alpha <= A_ONE
    ensures 0 <= Smooth(z, v, alpha) <= m * Z_ONE
    ensures -0x8000_0000 <= alpha * (v * Z_ONE - z) < 0x8000_0000
  {
    var d := v * Z_ONE - z;
    ScaleBound(alpha, d);
    DivBound(alpha * d, d);
  }

  /** The new accumulator is the weighted mean of the old one and the value, rounded down. */
  lemma WeightedMean(z: int, v: int, alpha: int)
    ensures var mean := (A_ONE - alpha) * z + alpha * (v * Z_ONE); var z' := Smooth(z, v, alpha);
      A_ONE * z' <= mean < A_ONE * (z' + 1)
  {
    var d := v * Z_ONE - z;
    var q := alpha * d / A_ONE;
    assert A_ONE * q <= alpha * d < A_ONE * (q + 1);
    Distribute(alpha, z, v * Z_ONE);
  }

  lemma Distribute(alpha: int, z: int, v: int)
    ensures (A_ONE - alpha) * z + alpha * v == A_ONE * z + alpha * (v - z)
  {
  }

  /** A brighter value, or a brighter line before it, gives a brighter mean. */
  lemma SmoothMono(z: int, v: int, z': int, v': int, alpha: int)
    requires z <= z' && v <= v' && 0 <= alpha <= A_ONE
    ensures Smooth(z, v, alpha) <= Smooth(z', v', alpha)
  {
    WeightedMean(z, v, alpha);
    WeightedMean(z', v', alpha);
    MulGrows(A_ONE - alpha, z, z');
    MulGrows(alpha, v * Z_ONE, v' * Z_ONE);
  }

  lemma MulGrows(a: int, x: int, y: int)
    requires 0 <= a && x <= y
    ensures a * x <= a * y
  {
    assert a * (y - x) >= 0;
  }

  lemma SmoothSharp(z: int, v: int)
    ensures Smooth(z, v, A_ONE) == v * Z_ONE
  {
  }

  // --------------------------------------------------------------- one line

  predicate Strength(alpha: int) { 0 <= alpha <= A_ONE }

  /** The accumulator at texel k of the forward pass, which starts from zero at the first texel. */
  function Forward(line: seq<byte>, alpha: int, k: nat): (z: int)
    requires Strength(alpha) && k < |line|
    ensures 0 <= z <= 255 * Z_ONE
  {
    if k == 0 then 0
    else
      SmoothBound(Forward(line, alpha, k - 1), line[k], alpha, 255);
      Smooth(Forward(line, alpha, k - 1), line[k], alpha)
  }

  /** The accumulator at texel k of the backward pass, which starts from zero at the last texel. */
  function Backward(line: seq<byte>, alpha: int, k: nat): (z: int)
    requires Strength(alpha) && k < |line|
    ensures 0 <= z <= 255 * Z_ONE
    decreases |line| - k
  {
    if k == |line| - 1 then 0
    else
      SmoothBound(Backward(line, alpha, k + 1), line[k], alpha, 255);
      Smooth(Backward(line, alpha, k + 1), line[k], alpha)
  }

  function Texel(z: int): byte
    requires 0 <= z <= 255 * Z_ONE
  {
    z / Z_ONE
  }

  /** The line after the forward pass: the first texel is not touched, the last one is cleared. */
  function ForwardAt(line: seq<byte>, alpha: int, k: nat): byte
    requires Strength(alpha) && k < |line|
  {
    if k == 0 then line[0] else if k == |line| - 1 then 0 else Texel(Forward(line, alpha, k))
  }

  function Forwarded(line: seq<byte>, alpha: int): (out: seq<byte>)
    requires Strength(alpha)
    ensures |out| == |line|
  {
    seq(|line|, k requires 0 <= k < |line| => ForwardAt(line, alpha, k))
  }

  function BackwardAt(mid: seq<byte>, alpha: int, k: nat): byte
    requires Strength(alpha) && k < |mid|
  {
    if k == 0 || k == |mid| - 1 then 0 else Texel(Backward(mid, alpha, k))
  }

  /** The line after both passes. */
  function Blurred(line: seq<byte>, alpha: int): (out: seq<byte>)
    requires Strength(alpha)
    ensures |out| == |line|
  {
    var mid := Forwarded(line, alpha);
    seq(|line|, k requires 0 <= k < |line| => BackwardAt(mid, alpha, k))
  }

  lemma BlurredEnds(line: seq<byte>, alpha: int)
    requires Strength(alpha) && |line| > 0
    ensures Blurred(line, alpha)[0] == 0 && Blurred(line, alpha)[|line| - 1] == 0
  {
  }

  /** Each pass stores, texel by texel, the weighted mean of what came before and the texel, rounded down, in 128ths. */
  lemma PassMeans(line: seq<byte>, alpha: int, k: nat)
    requires Strength(alpha) && 0 < k < |line| - 1
    ensures var (z, z') := (Forward(line, alpha, k - 1), Forward(line, alpha, k));
      A_ONE * z' <= (A_ONE - alpha) * z + alpha * (line[k] * Z_ONE) < A_ONE * (z' + 1)
      && Forwarded(line, alpha)[k] == z' / Z_ONE
    ensures var mid := Forwarded(line, alpha);
      var (z, z') := (Backward(mid, alpha, k + 1), Backward(mid, alpha, k));
      A_ONE * z' <= (A_ONE - alpha) * z + alpha * (mid[k] * Z_ONE) < A_ONE * (z' + 1)
      && Blurred(line, alpha)[k] == z' / Z_ONE
  {
    hide Smooth, Forwarded;
    var mid := Forwarded(line, alpha);
    assert mid[k] == Texel(Forward(line, alpha, k)) by { MidAt(line, alpha, k); }
    WeightedMean(Forward(line, alpha, k - 1), line[k], alpha);
    WeightedMean(Backward(mid, alpha, k + 1), mid[k], alpha);
  }

  lemma MidAt(line: seq<byte>, alpha: int, k: nat)
    requires Strength(alpha) && 0 < k < |line| - 1
    ensures Forwarded(line, alpha)[k] == Texel(Forward(line, alpha, k))
  {
  }

  ghost predicate AtMost(line: seq<byte>, m: int) {
    forall k :: 0 <= k < |line| ==> line[k] <= m
  }

  ghost predicate Darker(line: seq<byte>, line': seq<byte>) {
    |line| == |line'| && forall k :: 0 <= k < |line| ==> line[k] <= line'[k]
  }

  lemma {:induction false} ForwardMono(line: seq<byte>, line': seq<byte>, alpha: int, k: nat)
    requires Strength(alpha) && Darker(line, line') && k < |line|
    ensures Forward(line, alpha, k) <= Forward(line', alpha, k)
  {
    hide Smooth;
    if k > 0 {
      ForwardMono(line, line', alpha, k - 1);
      SmoothMono(Forward(line, alpha, k - 1), line[k], Forward(line', alpha, k - 1), line'[k], alpha);
    }
  }

  lemma {:induction false} BackwardMono(line: seq<byte>, line': seq<byte>, alpha: int, k: nat)
    requires Strength(alpha) && Darker(line, line') && k < |line|
    ensures Backward(line, alpha, k) <= Backward(line', alpha, k)
    decreases |line| - k
  {
    hide Smooth;
    if k < |line| - 1 {
      BackwardMono(line, line', alpha, k + 1);
      SmoothMono(Backward(line, alpha, k + 1), line[k], Backward(line', alpha, k + 1), line'[k], alpha);
    }
  }

  /** A brighter line is brighter after the blur. */
  lemma BlurredMono(line: seq<byte>, line': seq<byte>, alpha: int)
    requires Strength(alpha) && Darker(line, line')
    ensures Darker(Blurred(line, alpha), Blurred(line', alpha))
  {
    hide Forward, Backward;
    var mid, mid' := Forwarded(line, alpha), Forwarded(line', alpha);
    forall k | 0 <= k < |line|
      ensures mid[k] <= mid'[k]
    {
      ForwardMono(line, line', alpha, k);
    }
    forall k | 0 <= k < |line|
      ensures Blurred(line, alpha)[k] <= Blurred(line', alpha)[k]
    {
      BackwardMono(mid, mid', alpha, k);
    }
  }

  /** At full strength nothing is blurred: the inner texels stay as they are. */
  lemma BlurredSharp(line: seq<byte>, k: nat)
    requires 0 < k < |line| - 1
    ensures Blurred(line, A_ONE)[k] == line[k]
  {
    hide Smooth;
    SmoothSharp(Forward(line, A_ONE, k - 1), line[k]);
    var mid := Forwarded(line, A_ONE);
    assert mid[k] == line[k];
    SmoothSharp(Backward(mid, A_ONE, k + 1), mid[k]);
  }

  lemma {:induction false} ForwardAtMost(line: seq<byte>, alpha: int, k: nat, m: int)
    requires Strength(alpha) && AtMost(line, m) && 0 <= m <= 255 && k < |line|
    ensures Forward(line, alpha, k) <= m * Z_ONE
  {
    hide Smooth;
    if k > 0 {
      ForwardAtMost(line, alpha, k - 1, m);
      SmoothBound(Forward(line, alpha, k - 1), line[k], alpha, m);
    }
  }

  lemma {:induction false} BackwardAtMost(line: seq<byte>, alpha: int, k: nat, m: int)
    requires Strength(alpha) && AtMost(line, m) && 0 <= m <= 255 && k < |line|
    ensures Backward(line, alpha, k) <= m * Z_ONE
    decreases |line| - k
  {
    hide Smooth;
    if k < |line| - 1 {
      BackwardAtMost(line, alpha, k + 1, m);
      SmoothBound(Backward(line, alpha, k + 1), line[k], alpha, m);
    }
  }

  lemma TexelAtMost(z: int, m: int)
    requires 0 <= z <= m * Z_ONE && m <= 255
    ensures Texel(z) <= m
  {
  }

  /** Nothing gets brighter than the brightest texel of the line. */
  lemma BlurredAtMost(line: seq<byte>, alpha: int, m: int)
    requires Strength(alpha) && AtMost(line, m) && 0 <= m <= 255
    ensures AtMost(Blurred(line, alpha), m)
  {
    hide Forward, Backward, Texel;
    var mid := Forwarded(line, alpha);
    forall k | 0 <= k < |line|
      ensures mid[k] <= m
    {
      ForwardAtMost(line, alpha, k, m);
      TexelAtMost(Forward(line, alpha, k), m);
    }
    forall k | 0 <= k < |line|
      ensures Blurred(line, alpha)[k] <= m
    {
      BackwardAtMost(mid, alpha, k, m);
      TexelAtMost(Backward(mid, alpha, k), m);
    }
  }

  /** Filter a line forwards and backwards in place. */
  method BlurLine(line: seq<byte>, alpha: int) returns (out: seq<byte>)
    requires |line| > 0 && Strength(alpha)
    ensures out == Blurred(line, alpha)
  {
    var mid := ForwardPass(line, alpha);
    out := BackwardPass(mid, alpha);
    BackwardSame(mid, line, alpha);
  }

  /** For a line of one texel the passes differ in what they clear, but not in the end. */
  lemma BackwardSame(mid: seq<byte>, line: seq<byte>, alpha: int)
    requires Strength(alpha) && |mid| == |line| > 0
    requires |line| > 1 ==> mid == Forwarded(line, alpha)
    ensures seq(|mid|, k requires 0 <= k < |mid| => BackwardAt(mid, alpha, k)) == Blurred(line, alpha)
  {
    hide Backward, Forwarded;
  }

  method ForwardPass(line: seq<byte>, alpha: int) returns (out: seq<byte>)
    requires |line| > 0 && Strength(alpha)
    ensures |out| == |line| && (|line| > 1 ==> out == Forwarded(line, alpha))
  {
    hide Smooth;
    var w := |line|;
    out := line;
    var z, x := 0, 1;
    while x < w
      invariant 1 <= x <= w && |out| == w && z == Forward(line, alpha, x - 1)
      invariant forall k :: 0 < k < x ==> out[k] == Texel(Forward(line, alpha, k))
      invariant forall k :: x <= k < w || k == 0 ==> out[k] == line[k]
    {
      z := Smooth(z, out[x], alpha);
      assert z == Forward(line, alpha, x);
      out := out[x := Texel(z)];
      x := x + 1;
    }
    out := out[w - 1 := 0];
    hide Forward;
    assert w > 1 ==> forall k :: 0 <= k < w ==> out[k] == ForwardAt(line, alpha, k);
  }

  method BackwardPass(mid: seq<byte>, alpha: int) returns (out: seq<byte>)
    requires |mid| > 0 && Strength(alpha) && (|mid| > 1 ==> mid[|mid| - 1] == 0)
    ensures out == seq(|mid|, k requires 0 <= k < |mid| => BackwardAt(mid, alpha, k))
  {
    hide Smooth;
    var w := |mid|;
    out := mid;
    var z, x := 0, w - 2;
    while x >= 0
      invariant -1 <= x <= w - 2 && |out| == w && z == Backward(mid, alpha, x + 1)
      invariant forall k :: x < k < w - 1 ==> out[k] == Texel(Backward(mid, alpha, k))
      invariant forall k :: 0 <= k <= x || k == w - 1 ==> out[k] == mid[k]
    {
      z := Smooth(z, out[x], alpha);
      assert z == Backward(mid, alpha, x);
      out := out[x := Texel(z)];
      x := x - 1;
    }
    out := out[0 := 0];
    hide Backward;
    assert forall k :: 0 <= k < w ==> out[k] == BackwardAt(mid, alpha, k);
  }

  // -------------------------------------------------------------- a block

  /** A block of texels by column and row. */
  type Image = (int, int) -> byte

  function RowOf(img: Image, w: nat, y: int): (line: seq<byte>)
    ensures |line| == w
  {
    seq(w, x => img(x, y))
  }

  function ColumnOf(img: Image, h: nat, x: int): (line: seq<byte>)
    ensures |line| == h
  {
    seq(h, y => img(x, y))
  }

  /** Every row of a block of width w blurred, and every column of a block of height h. */
  function Across(img: Image, w: nat, alpha: int): Image
    requires Strength(alpha)
  {
    (x, y) => if 0 <= x < w then Blurred(RowOf(img, w, y), alpha)[x] else 0
  }

  function Down(img: Image, h: nat, alpha: int): Image
    requires Strength(alpha)
  {
    (x, y) => if 0 <= y < h then Blurred(ColumnOf(img, h, x), alpha)[y] else 0
  }

  function Both(img: Image, w: nat, h: nat, alpha: int): Image
    requires Strength(alpha)
  {
    Across(Down(img, h, alpha), w, alpha)
  }

  /** The blur of a block: columns and rows, twice. */
  function BlurredImage(img: Image, w: nat, h: nat, alpha: int): Image
    requires Strength(alpha)
  {
    Both(Both(img, w, h, alpha), w, h, alpha)
  }

  ghost predicate DarkerImage(a: Image, b: Image, w: nat, h: nat) {
    forall x, y :: 0 <= x < w && 0 <= y < h ==> a(x, y) <= b(x, y)
  }

  lemma AcrossMono(a: Image, b: Image, w: nat, h: nat, alpha: int)
    requires Strength(alpha) && DarkerImage(a, b, w, h)
    ensures DarkerImage(Across(a, w, alpha), Across(b, w, alpha), w, h)
  {
    hide Blurred;
    forall x, y | 0 <= x < w && 0 <= y < h
      ensures Across(a, w, alpha)(x, y) <= Across(b, w, alpha)(x, y)
    {
      BlurredMono(RowOf(a, w, y), RowOf(b, w, y), alpha);
    }
  }

  lemma DownMono(a: Image, b: Image, w: nat, h: nat, alpha: int)
    requires Strength(alpha) && DarkerImage(a, b, w, h)
    ensures DarkerImage(Down(a, h, alpha), Down(b, h, alpha), w, h)
  {
    hide Blurred;
    forall x, y | 0 <= x < w && 0 <= y < h
      ensures Down(a, h, alpha)(x, y) <= Down(b, h, alpha)(x, y)
    {
      BlurredMono(ColumnOf(a, h, x), ColumnOf(b, h, x), alpha);
    }
  }

  lemma BothMono(a: Image, b: Image, w: nat, h: nat, alpha: int)
    requires Strength(alpha) && DarkerImage(a, b, w, h)
    ensures DarkerImage(Both(a, w, h, alpha), Both(b, w, h, alpha), w, h)
  {
    hide Across, Down;
    DownMono(a, b, w, h, alpha);
    AcrossMono(Down(a, h, alpha), Down(b, h, alpha), w, h, alpha);
  }

  /** A brighter image is brighter after the blur. */
  lemma BlurredImageMono(a: Image, b: Image, w: nat, h: nat, alpha: int)
    requires Strength(alpha) && DarkerImage(a, b, w, h)
    ensures DarkerImage(BlurredImage(a, w, h, alpha), BlurredImage(b, w, h, alpha), w, h)
  {
    hide Both;
    BothMono(a, b, w, h, alpha);
    BothMono(Both(a, w, h, alpha), Both(b, w, h, alpha), w, h, alpha);
  }

  predicate OnEdge(w: nat, h: nat, x: int, y: int) { x == 0 || x == w - 1 || y == 0 || y == h - 1 }

  lemma BothSharp(img: Image, w: nat, h: nat, x: int, y: int)
    requires 0 <= x < w && 0 <= y < h && !OnEdge(w, h, x, y)
    ensures Both(img, w, h, A_ONE)(x, y) == img(x, y)
  {
    hide Blurred;
    BlurredSharp(ColumnOf(img, h, x), y);
    BlurredSharp(RowOf(Down(img, h, A_ONE), w, y), x);
  }

  /** At full strength the inside of the image stays as it is. */
  lemma BlurredImageSharp(img: Image, w: nat, h: nat, x: int, y: int)
    requires 0 <= x < w && 0 <= y < h && !OnEdge(w, h, x, y)
    ensures BlurredImage(img, w, h, A_ONE)(x, y) == img(x, y)
  {
    hide Both;
    BothSharp(img, w, h, x, y);
    BothSharp(Both(img, w, h, A_ONE), w, h, x, y);
  }

  lemma DownEdge(img: Image, h: nat, alpha: int, x: int, y: int)
    requires Strength(alpha) && 0 <= y < h && (y == 0 || y == h - 1)
    ensures Down(img, h, alpha)(x, y) == 0
  {
    hide Blurred;
    BlurredEnds(ColumnOf(img, h, x), alpha);
  }

  lemma BothEdge(img: Image, w: nat, h: nat, alpha: int, x: int, y: int)
    requires Strength(alpha) && 0 <= x < w && 0 <= y < h && OnEdge(w, h, x, y)
    ensures Both(img, w, h, alpha)(x, y) == 0
  {
    hide Blurred;
    var row := RowOf(Down(img, h, alpha), w, y);
    BlurredEnds(row, alpha);
    if y == 0 || y == h - 1 {
      forall k | 0 <= k < w
        ensures row[k] == 0
      {
        DownEdge(img, h, alpha, k, y);
      }
      BlurredAtMost(row, alpha, 0);
    }
  }

  /** A blurred image ends with an empty border, whatever was in it. */
  lemma BlurredImageEdge(img: Image, w: nat, h: nat, alpha: int, x: int, y: int)
    requires Strength(alpha) && 0 <= x < w && 0 <= y < h && OnEdge(w, h, x, y)
    ensures BlurredImage(img, w, h, alpha)(x, y) == 0
  {
    hide Both;
    BothEdge(Both(img, w, h, alpha), w, h, alpha, x, y);
  }

  // ----------------------------------------------- the block in the texture

  /** The block shows the image. */
  ghost predicate Shows(t: Rows, r: Rect, img: Image, w: int, h: int)
    requires Shape(t, w, h)
  {
    forall x, y :: 0 <= x < w && 0 <= y < h && InRect(r, x, y) ==> t[y][x] == img(x - r.x, y - r.y)
  }

  /** The first i rows of the block show one image, the others another. */
  function UpTo(a: Image, b: Image, i: int): Image { (x, y) => if y < i then a(x, y) else b(x, y) }

  function LeftOf(a: Image, b: Image, i: int): Image { (x, y) => if x < i then a(x, y) else b(x, y) }

  lemma SameOutsideWithin(t: Rows, u: Rows, v: Rows, r: Rect, q: Rect, content: Image, w: int, h: int)
    requires Shape(t, w, h) && Shape(u, w, h) && Shape(v, w, h)
    requires SameOutside(t, u, r, w, h) && Filled(u, v, q, content, w, h)
    requires r.x <= q.x && q.x + q.w <= r.x + r.w && r.y <= q.y && q.y + q.h <= r.y + r.h
    ensures SameOutside(t, v, r, w, h)
  {
    hide Shape;
    forall x, y | 0 <= x < w && 0 <= y < h && !InRect(r, x, y)
      ensures |v| == h && |v[y]| == w && |t| == h && |t[y]| == w && v[y][x] == t[y][x]
    {
      RowLength(t, w, h, y);
      RowLength(u, w, h, y);
      RowLength(v, w, h, y);
      assert !InRect(q, x, y);
    }
  }

  /** Filling row i of the block with row i of an image. */
  lemma RowStep(u: Rows, v: Rows, r: Rect, i: nat, out: seq<byte>, a: Image, b: Image, w: int, h: int)
    requires Shape(u, w, h) && Shape(v, w, h) && Inside(r, w, h) && i < r.h && Shows(u, r, UpTo(a, b, i), w, h)
    requires |out| == r.w && forall x :: 0 <= x < r.w ==> out[x] == a(x, i)
    requires Filled(u, v, Rect(r.x, r.y + i, r.w, 1), (x, y) => if 0 <= x < |out| then out[x] else 0, w, h)
    ensures Shows(v, r, UpTo(a, b, i + 1), w, h)
  {
    var q := Rect(r.x, r.y + i, r.w, 1);
    forall x, y | 0 <= x < w && 0 <= y < h && InRect(r, x, y)
      ensures v[y][x] == UpTo(a, b, i + 1)(x - r.x, y - r.y)
    {
      assert InRect(q, x, y) <==> y == r.y + i;
      assert u[y][x] == UpTo(a, b, i)(x - r.x, y - r.y);
    }
  }

  lemma ColumnStep(u: Rows, v: Rows, r: Rect, i: nat, out: seq<byte>, a: Image, b: Image, w: int, h: int)
    requires Shape(u, w, h) && Shape(v, w, h) && Inside(r, w, h) && i < r.w && Shows(u, r, LeftOf(a, b, i), w, h)
    requires |out| == r.h && forall y :: 0 <= y < r.h ==> out[y] == a(i, y)
    requires Filled(u, v, Rect(r.x + i, r.y, 1, r.h), (x, y) => if 0 <= y < |out| then out[y] else 0, w, h)
    ensures Shows(v, r, LeftOf(a, b, i + 1), w, h)
  {
    var q := Rect(r.x + i, r.y, 1, r.h);
    forall x, y | 0 <= x < w && 0 <= y < h && InRect(r, x, y)
      ensures v[y][x] == LeftOf(a, b, i + 1)(x - r.x, y - r.y)
    {
      assert InRect(q, x, y) <==> x == r.x + i;
      assert u[y][x] == LeftOf(a, b, i)(x - r.x, y - r.y);
    }
  }

  lemma NothingBlurred(t: Rows, r: Rect, a: Image, b: Image, w: int, h: int)
    requires Shape(t, w, h) && Shows(t, r, b, w, h)
    ensures SameOutside(t, t, r, w, h) && Shows(t, r, UpTo(a, b, 0), w, h) && Shows(t, r, LeftOf(a, b, 0), w, h)
  {
    hide Shape;
  }

  lemma AllBlurred(t: Rows, r: Rect, a: Image, b: Image, w: int, h: int)
    requires Shape(t, w, h)
    ensures Shows(t, r, UpTo(a, b, r.h), w, h) ==> Shows(t, r, a, w, h)
    ensures Shows(t, r, LeftOf(a, b, r.w), w, h) ==> Shows(t, r, a, w, h)
  {
    hide Shape;
  }

  /** Row i of the block, before it is filtered. */
  lemma RowShown(u: Rows, r: Rect, i: nat, a: Image, b: Image, w: int, h: int)
    requires Shape(u, w, h) && Inside(r, w, h) && i < r.h && Shows(u, r, UpTo(a, b, i), w, h)
    ensures |u[r.y + i]| == w && u[r.y + i][r.x..r.x + r.w] == RowOf(b, r.w, i)
  {
    forall x | 0 <= x < r.w
      ensures u[r.y + i][r.x + x] == b(x, i)
    {
      assert InRect(r, r.x + x, r.y + i);
    }
  }

  /** Filter one row of the block. */
  method BlurRow(u: Rows, r: Rect, i: nat, alpha: int, ghost img: Image, ghost w: int, ghost h: int)
    returns (v: Rows, ghost out: seq<byte>)
    requires Shape(u, w, h) && Inside(r, w, h) && Strength(alpha) && i < r.h
    requires Shows(u, r, UpTo(Across(img, r.w, alpha), img, i), w, h)
    ensures out == Blurred(RowOf(img, r.w, i), alpha) && Shape(v, w, h)
    ensures Filled(u, v, Rect(r.x, r.y + i, r.w, 1), (x, y) => if 0 <= x < |out| then out[x] else 0, w, h)
  {
    hide Shape, Filled, Shows, Blurred, Across;
    RowLength(u, w, h, r.y + i);
    RowShown(u, r, i, Across(img, r.w, alpha), img, w, h);
    var filtered := BlurLine(u[r.y + i][r.x..r.x + r.w], alpha);
    out := filtered;
    v := FillRect(u, Rect(r.x, r.y + i, r.w, 1), (x, y) => if 0 <= x < |filtered| then filtered[x] else 0, w, h);
  }

  /** fons__blurCols: filter every row of the block. */
  method BlurCols(t: Rows, r: Rect, alpha: int, ghost img: Image, ghost w: int, ghost h: int) returns (u: Rows)
    requires Shape(t, w, h) && Inside(r, w, h) && Strength(alpha) && Shows(t, r, img, w, h)
    ensures Shape(u, w, h) && SameOutside(t, u, r, w, h) && Shows(u, r, Across(img, r.w, alpha), w, h)
  {
    hide *;
    InsidePositive(r, w, h);
    ghost var a := Across(img, r.w, alpha);
    u := t;
    NothingBlurred(t, r, a, img, w, h);
    for i: nat := 0 to r.h
      invariant Shape(u, w, h) && SameOutside(t, u, r, w, h) && Shows(u, r, UpTo(a, img, i), w, h)
    {
      ghost var s := u;
      ghost var out;
      u, out := BlurRow(u, r, i, alpha, img, w, h);
      AcrossRow(img, r.w, alpha, i);
      SameOutsideWithin(t, s, u, r, Rect(r.x, r.y + i, r.w, 1), (x, y) => if 0 <= x < |out| then out[x] else 0, w, h);
      RowStep(s, u, r, i, out, a, img, w, h);
    }
    AllBlurred(u, r, a, img, w, h);
  }

  lemma InsidePositive(r: Rect, w: int, h: int)
    requires Inside(r, w, h)
    ensures 0 < r.w && 0 < r.h
  {
  }

  lemma AcrossRow(img: Image, w: nat, alpha: int, y: int)
    requires Strength(alpha)
    ensures forall x :: 0 <= x < w ==> Blurred(RowOf(img, w, y), alpha)[x] == Across(img, w, alpha)(x, y)
  {
    hide Blurred;
  }

  lemma DownColumn(img: Image, h: nat, alpha: int, x: int)
    requires Strength(alpha)
    ensures forall y :: 0 <= y < h ==> Blurred(ColumnOf(img, h, x), alpha)[y] == Down(img, h, alpha)(x, y)
  {
    hide Blurred;
  }

  /** Column i of the block, before it is filtered. */
  lemma ColumnShown(u: Rows, r: Rect, i: nat, line: seq<byte>, a: Image, b: Image, w: int, h: int)
    requires Shape(u, w, h) && Inside(r, w, h) && i < r.w && Shows(u, r, LeftOf(a, b, i), w, h)
    requires |line| == r.h && forall k :: 0 <= k < r.h ==> line[k] == u[r.y + k][r.x + i]
    ensures line == ColumnOf(b, r.h, i)
  {
    forall k | 0 <= k < r.h
      ensures line[k] == b(i, k)
    {
      assert InRect(r, r.x + i, r.y + k);
    }
  }

  method BlurColumn(u: Rows, r: Rect, i: nat, alpha: int, ghost img: Image, ghost w: int, ghost h: int)
    returns (v: Rows, ghost out: seq<byte>)
    requires Shape(u, w, h) && Inside(r, w, h) && Strength(alpha) && i < r.w
    requires Shows(u, r, LeftOf(Down(img, r.h, alpha), img, i), w, h)
    ensures out == Blurred(ColumnOf(img, r.h, i), alpha) && Shape(v, w, h)
    ensures Filled(u, v, Rect(r.x + i, r.y, 1, r.h), (x, y) => if 0 <= y < |out| then out[y] else 0, w, h)
  {
    hide Filled, Shows, Blurred, Down;
    var line := seq(r.h, k requires 0 <= k < r.h => u[r.y + k][r.x + i]);
    ColumnShown(u, r, i, line, Down(img, r.h, alpha), img, w, h);
    hide Shape;
    var filtered := BlurLine(line, alpha);
    out := filtered;
    v := FillRect(u, Rect(r.x + i, r.y, 1, r.h), (x, y) => if 0 <= y < |filtered| then filtered[y] else 0, w, h);
  }

  /** fons__blurRows: filter every column of the block. */
  method BlurRows(t: Rows, r: Rect, alpha: int, ghost img: Image, ghost w: int, ghost h: int) returns (u: Rows)
    requires Shape(t, w, h) && Inside(r, w, h) && Strength(alpha) && Shows(t, r, img, w, h)
    ensures Shape(u, w, h) && SameOutside(t, u, r, w, h) && Shows(u, r, Down(img, r.h, alpha), w, h)
  {
    hide *;
    InsidePositive(r, w, h);
    ghost var a := Down(img, r.h, alpha);
    u := t;
    NothingBlurred(t, r, a, img, w, h);
    for i: nat := 0 to r.w
      invariant Shape(u, w, h) && SameOutside(t, u, r, w, h) && Shows(u, r, LeftOf(a, img, i), w, h)
    {
      ghost var s := u;
      ghost var out;
      u, out := BlurColumn(u, r, i, alpha, img, w, h);
      DownColumn(img, r.h, alpha, i);
      SameOutsideWithin(t, s, u, r, Rect(r.x + i, r.y, 1, r.h), (x, y) => if 0 <= y < |out| then out[y] else 0, w, h);
      ColumnStep(s, u, r, i, out, a, img, w, h);
    }
    AllBlurred(u, r, a, img, w, h);
  }

  lemma SameOutsideTrans(t: Rows, u: Rows, v: Rows, r: Rect, w: int, h: int)
    requires Shape(t, w, h) && Shape(u, w, h) && Shape(v, w, h)
    requires SameOutside(t, u, r, w, h) && SameOutside(u, v, r, w, h)
    ensures SameOutside(t, v, r, w, h)
  {
  }

  /** fons__blur: two passes each way. The block shows the blurred image, and nothing outside it changes. */
  method BlurBlock(t: Rows, r: Rect, alpha: int, ghost img: Image, ghost w: int, ghost h: int) returns (u: Rows)
    requires Shape(t, w, h) && Inside(r, w, h) && Strength(alpha) && Shows(t, r, img, w, h)
    ensures Shape(u, w, h) && SameOutside(t, u, r, w, h)
    ensures 0 < r.w && 0 < r.h && Shows(u, r, BlurredImage(img, r.w, r.h, alpha), w, h)
  {
    hide Shape, SameOutside, Shows, Across, Down, Strength;
    var a := BlurRows(t, r, alpha, img, w, h);
    var b := BlurCols(a, r, alpha, Down(img, r.h, alpha), w, h);
    ghost var once := Both(img, r.w, r.h, alpha);
    var c := BlurRows(b, r, alpha, once, w, h);
    u := BlurCols(c, r, alpha, Down(once, r.h, alpha), w, h);
    SameOutsideTrans(t, a, b, r, w, h);
    SameOutsideTrans(t, b, c, r, w, h);
    SameOutsideTrans(t, c, u, r, w, h);
  }
}
