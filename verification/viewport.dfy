/** The square viewport that `updateSize` fits into the window. */
module Viewport {

  const MinSide := 100
  const MaxSide := 400
  const Margin := 100

  /** Pixel width and height given to the container and the renderer. */
  datatype Size = Size(width: int, height: int)

  function Min(a: int, b: int): (r: int) { if a <= b then a else b }
  function Max(a: int, b: int): (r: int) { if a <= b then b else a }

  /** The smaller window dimension less the margin, clamped to
      `[MinSide, MaxSide]`, used for both sides. */
  function UpdateSize(innerWidth: int, innerHeight: int): (r: Size)
    ensures r.width == r.height
    ensures MinSide <= r.width <= MaxSide
    ensures MinSide <= Min(innerWidth, innerHeight) - Margin <= MaxSide ==>
              r.width == Min(innerWidth, innerHeight) - Margin
    ensures Min(innerWidth, innerHeight) - Margin < MinSide ==> r.width == MinSide
    ensures Min(innerWidth, innerHeight) - Margin > MaxSide ==> r.width == MaxSide
  {
    var side := Max(MinSide, Min(MaxSide, Min(innerWidth, innerHeight) - Margin));
    Size(side, side)
  }

  /** A larger window never yields a smaller globe. */
  lemma UpdateSizeMonotonic(w1: int, h1: int, w2: int, h2: int)
    requires w1 <= w2 && h1 <= h2
    ensures UpdateSize(w1, h1).width <= UpdateSize(w2, h2).width
  {
  }

  lemma UpdateSizeExamples()
    ensures UpdateSize(50, 50) == Size(100, 100)
    ensures UpdateSize(2000, 2000) == Size(400, 400)
    ensures UpdateSize(1280, 420) == Size(320, 320)
  {
  }
}
