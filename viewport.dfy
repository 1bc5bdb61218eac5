/**
 * The viewport of the zoomable image widget (`ZoomableImage`): a zoom scale,
 * a pan offset of the image centre from the canvas centre, and the anchor
 * of the current mouse drag. Canvas sizes come from the window system and
 * are passed in; drawing and resampling are not modelled.
 */
module Viewport {
  import opened Wrappers

  const MinScale: real := 0.1
  const MaxScale: real := 4.0

  /** `max(min_scale, min(max_scale, s))`: the zoom scale forced into its allowed range. */
  function ClampScale(s: real): (r: real)
    ensures MinScale <= r <= MaxScale
    ensures MinScale <= s <= MaxScale ==> r == s
    ensures s < MinScale ==> r == MinScale
    ensures MaxScale < s ==> r == MaxScale
  {
    if s < MinScale then MinScale else if MaxScale < s then MaxScale else s
  }

  /** `int(size * scale)`: the displayed size of an image side, truncated to whole pixels. */
  function ScaledSize(size: nat, scale: real): (r: nat)
    requires 0.0 <= scale
    ensures r as real <= size as real * scale < r as real + 1.0
  {
    (size as real * scale).Floor
  }

  /**
   * `max(0, (scaled - canvas) // 2)`: how far the pan may go in one axis,
   * half the overflow of the scaled image over the canvas, and none when the
   * image fits. Dafny's `/` agrees with Python's `//` for the divisor 2.
   */
  function MaxPan(scaled: int, canvas: int): (m: nat)
    ensures scaled <= canvas + 1 ==> m == 0
    ensures canvas < scaled ==> 2 * m <= scaled - canvas <= 2 * m + 1
  {
    var half := (scaled - canvas) / 2;
    if half > 0 then half else 0
  }

  /** `max(-m, min(m, p))`: the pan offset forced into `[-m, m]`. */
  function ClampPan(p: real, m: nat): (r: real)
    ensures -(m as real) <= r <= m as real
    ensures -(m as real) <= p <= m as real ==> r == p
    ensures p < -(m as real) ==> r == -(m as real)
    ensures m as real < p ==> r == m as real
  {
    if p < -(m as real) then -(m as real) else if m as real < p then m as real else p
  }

  /** Clamping twice is clamping once. */
  lemma ClampPanIdempotent(p: real, m: nat)
    ensures ClampPan(ClampPan(p, m), m) == ClampPan(p, m)
  {
  }

  /**
   * The pan after zooming about a focal point `rel` (measured from the canvas
   * centre): `rel - (rel - pan) * (newScale / oldScale)`.
   */
  function FocalPan(rel: int, pan: real, oldScale: real, newScale: real): real
    requires oldScale != 0.0
  {
    rel as real - (rel as real - pan) * (newScale / oldScale)
  }

  /**
   * The image point under the focal point stays under it: measured in image
   * units, its distance from the image centre is the same before and after.
   */
  lemma FocalPointStays(rel: int, pan: real, oldScale: real, newScale: real)
    requires oldScale != 0.0 && newScale != 0.0
    ensures (rel as real - FocalPan(rel, pan, oldScale, newScale)) / newScale
         == (rel as real - pan) / oldScale
  {
    var d := rel as real - pan;
    var q := newScale / oldScale;
    assert rel as real - FocalPan(rel, pan, oldScale, newScale) == d * q;
    assert d * q / newScale == d / oldScale by {
      assert q * oldScale == newScale;
      assert (d / oldScale) * newScale == d * q;
    }
  }

  /**
   * With the pan clamp that follows a focal zoom, the image point under the
   * focal point stays under it exactly when the clamp does not bind.
   */
  lemma ClampedFocalPointStays(rel: int, pan: real, oldScale: real, newScale: real, m: nat)
    requires oldScale != 0.0 && newScale != 0.0
    ensures var f := FocalPan(rel, pan, oldScale, newScale);
      (rel as real - ClampPan(f, m)) / newScale == (rel as real - pan) / oldScale
      <==> -(m as real) <= f <= m as real
  {
    var f := FocalPan(rel, pan, oldScale, newScale);
    var c := ClampPan(f, m);
    FocalPointStays(rel, pan, oldScale, newScale);
    if (rel as real - c) / newScale == (rel as real - f) / newScale {
      assert rel as real - c == (rel as real - c) / newScale * newScale;
      assert rel as real - f == (rel as real - f) / newScale * newScale;
      assert c == f;
    }
  }

  /** Zooming in and back out about the same focal point restores the pan. */
  lemma FocalPanInverse(rel: int, pan: real, s0: real, s1: real)
    requires s0 != 0.0 && s1 != 0.0
    ensures FocalPan(rel, FocalPan(rel, pan, s0, s1), s1, s0) == pan
  {
    var d := rel as real - pan;
    var q := s1 / s0;
    var p := s0 / s1;
    assert q * p == 1.0;
    assert rel as real - FocalPan(rel, pan, s0, s1) == d * q;
    assert FocalPan(rel, FocalPan(rel, pan, s0, s1), s1, s0) == rel as real - (d * q) * p;
    assert (d * q) * p == d * (q * p);
  }

  class ZoomableImage {
    /** Whether an image is loaded (`self.image` is not `None`) and its size in pixels. */
    var hasImage: bool
    var imageWidth: nat
    var imageHeight: nat
    var scale: real
    /** Pan offset of the image centre from the canvas centre. */
    var x: real
    var y: real
    /** Pointer position of the last press or drag event. */
    var lastX: int
    var lastY: int

    ghost predicate Valid()
      reads this
    {
      MinScale <= scale <= MaxScale
    }

    /** Half the overflow of the scaled image over a canvas of the given size, per axis. */
    function PanLimitX(canvasWidth: int): nat
      reads this
      requires Valid()
    {
      MaxPan(ScaledSize(imageWidth, scale), canvasWidth)
    }

    function PanLimitY(canvasHeight: int): nat
      reads this
      requires Valid()
    {
      MaxPan(ScaledSize(imageHeight, scale), canvasHeight)
    }

    /** The pan lies within the limits of a canvas of the given size. */
    predicate PanWithin(canvasWidth: int, canvasHeight: int)
      reads this
      requires Valid()
    {
      && -(PanLimitX(canvasWidth) as real) <= x <= PanLimitX(canvasWidth) as real
      && -(PanLimitY(canvasHeight) as real) <= y <= PanLimitY(canvasHeight) as real
    }

    constructor ()
      ensures Valid()
      ensures !hasImage && scale == 1.0
      ensures x == 0.0 && y == 0.0 && lastX == 0 && lastY == 0
    {
      hasImage, imageWidth, imageHeight := false, 0, 0;
      scale := 1.0;
      x, y := 0.0, 0.0;
      lastX, lastY := 0, 0;
    }

    /** A successful `set_image`: the image is installed and the view reset. */
    method SetImage(width: nat, height: nat, canvasWidth: int, canvasHeight: int)
      requires Valid()
      modifies this
      ensures Valid() && PanWithin(canvasWidth, canvasHeight)
      ensures hasImage && imageWidth == width && imageHeight == height
      ensures scale == 1.0 && x == 0.0 && y == 0.0
      ensures lastX == old(lastX) && lastY == old(lastY)
    {
      hasImage, imageWidth, imageHeight := true, width, height;
      ResetView(canvasWidth, canvasHeight);
    }

    /** `show_message`: the image is dropped; the view state is left as it is. */
    method ClearImage()
      modifies this`hasImage
      ensures !hasImage
    {
      hasImage := false;
    }

    /** `reset_view`: scale back to 1 and pan back to the centre. */
    method ResetView(canvasWidth: int, canvasHeight: int)
      requires Valid()
      modifies this`scale, this`x, this`y
      ensures Valid()
      ensures scale == 1.0 && x == 0.0 && y == 0.0
      ensures hasImage ==> PanWithin(canvasWidth, canvasHeight)
    {
      scale := 1.0;
      x, y := 0.0, 0.0;
      ApplyTransform(canvasWidth, canvasHeight);
    }

    /**
     * The clamping part of `_apply_transform`: with an image loaded, each
     * pan coordinate is forced into half the overflow of the scaled image
     * over the canvas; without one nothing happens.
     */
    method ApplyTransform(canvasWidth: int, canvasHeight: int)
      requires Valid()
      modifies this`x, this`y
      ensures Valid()
      ensures !hasImage ==> x == old(x) && y == old(y)
      ensures hasImage ==> x == ClampPan(old(x), PanLimitX(canvasWidth))
      ensures hasImage ==> y == ClampPan(old(y), PanLimitY(canvasHeight))
      ensures hasImage ==> PanWithin(canvasWidth, canvasHeight)
    {
      if !hasImage {
        return;
      }
      var scaledWidth := ScaledSize(imageWidth, scale);
      var scaledHeight := ScaledSize(imageHeight, scale);
      var maxX := MaxPan(scaledWidth, canvasWidth);
      var maxY := MaxPan(scaledHeight, canvasHeight);
      x := ClampPan(x, maxX);
      y := ClampPan(y, maxY);
    }

    /**
     * `zoom(factor, x, y)`: with an image loaded, multiply the scale by
     * `factor` and clamp it; when both focal coordinates are given, shift the
     * pan so the point under them stays put; then clamp the pan.
     */
    method Zoom(factor: real, focalX: Option<int>, focalY: Option<int>, canvasWidth: int, canvasHeight: int)
      requires Valid()
      modifies this`scale, this`x, this`y
      ensures Valid()
      ensures !hasImage ==> scale == old(scale) && x == old(x) && y == old(y)
      ensures hasImage ==> scale == ClampScale(old(scale) * factor)
      ensures hasImage ==> PanWithin(canvasWidth, canvasHeight)
      ensures hasImage && focalX.Some? && focalY.Some? ==>
        && x == ClampPan(FocalPan(focalX.value - canvasWidth / 2, old(x), old(scale), scale), PanLimitX(canvasWidth))
        && y == ClampPan(FocalPan(focalY.value - canvasHeight / 2, old(y), old(scale), scale), PanLimitY(canvasHeight))
      ensures hasImage && !(focalX.Some? && focalY.Some?) ==>
        x == ClampPan(old(x), PanLimitX(canvasWidth)) && y == ClampPan(old(y), PanLimitY(canvasHeight))
    {
      if !hasImage {
        return;
      }
      var oldScale := scale;
      scale := ClampScale(scale * factor);
      if focalX.Some? && focalY.Some? && oldScale != 0.0 {
        var relX := focalX.value - canvasWidth / 2;
        var relY := focalY.value - canvasHeight / 2;
        x := FocalPan(relX, x, oldScale, scale);
        y := FocalPan(relY, y, oldScale, scale);
      }
      ApplyTransform(canvasWidth, canvasHeight);
    }

    /** `on_mouse_wheel`: zoom in by 1.1 or out by 0.9 about the pointer. */
    method OnMouseWheel(delta: int, eventX: int, eventY: int, canvasWidth: int, canvasHeight: int)
      requires Valid()
      modifies this`scale, this`x, this`y
      ensures Valid()
      ensures !hasImage ==> scale == old(scale) && x == old(x) && y == old(y)
      ensures hasImage ==> scale == ClampScale(old(scale) * (if delta > 0 then 1.1 else 0.9))
      ensures hasImage ==> PanWithin(canvasWidth, canvasHeight)
      ensures hasImage ==>
        && x == ClampPan(FocalPan(eventX - canvasWidth / 2, old(x), old(scale), scale), PanLimitX(canvasWidth))
        && y == ClampPan(FocalPan(eventY - canvasHeight / 2, old(y), old(scale), scale), PanLimitY(canvasHeight))
    {
      if hasImage {
        var factor := if delta > 0 then 1.1 else 0.9;
        Zoom(factor, Some(eventX), Some(eventY), canvasWidth, canvasHeight);
      }
    }

    /** `on_button_press`: remember where the drag starts. */
    method OnButtonPress(eventX: int, eventY: int)
      modifies this`lastX, this`lastY
      ensures hasImage ==> lastX == eventX && lastY == eventY
      ensures !hasImage ==> lastX == old(lastX) && lastY == old(lastY)
    {
      if hasImage {
        lastX, lastY := eventX, eventY;
      }
    }

    /**
     * `on_move_press`: add the pointer movement since the last event to the
     * pan, move the anchor to the pointer, and clamp.
     */
    method OnMovePress(eventX: int, eventY: int, canvasWidth: int, canvasHeight: int)
      requires Valid()
      modifies this`x, this`y, this`lastX, this`lastY
      ensures Valid()
      ensures !hasImage ==> x == old(x) && y == old(y) && lastX == old(lastX) && lastY == old(lastY)
      ensures hasImage ==> lastX == eventX && lastY == eventY
      ensures hasImage ==> x == ClampPan(old(x) + (eventX - old(lastX)) as real, PanLimitX(canvasWidth))
      ensures hasImage ==> y == ClampPan(old(y) + (eventY - old(lastY)) as real, PanLimitY(canvasHeight))
      ensures hasImage ==> PanWithin(canvasWidth, canvasHeight)
    {
      if hasImage {
        var dx := eventX - lastX;
        var dy := eventY - lastY;
        lastX, lastY := eventX, eventY;
        x := x + dx as real;
        y := y + dy as real;
        ApplyTransform(canvasWidth, canvasHeight);
      }
    }

    /** `on_canvas_resize`: re-clamp the pan against the new canvas size. */
    method OnCanvasResize(canvasWidth: int, canvasHeight: int)
      requires Valid()
      modifies this`x, this`y
      ensures Valid()
      ensures hasImage ==> PanWithin(canvasWidth, canvasHeight)
      ensures hasImage ==> x == ClampPan(old(x), PanLimitX(canvasWidth)) && y == ClampPan(old(y), PanLimitY(canvasHeight))
      ensures !hasImage ==> x == old(x) && y == old(y)
    {
      ApplyTransform(canvasWidth, canvasHeight);
    }
  }
}
