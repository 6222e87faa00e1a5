/**
 * A drag that started on a shiftable border cell: the pixel where it started
 * and the shift it would make, and how far (in pixels, at most one tile)
 * the pieces follow the mouse.
 */
module ShiftEvents {
  import opened Pieces
  import opened Shifts

  /** Side of a square tile, in pixels. */
  const SPRITE_SIZE := 64

  /** Java's `/` on `int`: truncates toward zero. */
  function JavaDiv(a: int, b: int): (q: int)
    requires b > 0
    ensures a >= 0 ==> q * b <= a < q * b + b
    ensures a < 0 ==> q * b - b < a <= q * b
  {
    if a >= 0 then a / b else -((-a) / b)
  }

  datatype ShiftEvent = ShiftEvent(origin: Point, shift_context: ShiftContext)

  /** The tile under a pixel position. */
  function TileOf(pixel: int): int {
    JavaDiv(pixel, SPRITE_SIZE)
  }

  /** `createEvent`: an event exactly when the tile under the mouse starts a shift. */
  function CreateEvent(floatingOrigin: int, mouseX: int, mouseY: int): (r: Option<ShiftEvent>)
    ensures r.Some? <==> CreateContext(floatingOrigin, TileOf(mouseX), TileOf(mouseY)).Some?
    ensures r.Some? ==> r.value.origin == Point(mouseX, mouseY)
    ensures r.Some? ==> r.value.shift_context == CreateContext(floatingOrigin, TileOf(mouseX), TileOf(mouseY)).value
  {
    match CreateContext(floatingOrigin, TileOf(mouseX), TileOf(mouseY))
    case None => None
    case Some(ctx) => Some(ShiftEvent(Point(mouseX, mouseY), ctx))
  }

  function Clamp(m: int): int {
    if m < 0 then 0 else if m > SPRITE_SIZE then SPRITE_SIZE else m
  }

  /**
   * `getMagnitude`: the mouse's displacement along the shift's axis, sign
   * flipped for LEFT and UP, clamped to 0..SPRITE_SIZE.
   */
  function GetMagnitude(e: ShiftEvent, mouseX: int, mouseY: int): (m: int)
    ensures 0 <= m <= SPRITE_SIZE
    ensures e.shift_context.orientation == Horizontal ==>
      m == Clamp((mouseX - e.origin.x) * e.shift_context.direction)
    ensures e.shift_context.orientation == Vertical ==>
      m == Clamp((mouseY - e.origin.y) * e.shift_context.direction)
  {
    var magnitude :=
      if e.shift_context.orientation == Horizontal then
        var dx := mouseX - e.origin.x;
        if e.shift_context.direction == LEFT then 0 - dx else dx
      else
        var dy := mouseY - e.origin.y;
        if e.shift_context.direction == UP then 0 - dy else dy;
    if magnitude < 0 then 0
    else if magnitude > SPRITE_SIZE then SPRITE_SIZE
    else magnitude
  }

  /** A horizontal drag ignores the mouse's y, a vertical one its x. */
  lemma MagnitudeUsesOneAxis(e: ShiftEvent, x1: int, y1: int, x2: int, y2: int)
    ensures e.shift_context.orientation == Horizontal ==> GetMagnitude(e, x1, y1) == GetMagnitude(e, x1, y2)
    ensures e.shift_context.orientation == Vertical ==> GetMagnitude(e, x1, y1) == GetMagnitude(e, x2, y1)
  {
  }

  /** Dragging further in the shift's direction never shrinks the offset. */
  lemma MagnitudeMonotone(e: ShiftEvent, x: int, y: int, t: nat)
    ensures var c := e.shift_context;
      c.orientation == Horizontal ==>
        GetMagnitude(e, x, y) <= GetMagnitude(e, x + c.direction * t, y)
    ensures var c := e.shift_context;
      c.orientation == Vertical ==>
        GetMagnitude(e, x, y) <= GetMagnitude(e, x, y + c.direction * t)
  {
  }

  /** Pixels within one tile either side of 0 all fall in tile 0, because Java division truncates. */
  lemma TileOfNearZero(pixel: int)
    requires -SPRITE_SIZE < pixel < SPRITE_SIZE
    ensures TileOf(pixel) == 0
  {
  }
}
