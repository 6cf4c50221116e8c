/** Definitions shared by the tessellation and the output stages. */
module Common {

  /** An unsigned 8-bit integer (a byte of a buffer). */
  type u8 = x: int | 0 <= x < 0x100

  /** An unsigned 32-bit integer (a canvas dimension or a packed colour). */
  type u32 = x: int | 0 <= x < 0x1_0000_0000

  /** The value-or-error result that the program's fallible operations return. */
  datatype Result<T, E> = Ok(value: T) | Err(error: E)

  /** A two-component position, `[f32; 2]` in the program, here over the reals. */
  datatype Point2 = Point2(x: real, y: real)

  const Origin: Point2 := Point2(0.0, 0.0)

  function Add(p: Point2, q: Point2): Point2
  {
    Point2(p.x + q.x, p.y + q.y)
  }

  function Scale(c: real, p: Point2): Point2
  {
    Point2(c * p.x, c * p.y)
  }

  function Min(a: nat, b: nat): nat
  {
    if a <= b then a else b
  }
}
