/** Small shared vocabulary: an optional value, integer min/max as the
    JavaScript `Math.min`/`Math.max` and Swift optionals use them, and the id
    of a document block. */
module Basics {

  /** The id of a document block, as the page and the server name it. */
  type BlockId = string

  /** A value that may be absent (`null`/`undefined` in JavaScript, `nil` in Swift). */
  datatype Option<+T> = None | Some(value: T)

  function Min(a: int, b: int): (r: int)
    ensures r <= a && r <= b
    ensures r == a || r == b
  {
    if a <= b then a else b
  }

  function Max(a: int, b: int): (r: int)
    ensures a <= r && b <= r
    ensures r == a || r == b
  {
    if a <= b then b else a
  }
}
