/** Types used throughout. */
module Types {
  type FaceId = nat

  type Byte = x: int | 0 <= x < 256
}
