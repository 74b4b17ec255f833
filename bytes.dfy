/** The bytes of a configuration buffer and the byte codes the scanner compares
    against (the `CHAR` table of index.js). */
module Bytes {

  /** One element of a Node.js `Buffer`. */
  newtype byte = b: int | 0 <= b < 256

  /** Section names, keys and values are kept as the raw bytes they were sliced from. */
  type Text = seq<byte>

  const OpenAngle: byte := 0x3C       // '<'  CHAR.cO
  const CloseAngle: byte := 0x3E      // '>'  CHAR.cE
  const Slash: byte := 0x2F           // '/'  CHAR.cC
  const EqualsSign: byte := 0x3D      // '='  CHAR.eQ
  const LineFeed: byte := 0x0A        // '\n' CHAR.rC
  const CarriageReturn: byte := 0x0D  // '\r'
  const Space: byte := 0x20           // ' '
  const Dot: byte := 0x2E             // '.'
  const Underscore: byte := 0x5F      // '_'

  /** Number of occurrences of `b` in `s`. */
  function Count(s: Text, b: byte): nat
  {
    if s == [] then 0
    else Count(s[..|s| - 1], b) + (if s[|s| - 1] == b then 1 else 0)
  }
}
