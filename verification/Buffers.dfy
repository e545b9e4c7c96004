/** A stream that arrives in several buffers. */
module Buffers {
  function Concat(bufs: seq<string>): string {
    if bufs == [] then "" else bufs[0] + Concat(bufs[1..])
  }
}
