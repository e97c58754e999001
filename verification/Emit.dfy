/** The code section being written: 32-bit instruction words appended by the code generators. */
module Emit {

  class Emitter {
    var code: seq<bv32>

    constructor ()
      ensures code == []
    {
      code := [];
    }

    method O(c: bv32)
      modifies this
      ensures code == old(code) + [c]
    {
      code := code + [c];
    }
  }
}
