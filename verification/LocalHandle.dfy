/** `Local` and `MaybeLocal`: handles into a handle scope, known here by the address of their slot. */
module LocalHandle {

  const NULL: nat := 0

  class Local {
    var val: nat

    constructor (val: nat)
      ensures this.val == val
    {
      this.val := val;
    }
  }

  class MaybeLocal {
    const val: nat

    constructor (val: nat)
      ensures this.val == val
    {
      this.val := val;
    }

    /**
     `ToLocal` overwrites its output in every case: the comment beside it, that an empty source
     leaves the output untouched, is right exactly for an output that was empty already.
     */
    method ToLocal(out: Local) returns (filled: bool)
      modifies out
      ensures filled <==> val != NULL
      ensures out.val == val
      ensures !filled ==> (out.val == old(out.val) <==> old(out.val) == NULL)
    {
      out.val := if val == NULL then NULL else val;
      filled := val != NULL;
    }
  }
}
