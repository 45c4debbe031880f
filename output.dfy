/** The output stream every printer appends to. */
module Output {

  /** An ostream as the text written to it so far. */
  class OutStream {
    var text: string

    constructor ()
      ensures text == []
    {
      text := [];
    }

    /** operator<<: append `s`. */
    method Put(s: string)
      modifies this
      ensures text == old(text) + s
    {
      text := text + s;
    }
  }
}
