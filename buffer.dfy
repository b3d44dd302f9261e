/** The append-only part of Go's bytes.Buffer that the header formatter writes to. */
module Buffers {

  class Buffer {
    /** Everything written so far; a char stands for one byte. */
    var content: string

    constructor ()
      ensures content == []
    {
      content := [];
    }

    method WriteByte(c: char)
      modifies this
      ensures content == old(content) + [c]
    {
      content := content + [c];
    }

    method WriteString(s: string)
      modifies this
      ensures content == old(content) + s
    {
      content := content + s;
    }
  }
}
