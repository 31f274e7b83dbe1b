/**
 * The connected stream a probe talks over (System.IO.Stream is not part of
 * this model): the bytes the peer sends, fixed in advance, how many of them
 * have been read, and the bytes written to the peer.
 */
module IO {
  import opened M

  class Stream {
    var input: seq<byte>
    var pos: nat
    var output: seq<byte>

    ghost predicate Valid()
      reads this
    {
      pos <= |input|
    }

    /** The bytes the peer has sent that have not been read yet. */
    ghost function Remaining(): seq<byte>
      reads this
      requires Valid()
    {
      input[pos..]
    }

    constructor (input: seq<byte>)
      ensures Valid() && this.input == input && pos == 0 && output == []
    {
      this.input := input;
      pos := 0;
      output := [];
    }

    /** Stream.Write: the bytes are appended to what the peer receives. */
    method Write(data: seq<byte>)
      requires Valid()
      modifies this
      ensures Valid() && input == old(input) && pos == old(pos)
      ensures output == old(output) + data
    {
      output := output + data;
    }

    /**
     * M.ReadFully: fills buf with the next buf.Length bytes. When the peer
     * has sent fewer, everything it sent is consumed and the read fails
     * (the source throws).
     */
    method ReadFully(buf: array<byte>) returns (ok: bool)
      requires Valid()
      modifies this, buf
      ensures Valid() && input == old(input) && output == old(output)
      ensures ok <==> old(pos) + buf.Length <= |input|
      ensures ok ==> pos == old(pos) + buf.Length && buf[..] == input[old(pos)..pos]
      ensures !ok ==> pos == |input|
    {
      if pos + buf.Length <= |input| {
        forall i | 0 <= i < buf.Length {
          buf[i] := input[pos + i];
        }
        pos := pos + buf.Length;
        ok := true;
      } else {
        pos := |input|;
        ok := false;
      }
    }
  }
}
