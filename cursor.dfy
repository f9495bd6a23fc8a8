/** The byte source the tokenizer reads from: `std::io::Cursor` over an
  * in-memory input. The tokenizer's tests wrap it in a `BufReader`, which reads
  * the same way as long as the input fits in the `BufReader`'s buffer. */
module Io {
  import opened RustCore

  class Cursor {
    /** The whole input; it never changes. */
    const data: seq<byte>
    /** How many bytes have been read so far. */
    var pos: nat

    ghost predicate Valid()
      reads this
    {
      pos <= |data|
    }

    /** The bytes not read yet. */
    function Remaining(): seq<byte>
      reads this
      requires Valid()
    {
      data[pos..]
    }

    constructor (data: seq<byte>)
      ensures Valid()
      ensures this.data == data && pos == 0
    {
      this.data := data;
      pos := 0;
    }

    /** `reader.read(&mut buf)`: copies as many of the remaining bytes as fit
      * into the front of `buf`, leaves the rest of `buf` as it was, and returns
      * how many it copied. At the end of the input it copies nothing and
      * returns 0, which is not an error. */
    method Read(buf: array<byte>) returns (n: nat)
      requires Valid()
      modifies this, buf
      ensures Valid()
      ensures n == Min(buf.Length, |old(Remaining())|)
      ensures pos == old(pos) + n
      ensures buf[..n] == old(Remaining())[..n]
      ensures buf[n..] == old(buf[n..])
    {
      n := Min(buf.Length, |data| - pos);
      forall i | 0 <= i < n {
        buf[i] := data[pos + i];
      }
      pos := pos + n;
    }
  }
}
