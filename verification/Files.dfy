/** Files as byte sequences with a position. */
module Files {
  import opened Bytes

  /** A file open for reading; eof is set once a read finds fewer bytes than it asks for. */
  class InFile {
    const bytes: seq<Byte>
    var pos: nat
    var eof: bool

    ghost predicate Valid()
      reads this
    {
      pos <= |bytes| && (eof ==> pos == |bytes|)
    }

    ghost function Rest(): seq<Byte>
      requires Valid()
      reads this
    {
      bytes[pos..]
    }

    constructor (contents: seq<Byte>)
      ensures bytes == contents && pos == 0 && !eof && Valid()
    {
      bytes, pos, eof := contents, 0, false;
    }

    /** All of n bytes, or a failure that uses up what is left. */
    method Read(n: nat) returns (data: seq<Byte>, ok: bool)
      requires Valid()
      modifies this
      ensures Valid() && ok == (n <= |old(Rest())|) && eof == (old(eof) || !ok)
      ensures ok ==> data == old(Rest())[..n] && Rest() == old(Rest())[n..]
      ensures !ok ==> Rest() == []
    {
      if pos + n <= |bytes| {
        data, ok := bytes[pos..pos + n], true;
        pos := pos + n;
      } else {
        data, ok := bytes[pos..], false;
        pos, eof := |bytes|, true;
      }
    }

    method Rewind()
      modifies this
      ensures Valid() && pos == 0 && !eof
    {
      pos, eof := 0, false;
    }
  }

  /** Bytes with some of them written over, or appended, from a position on. */
  function Overwrite(b: seq<Byte>, at: nat, data: seq<Byte>): seq<Byte>
    requires at <= |b|
  {
    b[..at] + data + (if at + |data| <= |b| then b[at + |data|..] else [])
  }

  /** A file open for writing. */
  class OutFile {
    var bytes: seq<Byte>
    var pos: nat

    ghost predicate Valid()
      reads this
    {
      pos <= |bytes|
    }

    constructor ()
      ensures bytes == [] && pos == 0 && Valid()
    {
      bytes, pos := [], 0;
    }

    method Seek(to: nat)
      requires to <= |bytes|
      modifies this
      ensures Valid() && bytes == old(bytes) && pos == to
    {
      pos := to;
    }

    method Write(data: seq<Byte>)
      requires Valid()
      modifies this
      ensures Valid() && bytes == Overwrite(old(bytes), old(pos), data) && pos == old(pos) + |data|
      ensures old(pos) == |old(bytes)| ==> bytes == old(bytes) + data && pos == |bytes|
    {
      bytes, pos := Overwrite(bytes, pos, data), pos + |data|;
    }
  }
}
