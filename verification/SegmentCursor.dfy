/** The bounded read buffer over one segment file. Reads may come back short. */
module SegmentCursor {
  import opened Base

  const READ_CHUNK := 128 * 1024

  class SegmentCursor {
    const file: Bytes
    var filePos: nat
    var buf: Bytes
    /** First unconsumed byte of `buf`, and how many bytes of it hold file content. */
    var start: nat
    var valid: nat
    var eof: bool

    ghost predicate Valid()
      reads this
    {
      start <= valid <= |buf| && filePos <= |file| && (eof ==> filePos == |file|)
    }

    /** Everything not consumed yet, buffered or still in the file. */
    ghost function Remaining(): Bytes
      requires Valid()
      reads this
    {
      buf[start..valid] + file[filePos..]
    }

    constructor (file: Bytes, seekByte: nat)
      ensures Valid() && this.file == file && Remaining() == file[Min(seekByte, |file|)..]
    {
      this.file, filePos := file, Min(seekByte, |file|);
      buf, start, valid, eof := [], 0, 0, false;
    }

    function Available(): Bytes
      requires Valid()
      reads this
    {
      buf[start..valid]
    }

    /** `File::read`: some bytes, none only at the end of the file. */
    method Read(capacity: nat) returns (chunk: Bytes)
      requires Valid() && capacity > 0
      modifies this`filePos
      ensures filePos == old(filePos) + |chunk| <= |file| && |chunk| <= capacity
      ensures chunk == file[old(filePos)..filePos]
      ensures chunk == [] ==> filePos == |file|
    {
      var left := |file| - filePos;
      if left == 0 {
        return [];
      }
      var n: nat :| 1 <= n <= left && n <= capacity by {
        assert 1 <= 1 <= left && 1 <= capacity;
      }
      chunk := file[filePos..filePos + n];
      filePos := filePos + n;
    }

    /** `copy_within`: move the unconsumed bytes to the front of the buffer. */
    method Compact()
      requires Valid()
      modifies this`buf, this`start, this`valid
      ensures Valid() && start == 0 && Available() == old(Available()) && |buf| == |old(buf)|
    {
      buf := buf[start..valid] + buf[valid - start..];
      valid := valid - start;
      start := 0;
    }

    method Grow(target: nat)
      requires Valid()
      modifies this`buf
      ensures Valid() && |buf| >= target && Available() == old(Available())
    {
      if |buf| < target {
        ghost var kept := buf;
        buf := buf + seq(target - |buf|, _ => 0);
        assert buf[start..valid] == kept[start..valid];
      }
    }

    /** One pass of the refill loop. */
    method Refill(need: nat)
      requires Valid() && |Available()| < need && !eof
      modifies this
      ensures Valid() && Remaining() == old(Remaining())
      ensures filePos > old(filePos) || (filePos == old(filePos) && eof)
    {
      if start > 0 {
        Compact();
      }
      Grow(Max(valid + READ_CHUNK, need));
      ghost var before, pos := buf[start..valid], filePos;
      var chunk := Read(|buf| - valid);
      if chunk == [] {
        eof := true;
      }
      buf := buf[..valid] + chunk + buf[valid + |chunk|..];
      valid := valid + |chunk|;
      assert buf[start..valid] == before + chunk;
      assert file[pos..] == chunk + file[filePos..];
    }

    /** Buffer at least `need` unconsumed bytes, or everything up to the end of the file. */
    method Fill(need: nat)
      requires Valid()
      modifies this
      ensures Valid() && Remaining() == old(Remaining())
      ensures |Available()| >= need || Available() == Remaining()
      ensures Available() <= Remaining()
    {
      while valid - start < need && !eof
        invariant Valid() && Remaining() == old(Remaining())
        decreases |file| - filePos, if eof then 0 else 1
      {
        Refill(need);
      }
    }

    method Consume(n: nat)
      requires Valid() && n <= |Available()|
      modifies this`start
      ensures Valid() && Remaining() == old(Remaining())[n..]
    {
      assert buf[start + n..valid] == buf[start..valid][n..];
      start := start + n;
    }
  }
}
