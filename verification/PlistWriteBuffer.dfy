// The fixed-size buffer through which the binary property list writer streams its bytes.
module PlistWriteBuffer {
  import opened SizedInts

  const BUFFER_SIZE: nat := 8192 - 32

  class WriteBuffer {
    const streamIsData: bool
    const buffer: array<byte>
    var stream: seq<byte>
    var written: nat
    var used: nat

    ghost predicate Valid()
      reads this, buffer
    {
      && buffer.Length == BUFFER_SIZE
      && used < BUFFER_SIZE
      && written == |stream|
    }

    // Everything written so far, whether it has reached the stream or not.
    ghost function Contents(): seq<byte>
      requires Valid()
      reads this, buffer
    {
      stream + buffer[..used]
    }

    // Where the next byte goes.
    function Position(): (p: nat)
      requires Valid()
      reads this, buffer
      ensures p == |Contents()|
    {
      written + used
    }

    constructor (streamIsData: bool)
      ensures Valid() && fresh(buffer)
      ensures Contents() == []
    {
      this.streamIsData := streamIsData;
      buffer := new byte[BUFFER_SIZE];
      stream, written, used := [], 0, 0;
    }

    // Appends to the stream; a write stream may take the bytes in any number of portions.
    method WriteBytes(bytes: seq<byte>)
      requires written == |stream|
      modifies this`stream, this`written
      ensures written == |stream|
      ensures stream == old(stream) + bytes
    {
      if streamIsData {
        stream := stream + bytes;
        written := written + |bytes|;
      } else {
        var done := 0;
        while done < |bytes|
          invariant done <= |bytes|
          invariant written == |stream|
          invariant stream == old(stream) + bytes[..done]
        {
          var ret :| 0 < ret <= |bytes| - done;
          stream := stream + bytes[done..done + ret];
          assert bytes[..done + ret] == bytes[..done] + bytes[done..done + ret];
          written := written + ret;
          done := done + ret;
        }
        assert bytes[..done] == bytes;
      }
    }

    method Flush()
      requires Valid()
      modifies this
      ensures Valid() && used == 0
      ensures stream == old(Contents())
    {
      WriteBytes(buffer[..used]);
      used := 0;
    }

    // Copies bytes into the buffer at `at`, one by one when there are at most four of them.
    method CopyIn(at: nat, bytes: seq<byte>)
      requires at + |bytes| <= buffer.Length
      modifies buffer
      ensures buffer[..at] == old(buffer[..at])
      ensures buffer[at..at + |bytes|] == bytes
    {
      if 1 <= |bytes| <= 4 {
        if |bytes| >= 4 { buffer[at + 3] := bytes[3]; }
        if |bytes| >= 3 { buffer[at + 2] := bytes[2]; }
        if |bytes| >= 2 { buffer[at + 1] := bytes[1]; }
        buffer[at] := bytes[0];
      } else {
        forall i | 0 <= i < |bytes| {
          buffer[at + i] := bytes[i];
        }
      }
    }

    method Write(bytes: seq<byte>)
      requires Valid()
      modifies this, buffer
      ensures Valid()
      ensures Contents() == old(Contents()) + bytes
      ensures written + used == old(written + used) + |bytes|
    {
      ghost var before := Contents();
      if |bytes| == 0 {
        assert before + bytes == before;
        return;
      }
      if BUFFER_SIZE <= |bytes| {
        Flush();
        WriteBytes(bytes);
        assert buffer[..used] == [];
        return;
      }
      var copyLen := Min(|bytes|, BUFFER_SIZE - used);
      var old_used := used;
      CopyIn(used, bytes[..copyLen]);
      used := used + copyLen;
      assert buffer[..used] == old(buffer[..used]) + bytes[..copyLen] by {
        assert buffer[..used] == buffer[..old_used] + buffer[old_used..used];
      }
      assert stream + buffer[..used] == before + bytes[..copyLen];
      assert bytes == bytes[..copyLen] + bytes[copyLen..];
      if used == BUFFER_SIZE {
        WriteBytes(buffer[..used]);
        CopyIn(0, bytes[copyLen..]);
        used := |bytes| - copyLen;
        assert buffer[..used] == bytes[copyLen..];
        assert Contents() == (before + bytes[..copyLen]) + bytes[copyLen..];
      } else {
        assert bytes[copyLen..] == [];
      }
      assert before + bytes == (before + bytes[..copyLen]) + bytes[copyLen..];
    }
  }
}
