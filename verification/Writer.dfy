/** kason_writer: a fixed buffer, a callback with an optional staging buffer, or a
    counter. Nothing is lost or repeated on the way. */
module Writer {
  import opened Bytes

  const SIZE_MAX: nat := 0xFFFF_FFFF_FFFF_FFFF

  datatype WriterMode = BufferMode | CallbackMode | CounterMode

  datatype Status = Success | Error | TypeError | RangeError | StringCapacity | ArrayCapacity | WriterCapacity | WriterCallback |
    MissingField | DuplicateField | InvalidSchema | NestingError

  /** An output callback accepts a chunk (true) or not, from all it accepted before. */
  type OutputPolicy = (seq<Text>, Text) -> bool

  function Joined(chunks: seq<Text>): Text {
    if chunks == [] then [] else Joined(chunks[..|chunks| - 1]) + chunks[|chunks| - 1]
  }

  lemma JoinedSnoc(chunks: seq<Text>, chunk: Text)
    ensures Joined(chunks + [chunk]) == Joined(chunks) + chunk
  {
    assert (chunks + [chunk])[..|chunks|] == chunks;
  }

  class Writer {
    const mode: WriterMode
    const buffer: array<Byte>
    const scratch: array<Byte>
    const accepts: OutputPolicy
    var length: nat
    var scratchLength: nat
    var status: Status
    var delivered: seq<Text>
    ghost var written: Text      // all successful writes since the last reset
    ghost var earlier: nat       // chunks delivered before that reset
    ghost var refused: Text      // the piece or chunk that a failed write could not place

    /** The chunks delivered since the last reset. */
    ghost function Chunks(): seq<Text>
      reads this
      requires earlier <= |delivered|
    {
      delivered[earlier..]
    }

    ghost predicate Valid()
      reads this, buffer, scratch
    {
      buffer != scratch && length == |written| <= SIZE_MAX && scratchLength <= scratch.Length && earlier <= |delivered| &&
      (mode == BufferMode ==>
        length < buffer.Length && buffer[..length] == written && buffer[length] == 0) &&
      (mode == CallbackMode ==> Joined(Chunks()) + scratch[..scratchLength] == written) &&
      (mode != CallbackMode ==> scratchLength == 0)
    }

    /** kason_writer_init_buffer, kason_writer_init_callback and kason_writer_init_counter. */
    constructor (mode: WriterMode, capacity: nat, scratchCapacity: nat, accepts: OutputPolicy)
      requires mode == BufferMode ==> capacity > 0
      ensures Valid() && fresh(buffer) && fresh(scratch) && written == [] && status == Success && delivered == []
      ensures this.mode == mode && buffer.Length == capacity && scratch.Length == scratchCapacity && this.accepts == accepts
    {
      this.mode, this.accepts := mode, accepts;
      buffer := new Byte[capacity](_ => 0);
      scratch := new Byte[scratchCapacity](_ => 0);
      length, scratchLength, status, delivered := 0, 0, Success, [];
      written, earlier, refused := [], 0, [];
    }

    /** kason_writer_reset. */
    method Reset()
      requires Valid()
      modifies this, buffer
      ensures Valid() && status == Success && written == [] && delivered == old(delivered) && Chunks() == []
    {
      length, scratchLength, status := 0, 0, Success;
      written, earlier := [], |delivered|;
      if mode == BufferMode {
        buffer[0] := 0;
      }
    }

    ghost predicate Exceeds(n: nat) {
      n > SIZE_MAX || (mode == BufferMode && n >= buffer.Length)
    }

    /** Why coming to `total` bytes has failed with `code`: there was no room for the
        piece that came next, or the callback refused its chunk. */
    ghost predicate Blocked(code: Status, total: nat)
      reads this
    {
      (code == WriterCapacity && |written| + |refused| <= total && Exceeds(|written| + |refused|)) ||
      (code == WriterCallback && mode == CallbackMode && !accepts(delivered, refused))
    }

    /** A chunk goes to the callback. */
    method Deliver(chunk: Text) returns (ok: bool)
      modifies this`delivered
      ensures delivered == if ok then old(delivered) + [chunk] else old(delivered)
      ensures ok == accepts(old(delivered), chunk)
    {
      ok := accepts(delivered, chunk);
      if ok {
        delivered := delivered + [chunk];
      }
    }

    /** kason_writer_flush. */
    method Flush() returns (r: Status)
      requires Valid() && status == Success
      modifies this`delivered, this`scratchLength, this`status, this`refused
      ensures Valid() && status == r && (r == Success || Blocked(r, |written|)) && old(delivered) <= delivered
      ensures r == Success && mode == CallbackMode ==> scratchLength == 0 && Joined(Chunks()) == written
      ensures mode != CallbackMode ==> r == Success && delivered == old(delivered)
    {
      if mode != CallbackMode || scratchLength == 0 {
        assert mode == CallbackMode ==> Joined(Chunks()) + scratch[..0] == Joined(Chunks());
        return Success;
      }
      ghost var chunks := Chunks();
      var ok := Deliver(scratch[..scratchLength]);
      if !ok {
        status, refused := WriterCallback, scratch[..scratchLength];
        return status;
      }
      JoinedSnoc(chunks, scratch[..scratchLength]);
      assert Chunks() == chunks + [scratch[..scratchLength]];
      scratchLength := 0;
      assert written + scratch[..0] == written;
      return Success;
    }

    /** kason_writer_write. */
    method Write(data: Text) returns (r: Status)
      requires Valid()
      modifies this, buffer, scratch
      ensures Valid() && status == r && earlier == old(earlier) && old(delivered) <= delivered
      ensures old(status) != Success ==> r == old(status) && written == old(written) && delivered == old(delivered)
      ensures old(status) == Success ==>
        if r == Success then written == old(written) + data
        else written == old(written) && Blocked(r, |written| + |data|)
    {
      if status != Success {
        return status;
      }
      if |data| > SIZE_MAX - length {
        status, refused := WriterCapacity, data;
        return status;
      }
      if mode == CounterMode {
        length := length + |data|;
        written := written + data;
        return Success;
      }
      if mode == BufferMode {
        r := WriteBuffer(data);
      } else {
        r := WriteCallback(data);
      }
    }

    method WriteBuffer(data: Text) returns (r: Status)
      requires Valid() && status == Success && mode == BufferMode && length + |data| <= SIZE_MAX
      modifies this`length, this`status, this`written, this`refused, buffer
      ensures Valid() && status == r
      ensures if r == Success then written == old(written) + data
        else written == old(written) && Blocked(r, |written| + |data|)
    {
      if |data| >= buffer.Length - length {
        status, refused := WriterCapacity, data;
        return status;
      }
      CopyTo(buffer, length, data);
      length := length + |data|;
      buffer[length] := 0;
      written := written + data;
      assert buffer[..length] == written;
      return Success;
    }

    method WriteCallback(data: Text) returns (r: Status)
      requires Valid() && status == Success && mode == CallbackMode && length + |data| <= SIZE_MAX
      modifies this, scratch
      ensures Valid() && status == r && earlier == old(earlier) && old(delivered) <= delivered
      ensures if r == Success then written == old(written) + data else written == old(written) && Blocked(r, |written| + |data|)
    {
      if |data| > scratch.Length || scratch.Length == 0 {
        r := WriteThrough(data);
        return;
      }
      if |data| > scratch.Length - scratchLength {
        r := Flush();
        if r != Success {
          return;
        }
      }
      ghost var staged := scratch[..scratchLength];
      CopyTo(scratch, scratchLength, data);
      scratchLength := scratchLength + |data|;
      length := length + |data|;
      assert scratch[..scratchLength] == staged + data;
      assert Joined(Chunks()) + (staged + data) == Joined(Chunks()) + staged + data;
      written := written + data;
      return Success;
    }

    /** Data that is not staged: what is staged goes first. */
    method WriteThrough(data: Text) returns (r: Status)
      requires Valid() && status == Success && mode == CallbackMode && length + |data| <= SIZE_MAX
      requires |data| > scratch.Length || scratch.Length == 0
      modifies this, scratch
      ensures Valid() && status == r && earlier == old(earlier) && old(delivered) <= delivered
      ensures if r == Success then written == old(written) + data else written == old(written) && Blocked(r, |written| + |data|)
    {
      if scratch.Length == 0 && |data| == 0 {
        assert written + data == written;
        return Success;
      }
      r := Flush();
      if r != Success {
        return;
      }
      ghost var chunks := Chunks();
      var ok := Deliver(data);
      if !ok {
        status, refused := WriterCallback, data;
        return status;
      }
      JoinedSnoc(chunks, data);
      assert Chunks() == chunks + [data];
      length := length + |data|;
      written := written + data;
      assert written + scratch[..0] == written;
      return Success;
    }
  }

  /** memcpy. */
  method CopyTo(a: array<Byte>, at: nat, data: Text)
    requires at + |data| <= a.Length
    modifies a
    ensures a[..at] == old(a[..at]) && a[at..at + |data|] == data && a[..at + |data|] == old(a[..at]) + data
    ensures a[at + |data|..] == old(a[at + |data|..])
  {
    for i := 0 to |data|
      invariant a[..at] == old(a[..at]) && a[at..at + i] == data[..i] && a[at + i..] == old(a[at + i..])
    {
      a[at + i] := data[i];
    }
    assert a[..at + |data|] == a[..at] + a[at..at + |data|];
  }
}
