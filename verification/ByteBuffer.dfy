/**
  The growable byte buffer of a connection: an array with a read and a write
  index, compacted in place or enlarged when an append does not fit.
*/
module ByteBuffer {
  import opened Bytes

  const CHEAP_PREPEND := 8

  class Buffer {
    var storage: array<byte>
    var readIndex: nat
    var writeIndex: nat

    ghost predicate Valid()
      reads this
    {
      CHEAP_PREPEND <= readIndex <= writeIndex <= storage.Length
    }

    /** The bytes appended and not yet retrieved. */
    ghost function Contents(): seq<byte>
      requires Valid()
      reads this, storage
    {
      storage[readIndex..writeIndex]
    }

    constructor (initialSize: nat)
      ensures Valid() && fresh(storage) && Contents() == []
    {
      storage := new byte[CHEAP_PREPEND + initialSize];
      readIndex, writeIndex := CHEAP_PREPEND, CHEAP_PREPEND;
    }

    method ReadableBytes() returns (n: nat)
      requires Valid()
      ensures n == |Contents()|
    {
      n := writeIndex - readIndex;
    }

    /** The readable bytes, without consuming them. */
    method Peek() returns (data: seq<byte>)
      requires Valid()
      ensures data == Contents()
    {
      data := storage[readIndex..writeIndex];
    }

    method RetrieveAll()
      requires Valid()
      modifies `readIndex, `writeIndex
      ensures Valid() && Contents() == []
    {
      readIndex, writeIndex := CHEAP_PREPEND, CHEAP_PREPEND;
    }

    /** Asking for more than there is consumes everything. */
    method Retrieve(len: nat)
      requires Valid()
      modifies `readIndex, `writeIndex
      ensures Valid() && Contents() == if len < |old(Contents())| then old(Contents())[len..] else []
    {
      if len < writeIndex - readIndex {
        readIndex := readIndex + len;
      } else {
        RetrieveAll();
      }
    }

    /**
      std::copy to a lower position: cell by cell from the front, each source
      cell is read before it can be overwritten.
    */
    method CopyDown(from: nat, to: nat, n: nat)
      requires to < from && from + n <= storage.Length
      modifies storage
      ensures storage[to..to + n] == old(storage[from..from + n])
    {
      for i := 0 to n
        invariant storage[to..to + i] == old(storage[from..from + i])
        invariant storage[from + i..from + n] == old(storage[from + i..from + n])
      {
        assert storage[from + i] == storage[from + i..from + n][0] == old(storage[from + i..from + n])[0];
        storage[to + i] := storage[from + i];
        assert storage[from + i + 1..from + n] == old(storage[from + i..from + n])[1..];
      }
    }

    method MakeSpace(len: nat)
      requires Valid() && storage.Length - writeIndex < len
      modifies this, storage
      ensures Valid() && Contents() == old(Contents()) && storage.Length - writeIndex >= len
      ensures storage == old(storage) || fresh(storage)
    {
      if storage.Length - writeIndex + readIndex < len + CHEAP_PREPEND {
        var bigger := new byte[writeIndex + len];
        for i := 0 to writeIndex
          modifies bigger
          invariant bigger[..i] == storage[..i]
        {
          bigger[i] := storage[i];
        }
        storage := bigger;
      } else {
        var readable := writeIndex - readIndex;
        CopyDown(readIndex, CHEAP_PREPEND, readable);
        readIndex := CHEAP_PREPEND;
        writeIndex := readIndex + readable;
      }
    }

    method CopyIn(at: nat, data: seq<byte>)
      requires at + |data| <= storage.Length
      modifies storage
      ensures storage[at..at + |data|] == data && storage[..at] == old(storage[..at])
    {
      for i := 0 to |data|
        invariant storage[at..at + i] == data[..i] && storage[..at] == old(storage[..at])
      {
        storage[at + i] := data[i];
      }
    }

    method Append(data: seq<byte>)
      requires Valid()
      modifies this, storage
      ensures Valid() && Contents() == old(Contents()) + data
      ensures storage == old(storage) || fresh(storage)
    {
      if storage.Length - writeIndex < |data| {
        MakeSpace(|data|);
      }
      ghost var low, at := storage[..writeIndex], writeIndex;
      CopyIn(writeIndex, data);
      writeIndex := writeIndex + |data|;
      assert storage[readIndex..at] == low[readIndex..] == old(Contents());
      assert storage[readIndex..writeIndex] == storage[readIndex..at] + storage[at..writeIndex];
    }
  }
}
