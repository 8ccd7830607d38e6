// A queue of bytes in chunks.
module ByteQueues {

  newtype byte = x: int | 0 <= x < 256

  const WIDTH: int := 0x1_0000_0000

  function Min(a: int, b: int): int {
    if a < b then a else b
  }

  // memcpy
  method MemCpy(dest: array<byte>, destOffs: nat, src: array<byte>, srcOffs: nat, n: nat)
    requires destOffs + n <= dest.Length && srcOffs + n <= src.Length && dest != src
    modifies dest
    ensures dest[destOffs..destOffs + n] == src[srcOffs..srcOffs + n]
    ensures dest[..destOffs] == old(dest[..destOffs]) && dest[destOffs + n..] == old(dest[destOffs + n..])
  {
    for i := 0 to n
      invariant forall k | destOffs <= k < destOffs + i :: dest[k] == src[k - destOffs + srcOffs]
      invariant forall k | 0 <= k < dest.Length && !(destOffs <= k < destOffs + i) :: dest[k] == old(dest[k])
    {
      dest[destOffs + i] := src[srcOffs + i];
    }
  }

  // How many bytes copyDataToBuffer copies; the sum is one of 32-bit numbers.
  function CopyLength(size: nat, length: nat, srcOffs: nat): nat
    requires srcOffs < size
  {
    if (srcOffs + length) % WIDTH > size then size - srcOffs else length
  }

  // The sum wraps around to a number that looks as if it were inside the array.
  predicate WrapsInside(size: nat, length: nat, srcOffs: nat) {
    srcOffs < size && WIDTH <= srcOffs + length <= WIDTH + size
  }

  // The copy stays inside the array exactly when the sum does not wrap around to a small number.
  lemma CopyLengthIsClipped(size: nat, length: nat, srcOffs: nat)
    requires srcOffs < size < WIDTH && length < WIDTH
    ensures CopyLength(size, length, srcOffs) == Min(length, size - srcOffs) <==> !WrapsInside(size, length, srcOffs)
  {
  }

  class ByteArray {
    var data: array<byte>

    constructor ()
      ensures fresh(data) && Bytes() == []
    {
      data := new byte[0];
    }

    constructor Copy(other: ByteArray)
      ensures fresh(data) && Bytes() == other.Bytes()
    {
      data := new byte[other.data.Length];
      new;
      MemCpy(data, 0, other.data, 0, other.data.Length);
    }

    ghost function Bytes(): seq<byte>
      reads this, data
    {
      data[..]
    }

    function GetDataArraySize(): nat
      reads this
    {
      data.Length
    }

    method SetDataFromBuffer(ptr: array<byte>)
      requires ptr != data
      modifies this, data
      ensures Bytes() == ptr[..] && (data == old(data) || fresh(data))
    {
      if ptr.Length != data.Length {
        data := new byte[ptr.Length];
      }
      MemCpy(data, 0, ptr, 0, ptr.Length);
      assert data[0..ptr.Length] == data[..];
      assert ptr[0..ptr.Length] == ptr[..];
    }

    method AddDataFromBuffer(ptr: array<byte>)
      modifies this
      ensures Bytes() == old(Bytes()) + old(ptr[..])
      ensures data == old(data) || fresh(data)
    {
      if ptr.Length == 0 {
        assert ptr[..] == [];
        return;
      }
      var ndata := new byte[data.Length + ptr.Length];
      MemCpy(ndata, 0, data, 0, data.Length);
      assert ndata[..data.Length] == ndata[0..data.Length] == data[0..data.Length] == data[..];
      MemCpy(ndata, data.Length, ptr, 0, ptr.Length);
      assert ndata[data.Length..] == ndata[data.Length..data.Length + ptr.Length] == ptr[0..ptr.Length] == ptr[..];
      assert ndata[..] == ndata[..data.Length] + ndata[data.Length..];
      data := ndata;
    }

    // Copies to ptr from position at on what is there of length bytes from srcOffs on. Where the sum wraps around
    // to the inside of the array, memcpy would read past its end.
    method CopyDataToBuffer(ptr: array<byte>, at: nat, length: nat, srcOffs: nat) returns (copied: nat)
      requires ptr != data && at + length <= ptr.Length && length < WIDTH && srcOffs < WIDTH
      requires !WrapsInside(|Bytes()|, length, srcOffs)
      modifies ptr
      ensures copied == if srcOffs >= |Bytes()| then 0 else Min(length, |Bytes()| - srcOffs)
      ensures copied > 0 ==> ptr[at..at + copied] == Bytes()[srcOffs..srcOffs + copied]
      ensures ptr[..at] == old(ptr[..at]) && ptr[at + copied..] == old(ptr[at + copied..])
    {
      if srcOffs >= data.Length {
        return 0;
      }
      copied := CopyLength(data.Length, length, srcOffs);
      MemCpy(ptr, at, data, srcOffs, copied);
    }

    method TruncateData(truncleft: nat, truncright: nat)
      requires truncleft + truncright <= |Bytes()|
      modifies this
      ensures Bytes() == old(Bytes())[truncleft..|old(Bytes())| - truncright]
      ensures data == old(data) || fresh(data)
    {
      if truncleft != 0 || truncright != 0 {
        var nlength := data.Length - (truncleft + truncright);
        var ndata := new byte[nlength];
        MemCpy(ndata, 0, data, truncleft, nlength);
        assert ndata[..] == ndata[0..nlength];
        data := ndata;
      }
    }
  }

  // The chunk that holds position srcOffs can serve a request for length bytes from there.
  ghost predicate Readable(chunks: seq<ByteArray>, srcOffs: nat, length: nat)
    reads chunks
  {
    chunks != [] ==>
      var size := chunks[0].data.Length;
      if srcOffs < size then !WrapsInside(size, length, srcOffs) else Readable(chunks[1..], srcOffs - size, length)
  }

  lemma {:induction false} ReadableFromStart(chunks: seq<ByteArray>, length: nat)
    requires length < WIDTH
    ensures Readable(chunks, 0, length)
  {
    if chunks != [] {
      ReadableFromStart(chunks[1..], length);
    }
  }

  // The bytes of the chunks, one after the other.
  ghost function Flat(chunks: seq<ByteArray>): seq<byte>
    reads chunks, set c | c in chunks :: c.data
  {
    if chunks == [] then [] else chunks[0].Bytes() + Flat(chunks[1..])
  }

  lemma {:induction false} FlatAppend(chunks: seq<ByteArray>, c: ByteArray)
    ensures Flat(chunks + [c]) == Flat(chunks) + c.Bytes()
  {
    if chunks == [] {
      assert [c][1..] == [];
    } else {
      assert (chunks + [c])[1..] == chunks[1..] + [c];
      FlatAppend(chunks[1..], c);
    }
  }

  // The bytes of all from off on, at most len of them.
  function SliceOf(all: seq<byte>, off: nat, len: nat): seq<byte> {
    if off >= |all| then [] else all[off..off + Min(len, |all| - off)]
  }

  lemma NothingToSlice(all: seq<byte>, off: nat, len: nat)
    ensures all == [] || len == 0 ==> SliceOf(all, off, len) == []
  {
  }

  // A slice of a first chunk and the rest.
  lemma SliceStep(chunk: seq<byte>, rest: seq<byte>, off: nat, len: nat)
    ensures off >= |chunk| ==> SliceOf(chunk + rest, off, len) == SliceOf(rest, off - |chunk|, len)
    ensures off < |chunk| ==>
      var k := Min(len, |chunk| - off);
      SliceOf(chunk + rest, off, len) == chunk[off..off + k] + SliceOf(rest, 0, len - k)
  {
  }

  // The front of a first chunk and the rest goes.
  lemma CutFront(chunk: seq<byte>, rest: seq<byte>, n: nat)
    ensures n <= |chunk| ==> (chunk + rest)[n..] == chunk[n..] + rest
    ensures n >= |chunk| ==> (chunk + rest)[|chunk|..] == rest
  {
  }

  lemma WantedStep(wanted: seq<byte>, before: seq<byte>, chunk: seq<byte>, rest: seq<byte>, off: nat, len: nat, k: nat)
    requires wanted == before + SliceOf(chunk + rest, off, len) && len > 0
    requires k == if off >= |chunk| then 0 else Min(len, |chunk| - off)
    ensures k > 0 ==> wanted == before + chunk[off..off + k] + SliceOf(rest, 0, len - k)
    ensures k == 0 ==> off >= |chunk| && wanted == before + SliceOf(rest, off - |chunk|, len)
  {
    SliceStep(chunk, rest, off, len);
    if k > 0 {
      assert before + (chunk[off..off + k] + SliceOf(rest, 0, len - k))
        == before + chunk[off..off + k] + SliceOf(rest, 0, len - k);
    }
  }

  class ByteArrayBuffer {
    var dataLength: nat
    var dataList: seq<ByteArray>

    constructor ()
      ensures Valid() && Contents() == []
    {
      dataLength, dataList := 0, [];
    }

    // No chunk is in the list twice, and the length is that of all chunks.
    ghost predicate Valid()
      reads this, dataList, set c | c in dataList :: c.data
    {
      && (forall i, j | 0 <= i < j < |dataList| :: dataList[i] != dataList[j])
      && dataLength == |Contents()|
    }

    // The queue as one sequence of bytes.
    ghost function Contents(): seq<byte>
      reads this, dataList, set c | c in dataList :: c.data
    {
      Flat(dataList)
    }

    function GetLength(): nat
      reads this
    {
      dataLength
    }

    method Push(byteArray: ByteArray)
      requires Valid()
      modifies this
      ensures Valid() && Contents() == old(Contents()) + old(byteArray.Bytes())
    {
      var chunk := new ByteArray.Copy(byteArray);
      FlatAppend(dataList, chunk);
      dataList := dataList + [chunk];
      dataLength := dataLength + byteArray.GetDataArraySize();
    }

    method PushBuffer(buffer: array<byte>)
      requires Valid()
      modifies this
      ensures Valid() && Contents() == old(Contents()) + old(buffer[..])
    {
      var chunk := new ByteArray();
      chunk.SetDataFromBuffer(buffer);
      FlatAppend(dataList, chunk);
      dataList := dataList + [chunk];
      dataLength := dataLength + buffer.Length;
    }

    // Copies the bytes from srcOffs on, as many as there are and as fit.
    method GetBytesToBuffer(buffer: array<byte>, srcOffs: nat) returns (copiedBytes: nat)
      requires Valid() && (forall c | c in dataList :: c.data != buffer) && srcOffs < WIDTH && buffer.Length < WIDTH
      requires Readable(dataList, srcOffs, buffer.Length)
      modifies buffer
      ensures Valid() && Contents() == old(Contents()) && copiedBytes <= buffer.Length
      ensures buffer[..copiedBytes] == SliceOf(Contents(), srcOffs, buffer.Length)
      ensures buffer[copiedBytes..] == old(buffer[copiedBytes..])
    {
      ghost var all := Contents();
      copiedBytes := CopyChunks(buffer, srcOffs, SliceOf(all, srcOffs, buffer.Length));
      assert Contents() == all;
    }

    // The loop over the chunks.
    method CopyChunks(buffer: array<byte>, srcOffs: nat, ghost wanted: seq<byte>) returns (copiedBytes: nat)
      requires (forall c | c in dataList :: c.data != buffer) && srcOffs < WIDTH && buffer.Length < WIDTH
      requires Readable(dataList, srcOffs, buffer.Length) && wanted == SliceOf(Flat(dataList), srcOffs, buffer.Length)
      modifies buffer
      ensures copiedBytes <= buffer.Length && buffer[..copiedBytes] == wanted
      ensures buffer[copiedBytes..] == old(buffer[copiedBytes..])
    {
      copiedBytes := 0;
      var srcOffsP := srcOffs;
      var i := 0;
      ghost var rest := Flat(dataList);
      assert dataList[0..] == dataList && wanted == buffer[..0] + wanted;
      while copiedBytes < buffer.Length && i < |dataList|
        invariant 0 <= i <= |dataList| && copiedBytes <= buffer.Length && 0 <= srcOffsP <= srcOffs
        invariant buffer[copiedBytes..] == old(buffer[copiedBytes..])
        invariant (srcOffsP > 0 ==> copiedBytes == 0) && Readable(dataList[i..], srcOffsP, buffer.Length - copiedBytes)
        invariant rest == Flat(dataList[i..])
        invariant wanted == buffer[..copiedBytes] + SliceOf(rest, srcOffsP, buffer.Length - copiedBytes)
      {
        assert dataList[i..][0] == dataList[i] && dataList[i..][1..] == dataList[i + 1..];
        rest := Flat(dataList[i + 1..]);
        assert Flat(dataList[i..]) == dataList[i].Bytes() + rest;
        copiedBytes, srcOffsP := CopyChunk(buffer, i, copiedBytes, srcOffsP, wanted, rest);
        i := i + 1;
      }
      NothingToSlice(rest, srcOffsP, buffer.Length - copiedBytes);
    }

    // One turn of the loop; rest is what comes after chunk i.
    method CopyChunk(buffer: array<byte>, i: nat, copied: nat, srcOffs: nat, ghost wanted: seq<byte>,
        ghost rest: seq<byte>)
      returns (copiedBytes: nat, srcOffsP: nat)
      requires (forall c | c in dataList :: c.data != buffer) && srcOffs < WIDTH && buffer.Length < WIDTH
      requires i < |dataList| && copied < buffer.Length && Readable(dataList[i..], srcOffs, buffer.Length - copied)
      requires rest == Flat(dataList[i + 1..])
      requires wanted == buffer[..copied] + SliceOf(dataList[i].Bytes() + rest, srcOffs, buffer.Length - copied)
      modifies buffer
      ensures copied <= copiedBytes <= buffer.Length && srcOffsP <= srcOffs && (srcOffsP > 0 ==> copiedBytes == copied)
      ensures Readable(dataList[i + 1..], srcOffsP, buffer.Length - copiedBytes) && rest == Flat(dataList[i + 1..])
      ensures buffer[copiedBytes..] == old(buffer[copiedBytes..])
      ensures wanted == buffer[..copiedBytes] + SliceOf(rest, srcOffsP, buffer.Length - copiedBytes)
    {
      assert dataList[i..][0] == dataList[i] && dataList[i..][1..] == dataList[i + 1..];
      copiedBytes, srcOffsP := CopyPart(dataList[i], buffer, copied, srcOffs, wanted, rest);
      assert rest == Flat(dataList[i + 1..]);
      if srcOffsP == 0 {
        ReadableFromStart(dataList[i + 1..], buffer.Length - copiedBytes);
      }
    }

    // The part of one chunk.
    method CopyPart(c: ByteArray, buffer: array<byte>, copied: nat, srcOffs: nat, ghost wanted: seq<byte>,
        ghost rest: seq<byte>)
      returns (copiedBytes: nat, srcOffsP: nat)
      requires c.data != buffer && srcOffs < WIDTH && buffer.Length < WIDTH && copied < buffer.Length
      requires !WrapsInside(c.data.Length, buffer.Length - copied, srcOffs)
      requires wanted == buffer[..copied] + SliceOf(c.Bytes() + rest, srcOffs, buffer.Length - copied)
      modifies buffer
      ensures copied <= copiedBytes <= buffer.Length && buffer[copiedBytes..] == old(buffer[copiedBytes..])
      ensures srcOffs < c.data.Length ==> srcOffsP == 0
      ensures srcOffs >= c.data.Length ==> copiedBytes == copied && srcOffsP == srcOffs - c.data.Length
      ensures wanted == buffer[..copiedBytes] + SliceOf(rest, srcOffsP, buffer.Length - copiedBytes)
    {
      ghost var before, chunk := buffer[..copied], c.Bytes();
      var cbytes := c.CopyDataToBuffer(buffer, copied, buffer.Length - copied, srcOffs);
      ghost var part := if cbytes == 0 then [] else chunk[srcOffs..srcOffs + cbytes];
      Joined(buffer, copied, cbytes, before, part);
      PartCopied(wanted, before, chunk, rest, srcOffs, buffer.Length - copied, part);
      if cbytes != 0 {
        copiedBytes, srcOffsP := copied + cbytes, 0;
      } else {
        copiedBytes, srcOffsP := copied, srcOffs - c.GetDataArraySize();
      }
    }

    // The bytes copied from one chunk bring what has been copied that much nearer to what is wanted.
    lemma PartCopied(wanted: seq<byte>, before: seq<byte>, chunk: seq<byte>, rest: seq<byte>, off: nat, len: nat,
        part: seq<byte>)
      requires wanted == before + SliceOf(chunk + rest, off, len) && len > 0
      requires if off >= |chunk| then part == [] else part == chunk[off..off + Min(len, |chunk| - off)]
      ensures wanted == before + part + SliceOf(rest, if off >= |chunk| then off - |chunk| else 0, len - |part|)
    {
      WantedStep(wanted, before, chunk, rest, off, len, |part|);
      assert part == [] ==> before + part == before;
    }

    lemma Joined(buffer: array<byte>, n: nat, k: nat, a: seq<byte>, b: seq<byte>)
      requires n + k <= buffer.Length && buffer[..n] == a && buffer[n..n + k] == b
      ensures buffer[..n + k] == a + b
    {
    }

    // Drops the first bytes; empty chunks go with those before them.
    method Drop(lengthP: nat) returns (dropped: nat)
      requires Valid() && lengthP <= GetLength()
      modifies this, dataList
      ensures Valid() && Contents() == old(Contents())[lengthP..] && dropped == lengthP
    {
      var length := lengthP;
      ghost var all, chunks := Contents(), dataList;
      ghost var gone: nat := 0;
      while length > 0
        invariant 0 <= length <= lengthP <= |all| && Valid() && length <= dataLength
          && Contents() == all[lengthP - length..]
        invariant gone <= |chunks| && dataList == chunks[gone..]
        decreases length, |dataList|
      {
        assert dataList != [] && dataList[0] == chunks[gone];
        ghost var popped;
        length, popped := DropFront(length);
        gone := gone + popped;
      }
      dropped := lengthP;
    }

    // One turn of the loop: the front chunk goes, or is cut.
    method DropFront(length: nat) returns (rest: nat, ghost popped: nat)
      requires Valid() && 0 < length <= dataLength && dataList != []
      modifies this, dataList[0]
      ensures Valid() && rest <= length && Contents() == old(Contents())[length - rest..]
      ensures rest < length || popped == 1
      ensures popped <= |old(dataList)| && dataList == old(dataList)[popped..]
    {
      var sliceLength := dataList[0].GetDataArraySize();
      ghost var tail := dataList[1..];
      ghost var chunk, others := dataList[0].Bytes(), Flat(tail);
      assert Contents() == chunk + others;
      CutFront(chunk, others, length);
      if sliceLength <= length {
        dataList := dataList[1..];
        dataLength := dataLength - sliceLength;
        rest, popped := length - sliceLength, 1;
      } else {
        dataList[0].TruncateData(length, 0);
        assert Flat(tail) == others && dataList[0].Bytes() == chunk[length..];
        dataLength := dataLength - length;
        rest, popped := 0, 0;
      }
    }

    // Moves the first bytes to the buffer.
    method PopBytesToBuffer(buffer: array<byte>) returns (moved: nat)
      requires Valid() && (forall c | c in dataList :: c.data != buffer) && buffer.Length < WIDTH
      modifies this, dataList, buffer
      ensures Valid() && moved <= buffer.Length && buffer[..moved] + Contents() == old(Contents())
      ensures moved == Min(buffer.Length, |old(Contents())|)
    {
      ReadableFromStart(dataList, buffer.Length);
      var n := GetBytesToBuffer(buffer, 0);
      moved := Drop(n);
    }

    method Clear()
      modifies this
      ensures Valid() && Contents() == []
    {
      dataLength := 0;
      while dataList != []
        decreases |dataList|
      {
        dataList := dataList[1..];
      }
      dataLength := 0;
    }
  }
}
