/**
 * The growable output buffer that the registry supervisor pipes the server's
 * stdout into (`WritableStreamBuffer` and `growBufferForAppendedData` in
 * src/lib/verdaccio.ts).
 *
 * The buffer keeps `size` bytes at the front of a byte array whose length is
 * the capacity. Capacity starts at 32 bytes and grows by the chunk length
 * rounded up to a multiple of 16; only when it grows are the listeners of
 * "bufferchange" notified.
 */
module StreamBuffer {
  import opened Wrappers

  type Byte = bv8

  /** A listener registered with `addListener`, identified by the caller. */
  type ListenerId = nat

  /** One listener call made by `dispatch`: who was called, with what. */
  datatype Delivery = Delivery(listener: ListenerId, data: seq<Byte>)

  const DEFAULT_ALLOC_SIZE: nat := 32
  const DEFAULT_GROW_SIZE: nat := 16
  const BUFFER_CHANGE: string := "bufferchange"

  function Zeros(n: nat): (z: seq<Byte>)
    ensures |z| == n && forall i :: 0 <= i < n ==> z[i] == 0
  {
    seq(n, _ => 0)
  }

  function Min(a: int, b: int): int {
    if a <= b then a else b
  }

  /** `Math.ceil(len / growSize) * growSize` with the grow step of 16 bytes. */
  function AppendSize(len: nat): nat {
    ((len + DEFAULT_GROW_SIZE - 1) / DEFAULT_GROW_SIZE) * DEFAULT_GROW_SIZE
  }

  /** The append size is the least multiple of the grow step that holds the chunk. */
  lemma AppendSizeCovers(len: nat)
    ensures len <= AppendSize(len) < len + DEFAULT_GROW_SIZE
    ensures AppendSize(len) % DEFAULT_GROW_SIZE == 0
    ensures len == 0 ==> AppendSize(len) == 0
  {
  }

  /**
   * `growBufferForAppendedData(buf, actualsize, appendsize)`: the same buffer
   * when the free space `|buf| - actualsize` is at least `appendsize`;
   * otherwise a fresh zero-filled buffer of length `|buf| + appendsize`
   * holding the first `actualsize` bytes of `buf` (`Buffer.copy` copies no
   * more than `buf` has).
   */
  function GrowBufferForAppendedData(buf: seq<Byte>, actualSize: nat, appendSize: nat): (r: seq<Byte>)
    ensures |buf| - actualSize >= appendSize ==> r == buf
    ensures |buf| - actualSize < appendSize ==>
      |r| == |buf| + appendSize &&
      (forall i :: 0 <= i < Min(actualSize, |buf|) ==> r[i] == buf[i]) &&
      (forall i :: Min(actualSize, |buf|) <= i < |r| ==> r[i] == 0)
  {
    if |buf| - actualSize >= appendSize then buf
    else
      var kept := Min(actualSize, |buf|);
      buf[..kept] + Zeros(|buf| + appendSize - kept)
  }

  /**
   * The payload of the "bufferchange" notification: a zero-filled buffer of
   * the growth's length into which the chunk is copied as far as it fits.
   */
  function ChangePayload(chunk: seq<Byte>, growth: nat): seq<Byte> {
    var n := Min(|chunk|, growth);
    chunk[..n] + Zeros(growth - n)
  }

  /** With `growth` at least the chunk length the payload is the chunk followed by zero padding. */
  lemma ChangePayloadShape(chunk: seq<Byte>, growth: nat)
    requires |chunk| <= growth
    ensures |ChangePayload(chunk, growth)| == growth
    ensures ChangePayload(chunk, growth) == chunk + Zeros(growth - |chunk|)
  {
    assert chunk[..|chunk|] == chunk;
  }

  /** The backing array after `_write`: grown if needed, then the chunk copied in at offset `size`. */
  function StoredAfterWrite(buf: seq<Byte>, size: nat, chunk: seq<Byte>): (r: seq<Byte>)
    requires size <= |buf|
    ensures size + |chunk| <= |r|
  {
    AppendSizeCovers(|chunk|);
    var g := GrowBufferForAppendedData(buf, size, AppendSize(|chunk|));
    g[..size] + chunk + g[size + |chunk|..]
  }

  /** `_write` keeps the bytes already stored and puts the chunk right after them. */
  lemma WriteKeepsPrefix(buf: seq<Byte>, size: nat, chunk: seq<Byte>)
    requires size <= |buf|
    ensures StoredAfterWrite(buf, size, chunk)[..size] == buf[..size]
    ensures StoredAfterWrite(buf, size, chunk)[size..size + |chunk|] == chunk
    ensures StoredAfterWrite(buf, size, chunk)[..size + |chunk|] == buf[..size] + chunk
    ensures |StoredAfterWrite(buf, size, chunk)| >= |buf|
  {
    AppendSizeCovers(|chunk|);
    var r := StoredAfterWrite(buf, size, chunk);
    assert r[size..size + |chunk|] == chunk;
    assert r[..size + |chunk|] == r[..size] + r[size..size + |chunk|];
  }

  /** Copying the chunk into the grown array gives the stored state of `_write`, whose data are the old data and the chunk. */
  lemma CopiedIsStored(buf: seq<Byte>, size: nat, chunk: seq<Byte>, grown: seq<Byte>, after: seq<Byte>)
    requires size <= |buf| && grown == GrowBufferForAppendedData(buf, size, AppendSize(|chunk|))
    requires size + |chunk| <= |grown| && after == grown[..size] + chunk + grown[size + |chunk|..]
    ensures after == StoredAfterWrite(buf, size, chunk)
    ensures after[..size + |chunk|] == buf[..size] + chunk
  {
    WriteKeepsPrefix(buf, size, chunk);
  }

  /**
   * `growBufferForAppendedData` on arrays: `buf` itself when it has room,
   * otherwise a fresh array holding the grown contents.
   */
  method GrowBuffer(buf: array<Byte>, actualSize: nat, appendSize: nat) returns (r: array<Byte>)
    ensures r[..] == GrowBufferForAppendedData(buf[..], actualSize, appendSize)
    ensures buf.Length - actualSize >= appendSize ==> r == buf
    ensures buf.Length - actualSize < appendSize ==> fresh(r)
  {
    if buf.Length - actualSize >= appendSize {
      return buf;
    }
    var grown := GrowBufferForAppendedData(buf[..], actualSize, appendSize);
    r := new Byte[|grown|](i requires 0 <= i < |grown| => grown[i]);
    assert r[..] == grown;
  }

  /** `chunk.copy(a, offset, 0)`: the chunk's bytes land at `offset`, the rest of `a` is untouched. */
  method CopyInto(a: array<Byte>, offset: nat, chunk: seq<Byte>)
    requires offset + |chunk| <= a.Length
    modifies a
    ensures a[..] == old(a[..])[..offset] + chunk + old(a[..])[offset + |chunk|..]
  {
    ghost var was := a[..];
    for i := 0 to |chunk|
      invariant a[..] == was[..offset] + chunk[..i] + was[offset + i..]
    {
      a[offset + i] := chunk[i];
      assert chunk[..i + 1] == chunk[..i] + [chunk[i]];
    }
    assert chunk[..|chunk|] == chunk;
  }

  /** The copy step of `_write`: the chunk lands right after the kept bytes of the grown array. */
  method StoreChunk(ghost buf: seq<Byte>, grown: array<Byte>, size: nat, chunk: seq<Byte>)
    requires size <= |buf| && grown[..] == GrowBufferForAppendedData(buf, size, AppendSize(|chunk|))
    modifies grown
    ensures grown[..] == StoredAfterWrite(buf, size, chunk)
    ensures grown[..size + |chunk|] == buf[..size] + chunk
  {
    AppendSizeCovers(|chunk|);
    ghost var g := grown[..];
    CopyInto(grown, size, chunk);
    CopiedIsStored(buf, size, chunk, g, grown[..]);
  }

  /** The array after shifting left by `n` in place: the bytes from `n` on, then the old last `n` bytes. */
  lemma ShiftedFront(was: seq<Byte>, now: seq<Byte>, n: nat, size: nat)
    requires n <= size <= |was| == |now|
    requires forall k :: 0 <= k < |was| - n ==> now[k] == was[k + n]
    requires forall k :: |was| - n <= k < |was| ==> now[k] == was[k]
    ensures now == was[n..] + was[|was| - n..]
    ensures now[..size - n] == was[..size][n..]
  {
  }

  class WritableStreamBuffer {
    /** The backing store; its length is the capacity. */
    var buffer: array<Byte>
    /** `_size`: how many bytes at the front of `buffer` are data. */
    var size: nat
    var growSize: nat
    /** `evtList`: listeners per event name, in registration order. */
    var evtList: map<string, seq<ListenerId>>

    ghost predicate Valid()
      reads this
    {
      size <= buffer.Length && growSize == DEFAULT_GROW_SIZE
    }

    /** The data bytes, `buffer[0, size)`. */
    function Contents(): seq<Byte>
      reads this, buffer
      requires Valid()
    {
      buffer[..size]
    }

    /** The listeners registered for `event`. */
    function ListenersOf(event: string): seq<ListenerId>
      reads this
    {
      if event in evtList then evtList[event] else []
    }

    constructor ()
      ensures Valid() && fresh(buffer)
      ensures buffer.Length == DEFAULT_ALLOC_SIZE && buffer[..] == Zeros(DEFAULT_ALLOC_SIZE)
      ensures size == 0 && Contents() == [] && evtList == map[]
    {
      buffer := new Byte[DEFAULT_ALLOC_SIZE](_ => 0);
      size := 0;
      growSize := DEFAULT_GROW_SIZE;
      evtList := map[];
    }

    /** `addListener`: append `listener` to the list of `event`, creating it if absent. */
    method AddListener(event: string, listener: ListenerId)
      modifies this
      ensures evtList == old(evtList)[event := old(ListenersOf(event)) + [listener]]
      ensures buffer == old(buffer) && size == old(size) && growSize == old(growSize)
    {
      if event in evtList {
        evtList := evtList[event := evtList[event] + [listener]];
      } else {
        assert ListenersOf(event) + [listener] == [listener];
        evtList := evtList[event := [listener]];
      }
    }

    /** `dispatch`: every listener of `event`, in registration order, is called with `data`. */
    method Dispatch(event: string, data: seq<Byte>) returns (calls: seq<Delivery>)
      ensures |calls| == |ListenersOf(event)|
      ensures forall i :: 0 <= i < |calls| ==> calls[i] == Delivery(ListenersOf(event)[i], data)
    {
      var ls := ListenersOf(event);
      calls := [];
      for i := 0 to |ls|
        invariant |calls| == i
        invariant forall k :: 0 <= k < i ==> calls[k] == Delivery(ls[k], data)
      {
        calls := calls + [Delivery(ls[i], data)];
      }
    }

    /**
     * `_write`: grow the capacity if the free space is less than the chunk
     * length rounded up to the grow step, notify "bufferchange" listeners
     * only when the capacity grew, then copy the chunk in at `size`.
     */
    method Write(chunk: seq<Byte>) returns (calls: seq<Delivery>)
      requires Valid()
      modifies this, buffer
      ensures Valid()
      ensures buffer[..] == StoredAfterWrite(old(buffer[..]), old(size), chunk)
      ensures size == old(size) + |chunk|
      ensures Contents() == old(Contents()) + chunk
      ensures buffer.Length >= old(buffer.Length)
      ensures buffer.Length > old(buffer.Length) ==>
        buffer.Length == old(buffer.Length) + AppendSize(|chunk|) && fresh(buffer)
      ensures buffer.Length == old(buffer.Length) ==> calls == [] && buffer == old(buffer)
      ensures buffer.Length > old(buffer.Length) ==>
        |calls| == |ListenersOf(BUFFER_CHANGE)| &&
        (forall i :: 0 <= i < |calls| ==>
           calls[i] == Delivery(ListenersOf(BUFFER_CHANGE)[i], chunk + Zeros(buffer.Length - old(buffer.Length) - |chunk|)))
      ensures evtList == old(evtList) && growSize == old(growSize)
    {
      ghost var oldBuf := buffer[..];
      var preLength := buffer.Length;
      var appendSize := AppendSize(|chunk|);
      AppendSizeCovers(|chunk|);
      var grown := GrowBuffer(buffer, size, appendSize);
      var curLength := grown.Length;
      calls := [];
      if curLength - preLength > 0 {
        var payload := ChangePayload(chunk, curLength - preLength);
        ChangePayloadShape(chunk, curLength - preLength);
        calls := Dispatch(BUFFER_CHANGE, payload);
      }
      StoreChunk(oldBuf, grown, size, chunk);
      buffer, size := grown, size + |chunk|;
    }

    /**
     * `consume(bytes)`: return the first `n` data bytes (all of them when no
     * count is given), shift the rest of the backing array to the front in
     * place, and reduce `size` by `n`.
     */
    method Consume(bytes: Option<nat>) returns (data: seq<Byte>)
      requires Valid()
      requires bytes.Some? ==> bytes.value <= size
      modifies this, buffer
      ensures buffer == old(buffer) && evtList == old(evtList) && growSize == old(growSize)
      ensures Valid()
      ensures var n := if bytes.Some? then bytes.value else old(size);
        data == old(Contents())[..n] &&
        size == old(size) - n &&
        Contents() == old(Contents())[n..] &&
        buffer[..] == old(buffer[..])[n..] + old(buffer[..])[buffer.Length - n..]
    {
      var n := if bytes.Some? then bytes.value else size;
      data := buffer[..n];
      ghost var was := buffer[..];
      var len := buffer.Length;
      for i := 0 to len - n
        modifies buffer
        invariant forall k :: 0 <= k < i ==> buffer[k] == was[k + n]
        invariant forall k :: i <= k < len ==> buffer[k] == was[k]
      {
        buffer[i] := buffer[i + n];
      }
      ShiftedFront(was, buffer[..], n, size);
      assert data == was[..size][..n];
      size := size - n;
      assert buffer[..size] == buffer[..][..size];
    }

    /** `allBuf`: drain everything that is buffered. */
    method AllBuf() returns (data: seq<Byte>)
      requires Valid()
      modifies this, buffer
      ensures Valid() && data == old(Contents()) && size == 0 && Contents() == []
      ensures buffer == old(buffer) && evtList == old(evtList)
    {
      data := Consume(None);
    }
  }

  /**
   * Draining `n` bytes and then the rest returns, concatenated, exactly what
   * one full drain would have returned.
   */
  method ConsumeInTwoSteps(b: WritableStreamBuffer, n: nat) returns (first: seq<Byte>, rest: seq<Byte>)
    requires b.Valid() && n <= b.size
    modifies b, b.buffer
    ensures first + rest == old(b.Contents()) && |first| == n
    ensures b.Valid() && b.size == 0
  {
    ghost var c := b.Contents();
    assert c == c[..n] + c[n..];
    first := b.Consume(Some(n));
    rest := b.Consume(None);
  }

  /** Writes accumulate: after two writes from empty, the contents are the two chunks in order. */
  method WriteTwice(c1: seq<Byte>, c2: seq<Byte>) returns (b: WritableStreamBuffer)
    ensures b.Valid() && b.Contents() == c1 + c2 && b.size == |c1| + |c2|
  {
    b := new WritableStreamBuffer();
    var _ := b.Write(c1);
    assert b.Valid() && b.Contents() == c1;
    var _ := b.Write(c2);
  }
}
