/** The archive writer that cuts its output into chunks and sends them over a
    bounded channel while the client receives. */
module Streaming {
  type Bytes = seq<int>

  function Flatten(chunks: seq<Bytes>): Bytes {
    if chunks == [] then [] else chunks[0] + Flatten(chunks[1..])
  }

  lemma {:induction false} FlattenAppend(a: seq<Bytes>, b: seq<Bytes>)
    ensures Flatten(a + b) == Flatten(a) + Flatten(b)
    decreases |a|
  {
    if a == [] {
      assert a + b == b;
    } else {
      FlattenAppend(a[1..], b);
      assert (a + b)[1..] == a[1..] + b;
    }
  }

  lemma FlattenOne(c: Bytes)
    ensures Flatten([c]) == c
  {
    assert [c][1..] == [];
  }

  /** A bounded channel with its receiver.  Other tasks run whenever a sender waits
      or yields, so each method lets the receiver take any number of chunks. */
  class Channel {
    const capacity: nat
    var queue: seq<Bytes>
    var received: Bytes
    /** The receiver has not been dropped. */
    var live: bool
    /** Every chunk accepted so far. */
    ghost var sent: seq<Bytes>

    constructor (capacity: nat)
      requires capacity > 0
      ensures Valid() && live && sent == [] && received == [] && this.capacity == capacity
    {
      this.capacity := capacity;
      queue, received, live, sent := [], [], true, [];
    }

    /** Nothing accepted is lost, reordered or duplicated. */
    ghost predicate Valid()
      reads this
    {
      && capacity > 0
      && |queue| <= capacity
      && received + Flatten(queue) == Flatten(sent)
    }

    method Receive()
      requires Valid() && queue != []
      modifies this
      ensures Valid() && live == old(live) && sent == old(sent)
      ensures queue == old(queue)[1..] && received == old(received) + old(queue)[0]
    {
      received := received + queue[0];
      queue := queue[1..];
    }

    /** The receiver runs for a while. */
    method Yield()
      requires Valid()
      modifies this
      ensures Valid() && live == old(live) && sent == old(sent)
      ensures old(received) <= received && |queue| <= |old(queue)|
    {
      var turns: nat :| 0 <= turns;
      for i := 0 to turns
        invariant Valid() && live == old(live) && sent == old(sent)
        invariant old(received) <= received && |queue| <= |old(queue)|
      {
        if queue != [] {
          Receive();
        }
      }
    }

    /** The receiver takes all that is left. */
    method Drain()
      requires Valid()
      modifies this
      ensures received == Flatten(old(sent))
    {
      while queue != []
        invariant Valid() && sent == old(sent)
        decreases |queue|
      {
        Receive();
      }
    }

    /** Waits for room; fails only when the receiver is gone. */
    method BlockingSend(chunk: Bytes) returns (ok: bool)
      requires Valid()
      modifies this
      ensures Valid() && live == old(live) && ok == live
      ensures sent == if ok then old(sent) + [chunk] else old(sent)
    {
      Yield();
      if !live {
        return false;
      }
      while |queue| == capacity
        invariant Valid() && live && sent == old(sent)
        decreases |queue|
      {
        Receive();
      }
      Enqueue(chunk);
      return true;
    }

    method Enqueue(chunk: Bytes)
      requires Valid() && |queue| < capacity
      modifies this
      ensures Valid() && live == old(live) && sent == old(sent) + [chunk]
      ensures queue == old(queue) + [chunk] && received == old(received)
    {
      FlattenAppend(queue, [chunk]);
      FlattenAppend(sent, [chunk]);
      FlattenOne(chunk);
      queue := queue + [chunk];
      sent := sent + [chunk];
    }

    /** Never waits: a full queue or a dropped receiver refuses the chunk. */
    method TrySend(chunk: Bytes) returns (ok: bool)
      requires Valid()
      modifies this
      ensures Valid() && live == old(live)
      ensures ok == old(live && |queue| < capacity)
      ensures sent == if ok then old(sent) + [chunk] else old(sent)
    {
      ok := live && |queue| < capacity;
      if ok {
        Enqueue(chunk);
      }
    }
  }

  class StreamingWriter {
    const chunkSize: nat
    const tx: Channel
    var buf: Bytes
    var closed: bool
    /** Everything handed to `Write` so far. */
    ghost var written: Bytes

    constructor (chunkSize: nat, tx: Channel)
      requires chunkSize > 0 && tx.Valid() && tx.live && tx.sent == []
      ensures Valid() && this.chunkSize == chunkSize && this.tx == tx && written == [] && !closed
    {
      this.chunkSize, this.tx := chunkSize, tx;
      buf, closed, written := [], false, [];
    }

    /** While the receiver lives, what was sent and what is buffered is what was
        written, in chunks of exactly the chunk size. */
    ghost predicate Valid()
      reads this, tx
    {
      && Partial()
      && |buf| < chunkSize
    }

    /** The same in the middle of a write, with any amount buffered. */
    ghost predicate Partial()
      reads this, tx
    {
      && chunkSize > 0
      && tx.Valid() && tx.live && !closed
      && Flatten(tx.sent) + buf == written
      && forall i :: 0 <= i < |tx.sent| ==> |tx.sent[i]| == chunkSize
    }

    /** All full chunks go out before the call returns. */
    method Write(data: Bytes) returns (ok: bool)
      requires Valid()
      modifies this, tx
      ensures ok && Valid()
      ensures written == old(written) + data
      ensures old(tx.sent) <= tx.sent
    {
      buf := buf + data;
      written := written + data;
      ok := Flush();
    }

    method Flush() returns (ok: bool)
      requires Partial()
      modifies this, tx
      ensures ok && Valid() && written == old(written)
      ensures old(tx.sent) <= tx.sent
    {
      while |buf| >= chunkSize
        invariant Partial() && written == old(written) && old(tx.sent) <= tx.sent
        decreases |buf|
      {
        var chunk := buf[..chunkSize];
        FlattenAppend(tx.sent, [chunk]);
        FlattenOne(chunk);
        assert chunk + buf[chunkSize..] == buf;
        buf := buf[chunkSize..];
        ok := tx.BlockingSend(chunk);
        if !ok {
          return false;
        }
      }
      return true;
    }

    /** What the destructor does: one attempt that does not wait.  With room in the
        channel nothing is lost; otherwise exactly the last partial chunk is. */
    method Drop()
      requires Valid()
      modifies this, tx
      ensures tx.Valid() && written == old(written) && old(tx.sent) <= tx.sent
      ensures if old(buf == [] || |tx.queue| < tx.capacity)
        then Flatten(tx.sent) == written
        else Flatten(tx.sent) + old(buf) == written && 0 < |old(buf)| < chunkSize
      ensures forall i :: 0 <= i < |old(tx.sent)| ==> |tx.sent[i]| == chunkSize
    {
      if !closed && buf != [] {
        FlattenAppend(tx.sent, [buf]);
        FlattenOne(buf);
        var _ := tx.TrySend(buf);
        buf := [];
        closed := true;
      }
    }
  }

  lemma {:induction false} FlattenLength(chunks: seq<Bytes>, size: nat)
    requires forall j :: 0 <= j < |chunks| ==> |chunks[j]| == size
    ensures |Flatten(chunks)| == |chunks| * size
    decreases |chunks|
  {
    if chunks != [] {
      FlattenLength(chunks[1..], size);
      assert |chunks| * size == (|chunks| - 1) * size + size;
    }
  }

  /** Full chunks are consecutive slices of what was written. */
  lemma ChunkIsSlice(sent: seq<Bytes>, size: nat, i: nat)
    requires i < |sent| && forall j :: 0 <= j < |sent| ==> |sent[j]| == size
    ensures i * size + size <= |Flatten(sent)|
    ensures sent[i] == Flatten(sent)[i * size..i * size + size]
  {
    var a, c, b := sent[..i], [sent[i]], sent[i + 1..];
    assert sent == a + (c + b);
    FlattenAppend(a, c + b);
    FlattenAppend(c, b);
    FlattenOne(sent[i]);
    FlattenLength(a, size);
    var n := |Flatten(a)|;
    assert Flatten(sent) == Flatten(a) + (sent[i] + Flatten(b));
    assert Flatten(sent)[n..n + size] == sent[i];
  }

  /** Over every interleaving of writes and receives, what the client has received
      or will find queued after the writer is dropped is a prefix of what was
      written, and short of it by less than one chunk. */
  method StreamAll(writes: seq<Bytes>, chunkSize: nat, capacity: nat) returns (delivered: Bytes, complete: bool)
    requires chunkSize > 0 && capacity > 0
    ensures delivered <= Flatten(writes) && |Flatten(writes)| - |delivered| < chunkSize
    ensures complete <==> delivered == Flatten(writes)
  {
    var tx := new Channel(capacity);
    var writer := new StreamingWriter(chunkSize, tx);
    for i := 0 to |writes|
      invariant writer.Valid() && writer.tx == tx && writer.chunkSize == chunkSize && fresh(writer) && fresh(tx)
      invariant writer.written == Flatten(writes[..i])
    {
      assert writes[..i + 1] == writes[..i] + [writes[i]];
      FlattenAppend(writes[..i], [writes[i]]);
      FlattenOne(writes[i]);
      var _ := writer.Write(writes[i]);
      tx.Yield();
    }
    assert writes[..|writes|] == writes;
    complete := writer.buf == [] || |tx.queue| < tx.capacity;
    writer.Drop();
    tx.Drain();
    delivered := tx.received;
  }
}
