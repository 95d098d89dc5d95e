/** The hand-over buffer between the socket loop and the consumer thread (server/byte_channel.cxx). */
module ByteChannels {
  import opened Basics
  import opened Bytes

  /** What a deque of blocks holds once `offset` bytes of its front are gone. */
  ghost function Pending(blocks: seq<Bytes>, offset: nat): Bytes
    requires blocks != [] ==> offset <= |blocks[0]|
  {
    if blocks == [] then [] else blocks[0][offset..] + Flat(blocks[1..])
  }

  lemma TakePart(blocks: seq<Bytes>, offset: nat, take: nat)
    requires blocks != [] && offset + take <= |blocks[0]|
    ensures Pending(blocks, offset) == blocks[0][offset..offset + take] + Pending(blocks, offset + take)
  {
    var b := blocks[0];
    assert b[offset..] == b[offset..offset + take] + b[offset + take..];
    Associates(b[offset..offset + take], b[offset + take..], Flat(blocks[1..]));
  }

  lemma DropFront(blocks: seq<Bytes>)
    requires blocks != []
    ensures Pending(blocks, |blocks[0]|) == Pending(blocks[1..], 0)
  {
    assert blocks[0][|blocks[0]|..] == [];
    if blocks[1..] != [] {
      assert blocks[1..][0][0..] == blocks[1..][0];
    }
  }

  lemma PushBack(blocks: seq<Bytes>, offset: nat, data: Bytes)
    requires if blocks == [] then offset == 0 else offset <= |blocks[0]|
    ensures Pending(blocks + [data], offset) == Pending(blocks, offset) + data
  {
    if blocks == [] {
      assert data[0..] == data;
    } else {
      assert (blocks + [data])[1..] == blocks[1..] + [data];
      FlatSnoc(blocks[1..], data);
    }
  }

  /** A deque of blocks read as one flat byte stream.

      `arrivals` stands for the loop thread: the blocks it will still push, in order, before it
      closes the channel. Each time the reader gives up the lock any number of them may land. */
  class ByteChannel {
    var blocks: seq<Bytes>
    var frontOffset: nat
    var buffered: nat
    const lowWater: nat
    var closed: bool
    var signals: nat
    var arrivals: seq<Bytes>
    ghost var levels: seq<nat>         // what was buffered after each copy out, all calls together
    ghost var dry: bool                // some read found the channel closed short of what it asked for

    ghost predicate Valid()
      reads this`blocks, this`frontOffset, this`buffered, this`arrivals, this`closed
    {
      && (forall i :: 0 <= i < |blocks| ==> blocks[i] != [])
      && (if blocks == [] then frontOffset == 0 else frontOffset < |blocks[0]|)
      && buffered == |Contents()|
      && (closed ==> arrivals == [])
    }

    /** The bytes pushed and not yet read. */
    ghost function Contents(): Bytes
      reads this`blocks, this`frontOffset
      requires blocks != [] ==> frontOffset <= |blocks[0]|
    {
      Pending(blocks, frontOffset)
    }

    /** Everything the reader will ever see. */
    ghost function Stream(): Bytes
      reads this`blocks, this`frontOffset, this`buffered, this`arrivals, this`closed
      requires Valid()
    {
      Contents() + Flat(arrivals)
    }

    constructor (lowWater: nat, arrivals: seq<Bytes>)
      ensures Valid() && Stream() == Flat(arrivals) && !closed && signals == 0
      ensures this.lowWater == lowWater && levels == [] && !dry
    {
      this.lowWater := lowWater;
      this.arrivals := arrivals;
      blocks, frontOffset, buffered, closed, signals := [], 0, 0, false, 0;
      levels, dry := [], false;
    }

    /** An empty block or a closed channel is ignored; anything else goes to the back. */
    method Push(data: Bytes)
      requires Valid()
      modifies this`blocks, this`buffered
      ensures Valid()
      ensures Contents() == if closed then old(Contents()) else old(Contents()) + data
    {
      if data == [] || closed {
        return;
      }
      PushBack(blocks, frontOffset, data);
      blocks := blocks + [data];
      buffered := buffered + |data|;
    }

    method Close()
      requires Valid()
      modifies this`closed, this`arrivals
      ensures Valid() && closed && arrivals == []
      ensures Contents() == old(Contents())
    {
      closed, arrivals := true, [];
    }

    /** One more block of the loop thread's lands. */
    method LandOne()
      requires Valid() && arrivals != []
      modifies this`blocks, this`buffered, this`arrivals
      ensures Valid() && Stream() == old(Stream()) && arrivals == old(arrivals)[1..]
    {
      hide Pending;
      ghost var before := Contents();
      Push(arrivals[0]);
      Associates(before, arrivals[0], Flat(arrivals[1..]));
      arrivals := arrivals[1..];
    }

    /** The lock is free: the loop thread pushes some of what it has. */
    method LetLoopRun(count: nat)
      requires Valid() && count <= |arrivals|
      modifies this`blocks, this`buffered, this`arrivals
      ensures Valid() && Stream() == old(Stream())
      ensures arrivals == old(arrivals)[count..]
    {
      for k := 0 to count
        invariant Valid() && Stream() == old(Stream())
        invariant arrivals == old(arrivals)[k..]
      {
        LandOne();
      }
    }

    /** Waiting on the condition variable: a push or the final close wakes the reader. */
    method Wait()
      requires Valid() && !closed
      modifies this`blocks, this`buffered, this`arrivals, this`closed
      ensures Valid() && Stream() == old(Stream())
      ensures |arrivals| < |old(arrivals)| || (arrivals == [] && closed)
    {
      if arrivals == [] {
        Close();
      } else {
        var count: nat :| 1 <= count <= |arrivals|;
        LetLoopRun(count);
      }
    }

    /** The inner waiting loop. */
    method AwaitData()
      requires Valid()
      modifies this`blocks, this`buffered, this`arrivals, this`closed
      ensures Valid() && Stream() == old(Stream())
      ensures blocks != [] || (closed && Stream() == [])
    {
      while blocks == [] && !closed
        invariant Valid() && Stream() == old(Stream())
        decreases if closed then 0 else 1, |arrivals|
      {
        Wait();
      }
    }

    /** One pass of the copying loop: move up to `needed` bytes out of the front block. */
    method TakeFront(needed: nat) returns (piece: Bytes)
      requires Valid() && blocks != [] && needed > 0
      modifies this`blocks, this`frontOffset, this`buffered, this`levels
      ensures Valid() && 0 < |piece| <= needed
      ensures old(Stream()) == piece + Stream()
      ensures levels == old(levels) + [buffered]
    {
      var front := blocks[0];
      var available := |front| - frontOffset;
      var take := if needed < available then needed else available;
      piece := front[frontOffset..frontOffset + take];
      ghost var whole := Contents();
      TakePart(blocks, frontOffset, take);
      frontOffset := frontOffset + take;
      buffered := buffered - take;
      if frontOffset == |front| {
        DropFront(blocks);
        blocks := blocks[1..];
        frontOffset := 0;
      }
      levels := levels + [buffered];
      assert whole == piece + Contents();
      Associates(piece, Contents(), Flat(arrivals));
    }

    /** One pass of the loop over the front block, with the signal it may give. */
    method CopyOut(needed: nat, signaled: bool, ghost from: nat) returns (piece: Bytes, signaled': bool)
      requires Valid() && blocks != [] && needed > 0 && from <= |levels|
      requires signaled == WentLow(levels, from, lowWater)
      modifies this`blocks, this`frontOffset, this`buffered, this`levels, this`signals
      ensures Valid() && 0 < |piece| <= needed && old(Stream()) == piece + Stream()
      ensures levels == old(levels) + [buffered] && signaled' == WentLow(levels, from, lowWater)
      ensures signals == old(signals) + if signaled' && !signaled then 1 else 0
      ensures signaled ==> signaled'
    {
      piece := TakeFront(needed);
      LowNow(old(levels), from, buffered, lowWater);
      signaled' := signaled;
      if !signaled && buffered <= lowWater {
        signals := signals + 1;
        signaled' := true;
      }
    }

    /** Waits for data and copies some of it out, unless the channel is closed and empty. */
    method CopyNext(needed: nat, signaled: bool, ghost from: nat) returns (ok: bool, piece: Bytes, signaled': bool)
      requires Valid() && needed > 0 && from <= |levels| && signaled == WentLow(levels, from, lowWater)
      modifies this`blocks, this`frontOffset, this`buffered, this`arrivals, this`closed, this`levels, this`signals
      ensures Valid() && signaled' == WentLow(levels, from, lowWater)
      ensures signals == old(signals) + if signaled' && !signaled then 1 else 0
      ensures signaled ==> signaled'
      ensures ok ==> 0 < |piece| <= needed && old(Stream()) == piece + Stream() && levels == old(levels) + [buffered]
      ensures !ok ==> closed && Stream() == [] && old(Stream()) == [] && levels == old(levels)
    {
      hide Pending, Flat, WentLow;
      AwaitData();
      ok, piece, signaled' := blocks != [], [], signaled;
      if ok {
        piece, signaled' := CopyOut(needed, signaled, from);
      }
    }

    /** The copying loop: the front part of the stream, as far as it goes. */
    method CopyLoop(count: nat) returns (ok: bool, out: Bytes)
      requires Valid()
      modifies this`blocks, this`frontOffset, this`buffered, this`arrivals, this`closed, this`signals, this`levels
      ensures Valid() && old(Stream()) == out + Stream() && |out| <= count
      ensures if ok then |out| == count else |out| < count && closed && Stream() == []
      ensures old(levels) <= levels && (ok && count > 0 ==> |levels| > |old(levels)| && levels[|levels| - 1] == buffered)
      ensures signals == old(signals) + if WentLow(levels, |old(levels)|, lowWater) then 1 else 0
    {
      ghost var from := |levels|;
      ok, out := true, [];
      var signaled := false;
      assert !WentLow(levels, from, lowWater);
      hide *;
      while |out| < count
        invariant ok && Valid() && |out| <= count && old(Stream()) == out + Stream()
        invariant old(levels) <= levels && (out != [] ==> |levels| > from && levels[|levels| - 1] == buffered)
        invariant signaled == WentLow(levels, from, lowWater)
        invariant signals == old(signals) + if signaled then 1 else 0
      {
        var piece;
        ok, piece, signaled := CopyNext(count - |out|, signaled, from);
        if !ok {
          return;
        }
        Associates(out, piece, Stream());
        out := out + piece;
      }
    }

    /** Blocks until `count` bytes are there or the channel is closed short of that. The bytes
        read are the next ones of the flat stream however it was cut into blocks and however
        the pushes fell. The resume notifier runs once if some copy of the call leaves no more than
        the low mark behind, and not at all otherwise. */
    method ReadExact(count: nat) returns (ok: bool, out: Bytes)
      requires Valid()
      modifies this`blocks, this`frontOffset, this`buffered, this`arrivals, this`closed, this`signals, this`levels, this`dry
      ensures Valid()
      ensures ok <==> count <= |old(Stream())|
      ensures ok ==> out == old(Stream())[..count] && Stream() == old(Stream())[count..]
      ensures !ok ==> closed && Stream() == []
      ensures dry == (old(dry) || !ok)
      ensures old(levels) <= levels && (ok && count > 0 ==> |levels| > |old(levels)| && levels[|levels| - 1] == buffered)
      ensures signals == old(signals) + if WentLow(levels, |old(levels)|, lowWater) then 1 else 0
    {
      hide *;
      var early: nat :| early <= |arrivals|;
      LetLoopRun(early);
      ok, out := CopyLoop(count);
      if !ok {
        dry := true;
      }
    }
  }

  /** Some copy since the first `from` left no more than the low mark behind. */
  ghost predicate WentLow(levels: seq<nat>, from: nat, mark: nat) {
    exists k :: from <= k < |levels| && levels[k] <= mark
  }

  /** One more level decides whether the mark was reached since. */
  lemma LowNow(before: seq<nat>, from: nat, level: nat, mark: nat)
    requires from <= |before|
    ensures WentLow(before + [level], from, mark) <==> level <= mark || WentLow(before, from, mark)
  {
    var after := before + [level];
    if level <= mark {
      assert after[|before|] == level;
    }
    if k :| from <= k < |before| && before[k] <= mark {
      assert after[k] == before[k];
    }
  }
}
