/** Reassembly of big files: positioned writes in any order, partial writes, and where the server's
    64-bit offsets really land (server/file_sink.cxx, server/connection.cxx). */
module Chunks {
  import opened Basics
  import opened Bytes
  import opened Split
  import Bits

  // ---------------------------------------------------------------------------
  // Positioned writes
  // ---------------------------------------------------------------------------

  datatype Placed = At(offset: nat, data: Bytes)

  function Max(a: nat, b: nat): nat { if a < b then b else a }

  /** `pwrite` on a file's contents: a gap before the offset reads as zeros. */
  function Put(f: Bytes, w: Placed): Bytes {
    if w.data == [] then f
    else
      var end := w.offset + |w.data|;
      seq(Max(|f|, end), i requires 0 <= i < Max(|f|, end) =>
        if w.offset <= i < end then w.data[i - w.offset] else if i < |f| then f[i] else 0)
  }

  function PutAll(f: Bytes, ws: seq<Placed>): Bytes
    decreases ws
  {
    if ws == [] then f else PutAll(Put(f, ws[0]), ws[1..])
  }

  /** Two writes one after the other in place and time are one write. */
  lemma PutJoin(f: Bytes, at: nat, a: Bytes, b: Bytes)
    ensures Put(Put(f, At(at, a)), At(at + |a|, b)) == Put(f, At(at, a + b))
  {
    var one := Put(Put(f, At(at, a)), At(at + |a|, b));
    var two := Put(f, At(at, a + b));
    assert a == [] ==> a + b == b;
    assert b == [] ==> a + b == a;
    assert |one| == |two|;
    forall i | 0 <= i < |one| ensures one[i] == two[i] {}
  }

  lemma PutMore(f: Bytes, at: nat, data: Bytes, written: nat, n: nat)
    requires written + n <= |data|
    ensures Put(Put(f, At(at, data[..written])), At(at + written, data[written..written + n])) == Put(f, At(at, data[..written + n]))
  {
    var a, b, ab := data[..written], data[written..written + n], data[..written + n];
    assert ab == a + b;
    PutJoined(f, at, a, b, ab, written);
  }

  lemma PutNext(f: Bytes, at: nat, data: Bytes, written: nat, n: nat, before: Bytes, after: Bytes)
    requires written + n <= |data| && before == Put(f, At(at, data[..written]))
    requires after == Put(before, At(at + written, data[written..][..n]))
    ensures after == Put(f, At(at, data[..written + n]))
  {
    assert data[written..][..n] == data[written..written + n];
    PutMore(f, at, data, written, n);
  }

  lemma PutJoined(f: Bytes, at: nat, a: Bytes, b: Bytes, ab: Bytes, n: nat)
    requires ab == a + b && n == |a|
    ensures Put(Put(f, At(at, a)), At(at + n, b)) == Put(f, At(at, ab))
  {
    PutJoin(f, at, a, b);
  }

  /** A file offset as the operating system takes it. */
  type Int64 = x: int | -HALF <= x < HALF

  const HALF: int := 0x8000_0000_0000_0000

  /** No file is longer than the largest signed offset. */
  const FILE_LIMIT: nat := HALF - 1

  /** The conversion from an unsigned 64-bit offset. */
  function Signed(x: nat): Int64 {
    var w := x % Bits.WORD64;
    if w < HALF then w else w - Bits.WORD64
  }

  const MAX_SINGLE_WRITE: nat := 0x4000_0000

  /** How many bytes one write call takes: what the system offers, at most what is asked for and
      what fits into a file; nothing on an error. */
  function Taken(offered: int, at: nat, remaining: nat): (n: nat)
    ensures n <= remaining
  {
    var ask := if remaining < MAX_SINGLE_WRITE then remaining else MAX_SINGLE_WRITE;
    var room := if at < FILE_LIMIT then FILE_LIMIT - at else 0;
    if offered <= 0 then 0
    else if offered <= ask && offered <= room then offered
    else if ask <= room then ask else room
  }

  /** Every call on the way from `written` to `len` takes something. */
  predicate AllTaken(accepts: nat -> int, start: nat, len: nat, written: nat)
    decreases len - written
  {
    written >= len ||
    (var n := Taken(accepts(written), start + written, len - written);
     n > 0 && AllTaken(accepts, start, len, written + n))
  }

  /** What is written before the calls stop taking bytes. */
  function Progress(accepts: nat -> int, start: nat, len: nat, written: nat): (n: nat)
    requires written <= len
    ensures written <= n <= len
    decreases len - written
  {
    if written == len then len
    else
      var n := Taken(accepts(written), start + written, len - written);
      if n == 0 then written else Progress(accepts, start, len, written + n)
  }

  lemma {:induction false} ProgressAll(accepts: nat -> int, start: nat, len: nat, written: nat)
    requires written <= len
    ensures Progress(accepts, start, len, written) == len <==> AllTaken(accepts, start, len, written)
    decreases len - written
  {
    if written < len {
      var n := Taken(accepts(written), start + written, len - written);
      if n > 0 { ProgressAll(accepts, start, len, written + n); }
    }
  }

  /** An open file: its contents and the position of the one descriptor all connections share. */
  class DiskFile {
    var content: Bytes
    var position: nat

    constructor (content: Bytes)
      ensures this.content == content && position == 0
    {
      this.content := content;
      this.position := 0;
    }

    /** Where bytes with this offset go: a negative one means the descriptor's own position. */
    function Start(offset: Int64): nat
      reads this
    {
      if offset < 0 then position else offset
    }

    /** One call of the system: at an offset, or at the descriptor's position, which then moves. */
    method WriteOnce(data: Bytes, offset: Int64, offered: int) returns (n: nat)
      modifies this
      ensures n == Taken(offered, old(Start(offset)), |data|) && n <= 0x4000_0000 && (n > 0 ==> n <= offered)
      ensures content == Put(old(content), At(old(Start(offset)), data[..n]))
      ensures position == old(position) + if offset < 0 then n else 0
    {
      var at := if offset < 0 then position else offset;
      n := Taken(offered, at, |data|);
      content := Put(content, At(at, data[..n]));
      if offset < 0 {
        position := position + n;
      }
    }

    /** `written` bytes have gone out: in one place, and the descriptor moved only if it was used. */
    ghost predicate Wrote(f: Bytes, start: nat, data: Bytes, offset: Int64, written: nat)
      reads this
    {
      && written <= |data| && content == Put(f, At(start, data[..written]))
      && (if offset < 0 then position == start + written else start == offset && offset + written <= FILE_LIMIT)
    }

    /** One pass of the loop. */
    method Advance(ghost f: Bytes, ghost start: nat, data: Bytes, offset: Int64, written: nat, offered: int) returns (n: nat)
      requires Wrote(f, start, data, offset, written)
      modifies this
      ensures n == Taken(offered, start + written, |data| - written)
      ensures Wrote(f, start, data, offset, written + n)
      ensures offset >= 0 ==> position == old(position)
    {
      var at: Int64 := if offset < 0 then -1 else offset + written;
      n := WriteOnce(data[written..], at, offered);
      PutNext(f, start, data, written, n, old(content), content);
    }

    /** `write_fd_all`: repeated until everything is written or a call takes nothing. What was
        written is one write of a front part, from the offset or from the descriptor's position,
        which only the latter moves. */
    method WriteAll(data: Bytes, offset: Int64, accepts: nat -> int) returns (ok: bool)
      modifies this
      ensures ok <==> AllTaken(accepts, old(Start(offset)), |data|, 0)
      ensures var n := Progress(accepts, old(Start(offset)), |data|, 0);
              && (ok <==> n == |data|)
              && content == Put(old(content), At(old(Start(offset)), data[..n]))
              && position == old(position) + if offset < 0 then n else 0
    {
      ghost var start := Start(offset);
      ProgressAll(accepts, start, |data|, 0);
      var written := 0;
      assert data[..0] == [];
      while written < |data|
        invariant Wrote(old(content), start, data, offset, written)
        invariant offset >= 0 ==> position == old(position)
        invariant Progress(accepts, start, |data|, 0) == Progress(accepts, start, |data|, written)
      {
        var n := Advance(old(content), start, data, offset, written, accepts(written));
        if n == 0 {
          return false;
        }
        written := written + n;
      }
      return true;
    }
  }

  /** The chunk files of a server, one open file per path whichever connection asks. */
  class ChunkRegistry {
    var files: map<string, DiskFile>

    constructor ()
      ensures files == map[]
    {
      files := map[];
    }

    /** `acquire_chunk_file`; `onDisk` is what the path holds if it can be opened or created. Opening
        does not truncate; a file that cannot be opened leaves no trace. */
    method Acquire(path: string, onDisk: Option<Bytes>) returns (file: Option<DiskFile>)
      modifies this
      ensures path in old(files) ==> file == Some(old(files)[path]) && files == old(files)
      ensures path !in old(files) && onDisk.None? ==> file.None? && files == old(files)
      ensures path !in old(files) && onDisk.Some? ==>
                && file.Some? && fresh(file.value) && file.value.content == onDisk.value && file.value.position == 0
                && files == old(files)[path := file.value]
    {
      if path in files {
        return Some(files[path]);
      }
      if onDisk.None? {
        return None;
      }
      var opened' := new DiskFile(onDisk.value);
      files := files[path := opened'];
      file := Some(opened');
    }
  }

  // ---------------------------------------------------------------------------
  // Reassembly
  // ---------------------------------------------------------------------------

  /** The write puts bytes of the file where they belong. */
  predicate Faithful(content: Bytes, w: Placed) {
    w.offset + |w.data| <= |content| && w.data == content[w.offset..w.offset + |w.data|]
  }

  predicate Hits(w: Placed, x: nat) { w.offset <= x < w.offset + |w.data| }

  ghost predicate Hit(ws: seq<Placed>, x: nat) { exists k :: 0 <= k < |ws| && Hits(ws[k], x) }

  /** The result of writes at one position: the file's byte where some write hit, what was there
      before elsewhere. */
  lemma {:induction false} PutAllAt(content: Bytes, f: Bytes, ws: seq<Placed>, x: nat)
    requires forall k :: 0 <= k < |ws| ==> Faithful(content, ws[k])
    ensures var r := PutAll(f, ws);
            && |f| <= |r| <= Max(|f|, |content|)
            && (Hit(ws, x) ==> x < |r| && x < |content| && r[x] == content[x])
            && (!Hit(ws, x) && x < |f| ==> r[x] == f[x])
    decreases ws
  {
    if ws != [] {
      var g := Put(f, ws[0]);
      PutAllAt(content, g, ws[1..], x);
      assert Hit(ws, x) <==> Hits(ws[0], x) || Hit(ws[1..], x) by {
        if k :| 0 <= k < |ws| && Hits(ws[k], x) {
          if k > 0 { assert ws[k] == ws[1..][k - 1]; }
        }
        if k :| 0 <= k < |ws[1..]| && Hits(ws[1..][k], x) {
          assert Hits(ws[k + 1], x);
        }
      }
    }
  }

  /** Positioned writes of a file's own bytes that miss none, in any order and with any repeats,
      leave the file followed by whatever an older and longer file had beyond its end. */
  lemma WritesReassemble(content: Bytes, f: Bytes, ws: seq<Placed>)
    requires forall k :: 0 <= k < |ws| ==> Faithful(content, ws[k])
    requires forall x :: 0 <= x < |content| ==> Hit(ws, x)
    ensures PutAll(f, ws) == content + (if |f| > |content| then f[|content|..] else [])
    ensures PutAll(f, ws) == content <==> |f| <= |content|
  {
    var r := PutAll(f, ws);
    var want := content + (if |f| > |content| then f[|content|..] else []);
    PutAllAt(content, f, ws, 0);
    if content != [] { PutAllAt(content, f, ws, |content| - 1); }
    assert |r| == |want|;
    forall x | 0 <= x < |r| ensures r[x] == want[x] {
      PutAllAt(content, f, ws, x);
    }
  }

  // ---------------------------------------------------------------------------
  // Units
  // ---------------------------------------------------------------------------

  /** The writes of one unit: the decoder's pieces, at the unit's offset plus what came before. */
  function UnitWrites(base: nat, pieces: seq<Bytes>): seq<Placed>
    decreases pieces
  {
    if pieces == [] then [] else [At(base, pieces[0])] + UnitWrites(base + |pieces[0]|, pieces[1..])
  }

  lemma {:induction false} UnitWritesFaithful(content: Bytes, base: nat, pieces: seq<Bytes>, k: nat)
    requires base + |Flat(pieces)| <= |content| && Flat(pieces) == content[base..base + |Flat(pieces)|]
    requires k < |UnitWrites(base, pieces)|
    ensures Faithful(content, UnitWrites(base, pieces)[k])
    decreases pieces
  {
    var rest := Flat(pieces[1..]);
    assert Flat(pieces) == pieces[0] + rest;
    assert pieces[0] == Flat(pieces)[..|pieces[0]|] && rest == Flat(pieces)[|pieces[0]|..];
    if k > 0 {
      UnitWritesFaithful(content, base + |pieces[0]|, pieces[1..], k - 1);
    }
  }

  lemma {:induction false} UnitWritesHit(base: nat, pieces: seq<Bytes>, x: nat)
    requires base <= x < base + |Flat(pieces)|
    ensures Hit(UnitWrites(base, pieces), x)
    decreases pieces
  {
    var ws := UnitWrites(base, pieces);
    if x < base + |pieces[0]| {
      assert Hits(ws[0], x);
    } else {
      UnitWritesHit(base + |pieces[0]|, pieces[1..], x);
      var rest := ws[1..];
      assert rest == UnitWrites(base + |pieces[0]|, pieces[1..]);
      var k :| 0 <= k < |rest| && Hits(rest[k], x);
      assert Hits(ws[k + 1], x);
    }
  }

  /** Each task's bytes arrive as some pieces. */
  predicate Arrives(content: Bytes, t: Task, pieces: seq<Bytes>) {
    t.offset + t.len <= |content| && Flat(pieces) == content[t.offset..t.offset + t.len]
  }

  /** `ws` is made of the units' writes, all of them, in any order. */
  ghost predicate Interleaves(ws: seq<Placed>, ts: seq<Task>, pieces: seq<seq<Bytes>>)
    requires |pieces| == |ts|
  {
    && (forall w :: w in ws ==> exists i :: 0 <= i < |ts| && w in UnitWrites(ts[i].offset, pieces[i]))
    && (forall i, w :: 0 <= i < |ts| && w in UnitWrites(ts[i].offset, pieces[i]) ==> w in ws)
  }

  lemma OwnWriteFaithful(content: Bytes, t: Task, pieces: seq<Bytes>, w: Placed)
    requires Arrives(content, t, pieces) && w in UnitWrites(t.offset, pieces)
    ensures Faithful(content, w)
  {
    var own := UnitWrites(t.offset, pieces);
    var j :| 0 <= j < |own| && own[j] == w;
    UnitWritesFaithful(content, t.offset, pieces, j);
  }

  lemma OwnWriteHits(content: Bytes, t: Task, pieces: seq<Bytes>, x: nat) returns (w: Placed)
    requires Arrives(content, t, pieces) && Covers(t, x)
    ensures w in UnitWrites(t.offset, pieces) && Hits(w, x)
  {
    UnitWritesHit(t.offset, pieces, x);
    var own := UnitWrites(t.offset, pieces);
    var j :| 0 <= j < |own| && Hits(own[j], x);
    w := own[j];
  }

  lemma AllFaithful(content: Bytes, ts: seq<Task>, pieces: seq<seq<Bytes>>, ws: seq<Placed>, k: nat)
    requires |pieces| == |ts| && forall i :: 0 <= i < |ts| ==> Arrives(content, ts[i], pieces[i])
    requires Interleaves(ws, ts, pieces) && k < |ws|
    ensures Faithful(content, ws[k])
  {
    assert ws[k] in ws;
    var i :| 0 <= i < |ts| && ws[k] in UnitWrites(ts[i].offset, pieces[i]);
    OwnWriteFaithful(content, ts[i], pieces[i], ws[k]);
  }

  lemma AllHit(content: Bytes, ts: seq<Task>, pieces: seq<seq<Bytes>>, ws: seq<Placed>, x: nat)
    requires Tile(ts, 0, |content|) && x < |content|
    requires |pieces| == |ts| && forall i :: 0 <= i < |ts| ==> Arrives(content, ts[i], pieces[i])
    requires Interleaves(ws, ts, pieces)
    ensures Hit(ws, x)
  {
    TilePartitions(ts, 0, |content|, x);
    var i :| 0 <= i < |ts| && Covers(ts[i], x);
    var w := OwnWriteHits(content, ts[i], pieces[i], x);
    assert w in ws;
  }

  /** Chunks sent over any connections, cut into any pieces and written in any interleaving restore
      the file; the file on disk is the file sent if and only if none longer was there before. */
  lemma ChunksReassemble(content: Bytes, ts: seq<Task>, pieces: seq<seq<Bytes>>, ws: seq<Placed>, before: Bytes)
    requires Tile(ts, 0, |content|) && |pieces| == |ts|
    requires forall i :: 0 <= i < |ts| ==> Arrives(content, ts[i], pieces[i])
    requires Interleaves(ws, ts, pieces)
    ensures PutAll(before, ws) == content + (if |before| > |content| then before[|content|..] else [])
    ensures PutAll(before, ws) == content <==> |before| <= |content|
  {
    forall k | 0 <= k < |ws| ensures Faithful(content, ws[k]) {
      AllFaithful(content, ts, pieces, ws, k);
    }
    forall x | 0 <= x < |content| ensures Hit(ws, x) {
      AllHit(content, ts, pieces, ws, x);
    }
    WritesReassemble(content, before, ws);
  }

  /** `UnitSink`: where the next piece of a unit goes. A whole file is opened empty and written from
      the start; a chunk goes into the file shared by its siblings, at an offset taken modulo 2^64
      and then read as a signed number. */
  class UnitSink {
    const file: DiskFile
    const isChunk: bool
    const base: Word
    var running: nat
    var sequential: nat          // the sequential writer's own offset

    constructor (file: DiskFile, kind: Kind, base: Word)
      ensures this.file == file && isChunk == kind.Chunk? && this.base == base && running == 0 && sequential == 0
    {
      this.file, this.isChunk, this.base := file, kind.Chunk?, base;
      this.running, this.sequential := 0, 0;
    }

    /** The offset handed to `write_fd_all`. */
    function Asked(): Int64
      reads this
      requires sequential < HALF
    {
      if isChunk then Signed(base + running) else sequential
    }

    method Write(data: Bytes, accepts: nat -> int) returns (ok: bool)
      requires sequential <= FILE_LIMIT
      modifies this, file
      ensures ok <==> AllTaken(accepts, old(file.Start(Asked())), |data|, 0)
      ensures var n := Progress(accepts, old(file.Start(Asked())), |data|, 0);
              && (ok <==> n == |data|)
              && file.content == Put(old(file.content), At(old(file.Start(Asked())), data[..n]))
              && file.position == old(file.position) + if old(Asked()) < 0 then n else 0
      ensures running == old(running) + |data|
      ensures sequential == old(sequential) + (if ok && !isChunk then |data| else 0) && sequential <= FILE_LIMIT
    {
      ghost var start := file.Start(Asked());
      ok := file.WriteAll(data, if isChunk then Signed(base + running) else sequential, accepts);
      if !isChunk && ok {
        AllFits(accepts, start, |data|, 0);
        sequential := sequential + |data|;
      }
      running := running + |data|;
    }
  }

  /** What was written whole ends within the limit. */
  lemma {:induction false} AllFits(accepts: nat -> int, start: nat, len: nat, written: nat)
    requires AllTaken(accepts, start, len, written) && written <= len && start + written <= FILE_LIMIT
    ensures start + len <= FILE_LIMIT
    decreases len - written
  {
    if written < len {
      AllFits(accepts, start, len, written + Taken(accepts(written), start + written, len - written));
    }
  }

  // ---------------------------------------------------------------------------
  // Where a unit's pieces land
  // ---------------------------------------------------------------------------

  /** The place of a piece of a chunk, given the descriptor's position. */
  function Landing(sum: nat, position: nat): nat {
    if Signed(sum) < 0 then position else Signed(sum)
  }

  /** A piece lands at the unit's offset plus what came before if and only if that sum is below
      2^63. */
  lemma LandsWhereAsked(sum: nat, position: nat)
    requires position < HALF
    ensures Landing(sum, position) == sum <==> sum < HALF
    ensures Landing(sum, position) == sum % Bits.WORD64 <==> sum % Bits.WORD64 < HALF
  {
    if sum < HALF {
      Bits.ModUnique(sum, Bits.WORD64, 0, sum);
    }
  }

  /** A chunk at offset 2^63 of a file just opened overwrites its first byte. */
  lemma HighOffsetExample(x: Byte)
    ensures Landing(HALF, 0) == 0 && Signed(HALF) < 0
    ensures Places(HALF, 0, [[x]]) == [At(0, [x])]
  {
    assert Places(HALF + 1, 1, []) == [];
  }

  /** The writes of a chunk unit, its pieces written whole one after the other. */
  function Places(sum: nat, position: nat, pieces: seq<Bytes>): seq<Placed>
    decreases pieces
  {
    if pieces == [] then []
    else
      var next := position + if Signed(sum) < 0 then |pieces[0]| else 0;
      [At(Landing(sum, position), pieces[0])] + Places(sum + |pieces[0]|, next, pieces[1..])
  }

  /** The last piece of the unit starts below 2^63. */
  predicate StartsBelow(base: nat, pieces: seq<Bytes>) {
    pieces == [] || base + |Flat(pieces[..|pieces| - 1])| < HALF
  }

  lemma StartsBelowNext(base: nat, pieces: seq<Bytes>)
    requires pieces != []
    ensures StartsBelow(base, pieces) <==> base < HALF && StartsBelow(base + |pieces[0]|, pieces[1..])
  {
    if |pieces| > 1 {
      assert pieces[..|pieces| - 1][1..] == pieces[1..][..|pieces| - 2];
    }
  }

  /** All pieces of a chunk unit land at its offset, one after the other, if and only if the last of
      them starts below 2^63. */
  lemma {:induction false} UnitLands(base: nat, position: nat, pieces: seq<Bytes>)
    requires position + |Flat(pieces)| < HALF
    ensures Places(base, position, pieces) == UnitWrites(base, pieces) <==> StartsBelow(base, pieces)
    decreases pieces
  {
    if pieces != [] {
      var next := position + if Signed(base) < 0 then |pieces[0]| else 0;
      var ps, us := Places(base, position, pieces), UnitWrites(base, pieces);
      LandsWhereAsked(base, position);
      StartsBelowNext(base, pieces);
      UnitLands(base + |pieces[0]|, next, pieces[1..]);
      assert ps[0] == At(Landing(base, position), pieces[0]) && us[0] == At(base, pieces[0]);
      assert ps[1..] == Places(base + |pieces[0]|, next, pieces[1..]);
      assert us[1..] == UnitWrites(base + |pieces[0]|, pieces[1..]);
      assert ps == [ps[0]] + ps[1..] && us == [us[0]] + us[1..];
    }
  }

  /** No chunk of a file that the system can hold is affected. */
  lemma ChunkOfFileLands(content: Bytes, t: Task, pieces: seq<Bytes>, position: nat)
    requires Arrives(content, t, pieces) && |content| <= FILE_LIMIT && position + |Flat(pieces)| < HALF
    ensures Places(t.offset, position, pieces) == UnitWrites(t.offset, pieces)
  {
    if pieces != [] {
      var n := |pieces| - 1;
      assert pieces == pieces[..n] + [pieces[n]];
      FlatSnoc(pieces[..n], pieces[n]);
    }
    UnitLands(t.offset, position, pieces);
  }

  lemma {:induction false} UnitIsOneWrite(f: Bytes, base: nat, pieces: seq<Bytes>)
    ensures PutAll(f, UnitWrites(base, pieces)) == Put(f, At(base, Flat(pieces)))
    decreases pieces
  {
    if pieces != [] {
      var first := Put(f, At(base, pieces[0]));
      UnitIsOneWrite(first, base + |pieces[0]|, pieces[1..]);
      PutJoin(f, base, pieces[0], Flat(pieces[1..]));
      var ws := UnitWrites(base, pieces);
      assert ws[1..] == UnitWrites(base + |pieces[0]|, pieces[1..]);
    }
  }

  /** A whole file, opened empty and written piece by piece, is its pieces in order. */
  lemma WholeFileArrives(pieces: seq<Bytes>)
    ensures PutAll([], UnitWrites(0, pieces)) == Flat(pieces)
  {
    UnitIsOneWrite([], 0, pieces);
  }

  /** The file once the rest of a unit has been written whole. */
  ghost function Due(sink: UnitSink, rest: seq<Bytes>): Bytes
    reads sink, sink.file
  {
    AfterRest(sink.isChunk, sink.base, sink.running, sink.file.position, sink.file.content, rest)
  }

  function AfterRest(isChunk: bool, base: nat, running: nat, position: nat, f: Bytes, rest: seq<Bytes>): Bytes {
    PutAll(f, if isChunk then Places(base + running, position, rest) else UnitWrites(running, rest))
  }

  lemma AfterRestNext(isChunk: bool, base: nat, running: nat, position: nat, f: Bytes, rest: seq<Bytes>, g: Bytes, next: nat)
    requires rest != []
    requires g == Put(f, At(if isChunk then Landing(base + running, position) else running, rest[0]))
    requires isChunk ==> next == position + if Signed(base + running) < 0 then |rest[0]| else 0
    ensures AfterRest(isChunk, base, running + |rest[0]|, next, g, rest[1..]) == AfterRest(isChunk, base, running, position, f, rest)
  {
    if isChunk {
      PlacesNext(f, base + running, position, rest);
      assert base + (running + |rest[0]|) == (base + running) + |rest[0]|;
    } else {
      WritesNext(f, running, rest);
    }
  }

  ghost predicate InStep(sink: UnitSink)
    reads sink
  {
    sink.sequential <= FILE_LIMIT && (!sink.isChunk ==> sink.sequential == sink.running)
  }

  method WritePiece(sink: UnitSink, ghost rest: seq<Bytes>, data: Bytes, accepts: nat -> int) returns (ok: bool)
    requires InStep(sink) && rest != [] && data == rest[0]
    modifies sink, sink.file
    ensures ok ==> InStep(sink) && Due(sink, rest[1..]) == old(Due(sink, rest))
  {
    ghost var f, running, position := sink.file.content, sink.running, sink.file.position;
    ok := WriteWhole(sink, data, accepts);
    if ok {
      AfterRestNext(sink.isChunk, sink.base, running, position, f, rest, sink.file.content, sink.file.position);
    }
  }

  /** A piece written whole, in the terms of `Places`. */
  method WriteWhole(sink: UnitSink, data: Bytes, accepts: nat -> int) returns (ok: bool)
    requires InStep(sink)
    modifies sink, sink.file
    ensures sink.running == old(sink.running) + |data|
    ensures ok ==> InStep(sink)
    ensures ok ==> sink.file.content == Put(old(sink.file.content),
                     At(if sink.isChunk then Landing(sink.base + old(sink.running), old(sink.file.position)) else old(sink.running), data))
    ensures ok && sink.isChunk ==>
              sink.file.position == old(sink.file.position) + if Signed(sink.base + old(sink.running)) < 0 then |data| else 0
  {
    assert data[..|data|] == data;
    ok := sink.Write(data, accepts);
  }

  /** A unit received: its pieces written one after the other until one fails. Written whole, a chunk
      is the writes its offset and the descriptor's position lead to, a file its pieces in order. */
  method WriteUnit(sink: UnitSink, pieces: seq<Bytes>, accepts: nat -> nat -> int) returns (ok: bool)
    requires sink.running == 0 && sink.sequential == 0
    modifies sink, sink.file
    ensures ok ==> sink.file.content == old(Due(sink, pieces))
  {
    assert pieces[0..] == pieces;
    for i := 0 to |pieces|
      invariant InStep(sink) && Due(sink, pieces[i..]) == old(Due(sink, pieces))
    {
      assert pieces[i..][1..] == pieces[i + 1..];
      ok := WritePiece(sink, pieces[i..], pieces[i], accepts(i));
      if !ok {
        return;
      }
    }
    return true;
  }

  lemma PlacesNext(f: Bytes, sum: nat, position: nat, pieces: seq<Bytes>)
    requires pieces != []
    ensures PutAll(f, Places(sum, position, pieces)) ==
            PutAll(Put(f, At(Landing(sum, position), pieces[0])),
                   Places(sum + |pieces[0]|, position + (if Signed(sum) < 0 then |pieces[0]| else 0), pieces[1..]))
  {
    var next := position + if Signed(sum) < 0 then |pieces[0]| else 0;
    assert Places(sum, position, pieces)[1..] == Places(sum + |pieces[0]|, next, pieces[1..]);
  }

  lemma WritesNext(f: Bytes, base: nat, pieces: seq<Bytes>)
    requires pieces != []
    ensures PutAll(f, UnitWrites(base, pieces)) == PutAll(Put(f, At(base, pieces[0])), UnitWrites(base + |pieces[0]|, pieces[1..]))
  {
    assert UnitWrites(base, pieces)[1..] == UnitWrites(base + |pieces[0]|, pieces[1..]);
  }
}
