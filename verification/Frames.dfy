/** The framed stream: what the client writes (client/worker.h) and what the server's consumer
    makes of it (server/connection.cxx), as functions on byte strings. */
module Frames {
  import opened Basics
  import opened Bytes

  const FILE: Byte := 0
  const CHUNK: Byte := 1
  const PROBE: Byte := 2
  const ACCEPTED: Byte := 3
  const END: Byte := 0xFF
  const END_OF_UNIT: Byte := 0
  const DATA: Byte := 1
  const REPLY_ACCEPT: Byte := 0
  const REPLY_REJECT: Byte := 1

  const MAX_PATH: nat := 4096
  const MAX_BLOCK: nat := 64 * 1024 * 1024
  const PROBE_HASH: nat := 32
  const READ_BLOCK: nat := 256 * 1024
  const OUT_BUF: nat := READ_BLOCK + READ_BLOCK / 16 + 1024

  /** `read_exact`: the next `n` bytes and what follows them. */
  function Take(s: Bytes, n: nat): (r: Option<(Bytes, Bytes)>)
    ensures r.Some? <==> n <= |s|
    ensures r.Some? ==> |r.value.0| == n && r.value.0 + r.value.1 == s
  {
    if |s| < n then None else Some((s[..n], s[n..]))
  }

  function Check(ok: bool): Option<()> { if ok then Some(()) else None }

  lemma TakeFirst(a: Bytes, b: Bytes)
    ensures Take(a + b, |a|) == Some((a, b))
  {
    assert (a + b)[..|a|] == a && (a + b)[|a|..] == b;
  }

  datatype Kind = File | Chunk
  {
    function Code(): Byte { if File? then FILE else CHUNK }
  }

  /** Where a unit's bytes go. A file has offset 0. */
  datatype Target = Target(kind: Kind, path: Bytes, offset: nat)

  datatype Task = Task(target: Target, length: nat, fileSize: nat, mtime: nat)

  /** What a filter sees of a probe; `hash` is empty unless the server asked for hashes. */
  datatype Question = Question(target: Target, length: nat, fileSize: nat, mtime: nat, hash: Bytes)

  /** A decompressor call hands zero or more pieces to the sink, and may then fail. */
  datatype Decoded<D> = Decoded(ok: bool, state: D, pieces: seq<Bytes>)

  // ---------------------------------------------------------------------------
  // The codec
  // ---------------------------------------------------------------------------

  /** A streaming compressor and its decompressor. `synced(c, d, p)` relates the two states when
      the plaintext `p` has gone into the one and not yet come out of the other. */
  datatype Codec<!C, !D> = Codec(
    start: C,
    update: (C, Bytes) -> (C, Bytes),
    flush: C -> (C, Bytes),
    ready: D,
    decode: (D, Bytes) -> Decoded<D>,
    synced: (C, D, Bytes) -> bool)

  /** Sending `out` (nothing at all if it is empty) lets the decompressor produce a part of
      `pending`, and the two sides stay in step on the rest. */
  ghost predicate Carries<C, D>(k: Codec<C, D>, c: C, d: D, out: Bytes, pending: Bytes) {
    if out == [] then k.synced(c, d, pending)
    else
      var r := k.decode(d, out);
      r.ok && Flat(r.pieces) <= pending && k.synced(c, r.state, pending[|Flat(r.pieces)|..])
  }

  /** The same, leaving nothing behind. */
  ghost predicate Completes<C, D>(k: Codec<C, D>, c: C, d: D, out: Bytes, pending: Bytes) {
    if out == [] then pending == [] && k.synced(c, d, [])
    else
      var r := k.decode(d, out);
      r.ok && Flat(r.pieces) == pending && k.synced(c, r.state, [])
  }

  /** One compressor call on one read-ahead block: the output fits the buffer and carries over. */
  ghost predicate UpdateLaw<C, D>(k: Codec<C, D>, c: C, d: D, pending: Bytes, x: Bytes) {
    k.synced(c, d, pending) && |x| <= READ_BLOCK ==>
      var (c', out) := k.update(c, x);
      |out| <= OUT_BUF && Carries(k, c', d, out, pending + x)
  }

  /** A flush withholds nothing. */
  ghost predicate FlushLaw<C, D>(k: Codec<C, D>, c: C, d: D, pending: Bytes) {
    k.synced(c, d, pending) ==>
      var (c', out) := k.flush(c);
      |out| <= OUT_BUF && Completes(k, c', d, out, pending)
  }

  ghost predicate Lawful<C(!new), D(!new)>(k: Codec<C, D>) {
    && k.synced(k.start, k.ready, [])
    && (forall c, d, pending, x :: UpdateLaw(k, c, d, pending, x))
    && (forall c, d, pending :: FlushLaw(k, c, d, pending))
  }

  // ---------------------------------------------------------------------------
  // Client
  // ---------------------------------------------------------------------------

  /** A block frame, or nothing when the codec produced nothing. */
  function BlockFrame(out: Bytes): Bytes {
    if out == [] then [] else [DATA] + Le(|out|, 4) + out
  }

  /** Compress the read-ahead blocks of a unit one after the other. */
  function EncodeBlocks<C, D>(k: Codec<C, D>, c: C, blocks: seq<Bytes>): (C, Bytes) {
    if blocks == [] then (c, [])
    else
      var (c1, out) := k.update(c, blocks[0]);
      var (c2, rest) := EncodeBlocks(k, c1, blocks[1..]);
      (c2, BlockFrame(out) + rest)
  }

  lemma {:induction false} EncodeOneMore<C, D>(k: Codec<C, D>, c: C, blocks: seq<Bytes>, x: Bytes)
    ensures var (c1, sent) := EncodeBlocks(k, c, blocks);
            EncodeBlocks(k, c, blocks + [x]) == (k.update(c1, x).0, sent + BlockFrame(k.update(c1, x).1))
    decreases |blocks|
  {
    if blocks == [] {
      assert blocks + [x] == [x] && [x][1..] == [];
      var out := BlockFrame(k.update(c, x).1);
      assert out + [] == out && [] + out == out;
    } else {
      var (c1, out) := k.update(c, blocks[0]);
      EncodeOneMore(k, c1, blocks[1..], x);
      assert (blocks + [x])[1..] == blocks[1..] + [x];
      var (c2, sent) := EncodeBlocks(k, c1, blocks[1..]);
      Associates(BlockFrame(out), sent, BlockFrame(k.update(c2, x).1));
    }
  }

  /** Everything after the header: blocks, flush, end marker, checksum. */
  function EncodeBody<C, D>(k: Codec<C, D>, c: C, blocks: seq<Bytes>, trailer: Bytes): (C, Bytes) {
    var (c1, body) := EncodeBlocks(k, c, blocks);
    var (c2, out) := k.flush(c1);
    (c2, body + (BlockFrame(out) + ([END_OF_UNIT] + trailer)))
  }

  function Trailer(integrity: bool, digest: Bytes -> nat, content: Bytes): Bytes {
    if integrity then Le(digest(content), 8) else []
  }

  function UnitHeader(t: Target): Bytes {
    [t.kind.Code()] + (Le(|t.path|, 2) + (t.path + OffsetField(t)))
  }

  function OffsetField(t: Target): Bytes { if t.kind.Chunk? then Le(t.offset, 8) else [] }

  function ProbeHead(key: nat, t: Target): Bytes {
    Le(key, 8) + [t.kind.Code()] + Le(|t.path|, 2)
  }

  function ProbeSizes(t: Task): Bytes {
    Le(t.target.offset, 8) + Le(t.length, 8) + Le(t.fileSize, 8) + Le(t.mtime, 8)
  }

  function AcceptedHeader(key: nat): Bytes { [ACCEPTED] + Le(key, 8) }

  function ProbeFrame(key: nat, t: Task, hash: Bytes): Bytes {
    [PROBE] + (ProbeHead(key, t.target) + (t.target.path + (ProbeSizes(t) + hash)))
  }

  function ReplyFrame(accept: bool, key: nat): Bytes {
    [if accept then REPLY_ACCEPT else REPLY_REJECT] + Le(key, 8)
  }

  // ---------------------------------------------------------------------------
  // Server
  // ---------------------------------------------------------------------------

  /** `filter` and `opens` may answer differently each time: they are told how often they were asked. */
  datatype Config<!D> = Config(
    accept: bool,
    hashFirst: bool,
    integrity: bool,
    decode: (D, Bytes) -> Decoded<D>,
    digest: Bytes -> nat,
    filter: (nat, Question) -> bool,
    opens: (nat, Target) -> bool)

  /** One opened unit: what was written, in pieces, and whether it was received whole. */
  datatype Delivery = Delivery(target: Target, pieces: seq<Bytes>, ok: bool)

  /** `granted` records the accepted probes, `log` the opened units, `posted` the replies. */
  datatype Server<D> = Server(
    decoder: D,
    accepted: map<nat, Target>,
    asked: nat,
    granted: seq<Target>,
    posted: Bytes,
    log: seq<Delivery>)

  /** After one frame: carry on with what is left of the stream, or leave the loop. */
  datatype Outcome<D> = Next(server: Server<D>, rest: Bytes) | Stop(server: Server<D>)

  datatype Body<D> = Body(decoder: D, pieces: seq<Bytes>, done: bool, rest: Bytes)

  function Prepend<D>(pieces: seq<Bytes>, b: Body<D>): Body<D> { b.(pieces := pieces + b.pieces) }

  lemma PrependTwice<D>(a: seq<Bytes>, b: seq<Bytes>, body: Body<D>)
    ensures Prepend(a, Prepend(b, body)) == Prepend(a + b, body)
    ensures Prepend([], body) == body
  {
    assert a + (b + body.pieces) == a + b + body.pieces;
  }

  /** One block: its length, then its bytes. */
  function ReadBlock(s: Bytes): (r: Option<(Bytes, Bytes)>)
    ensures r.Some? ==> |r.value.1| < |s|
  {
    var (len, s1) :- Take(s, 4);
    var _ :- Check(0 < UnLe(len) <= MAX_BLOCK);
    Take(s1, UnLe(len))
  }

  /** The block loop: decode until the end marker; `done` is false on a short or malformed stream. */
  function ServeBody<D>(cfg: Config<D>, d: D, s: Bytes): (b: Body<D>)
    ensures b.done ==> |b.rest| < |s|
    decreases |s|
  {
    if s == [] then Body(d, [], false, [])
    else if s[0] == END_OF_UNIT then Body(d, [], true, s[1..])
    else if s[0] != DATA then Body(d, [], false, [])
    else
      match ReadBlock(s[1..])
      case None => Body(d, [], false, [])
      case Some((block, rest)) =>
        var r := cfg.decode(d, block);
        if !r.ok then Body(r.state, r.pieces, false, [])
        else
          Prepend(r.pieces, ServeBody(cfg, r.state, rest))
  }

  /** The checksum after the end marker, when checksums were agreed on. */
  function ReadTrailer<D>(cfg: Config<D>, content: Bytes, s: Bytes): (r: Option<Bytes>)
    ensures r.Some? ==> |r.value| <= |s|
  {
    if !cfg.integrity then Some(s)
    else
      var (sum, rest) :- Take(s, 8);
      var _ :- Check(UnLe(sum) == cfg.digest(content));
      Some(rest)
  }

  /** Open the target, run the block loop, check the trailer. */
  function ServeUnit<D>(cfg: Config<D>, st: Server<D>, t: Target, s: Bytes): (o: Outcome<D>)
    ensures o.Next? ==> |o.rest| < |s|
  {
    if !cfg.opens(|st.log|, t) then Stop(st)
    else
      var b := ServeBody(cfg, st.decoder, s);
      var end := if b.done then ReadTrailer(cfg, Flat(b.pieces), b.rest) else None;
      var st' := st.(decoder := b.decoder, log := st.log + [Delivery(t, b.pieces, end.Some?)]);
      if end.Some? then Next(st', end.value) else Stop(st')
  }

  function KindOf(code: Byte): Option<Kind> {
    if code == FILE then Some(File) else if code == CHUNK then Some(Chunk) else None
  }

  predicate PathFits(len: nat) { 0 < len <= MAX_PATH }

  /** Path, sizes and hash of a probe. */
  function ParseProbeBody(hashFirst: bool, len: nat, s: Bytes): (r: Option<(Bytes, Bytes, Bytes, Bytes)>)
    ensures r.Some? ==> |r.value.1| == 32 && |r.value.3| <= |s|
  {
    var (path, s2) :- Take(s, len);
    var (z, s3) :- Take(s2, 32);
    var (hash, s4) :- Take(s3, if hashFirst then PROBE_HASH else 0);
    Some((path, z, hash, s4))
  }

  /** The fields of a probe, after its type byte. */
  function ParseProbe(hashFirst: bool, s: Bytes): (r: Option<(nat, Question, Bytes)>)
    ensures r.Some? ==> |r.value.2| < |s|
  {
    var (head, s1) :- Take(s, 11);
    var kind :- KindOf(head[8]);
    var len := UnLe(head[9..]);
    var _ :- Check(PathFits(len));
    var (path, z, hash, s4) :- ParseProbeBody(hashFirst, len, s1);
    Some((UnLe(head[..8]),
          Question(Target(kind, path, UnLe(z[..8])), UnLe(z[8..16]), UnLe(z[16..24]), UnLe(z[24..]), hash),
          s4))
  }

  /** Remember an accepted unit under its key, and post the answer. */
  function Answered<D>(st: Server<D>, key: nat, q: Question, yes: bool): Server<D> {
    st.(asked := st.asked + 1,
        accepted := if yes then st.accepted[key := q.target] else st.accepted,
        granted := if yes then st.granted + [q.target] else st.granted,
        posted := st.posted + ReplyFrame(yes, key))
  }

  function ServeProbe<D>(cfg: Config<D>, st: Server<D>, s: Bytes): (o: Outcome<D>)
    ensures o.Next? ==> |o.rest| < |s|
  {
    match ParseProbe(cfg.hashFirst, s)
    case None => Stop(st)
    case Some((key, q, rest)) => Next(Answered(st, key, q, cfg.filter(st.asked, q)), rest)
  }

  /** A plain unit header, after its type byte. */
  function ParseHeader(kind: Kind, s: Bytes): (r: Option<(Target, Bytes)>)
    ensures r.Some? ==> |r.value.1| < |s|
  {
    var (len, s1) :- Take(s, 2);
    var _ :- Check(PathFits(UnLe(len)));
    var (path, s2) :- Take(s1, UnLe(len));
    var (offset, s3) :- Take(s2, if kind.Chunk? then 8 else 0);
    Some((Target(kind, path, UnLe(offset)), s3))
  }

  /** One turn of `handle_upload`. */
  function ServeFrame<D>(cfg: Config<D>, st: Server<D>, s: Bytes): (o: Outcome<D>)
    ensures o.Next? ==> |o.rest| < |s|
  {
    if s == [] || s[0] == END then Stop(st)
    else if s[0] == PROBE then
      if cfg.accept then ServeProbe(cfg, st, s[1..]) else Stop(st)
    else if s[0] == ACCEPTED then
      if !cfg.accept then Stop(st)
      else
        match Take(s[1..], 8)
        case None => Stop(st)
        case Some((key, rest)) =>
          if UnLe(key) !in st.accepted then Stop(st)
          else ServeUnit(cfg, st.(accepted := st.accepted - {UnLe(key)}), st.accepted[UnLe(key)], rest)
    else if KindOf(s[0]).Some? then
      if cfg.accept then Stop(st)
      else
        match ParseHeader(KindOf(s[0]).value, s[1..])
        case None => Stop(st)
        case Some((t, rest)) => ServeUnit(cfg, st, t, rest)
    else Stop(st)
  }

  function Serve<D>(cfg: Config<D>, st: Server<D>, s: Bytes): Server<D>
    decreases |s|
  {
    match ServeFrame(cfg, st, s)
    case Next(st', rest) => Serve(cfg, st', rest)
    case Stop(st') => st'
  }
}
