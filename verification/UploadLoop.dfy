/** The two ends of the stream as the code runs them: the client worker's upload loop
    (client/worker.h) and the server consumer's nested read loop (server/connection.cxx). */
module UploadLoop {
  import opened Basics
  import opened Bytes
  import opened Frames
  import opened ByteChannels
  import opened Starvation

  /** The sending side; `sent` is everything handed to the network thread. */
  class Worker<!C, !D> {
    const k: Codec<C, D>
    var compressor: C
    var sent: Bytes

    constructor (k: Codec<C, D>)
      ensures this.k == k && compressor == k.start && sent == []
    {
      this.k, compressor, sent := k, k.start, [];
    }

    /** `sendBlock`, skipped when the compressor produced nothing. */
    method SendBlock(out: Bytes)
      modifies this`sent
      ensures sent == old(sent) + BlockFrame(out)
    {
      if out != [] {
        sent := sent + ([DATA] + Le(|out|, 4));
        sent := sent + out;
      }
    }

    /** One compressor call per read-ahead block; an empty result sends nothing. */
    method SendBlocks(blocks: seq<Bytes>)
      modifies this
      ensures var (c', body) := EncodeBlocks(k, old(compressor), blocks);
              compressor == c' && sent == old(sent) + body
    {
      ghost var c0, base := compressor, sent;
      for i := 0 to |blocks|
        invariant compressor == EncodeBlocks(k, c0, blocks[..i]).0
        invariant sent == base + EncodeBlocks(k, c0, blocks[..i]).1
      {
        ghost var (c1, before) := EncodeBlocks(k, c0, blocks[..i]);
        EncodeOneMore(k, c0, blocks[..i], blocks[i]);
        assert blocks[..i + 1] == blocks[..i] + [blocks[i]];
        var (c', out) := k.update(compressor, blocks[i]);
        compressor := c';
        SendBlock(out);
        Associates(base, before, BlockFrame(out));
      }
      assert blocks[..|blocks|] == blocks;
    }

    /** Header, blocks, flush, end marker, checksum. */
    method Upload(header: Bytes, blocks: seq<Bytes>, integrity: bool, digest: Bytes -> nat)
      modifies this
      ensures var (c', body) := EncodeBody(k, old(compressor), blocks, Trailer(integrity, digest, Flat(blocks)));
              compressor == c' && sent == old(sent) + header + body
    {
      sent := sent + header;
      ghost var base := sent;
      SendBlocks(blocks);
      ghost var (c1, body) := EncodeBlocks(k, old(compressor), blocks);
      var (c', out) := k.flush(compressor);
      compressor := c';
      SendBlock(out);
      sent := sent + [END_OF_UNIT];
      if integrity {
        sent := sent + Le(digest(Flat(blocks)), 8);
      }
      ghost var trailer := Trailer(integrity, digest, Flat(blocks));
      assert sent == base + body + BlockFrame(out) + [END_OF_UNIT] + trailer;
      Nested(base, body, BlockFrame(out), [END_OF_UNIT], trailer);
    }
  }

  lemma Nested(a: Bytes, b: Bytes, c: Bytes, d: Bytes, e: Bytes)
    ensures a + b + c + d + e == a + (b + (c + (d + e)))
  {
  }

  /** The receiving side: reads from the channel, and updates its record of the session. */
  class Consumer<!D> {
    const cfg: Config<D>
    const channel: ByteChannel
    var st: Server<D>

    constructor (cfg: Config<D>, channel: ByteChannel, st: Server<D>)
      ensures this.cfg == cfg && this.channel == channel && this.st == st
    {
      this.cfg, this.channel, this.st := cfg, channel, st;
    }

    /** The length and the bytes of one block. */
    method ReadOneBlock() returns (ok: bool, block: Bytes)
      requires channel.Valid()
      modifies channel
      ensures channel.Valid()
      ensures var r := ReadBlock(old(channel.Stream()));
              ok == r.Some? && (ok ==> r.value == (block, channel.Stream()))
      ensures channel.dry == (old(channel.dry) || StarvesBlock(old(channel.Stream())))
    {
      block := [];
      var len;
      ok, len := channel.ReadExact(4);
      if !ok {
        return;
      }
      var n := UnLe(len);
      if n == 0 || n > MAX_BLOCK {
        ok := false;
        return;
      }
      ok, block := channel.ReadExact(n);
    }

    /** One pass of the block loop. */
    method ReceiveBlock() returns (pieces: seq<Bytes>, more: bool, done: bool)
      requires channel.Valid()
      modifies this`st, channel
      ensures channel.Valid() && st == old(st).(decoder := st.decoder)
      ensures var whole := ServeBody(cfg, old(st.decoder), old(channel.Stream()));
              if more then
                && |channel.Stream()| < |old(channel.Stream())|
                && whole == Prepend(pieces, ServeBody(cfg, st.decoder, channel.Stream()))
              else whole == Body(st.decoder, pieces, done, if done then channel.Stream() else [])
      ensures channel.dry == (old(channel.dry) || (!more && StarvesBody(cfg, old(st.decoder), old(channel.Stream()))))
      ensures more ==> (StarvesBody(cfg, old(st.decoder), old(channel.Stream())) <==> StarvesBody(cfg, st.decoder, channel.Stream()))
    {
      pieces, more, done := [], false, false;
      ghost var s := channel.Stream();
      if s != [] && s[0] == DATA {
        StarvesBodyNext(cfg, st.decoder, s);
      }
      var ok, kind := channel.ReadExact(1);
      if !ok {
        return;
      }
      if kind[0] == END_OF_UNIT {
        done := true;
        return;
      }
      if kind[0] != DATA {
        return;
      }
      var block;
      ok, block := ReadOneBlock();
      if !ok {
        return;
      }
      var r := cfg.decode(st.decoder, block);
      pieces := r.pieces;
      st := st.(decoder := r.state);
      more := r.ok;
    }

    /** The block loop: pieces go to the sink until the end marker or an error. */
    method ReceiveBlocks() returns (pieces: seq<Bytes>, done: bool)
      requires channel.Valid()
      modifies this`st, channel
      ensures channel.Valid()
      ensures var b := ServeBody(cfg, old(st.decoder), old(channel.Stream()));
              && st == old(st).(decoder := b.decoder) && pieces == b.pieces && done == b.done
              && (done ==> channel.Stream() == b.rest)
      ensures channel.dry == (old(channel.dry) || StarvesBody(cfg, old(st.decoder), old(channel.Stream())))
    {
      ghost var starves := StarvesBody(cfg, st.decoder, channel.Stream());
      ghost var whole := ServeBody(cfg, st.decoder, channel.Stream());
      PrependTwice([], [], whole);
      pieces, done := [], false;
      var more := true;
      while more
        invariant channel.Valid() && st == old(st).(decoder := st.decoder)
        invariant more ==> whole == Prepend(pieces, ServeBody(cfg, st.decoder, channel.Stream()))
        invariant !more ==> whole == Body(st.decoder, pieces, done, if done then channel.Stream() else [])
        invariant more ==> channel.dry == old(channel.dry) && starves == StarvesBody(cfg, st.decoder, channel.Stream())
        invariant !more ==> channel.dry == (old(channel.dry) || starves)
        decreases more, |channel.Stream()|
      {
        var ps;
        ps, more, done := ReceiveBlock();
        PrependTwice(pieces, ps, ServeBody(cfg, st.decoder, channel.Stream()));
        pieces := pieces + ps;
      }
    }

    /** The checksum, when one was agreed on: eight more bytes, and those of the content received. */
    method CheckTrailer(content: Bytes) returns (ok: bool)
      requires channel.Valid()
      modifies channel
      ensures channel.Valid()
      ensures var s := old(channel.Stream()); ok <==> !cfg.integrity || (|s| >= 8 && UnLe(s[..8]) == cfg.digest(content))
      ensures ok ==> channel.Stream() == old(channel.Stream())[if cfg.integrity then 8 else 0..]
      ensures var r := ReadTrailer(cfg, content, old(channel.Stream()));
              ok == r.Some? && (ok ==> channel.Stream() == r.value)
      ensures channel.dry == (old(channel.dry) || (cfg.integrity && |old(channel.Stream())| < 8))
    {
      ok := true;
      if cfg.integrity {
        var sum;
        ok, sum := channel.ReadExact(8);
        ok := ok && UnLe(sum) == cfg.digest(content);
      }
    }

    ghost predicate Follows(o: Outcome<D>, go: bool)
      reads this, channel
    {
      && channel.Valid() && go == o.Next?
      && (match o case Next(st', rest) => st == st' && channel.Stream() == rest case Stop(st') => st == st')
    }

    /** Open the target, receive the blocks, check the trailer. */
    method HandleUnit(t: Target) returns (go: bool)
      requires channel.Valid()
      modifies this`st, channel
      ensures Follows(ServeUnit(cfg, old(st), t, old(channel.Stream())), go)
      ensures channel.dry == (old(channel.dry) || StarvesUnit(cfg, old(st), t, old(channel.Stream())))
    {
      go := false;
      if !cfg.opens(|st.log|, t) {
        return;
      }
      var pieces, done := ReceiveBlocks();
      if done {
        go := CheckTrailer(Flat(pieces));
      }
      st := st.(log := st.log + [Delivery(t, pieces, go)]);
    }

    method ReadBytes(n: nat) returns (out: Option<Bytes>)
      requires channel.Valid()
      modifies channel
      ensures channel.Valid()
      ensures out.None? ==> Take(old(channel.Stream()), n).None?
      ensures out.Some? ==> |out.value| == n && Take(old(channel.Stream()), n) == Some((out.value, channel.Stream()))
      ensures channel.dry == (old(channel.dry) || out.None?)
    {
      var ok, bytes := channel.ReadExact(n);
      out := if ok then Some(bytes) else None;
    }

    method ReadProbeBody(len: nat) returns (body: Option<(Bytes, Bytes, Bytes)>)
      requires channel.Valid()
      modifies channel
      ensures channel.Valid()
      ensures var p := ParseProbeBody(cfg.hashFirst, len, old(channel.Stream()));
              && (body.Some? <==> p.Some?)
              && (p.Some? ==> body.value == (p.value.0, p.value.1, p.value.2) && channel.Stream() == p.value.3)
      ensures channel.dry == (old(channel.dry) || |old(channel.Stream())| < len + 32 + if cfg.hashFirst then PROBE_HASH else 0)
    {
      body := None;
      var path := ReadBytes(len);
      if path.None? {
        return;
      }
      var sizes := ReadBytes(32);
      if sizes.None? {
        return;
      }
      var hash := ReadBytes(if cfg.hashFirst then PROBE_HASH else 0);
      if hash.None? {
        return;
      }
      body := Some((path.value, sizes.value, hash.value));
    }

    /** Key and question of a probe, if the stream holds one. */
    method ReadProbe() returns (key: nat, q: Option<Question>)
      requires channel.Valid()
      modifies channel
      ensures channel.Valid()
      ensures var p := ParseProbe(cfg.hashFirst, old(channel.Stream()));
              && (q.Some? <==> p.Some?)
              && (p.Some? ==> key == p.value.0 && q.value == p.value.1 && channel.Stream() == p.value.2)
      ensures channel.dry == (old(channel.dry) || StarvesProbe(cfg.hashFirst, old(channel.Stream())))
    {
      key, q := 0, None;
      var first := ReadBytes(11);
      if first.None? {
        return;
      }
      var head := first.value;
      var kind, len := KindOf(head[8]), UnLe(head[9..]);
      if kind.None? || len == 0 || len > MAX_PATH {
        return;
      }
      var body := ReadProbeBody(len);
      if body.None? {
        return;
      }
      var (path, z, hash) := body.value;
      key := UnLe(head[..8]);
      q := Some(Question(Target(kind.value, path, UnLe(z[..8])), UnLe(z[8..16]), UnLe(z[16..24]), UnLe(z[24..]), hash));
    }

    method HandleProbe() returns (go: bool)
      requires channel.Valid()
      modifies this`st, channel
      ensures Follows(ServeProbe(cfg, old(st), old(channel.Stream())), go)
      ensures channel.dry == (old(channel.dry) || StarvesProbe(cfg.hashFirst, old(channel.Stream())))
    {
      var key, q := ReadProbe();
      go := q.Some?;
      if go {
        st := Answered(st, key, q.value, cfg.filter(st.asked, q.value));
      }
    }

    method ReadHeader(kind: Kind) returns (t: Option<Target>)
      requires channel.Valid()
      modifies channel
      ensures channel.Valid()
      ensures var p := ParseHeader(kind, old(channel.Stream()));
              && (t.Some? <==> p.Some?)
              && (p.Some? ==> t.value == p.value.0 && channel.Stream() == p.value.1)
      ensures channel.dry == (old(channel.dry) || StarvesHeader(kind, old(channel.Stream())))
    {
      t := None;
      var len := ReadBytes(2);
      if len.None? || UnLe(len.value) == 0 || UnLe(len.value) > MAX_PATH {
        return;
      }
      var path := ReadBytes(UnLe(len.value));
      if path.None? {
        return;
      }
      var offset := ReadBytes(if kind.Chunk? then 8 else 0);
      if offset.None? {
        return;
      }
      t := Some(Target(kind, path.value, UnLe(offset.value)));
    }

    /** A plain header, then its unit. */
    method HandlePlain(kind: Kind) returns (go: bool)
      requires channel.Valid()
      modifies this`st, channel
      ensures Follows(match ParseHeader(kind, old(channel.Stream()))
                      case None => Stop(old(st))
                      case Some((t, rest)) => ServeUnit(cfg, old(st), t, rest), go)
      ensures channel.dry == (old(channel.dry) || StarvesHeader(kind, old(channel.Stream())) ||
                              (match ParseHeader(kind, old(channel.Stream()))
                               case None => false
                               case Some((t, rest)) => StarvesUnit(cfg, old(st), t, rest)))
    {
      var t := ReadHeader(kind);
      go := false;
      if t.Some? {
        go := HandleUnit(t.value);
      }
    }

    method HandleAccepted() returns (go: bool)
      requires channel.Valid()
      modifies this`st, channel
      ensures Follows(match Take(old(channel.Stream()), 8)
                      case None => Stop(old(st))
                      case Some((key, rest)) =>
                        if UnLe(key) !in old(st).accepted then Stop(old(st))
                        else ServeUnit(cfg, old(st).(accepted := old(st).accepted - {UnLe(key)}),
                                       old(st).accepted[UnLe(key)], rest), go)
      ensures channel.dry == (old(channel.dry) || StarvesAccepted(cfg, old(st), old(channel.Stream())))
    {
      go := false;
      var ok, key := channel.ReadExact(8);
      if !ok || UnLe(key) !in st.accepted {
        return;
      }
      var t := st.accepted[UnLe(key)];
      st := st.(accepted := st.accepted - {UnLe(key)});
      go := HandleUnit(t);
    }

    /** One turn of the outer loop. */
    method Turn() returns (go: bool)
      requires channel.Valid()
      modifies this`st, channel
      ensures Follows(ServeFrame(cfg, old(st), old(channel.Stream())), go)
      ensures channel.dry == (old(channel.dry) || StarvesFrame(cfg, old(st), old(channel.Stream())))
    {
      go := false;
      var ok, kind := channel.ReadExact(1);
      if !ok || kind[0] == END {
        return;
      }
      if kind[0] == PROBE {
        if cfg.accept {
          go := HandleProbe();
        }
      } else if kind[0] == ACCEPTED {
        if cfg.accept {
          go := HandleAccepted();
        }
      } else if KindOf(kind[0]).Some? {
        if !cfg.accept {
          go := HandlePlain(KindOf(kind[0]).value);
        }
      }
    }

    /** `handle_upload`: what it leaves behind depends only on the flat byte stream, not on how
        the socket cut it into blocks or when they arrived; and it has asked for more than the stream
        holds if and only if the stream leaves it waiting. */
    method HandleUpload()
      requires channel.Valid()
      modifies this`st, channel
      ensures channel.Valid() && st == Serve(cfg, old(st), old(channel.Stream()))
      ensures channel.dry == (old(channel.dry) || Starves(cfg, old(st), old(channel.Stream())))
    {
      ghost var waits := channel.dry || Starves(cfg, st, channel.Stream());
      var go := true;
      while go
        invariant channel.Valid()
        invariant Serve(cfg, old(st), old(channel.Stream())) == if go then Serve(cfg, st, channel.Stream()) else st
        invariant waits == (channel.dry || (go && Starves(cfg, st, channel.Stream())))
        decreases go, |channel.Stream()|
      {
        go := Turn();
      }
    }
  }
}
