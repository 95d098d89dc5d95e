/** Both ends together, over any segmentation of the byte stream. */
module Transfer {
  import opened Basics
  import opened Bytes
  import opened ByteChannels
  import opened Frames
  import opened FramesRoundTrip
  import opened UploadLoop

  /** Upload every unit in turn, then say goodbye (`process` without a filter, and `finish`). */
  method SendAll<C, D>(w: Worker<C, D>, cfg: Config<D>, us: seq<Unit>)
    modifies w
    ensures w.sent == old(w.sent) + EncodeUnits(w.k, cfg, old(w.compressor), us)
  {
    ghost var whole := EncodeUnits(w.k, cfg, w.compressor, us);
    ghost var emitted: Bytes := [];
    for i := 0 to |us|
      invariant w.sent == old(w.sent) + emitted
      invariant whole == emitted + EncodeUnits(w.k, cfg, w.compressor, us[i..])
    {
      assert us[i..][1..] == us[i + 1..];
      ghost var header, body := UnitHeader(us[i].target), BodyOf(w.k, cfg, w.compressor, us[i].blocks).1;
      w.Upload(UnitHeader(us[i].target), us[i].blocks, cfg.integrity, cfg.digest);
      Regrouped(old(w.sent), emitted, header, body, EncodeUnits(w.k, cfg, w.compressor, us[i + 1..]));
      emitted := emitted + (header + body);
    }
    w.sent := w.sent + [END];
  }

  lemma Regrouped(a: Bytes, b: Bytes, h: Bytes, body: Bytes, rest: Bytes)
    ensures a + b + h + body == a + (b + (h + body))
    ensures b + (h + (body + rest)) == b + (h + body) + rest
  {
  }

  /** The client's stream, cut into blocks in any way, delivers exactly the client's units. */
  method Roundtrip<C(!new), D(!new)>(
    k: Codec<C, D>, cfg: Config<D>, lowWater: nat, us: seq<Unit>, cuts: seq<Bytes>)
    returns (log: seq<Delivery>)
    requires Lawful(k) && Agreed(k, cfg) && !cfg.accept
    requires forall i :: 0 <= i < |us| ==> SendableUnit(us[i])
    requires Flat(cuts) == EncodeUnits(k, cfg, k.start, us)
    ensures Arrived([], log, us)
  {
    var w := new Worker(k);
    SendAll(w, cfg, us);
    assert [] + Flat(cuts) == Flat(cuts) == w.sent;
    var channel := new ByteChannel(lowWater, cuts);
    var consumer := new Consumer(cfg, channel, Server(k.ready, map[], 0, [], [], []));
    ghost var st0 := consumer.st;
    consumer.HandleUpload();
    UnitsRoundTrip(k, cfg, k.start, st0, us);
    log := consumer.st.log;
  }
}
