/** The handshake: the client's request (client/worker.h), the server's verdict and reply
    (server/handshake.cxx, server/connection.cxx, server/server.h), and what both then agree on. */
module Handshake {
  import opened Basics
  import opened Bytes

  const MAGIC: Bytes := [68, 75, 82, 49]
  const SESSION: nat := 16
  const SIGNED: nat := 24
  const REQUEST: nat := 56
  const REPLY: nat := 5
  const UPLOAD: Byte := 0x33

  const OK: Byte := 0
  const BAD_MAGIC: Byte := 1
  const BAD_VERSION: Byte := 2
  const AUTH_FAILED: Byte := 3
  const BAD_ALGO: Byte := 4
  const SERVER_ERROR: Byte := 5

  /** A keyed digest of 32 bytes. */
  type Mac = (Bytes, Bytes) -> Bytes

  ghost predicate Digests(mac: Mac) { forall k, m :: |mac(k, m)| == 32 }

  datatype Hello = Hello(version: nat, flags: Byte, algo: Byte, session: Bytes)

  predicate WellFormed(h: Hello) { h.version < 0x1_0000 && |h.session| == SESSION }

  predicate Supported(algo: Byte) { algo == 1 || algo == 2 }

  predicate Flag(b: Byte) { b % 2 == 1 }

  predicate SecondFlag(b: Byte) { b / 2 % 2 == 1 }

  // ---------------------------------------------------------------------------
  // Request and verdict
  // ---------------------------------------------------------------------------

  function Signed(h: Hello): (r: Bytes)
    ensures |r| == 8 + |h.session|
  {
    MAGIC + Le(h.version, 2) + [h.flags, h.algo] + h.session
  }

  /** The part of the client's opening that the server judges; the command byte follows it. */
  ghost function Request(mac: Mac, key: Bytes, h: Hello): Bytes { Signed(h) + mac(key, Signed(h)) }

  datatype ServerConfig = ServerConfig(
    key: Bytes,
    ceiling: nat,      // the highest protocol version it speaks
    filters: bool,     // accept mode is on
    hashes: bool,      // probes are to carry hashes
    sinks: bool)       // decompressor and session directory can be set up

  datatype Verdict = Accepted(h: Hello) | Refused(status: Byte)

  ghost function Judge(mac: Mac, cfg: ServerConfig, b: Bytes): Verdict
    requires |b| == REQUEST
  {
    var version := UnLe(b[4..6]);
    if b[..4] != MAGIC then Refused(BAD_MAGIC)
    else if mac(cfg.key, b[..SIGNED]) != b[SIGNED..] then Refused(AUTH_FAILED)
    else if version < 1 || version > cfg.ceiling then Refused(BAD_VERSION)
    else if !Supported(b[7]) then Refused(BAD_ALGO)
    else if !cfg.sinks then Refused(SERVER_ERROR)
    else Accepted(Hello(version, b[6], b[7], b[8..SIGNED]))
  }

  lemma SignedParts(h: Hello)
    requires WellFormed(h)
    ensures var s := Signed(h);
            && |s| == SIGNED && s[..4] == MAGIC && s[4..6] == Le(h.version, 2)
            && s[6] == h.flags && s[7] == h.algo && s[8..] == h.session
            && UnLe(s[4..6]) == h.version
  {
    Widths();
    UnLeOfLe(h.version, 2);
  }

  lemma RequestParts(mac: Mac, key: Bytes, h: Hello)
    requires Digests(mac) && WellFormed(h)
    ensures var b := Request(mac, key, h);
            && |b| == REQUEST && b[..SIGNED] == Signed(h) && b[SIGNED..] == mac(key, Signed(h))
            && b[..4] == MAGIC && UnLe(b[4..6]) == h.version && b[6] == h.flags && b[7] == h.algo
            && b[8..SIGNED] == h.session
  {
    SignedParts(h);
    var b, s := Request(mac, key, h), Signed(h);
    assert b[..4] == s[..4] && b[4..6] == s[4..6] && b[8..SIGNED] == s[8..];
  }

  /** What becomes of the client's request, whatever the keys, versions and algorithm. */
  lemma Judged(mac: Mac, key: Bytes, cfg: ServerConfig, h: Hello)
    requires Digests(mac) && WellFormed(h)
    ensures |Request(mac, key, h)| == REQUEST
    ensures Judge(mac, cfg, Request(mac, key, h)) ==
            if mac(cfg.key, Signed(h)) != mac(key, Signed(h)) then Refused(AUTH_FAILED)
            else if h.version < 1 || h.version > cfg.ceiling then Refused(BAD_VERSION)
            else if !Supported(h.algo) then Refused(BAD_ALGO)
            else if !cfg.sinks then Refused(SERVER_ERROR)
            else Accepted(h)
  {
    RequestParts(mac, key, h);
  }

  /** Only requests signed with the server's key are accepted, and as what was signed. */
  lemma AcceptedIsSigned(mac: Mac, cfg: ServerConfig, b: Bytes, h: Hello)
    requires Digests(mac) && |b| == REQUEST
    ensures Judge(mac, cfg, b) == Accepted(h) <==>
            && WellFormed(h) && 1 <= h.version <= cfg.ceiling && (h.algo == 1 || h.algo == 2) && cfg.sinks
            && b == Request(mac, cfg.key, h)
  {
    if Judge(mac, cfg, b) == Accepted(h) {
      Widths();
      LeOfUnLe(b[4..6]);
      assert b[..SIGNED] == Signed(h);
      assert b == b[..SIGNED] + b[SIGNED..];
    } else if WellFormed(h) && b == Request(mac, cfg.key, h) {
      Judged(mac, cfg.key, cfg, h);
    }
  }

  /** A request byte by byte: "DKR1", version, flags, algorithm, session, digest of those 24 bytes. */
  lemma RequestLayout(mac: Mac, key: Bytes, h: Hello)
    requires Digests(mac) && WellFormed(h)
    ensures var b := Request(mac, key, h);
            && |b| == 56 && b[..4] == [0x44, 0x4B, 0x52, 0x31] && h.version == b[4] as int + 256 * b[5] as int
            && b[6] == h.flags && b[7] == h.algo && b[8..24] == h.session && b[24..] == mac(key, b[..24])
  {
    var b := Request(mac, key, h);
    RequestParts(mac, key, h);
    assert b[4..6] == [b[4], b[5]];
    UnLeShifts(b[4], b[5], 0, 0, 0, 0, 0, 0);
  }

  /** Which refusal any 56 bytes meet: the first of wrong magic (1), wrong digest (3), unspoken version
      (2), unknown algorithm (4) and a server that cannot serve (5). */
  lemma RefusalCodes(mac: Mac, cfg: ServerConfig, b: Bytes)
    requires |b| == 56
    ensures var magic, signed := b[..4] == [0x44, 0x4B, 0x52, 0x31], mac(cfg.key, b[..24]) == b[24..];
            var spoken := 1 <= b[4] + 256 * b[5] <= cfg.ceiling;
            var known := b[7] == 1 || b[7] == 2;
            && (Judge(mac, cfg, b) == Refused(1) <==> !magic)
            && (Judge(mac, cfg, b) == Refused(3) <==> magic && !signed)
            && (Judge(mac, cfg, b) == Refused(2) <==> magic && signed && !spoken)
            && (Judge(mac, cfg, b) == Refused(4) <==> magic && signed && spoken && !known)
            && (Judge(mac, cfg, b) == Refused(5) <==> magic && signed && spoken && known && !cfg.sinks)
            && (Judge(mac, cfg, b).Accepted? <==> magic && signed && spoken && known && cfg.sinks)
  {
    assert b[4..6] == [b[4], b[5]];
    UnLeShifts(b[4], b[5], 0, 0, 0, 0, 0, 0);
  }

  // ---------------------------------------------------------------------------
  // Reply
  // ---------------------------------------------------------------------------

  function ModeFor(cfg: ServerConfig, version: nat): Byte {
    if version < 2 || !cfg.filters then 0 else if cfg.hashes then 3 else 1
  }

  /** What the connection runs with once accepted. */
  datatype Session = Session(version: nat, accepts: bool, hashFirst: bool, integrity: bool)

  function SessionOf(cfg: ServerConfig, h: Hello): Session {
    var mode := ModeFor(cfg, h.version);
    Session(h.version, Flag(mode), SecondFlag(mode), Flag(h.flags))
  }

  function ReplyTo(cfg: ServerConfig, v: Verdict): Bytes {
    match v
    case Refused(status) => MAGIC + [status]
    case Accepted(h) => MAGIC + [OK] + if h.version >= 2 then [ModeFor(cfg, h.version)] else []
  }

  /** What the server runs with: it asks before every unit if it has a filter and the client speaks
      version 2, wants hashes with that if so configured, and checksums as the client's flags say. */
  lemma SessionMeans(cfg: ServerConfig, h: Hello)
    ensures var s := SessionOf(cfg, h);
            && s.accepts == (cfg.filters && h.version >= 2) && s.hashFirst == (cfg.filters && h.version >= 2 && cfg.hashes)
            && s.integrity == (h.flags % 2 == 1) && s.version == h.version
  {
  }

  /** A reply byte by byte: "DKR1" and a status, and after an OK to version 2 the mode: bit 0 for
      accept mode, bit 1 for hashes. */
  lemma ReplyLayout(cfg: ServerConfig, v: Verdict)
    ensures var r := ReplyTo(cfg, v);
            && |r| >= 5 && r[..4] == [0x44, 0x4B, 0x52, 0x31]
            && (v.Refused? ==> |r| == 5 && r[4] == v.status)
            && (v.Accepted? ==> r[4] == 0 && |r| == if v.h.version >= 2 then 6 else 5)
            && (v.Accepted? && v.h.version >= 2 ==> r[5] == if !cfg.filters then 0 else if cfg.hashes then 3 else 1)
  {
  }

  // ---------------------------------------------------------------------------
  // The server's side: any segmentation
  // ---------------------------------------------------------------------------

  predicate Conflicts(b: Bytes) {
    var n := if |b| < 4 then |b| else 4;
    b[..n] != MAGIC[..n]
  }

  /** Bytes are taken for HTTP as soon as one of the first four is not the magic's. */
  lemma ConflictMeans(b: Bytes)
    ensures Conflicts(b) <==> exists i :: 0 <= i < 4 && i < |b| && b[i] != [0x44, 0x4B, 0x52, 0x31][i]
  {
    var n := if |b| < 4 then |b| else 4;
    if b[..n] != MAGIC[..n] {
      var i :| 0 <= i < n && b[..n][i] != MAGIC[..n][i];
      assert b[i] != [0x44, 0x4B, 0x52, 0x31][i];
    }
    if i :| 0 <= i < 4 && i < |b| && b[i] != [0x44, 0x4B, 0x52, 0x31][i] {
      assert b[..n][i] != MAGIC[..n][i];
    }
  }

  /** `n` copies of a reply. */
  function Times(reply: Bytes, n: nat): Bytes { if n == 0 then [] else Times(reply, n - 1) + reply }

  lemma {:induction false} TimesLength(reply: Bytes, n: nat)
    ensures |Times(reply, n)| == n * |reply|
  {
    if n > 0 {
      TimesLength(reply, n - 1);
      assert n * |reply| == (n - 1) * |reply| + |reply|;
    }
  }

  /** One copy is told from any other number of copies. */
  lemma OneCopy(reply: Bytes, n: nat)
    requires reply != []
    ensures Times(reply, n) == reply <==> n == 1
  {
    TimesLength(reply, n);
    if n == 1 {
      assert Times(reply, 1) == [] + reply == reply;
    } else if n > 1 {
      assert n * |reply| == |reply| + (n - 1) * |reply| && (n - 1) * |reply| > 0;
    }
  }

  /** `handle_handshake_data` and the pushes after it, on a connection that has received `total`. */
  class Preamble {
    ghost const mac: Mac
    const cfg: ServerConfig
    ghost var total: Bytes
    ghost var judged: nat          // arrivals that found a whole request and no session yet
    var buffer: Bytes
    var decided: bool
    var http: bool
    var session: Option<Hello>
    var replies: Bytes
    var channel: Bytes

    constructor (ghost mac: Mac, cfg: ServerConfig)
      ensures this.mac == mac && this.cfg == cfg && Valid() && total == [] && judged == 0
    {
      this.mac, this.cfg := mac, cfg;
      total, judged, buffer, decided, http, session, replies, channel := [], 0, [], false, false, None, [], [];
    }

    /** Session and bytes passed on are functions of the bytes received, not of how they were cut. So
        is the reply to an accepted request; a refusal is repeated for every later arrival. */
    ghost predicate Valid()
      reads this
    {
      if session.Some? then
        && |total| >= REQUEST && !Conflicts(total) && Judge(mac, cfg, total[..REQUEST]) == Accepted(session.value)
        && channel == total[REQUEST..] && judged == 1 && replies == ReplyTo(cfg, Accepted(session.value))
      else
        && buffer == total && channel == []
        && decided == (|total| >= 4 || Conflicts(total)) && http == Conflicts(total)
        && (|total| >= REQUEST && !http ==>
              && judged > 0 && Judge(mac, cfg, total[..REQUEST]).Refused?
              && replies == Times(ReplyTo(cfg, Judge(mac, cfg, total[..REQUEST])), judged))
        && (|total| < REQUEST || http ==> judged == 0 && replies == [])
    }

    /** Dicker or HTTP, decided once and as early as the bytes allow. */
    method Decide()
      requires session.None? && buffer == total
      requires decided ==> (|total| >= 4 || Conflicts(total)) && http == Conflicts(total)
      requires !decided ==> !http
      modifies this`decided, this`http
      ensures decided == (|total| >= 4 || Conflicts(total)) && http == Conflicts(total)
    {
      if !decided {
        var n := if |buffer| < 4 then |buffer| else 4;
        if buffer[..n] != MAGIC[..n] {
          decided, http := true, true;
        } else if |buffer| >= 4 {
          decided, http := true, false;
        }
      }
    }

    /** More bytes from the socket. `judge` is the verdict function the connection runs. */
    method HandleData(data: Bytes, judge: Bytes -> Verdict)
      requires Valid() && forall b :: |b| == REQUEST ==> judge(b) == Judge(mac, cfg, b)
      modifies this
      ensures Valid() && total == old(total) + data
      ensures old(session).Some? ==> session == old(session)
      ensures judged == old(judged) + if old(session).None? && |total| >= REQUEST && !Conflicts(total) then 1 else 0
    {
      ConflictStays(total, data);
      assert |total| >= REQUEST ==> (total + data)[..REQUEST] == total[..REQUEST];
      total := total + data;
      if session.Some? {
        channel := channel + data;
        assert channel == total[REQUEST..];
        return;
      }
      buffer := buffer + data;
      Decide();
      if !decided || http || |buffer| < REQUEST {
        return;
      }
      var verdict := judge(buffer[..REQUEST]);
      replies := replies + ReplyTo(cfg, verdict);
      judged := judged + 1;
      if verdict.Refused? {
        return;
      }
      session := Some(verdict.h);
      channel := buffer[REQUEST..];
    }
  }

  /** The arrivals that bring the connection to a whole request or beyond it. */
  function Late(before: nat, cuts: seq<Bytes>): nat
    decreases cuts
  {
    if cuts == [] then 0
    else (if before + |cuts[0]| >= REQUEST then 1 else 0) + Late(before + |cuts[0]|, cuts[1..])
  }

  /** A whole preamble in any cuts. A refusal is sent once for every arrival at or past the end of the
      request, so once if and only if nothing arrives after the bytes that complete it. */
  method Receive(ghost mac: Mac, cfg: ServerConfig, cuts: seq<Bytes>, judge: Bytes -> Verdict) returns (p: Preamble)
    requires forall b :: |b| == REQUEST ==> judge(b) == Judge(mac, cfg, b)
    ensures p.Valid() && p.mac == mac && p.cfg == cfg && p.total == Flat(cuts)
    ensures |p.total| >= REQUEST && !Conflicts(p.total) && Judge(mac, cfg, p.total[..REQUEST]).Refused? ==>
              var refusal := ReplyTo(cfg, Judge(mac, cfg, p.total[..REQUEST]));
              && p.session.None? && p.replies == Times(refusal, Late(0, cuts))
              && (p.replies == refusal <==> Late(0, cuts) == 1)
  {
    p := new Preamble(mac, cfg);
    assert cuts[..0] == [];
    for i := 0 to |cuts|
      invariant p.Valid() && p.mac == mac && p.cfg == cfg && fresh(p) && p.total == Flat(cuts[..i])
      invariant p.session.None? && !Conflicts(p.total) ==> Late(0, cuts) == p.judged + Late(|p.total|, cuts[i..])
    {
      assert cuts[..i + 1] == cuts[..i] + [cuts[i]] && cuts[i..][1..] == cuts[i + 1..];
      FlatSnoc(cuts[..i], cuts[i]);
      ConflictStays(p.total, cuts[i]);
      p.HandleData(cuts[i], judge);
    }
    assert cuts[..|cuts|] == cuts;
    if |p.total| >= REQUEST && !Conflicts(p.total) && Judge(mac, cfg, p.total[..REQUEST]).Refused? {
      OneCopy(ReplyTo(cfg, Judge(mac, cfg, p.total[..REQUEST])), p.judged);
    }
  }

  /** The client's opening, 57 bytes, cut after the request: the refusal goes out twice. */
  lemma SplitOpening(request: Bytes, command: Byte)
    requires |request| == REQUEST
    ensures Late(0, [request, [command]]) == 2 && Late(0, [request + [command]]) == 1
  {
    assert [request, [command]][1..] == [[command]] && [[command]][1..] == [];
    assert Late(REQUEST, [[command]]) == 1 + Late(REQUEST + 1, []);
    assert [request + [command]][1..] == [];
  }

  /** Four bytes decide: later ones change nothing, and a conflict is never undone. */
  lemma ConflictStays(b: Bytes, more: Bytes)
    ensures Conflicts(b) ==> Conflicts(b + more)
    ensures |b| >= 4 ==> (Conflicts(b) <==> Conflicts(b + more))
  {
    var n, m := if |b| < 4 then |b| else 4, if |b + more| < 4 then |b + more| else 4;
    assert (b + more)[..m][..n] == b[..n];
    assert MAGIC[..m][..n] == MAGIC[..n];
  }

  // ---------------------------------------------------------------------------
  // The client's side
  // ---------------------------------------------------------------------------

  class Client {
    ghost const mac: Mac
    const key: Bytes
    const flags: Byte
    const algo: Byte
    const session: Bytes
    var integrity: bool
    var accepts: bool
    var hashFirst: bool
    var unread: Bytes              // what the server sent and the client has not taken

    constructor (ghost mac: Mac, key: Bytes, flags: Byte, algo: Byte, session: Bytes)
      requires |session| == SESSION
      ensures this.mac == mac && this.key == key && this.flags == flags && this.algo == algo && this.session == session
    {
      this.mac, this.key, this.flags, this.algo, this.session := mac, key, flags, algo, session;
      integrity, accepts, hashFirst, unread := false, false, false, [];
    }

    ghost function Greeting(version: nat): Hello { Hello(version, flags, algo, session) }

    /** `shake`: the status, with the mode read only from a server that was asked for version 2. A
        refusal may have been sent more than once; one copy is read. */
    method Shake(version: nat, ghost verdict: Verdict, ghost cfg: ServerConfig, ghost more: nat, reply: Bytes) returns (status: int)
      requires 1 <= version && (verdict.Accepted? ==> more == 0)
      requires reply == ReplyTo(cfg, verdict) + Times(ReplyTo(cfg, verdict), more)
      requires verdict.Accepted? ==> verdict.h == Greeting(version)
      requires verdict.Refused? ==> verdict.status != OK
      modifies this`accepts, this`hashFirst, this`unread
      ensures verdict.Refused? ==> status == verdict.status as int && unread == Times(ReplyTo(cfg, verdict), more)
      ensures verdict.Accepted? ==> status == 0 && unread == []
      ensures verdict.Accepted? ==> SessionOf(cfg, verdict.h) == Session(version, accepts, hashFirst, Flag(flags))
    {
      unread := reply[REPLY..];
      assert verdict.Refused? ==> unread == Times(ReplyTo(cfg, verdict), more);
      assert verdict.Accepted? ==> reply == ReplyTo(cfg, verdict);
      var code := reply[4];
      if code != OK {
        return code as int;
      }
      var mode: Byte := 0;
      if version >= 2 {
        mode := unread[0];
        unread := unread[1..];
      }
      accepts, hashFirst := Flag(mode), SecondFlag(mode);
      return 0;
    }

    /** `init` against a server with the given configuration: version 2 first, version 1 on a new
        connection if the server refuses the version. Success leaves both sides with the same
        session and nothing of the reply unread; failure happens only for the reasons listed. A server
        may send a refusal more than once, `again` times. */
    method Init(ghost cfg: ServerConfig, serve: nat -> Bytes, ghost again: nat -> nat) returns (ok: bool, ghost agreed: Session)
      requires Digests(mac) && |session| == SESSION
      requires forall v :: 1 <= v <= 2 ==> Served(cfg, v, serve(v), again(v))
      modifies this
      ensures ok <==> SameKey(cfg, 2) && (cfg.ceiling >= 2 || SameKey(cfg, 1)) && 1 <= cfg.ceiling && (algo == 1 || algo == 2) && cfg.sinks
      ensures ok ==> accepts == (cfg.filters && cfg.ceiling >= 2) && hashFirst == (accepts && cfg.hashes) && integrity == (flags % 2 == 1)
      ensures ok ==> unread == [] && agreed == Session(agreed.version, accepts, hashFirst, integrity)
      ensures ok ==> agreed == SessionOf(cfg, Greeting(if cfg.ceiling >= 2 then 2 else 1))
    {
      integrity := Flag(flags);
      agreed := Session(0, false, false, false);
      Judged(mac, key, cfg, Greeting(2));
      assert Served(cfg, 2, serve(2), again(2));
      var reply := serve(2);
      var status := Shake(2, Judge(mac, cfg, Sent(2)), cfg, again(2), reply);
      if status == BAD_VERSION as int {
        Judged(mac, key, cfg, Greeting(1));
        assert Served(cfg, 1, serve(1), again(1));
        reply := serve(1);
        status := Shake(1, Judge(mac, cfg, Sent(1)), cfg, again(1), reply);
      }
      if status != 0 {
        return false, agreed;
      }
      agreed := SessionOf(cfg, Greeting(if cfg.ceiling >= 2 then 2 else 1));
      return true, agreed;
    }

    ghost function Sent(version: nat): (b: Bytes)
      requires Digests(mac) && |session| == SESSION && version < 0x1_0000
      ensures |b| == REQUEST
    {
      RequestParts(mac, key, Greeting(version));
      Request(mac, key, Greeting(version))
    }

    /** What the server sends in answer to a greeting. */
    ghost predicate Served(cfg: ServerConfig, version: nat, reply: Bytes, again: nat)
      requires Digests(mac) && |session| == SESSION && version < 0x1_0000
    {
      var verdict := Judge(mac, cfg, Sent(version));
      reply == ReplyTo(cfg, verdict) + Times(ReplyTo(cfg, verdict), again) && (verdict.Accepted? ==> again == 0)
    }

    ghost predicate SameKey(cfg: ServerConfig, version: nat) {
      mac(cfg.key, Signed(Greeting(version))) == mac(key, Signed(Greeting(version)))
    }
  }
}

/** The verdict with HMAC-SHA256. */
module HandshakeVerify {
  import opened Bytes
  import opened Handshake
  import Sha256

  /** `parse_and_verify_handshake`, and the server error that may replace its approval. */
  method ParseAndVerify(cfg: ServerConfig, b: Bytes) returns (v: Verdict)
    requires |b| == REQUEST && |cfg.key| < Sha256.MAX_MESSAGE
    ensures v == Judge(Sha256.Hmac, cfg, b)
  {
    if b[..4] != MAGIC {
      return Refused(BAD_MAGIC);
    }
    var expected := Digest(cfg.key, b[..SIGNED]);
    var same := Sha256.ConstantTimeEqual(expected, b[SIGNED..]);
    if !same {
      return Refused(AUTH_FAILED);
    }
    var version := UnLe(b[4..6]);
    if version < 1 || version > cfg.ceiling {
      return Refused(BAD_VERSION);
    }
    if !Supported(b[7]) {
      return Refused(BAD_ALGO);
    }
    if !cfg.sinks {
      return Refused(SERVER_ERROR);
    }
    return Accepted(Hello(version, b[6], b[7], b[8..SIGNED]));
  }

  method Digest(key: Bytes, message: Bytes) returns (d: Bytes)
    requires |key| < Sha256.MAX_MESSAGE && |message| == SIGNED
    ensures d == Sha256.Hmac(key, message) && |d| == 32
  {
    d := Sha256.HmacSha256(key, message);
  }

  /** `handshake`: the whole opening the client sends, command byte included. */
  method Opening(key: Bytes, h: Hello) returns (out: Bytes)
    requires WellFormed(h) && |key| < Sha256.MAX_MESSAGE
    ensures out == Request(Sha256.Hmac, key, h) + [UPLOAD]
  {
    out := MAGIC;
    out := out + Le(h.version, 2);
    out := out + [h.flags];
    out := out + [h.algo];
    out := out + h.session;
    assert out == Signed(h);
    var mac := Digest(key, out);
    out := out + mac;
    out := out + [UPLOAD];
  }

  lemma HmacDigests()
    ensures Digests(Sha256.Hmac)
  {
  }

  /** With HMAC-SHA256 and one key on both sides, a greeting in a spoken version and a supported
      algorithm is accepted with every field as sent. */
  lemma EqualKeysAgree(key: Bytes, cfg: ServerConfig, h: Hello)
    requires WellFormed(h) && cfg.key == key && 1 <= h.version <= cfg.ceiling && Supported(h.algo) && cfg.sinks
    ensures |Request(Sha256.Hmac, key, h)| == REQUEST
    ensures Judge(Sha256.Hmac, cfg, Request(Sha256.Hmac, key, h)) == Accepted(h)
  {
    HmacDigests();
    Judged(Sha256.Hmac, key, cfg, h);
  }
}
