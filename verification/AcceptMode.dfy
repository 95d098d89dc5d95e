/** Accept mode: the client asks before every unit (client/worker.h) and the server's filter
    answers (server/connection.cxx).

    Six actors interleave: the scheduler handing over tasks, the client worker, its network
    thread, the server's consumer thread, its loop thread draining the outbox, and the reply
    wire. The fields from `handed` on are history. */
module AcceptMode {
  import Bits

  const WINDOW: nat := 128
  const REPLY_SIZE: nat := 9

  /** The key of the i-th unit of a connection: a 64-bit counter. */
  function Key(i: nat): nat { i % Bits.WORD64 }

  datatype Pending<T> = Pending(key: nat, task: T, accepted: bool)

  /** A probe describes a unit; an upload carries only the key and the unit's bytes. */
  datatype Frame<T> = Probe(key: nat, task: T) | Upload(key: nat, body: T)

  datatype Reply = Reply(accept: bool, key: nat)

  datatype Client = CIdle | CDecide | CAwait | CRead(i: nat) | CUpload(i: nat) | CFailed

  datatype Server = SIdle | SSignal | SBroken

  datatype State<T> = State(
    queue: seq<T>,
    client: Client,
    nextKey: nat,
    pending: seq<Pending<T>>,
    net: seq<Frame<T>>,
    wire: seq<Frame<T>>,
    server: Server,
    accepted: map<nat, T>,
    outbox: seq<Reply>,
    asyncPending: bool,
    replies: seq<Reply>,
    handed: seq<T>,
    decisions: seq<bool>,
    served: nat,
    received: seq<(T, T)>,
    uploaded: seq<T>,
    skipped: seq<T>)

  datatype Label<T> =
    | Arrive(task: T)
    | ClientStep
    | NetSend
    | ServerStep(accept: bool)
    | LoopDrain

  predicate Enabled<T>(s: State<T>, l: Label<T>) {
    match l
    case Arrive(_) => true
    case ClientStep =>
      (match s.client
       case CIdle => s.queue != []
       case CDecide => true
       case CAwait => s.net == []
       case CRead(i) => i >= |s.pending| || s.replies != []
       case CUpload(_) => true
       case CFailed => false)
    case NetSend => s.net != []
    case ServerStep(_) => s.server.SSignal? || (s.server.SIdle? && s.wire != [])
    case LoopDrain => s.asyncPending
  }

  function Apply<T>(s: State<T>, l: Label<T>): State<T>
    requires Enabled(s, l)
  {
    match l
    case Arrive(task) => s.(queue := s.queue + [task])
    case ClientStep => StepClient(s)
    case NetSend => s.(net := s.net[1..], wire := s.wire + [s.net[0]])
    case ServerStep(accept) => StepServer(s, accept)
    case LoopDrain => s.(asyncPending := false, outbox := [], replies := s.replies + s.outbox)
  }

  /** `process` takes a task and probes it; `resolve` reads one reply per pending unit in order,
      then uploads what was accepted and skips the rest. */
  function StepClient<T>(s: State<T>): State<T>
    requires Enabled(s, ClientStep)
  {
    match s.client
    case CIdle =>
      var t := s.queue[0];
      s.(queue := s.queue[1..],
         handed := s.handed + [t],
         nextKey := Key(s.nextKey + 1),
         pending := s.pending + [Pending(s.nextKey, t, false)],
         net := s.net + [Probe(s.nextKey, t)],
         client := CDecide)
    case CDecide => s.(client := if |s.pending| >= WINDOW || s.queue == [] then CAwait else CIdle)
    case CAwait => s.(client := CRead(0))
    case CRead(i) =>
      if i >= |s.pending| then s.(client := CUpload(0))
      else if s.replies[0].key != s.pending[i].key then s.(client := CFailed)
      else s.(pending := s.pending[i := s.pending[i].(accepted := s.replies[0].accept)],
              replies := s.replies[1..],
              client := CRead(i + 1))
    case CUpload(i) =>
      if i >= |s.pending| then s.(pending := [], client := CIdle)
      else if s.pending[i].accepted then
        s.(net := s.net + [Upload(s.pending[i].key, s.pending[i].task)],
           uploaded := s.uploaded + [s.pending[i].task],
           client := CUpload(i + 1))
      else s.(skipped := s.skipped + [s.pending[i].task], client := CUpload(i + 1))
  }

  /** `handle_upload`: a probe is answered through the outbox, an accepted unit is looked up by
      its key, and an unknown key ends the connection. */
  function StepServer<T>(s: State<T>, accept: bool): State<T>
    requires Enabled(s, ServerStep(accept))
  {
    if s.server.SSignal? then s.(asyncPending := true, server := SIdle)
    else
      match s.wire[0]
      case Probe(key, t) =>
        s.(wire := s.wire[1..],
           accepted := if accept then s.accepted[key := t] else s.accepted,
           outbox := s.outbox + [Reply(accept, key)],
           server := SSignal,
           decisions := s.decisions + [accept],
           served := if s.accepted == map[] then |s.decisions| else s.served)
      case Upload(key, body) =>
        if key !in s.accepted then s.(server := SBroken)
        else s.(wire := s.wire[1..],
                accepted := s.accepted - {key},
                received := s.received + [(s.accepted[key], body)],
                served := NextAccepted(s.decisions, s.served) + 1)
  }

  /** The first accepted probe at or after `x`. */
  function NextAccepted(ds: seq<bool>, x: nat): nat
    decreases |ds| - x
  {
    if x < |ds| && !ds[x] then NextAccepted(ds, x + 1) else x
  }

  function Initial<T>(): State<T> {
    State([], CIdle, 0, [], [], [], SIdle, map[], [], false, [], [], [], 0, [], [], [])
  }

  // ---------------------------------------------------------------------------
  // What the channels carry, as functions of the history
  // ---------------------------------------------------------------------------

  /** Those of the first `k` tasks whose probe was answered `want`, in order. */
  function Pick<T>(ts: seq<T>, ds: seq<bool>, k: nat, want: bool): seq<T>
    requires k <= |ts| && k <= |ds|
  {
    if k == 0 then []
    else if ds[k - 1] == want then Pick(ts, ds, k - 1, want) + [ts[k - 1]]
    else Pick(ts, ds, k - 1, want)
  }

  function Pairs<T>(ts: seq<T>): seq<(T, T)> { seq(|ts|, i requires 0 <= i < |ts| => (ts[i], ts[i])) }

  function Uploads<T>(ts: seq<T>, ds: seq<bool>, x: nat, y: nat): seq<Frame<T>>
    requires y <= |ts| && y <= |ds|
    decreases y - x
  {
    if x >= y then []
    else if ds[x] then [Upload(Key(x), ts[x])] + Uploads(ts, ds, x + 1, y)
    else Uploads(ts, ds, x + 1, y)
  }

  function Probes<T>(ts: seq<T>, p: nat): seq<Frame<T>>
    requires p <= |ts|
  {
    seq(|ts| - p, j requires 0 <= j < |ts| - p => Probe(Key(p + j), ts[p + j]))
  }

  function Answers(ds: seq<bool>, r: nat): seq<Reply>
    requires r <= |ds|
  {
    seq(|ds| - r, j requires 0 <= j < |ds| - r => Reply(ds[r + j], Key(r + j)))
  }

  /** Index of the first pending unit among all units handed over. */
  function Base<T>(s: State<T>): int { |s.handed| - |s.pending| }

  /** How many replies the client has read. */
  function ReadSoFar<T>(s: State<T>): int {
    Base(s) + (if s.client.CRead? then s.client.i else if s.client.CUpload? then |s.pending| else 0)
  }

  /** How many units the client has uploaded or skipped. */
  function Dealt<T>(s: State<T>): int { Base(s) + (if s.client.CUpload? then s.client.i else 0) }

  // ---------------------------------------------------------------------------
  // The invariant
  // ---------------------------------------------------------------------------

  ghost predicate ClientShape<T>(s: State<T>) {
    && !s.client.CFailed?
    && |s.pending| <= WINDOW && |s.pending| <= |s.handed|
    && (s.client.CIdle? ==> |s.pending| < WINDOW && (s.pending != [] ==> s.queue != []))
    && (!s.client.CIdle? ==> s.pending != [])
    && (s.client.CRead? || s.client.CUpload? ==> s.client.i <= |s.pending|)
    && s.nextKey == Key(|s.handed|)
  }

  /** The pending units are the last ones handed over, keyed by their position. */
  ghost predicate PendingIsTail<T>(pending: seq<Pending<T>>, handed: seq<T>) {
    && |pending| <= |handed|
    && var base := |handed| - |pending|;
       forall j :: 0 <= j < |pending| ==> pending[j].key == Key(base + j) && pending[j].task == handed[base + j]
  }

  /** Where everybody is: `dealt` units are settled by the client, `read` replies read, and the
      server has answered |ds| of the `n` probes and received the uploads before `served`. */
  ghost predicate Indices(n: int, base: int, read: int, dealt: int, ds: seq<bool>, served: nat) {
    && 0 <= base <= dealt && base <= read && read <= |ds| <= n && dealt <= |ds|
    && (dealt > base ==> |ds| == n)
    && served <= |ds| && base <= served + WINDOW
    && (|ds| > base ==> served >= base)
    && (forall i :: dealt <= i < served ==> !ds[i])
  }

  ghost predicate VerdictsRead<T>(pending: seq<Pending<T>>, base: int, read: int, ds: seq<bool>) {
    forall j :: 0 <= j < |pending| && 0 <= base + j < read && base + j < |ds| ==> pending[j].accepted == ds[base + j]
  }

  ghost predicate RepliesFlow(inFlight: seq<Reply>, ds: seq<bool>, read: int) {
    0 <= read <= |ds| && inFlight == Answers(ds, read)
  }

  ghost predicate FramesFlow<T>(inFlight: seq<Frame<T>>, handed: seq<T>, ds: seq<bool>, served: nat, dealt: int) {
    && 0 <= dealt <= |ds| <= |handed|
    && inFlight == Uploads(handed, ds, served, dealt) + Probes(handed, |ds|)
  }

  /** `accepted_` is exactly the accepted and not yet uploaded probes. */
  ghost predicate AcceptedIsOutstanding<T>(accepted: map<nat, T>, handed: seq<T>, ds: seq<bool>, served: nat) {
    && served <= |ds| <= |handed|
    && (forall i :: served <= i < |ds| && ds[i] ==> Key(i) in accepted && accepted[Key(i)] == handed[i])
    && (forall k :: k in accepted ==> exists i :: served <= i < |ds| && ds[i] && Key(i) == k)
  }

  ghost predicate ClientLogs<T>(uploaded: seq<T>, skipped: seq<T>, handed: seq<T>, ds: seq<bool>, dealt: int) {
    && 0 <= dealt <= |ds| <= |handed|
    && uploaded == Pick(handed, ds, dealt, true)
    && skipped == Pick(handed, ds, dealt, false)
  }

  ghost predicate ServerLog<T>(received: seq<(T, T)>, handed: seq<T>, ds: seq<bool>, served: nat) {
    served <= |ds| <= |handed| && received == Pairs(Pick(handed, ds, served, true))
  }

  ghost predicate ClientInv<T>(s: State<T>) {
    && ClientShape(s)
    && PendingIsTail(s.pending, s.handed)
    && VerdictsRead(s.pending, Base(s), ReadSoFar(s), s.decisions)
  }

  ghost predicate IndexInv<T>(s: State<T>) {
    && Indices(|s.handed|, Base(s), ReadSoFar(s), Dealt(s), s.decisions, s.served)
    && (s.client.CUpload? ==> |s.decisions| == |s.handed|)
  }

  ghost predicate ReplyInv<T>(s: State<T>) {
    && RepliesFlow(s.replies + s.outbox, s.decisions, ReadSoFar(s))
    && (s.outbox != [] ==> s.asyncPending || s.server.SSignal?)
  }

  ghost predicate FrameInv<T>(s: State<T>) {
    FramesFlow(s.wire + s.net, s.handed, s.decisions, s.served, Dealt(s))
  }

  ghost predicate ServerInv<T>(s: State<T>) {
    && !s.server.SBroken?
    && AcceptedIsOutstanding(s.accepted, s.handed, s.decisions, s.served)
    && ServerLog(s.received, s.handed, s.decisions, s.served)
  }

  ghost predicate LogInv<T>(s: State<T>) {
    ClientLogs(s.uploaded, s.skipped, s.handed, s.decisions, Dealt(s))
  }

  ghost predicate Inv<T>(s: State<T>) {
    ClientInv(s) && IndexInv(s) && ReplyInv(s) && FrameInv(s) && ServerInv(s) && LogInv(s)
  }

  // ---------------------------------------------------------------------------
  // Facts about the histories
  // ---------------------------------------------------------------------------

  lemma {:induction false} PickFrame<T>(ts: seq<T>, ds: seq<bool>, ts': seq<T>, ds': seq<bool>, k: nat, want: bool)
    requires k <= |ts| && k <= |ds| && ts <= ts' && ds <= ds'
    ensures Pick(ts, ds, k, want) == Pick(ts', ds', k, want)
  {
    if k > 0 {
      PickFrame(ts, ds, ts', ds', k - 1, want);
    }
  }

  /** A stretch without a `want` adds nothing. */
  lemma {:induction false} PickSkip<T>(ts: seq<T>, ds: seq<bool>, x: nat, y: nat, want: bool)
    requires x <= y <= |ts| && y <= |ds|
    requires forall i :: x <= i < y ==> ds[i] != want
    ensures Pick(ts, ds, x, want) == Pick(ts, ds, y, want)
    decreases y
  {
    if x < y {
      PickSkip(ts, ds, x, y - 1, want);
    }
  }

  lemma PairsSnoc<T>(ts: seq<T>, t: T)
    ensures Pairs(ts + [t]) == Pairs(ts) + [(t, t)]
  {
  }

  lemma {:induction false} UploadsFrame<T>(ts: seq<T>, ds: seq<bool>, ts': seq<T>, ds': seq<bool>, x: nat, y: nat)
    requires y <= |ts| && y <= |ds| && ts <= ts' && ds <= ds'
    ensures Uploads(ts, ds, x, y) == Uploads(ts', ds', x, y)
    decreases y - x
  {
    if x < y {
      UploadsFrame(ts, ds, ts', ds', x + 1, y);
    }
  }

  lemma {:induction false} UploadsSnoc<T>(ts: seq<T>, ds: seq<bool>, x: nat, y: nat)
    requires y < |ts| && y < |ds| && (y < x ==> !ds[y])
    ensures Uploads(ts, ds, x, y + 1)
            == if ds[y] then Uploads(ts, ds, x, y) + [Upload(Key(y), ts[y])] else Uploads(ts, ds, x, y)
    decreases y - x
  {
    if x < y {
      UploadsSnoc(ts, ds, x + 1, y);
    } else if x == y {
      assert Uploads(ts, ds, y + 1, y + 1) == [];
    }
  }

  lemma {:induction false} NoUploads<T>(ts: seq<T>, ds: seq<bool>, x: nat, y: nat)
    requires y <= |ts| && y <= |ds|
    ensures Uploads(ts, ds, x, y) == [] <==> forall i :: x <= i < y ==> !ds[i]
    decreases y - x
  {
    if x < y && !ds[x] {
      NoUploads(ts, ds, x + 1, y);
      assert (forall i :: x <= i < y ==> !ds[i]) <==> (forall i :: x + 1 <= i < y ==> !ds[i]);
    }
  }

  lemma {:induction false} FirstUpload<T>(ts: seq<T>, ds: seq<bool>, x: nat, y: nat)
    requires y <= |ts| && y <= |ds| && Uploads(ts, ds, x, y) != []
    ensures var i := NextAccepted(ds, x);
            && x <= i < y && ds[i] && (forall j :: x <= j < i ==> !ds[j])
            && Uploads(ts, ds, x, y) == [Upload(Key(i), ts[i])] + Uploads(ts, ds, i + 1, y)
    decreases y - x
  {
    if ds[x] {
      assert NextAccepted(ds, x) == x;
    } else {
      FirstUpload(ts, ds, x + 1, y);
      assert NextAccepted(ds, x) == NextAccepted(ds, x + 1);
    }
  }

  /** The first upload still in flight is the next accepted unit; with none, there is none. */
  lemma UploadsHead<T>(ts: seq<T>, ds: seq<bool>, x: nat, y: nat)
    requires y <= |ts| && y <= |ds|
    ensures Uploads(ts, ds, x, y) == [] ==> forall i :: x <= i < y ==> !ds[i]
    ensures Uploads(ts, ds, x, y) != [] ==>
              var i := NextAccepted(ds, x);
              && x <= i < y && ds[i] && (forall j :: x <= j < i ==> !ds[j])
              && Uploads(ts, ds, x, y) == [Upload(Key(i), ts[i])] + Uploads(ts, ds, i + 1, y)
  {
    NoUploads(ts, ds, x, y);
    if Uploads(ts, ds, x, y) != [] {
      FirstUpload(ts, ds, x, y);
    }
  }

  lemma ProbesSnoc<T>(ts: seq<T>, t: T, p: nat)
    requires p <= |ts|
    ensures Probes(ts + [t], p) == Probes(ts, p) + [Probe(Key(|ts|), t)]
  {
  }

  lemma ProbesHead<T>(ts: seq<T>, p: nat)
    requires p < |ts|
    ensures Probes(ts, p) == [Probe(Key(p), ts[p])] + Probes(ts, p + 1)
  {
  }

  lemma AnswersSnoc(ds: seq<bool>, d: bool, r: nat)
    requires r <= |ds|
    ensures Answers(ds + [d], r) == Answers(ds, r) + [Reply(d, Key(|ds|))]
  {
  }

  lemma KeysDiffer(i: nat, j: nat)
    requires i != j && i <= j + WINDOW && j <= i + WINDOW
    ensures Key(i) != Key(j)
  {
  }

  // ---------------------------------------------------------------------------
  // Client steps
  // ---------------------------------------------------------------------------

  lemma HandOverKeepsHistory<T>(s: State<T>)
    requires IndexInv(s) && FrameInv(s) && ServerInv(s) && LogInv(s)
    requires s.client.CIdle? && s.queue != [] && s.nextKey == Key(|s.handed|)
    ensures FrameInv(StepClient(s)) && ServerInv(StepClient(s)) && LogInv(StepClient(s))
  {
    var s', t := StepClient(s), s.queue[0];
    assert s'.wire + s'.net == s.wire + s.net + [Probe(s.nextKey, t)];
    ProbesSnoc(s.handed, t, |s.decisions|);
    UploadsFrame(s.handed, s.decisions, s'.handed, s.decisions, s.served, Dealt(s));
    PickFrame(s.handed, s.decisions, s'.handed, s.decisions, Dealt(s), true);
    PickFrame(s.handed, s.decisions, s'.handed, s.decisions, Dealt(s), false);
    PickFrame(s.handed, s.decisions, s'.handed, s.decisions, s.served, true);
  }

  lemma HandOverKeepsClient<T>(s: State<T>)
    requires ClientInv(s) && s.client.CIdle? && s.queue != []
    ensures ClientInv(StepClient(s))
  {
    var s', n := StepClient(s), |s.handed|;
    assert s'.pending[|s.pending|] == Pending(Key(n), s'.handed[n], false);
    NextKeyFollows(n);
  }

  lemma NextKeyFollows(n: nat)
    ensures Key(Key(n) + 1) == Key(n + 1)
  {
  }

  lemma HandOverKeepsInv<T>(s: State<T>)
    requires Inv(s) && s.client.CIdle? && s.queue != []
    ensures Inv(StepClient(s))
  {
    HandOverKeepsHistory(s);
    HandOverKeepsClient(s);
  }

  /** The reply at the front of the wire answers the unit being resolved. */
  lemma ReplyMatchesPending<T>(s: State<T>)
    requires ClientInv(s) && ReplyInv(s) && s.client.CRead? && s.client.i < |s.pending| && s.replies != []
    ensures ReadSoFar(s) < |s.decisions|
    ensures s.replies[0] == Reply(s.decisions[ReadSoFar(s)], s.pending[s.client.i].key)
  {
    assert s.replies[0] == (s.replies + s.outbox)[0];
  }

  lemma ReadKeepsReplies<T>(s: State<T>)
    requires ClientInv(s) && ReplyInv(s) && s.client.CRead? && s.client.i < |s.pending| && s.replies != []
    ensures ReplyInv(StepClient(s))
  {
    ReplyMatchesPending(s);
    var s' := StepClient(s);
    assert s'.replies + s'.outbox == (s.replies + s.outbox)[1..];
    assert Answers(s.decisions, ReadSoFar(s))[1..] == Answers(s.decisions, ReadSoFar(s) + 1);
  }

  lemma ReadVerdict<T>(pending: seq<Pending<T>>, handed: seq<T>, ds: seq<bool>, i: nat, accept: bool)
    requires PendingIsTail(pending, handed) && i < |pending|
    requires var base := |handed| - |pending|;
             base + i < |ds| && ds[base + i] == accept && VerdictsRead(pending, base, base + i, ds)
    ensures var after, base := pending[i := pending[i].(accepted := accept)], |handed| - |pending|;
            PendingIsTail(after, handed) && VerdictsRead(after, base, base + i + 1, ds)
  {
  }

  lemma ReadKeepsClient<T>(s: State<T>)
    requires ClientInv(s) && s.client.CRead? && s.client.i < |s.pending| && s.replies != []
    requires ReadSoFar(s) < |s.decisions|
    requires s.replies[0] == Reply(s.decisions[ReadSoFar(s)], s.pending[s.client.i].key)
    ensures ClientInv(StepClient(s))
  {
    ReadVerdict(s.pending, s.handed, s.decisions, s.client.i, s.replies[0].accept);
  }

  lemma ReadKeepsInv<T>(s: State<T>)
    requires Inv(s) && s.client.CRead? && s.client.i < |s.pending| && s.replies != []
    ensures Inv(StepClient(s))
  {
    ReplyMatchesPending(s);
    ReadKeepsReplies(s);
    ReadKeepsClient(s);
  }

  lemma UploadKeepsHistory<T>(s: State<T>)
    requires ClientInv(s) && IndexInv(s) && FrameInv(s) && LogInv(s) && s.client.CUpload? && s.client.i < |s.pending|
    ensures FrameInv(StepClient(s)) && LogInv(StepClient(s))
  {
    var s', i := StepClient(s), s.client.i;
    var d := Dealt(s);
    assert s.pending[i].accepted == s.decisions[d] && s.pending[i].task == s.handed[d] && s.pending[i].key == Key(d);
    UploadsSnoc(s.handed, s.decisions, s.served, d);
    assert Probes(s.handed, |s.decisions|) == [];
    assert s'.wire + s'.net == s.wire + s.net + s'.net[|s.net|..];
  }

  lemma UploadKeepsInv<T>(s: State<T>)
    requires Inv(s) && s.client.CUpload? && s.client.i < |s.pending|
    ensures Inv(StepClient(s))
  {
    UploadKeepsHistory(s);
    UploadKeepsClient(s);
    hide FrameInv, LogInv;
  }

  lemma UploadKeepsClient<T>(s: State<T>)
    requires ClientInv(s) && IndexInv(s) && s.client.CUpload? && s.client.i < |s.pending|
    ensures ClientInv(StepClient(s))
  {
  }

  lemma TurnKeepsInv<T>(s: State<T>)
    requires Inv(s) && Enabled(s, ClientStep) && (s.client.CDecide? || s.client.CAwait?)
    ensures Inv(StepClient(s))
  {
  }

  lemma EndOfLoopKeepsInv<T>(s: State<T>)
    requires Inv(s) && (s.client.CRead? || s.client.CUpload?) && s.client.i >= |s.pending|
    ensures Inv(StepClient(s))
  {
  }

  lemma ClientKeepsInv<T>(s: State<T>)
    requires Inv(s) && Enabled(s, ClientStep)
    ensures Inv(StepClient(s))
  {
    if s.client.CIdle? {
      HandOverKeepsInv(s);
    } else if s.client.CRead? && s.client.i < |s.pending| {
      ReadKeepsInv(s);
    } else if s.client.CUpload? && s.client.i < |s.pending| {
      UploadKeepsInv(s);
    } else if s.client.CRead? || s.client.CUpload? {
      EndOfLoopKeepsInv(s);
    } else {
      TurnKeepsInv(s);
    }
  }

  // ---------------------------------------------------------------------------
  // Server steps
  // ---------------------------------------------------------------------------

  /** The next frame is the next unserved upload if there is one, and otherwise the next probe. */
  lemma NextFrame<T>(s: State<T>)
    requires IndexInv(s) && FrameInv(s) && s.wire != []
    ensures var i, rest := NextAccepted(s.decisions, s.served), s.wire[1..] + s.net;
            if s.wire[0].Upload? then
              && s.served <= i < Dealt(s) && s.decisions[i] && (forall j :: s.served <= j < i ==> !s.decisions[j])
              && s.wire[0] == Upload(Key(i), s.handed[i])
              && FramesFlow(rest, s.handed, s.decisions, i + 1, Dealt(s))
            else
              && |s.decisions| < |s.handed| && s.wire[0] == Probe(Key(|s.decisions|), s.handed[|s.decisions|])
              && (forall j :: s.served <= j < Dealt(s) ==> !s.decisions[j])
              && rest == Probes(s.handed, |s.decisions| + 1)
  {
    var ups, d := Uploads(s.handed, s.decisions, s.served, Dealt(s)), |s.decisions|;
    var flow := s.wire + s.net;
    assert s.wire[0] == flow[0] && s.wire[1..] + s.net == flow[1..];
    UploadsHead(s.handed, s.decisions, s.served, Dealt(s));
    if ups != [] {
      assert flow[1..] == ups[1..] + Probes(s.handed, d);
    } else {
      assert flow == Probes(s.handed, d);
      ProbesHead(s.handed, d);
    }
  }

  lemma ProbeKeepsReplies<T>(s: State<T>, accept: bool)
    requires ReplyInv(s) && s.server.SIdle? && s.wire != []
    requires s.wire[0].Probe? && s.wire[0].key == Key(|s.decisions|)
    ensures ReplyInv(StepServer(s, accept))
  {
    var s' := StepServer(s, accept);
    AnswersSnoc(s.decisions, accept, ReadSoFar(s));
    assert s'.replies + s'.outbox == s.replies + s.outbox + [Reply(accept, s.wire[0].key)];
  }

  lemma EmptyMeansNoneOutstanding<T>(s: State<T>)
    requires ServerInv(s) && s.accepted == map[]
    ensures forall i :: s.served <= i < |s.decisions| ==> !s.decisions[i]
  {
  }

  lemma ProbeKeepsIndices<T>(s: State<T>, accept: bool)
    requires IndexInv(s) && ServerInv(s) && s.server.SIdle? && s.wire != [] && s.wire[0].Probe?
    requires |s.decisions| < |s.handed| && (forall j :: s.served <= j < Dealt(s) ==> !s.decisions[j])
    ensures IndexInv(StepServer(s, accept))
  {
    if s.accepted == map[] {
      EmptyMeansNoneOutstanding(s);
    } else {
      assert |s.decisions| > Base(s);
    }
  }

  /** Answering probe p: the outstanding set grows by it if it is accepted. */
  lemma AnswerOutstanding<T>(accepted: map<nat, T>, handed: seq<T>, ds: seq<bool>, served: nat, accept: bool)
    requires AcceptedIsOutstanding(accepted, handed, ds, served) && |ds| < |handed| && |ds| <= served + WINDOW
    ensures AcceptedIsOutstanding(if accept then accepted[Key(|ds|) := handed[|ds|]] else accepted, handed, ds + [accept], served)
  {
    var p, after, ds' := |ds|, if accept then accepted[Key(|ds|) := handed[|ds|]] else accepted, ds + [accept];
    forall i | served <= i < |ds'| && ds'[i]
      ensures Key(i) in after && after[Key(i)] == handed[i]
    {
      if i < p { KeysDiffer(i, p); }
    }
    forall k | k in after ensures exists i :: served <= i < |ds'| && ds'[i] && Key(i) == k {
      if accept && k == Key(p) {
        assert ds'[p];
      } else {
        var i :| served <= i < p && ds[i] && Key(i) == k;
        assert ds'[i];
      }
    }
  }

  /** With nothing outstanding, the mark can move up to the probe being answered. */
  lemma SkipToProbe<T>(accepted: map<nat, T>, received: seq<(T, T)>, handed: seq<T>, ds: seq<bool>, served: nat)
    requires AcceptedIsOutstanding(accepted, handed, ds, served) && ServerLog(received, handed, ds, served) && accepted == map[]
    ensures AcceptedIsOutstanding(accepted, handed, ds, |ds|) && ServerLog(received, handed, ds, |ds|)
  {
    assert forall i :: served <= i < |ds| && ds[i] ==> Key(i) in accepted;
    PickSkip(handed, ds, served, |ds|, true);
  }

  lemma ProbeKeepsAccepted<T>(s: State<T>, accept: bool)
    requires IndexInv(s) && ServerInv(s) && s.server.SIdle? && s.wire != [] && |s.pending| <= WINDOW
    requires |s.decisions| < |s.handed| && s.wire[0] == Probe(Key(|s.decisions|), s.handed[|s.decisions|])
    ensures ServerInv(StepServer(s, accept))
  {
    var s' := StepServer(s, accept);
    if s.accepted == map[] {
      SkipToProbe(s.accepted, s.received, s.handed, s.decisions, s.served);
    }
    AnswerOutstanding(s.accepted, s.handed, s.decisions, s'.served, accept);
    PickFrame(s.handed, s.decisions, s.handed, s'.decisions, s'.served, true);
  }

  lemma ProbeKeepsFrames<T>(s: State<T>, accept: bool)
    requires IndexInv(s) && FrameInv(s) && LogInv(s) && ServerInv(s) && s.server.SIdle? && s.wire != [] && s.wire[0].Probe?
    ensures FrameInv(StepServer(s, accept)) && LogInv(StepServer(s, accept))
  {
    NextFrame(s);
    var s', d := StepServer(s, accept), Dealt(s);
    if s.accepted == map[] {
      EmptyMeansNoneOutstanding(s);
    }
    UploadsHead(s.handed, s'.decisions, s'.served, d);
    assert Uploads(s.handed, s'.decisions, s'.served, d) == [];
    PickFrame(s.handed, s.decisions, s.handed, s'.decisions, d, true);
    PickFrame(s.handed, s.decisions, s.handed, s'.decisions, d, false);
  }

  lemma ProbeKeepsInv<T>(s: State<T>, accept: bool)
    requires Inv(s) && s.server.SIdle? && s.wire != [] && s.wire[0].Probe?
    ensures Inv(StepServer(s, accept))
  {
    ProbeKeepsClient(s, accept);
    NextFrame(s);
    hide FrameInv, ReplyInv, LogInv, ServerInv, IndexInv;
    ProbeKeepsReplies(s, accept);
    ProbeKeepsIndices(s, accept);
    ProbeKeepsAccepted(s, accept);
    ProbeKeepsFrames(s, accept);
  }

  lemma ProbeKeepsClient<T>(s: State<T>, accept: bool)
    requires ClientInv(s) && IndexInv(s) && s.server.SIdle? && s.wire != [] && s.wire[0].Probe?
    ensures ClientInv(StepServer(s, accept))
  {
  }

  lemma ReceiveKeepsServer<T>(s: State<T>, accept: bool)
    requires IndexInv(s) && FrameInv(s) && ServerInv(s) && s.server.SIdle? && s.wire != [] && s.wire[0].Upload?
    requires |s.pending| <= WINDOW
    ensures ServerInv(StepServer(s, accept)) && IndexInv(StepServer(s, accept))
  {
    NextFrame(s);
    var s', i := StepServer(s, accept), NextAccepted(s.decisions, s.served);
    assert Key(i) in s.accepted;
    forall j | i + 1 <= j < |s.decisions| && s.decisions[j]
      ensures Key(j) in s'.accepted && s'.accepted[Key(j)] == s.handed[j]
    {
      KeysDiffer(i, j);
    }
    forall k | k in s'.accepted ensures exists j :: s'.served <= j < |s.decisions| && s.decisions[j] && Key(j) == k {
      var j :| s.served <= j < |s.decisions| && s.decisions[j] && Key(j) == k;
      assert j != i;
    }
    PickSkip(s.handed, s.decisions, s.served, i, true);
    PairsSnoc(Pick(s.handed, s.decisions, i, true), s.handed[i]);
  }

  lemma ReceiveKeepsFrames<T>(s: State<T>, accept: bool)
    requires IndexInv(s) && FrameInv(s) && LogInv(s) && ServerInv(s) && s.server.SIdle? && s.wire != [] && s.wire[0].Upload?
    ensures FrameInv(StepServer(s, accept)) && LogInv(StepServer(s, accept))
  {
    NextFrame(s);
  }

  lemma ReceiveKeepsClient<T>(s: State<T>, accept: bool)
    requires ClientInv(s) && ReplyInv(s) && s.server.SIdle? && s.wire != [] && s.wire[0].Upload? && s.wire[0].key in s.accepted
    ensures ClientInv(StepServer(s, accept)) && ReplyInv(StepServer(s, accept))
  {
  }

  lemma ReceiveKeepsInv<T>(s: State<T>, accept: bool)
    requires Inv(s) && s.server.SIdle? && s.wire != [] && s.wire[0].Upload?
    ensures Inv(StepServer(s, accept))
  {
    ReceiveKeepsServer(s, accept);
    ReceiveKeepsFrames(s, accept);
    assert s.wire[0].key in s.accepted;
    ReceiveKeepsClient(s, accept);
  }

  /** Moving a frame or replies along, or a signal, touches none of the other parts. */
  lemma StaysClient<T>(s: State<T>, t: State<T>)
    requires ClientInv(s) && IndexInv(s)
    requires t.client == s.client && t.nextKey == s.nextKey && t.pending == s.pending && t.handed == s.handed
    requires t.decisions == s.decisions && t.served == s.served && (s.queue != [] ==> t.queue != [])
    ensures ClientInv(t) && IndexInv(t)
  {
  }

  lemma StaysServer<T>(s: State<T>, t: State<T>)
    requires ServerInv(s) && LogInv(s) && !t.server.SBroken?
    requires t.client == s.client && t.pending == s.pending && t.handed == s.handed && t.decisions == s.decisions
    requires t.served == s.served && t.accepted == s.accepted && t.received == s.received
    requires t.uploaded == s.uploaded && t.skipped == s.skipped
    ensures ServerInv(t) && LogInv(t)
  {
  }

  lemma SendKeepsInv<T>(s: State<T>)
    requires Inv(s) && s.net != []
    ensures Inv(Apply(s, NetSend))
  {
    var t := Apply(s, NetSend);
    StaysClient(s, t);
    StaysServer(s, t);
    SendKeepsFrames(s);
    hide FrameInv;
    assert ReplyInv(t);
  }

  lemma SendKeepsFrames<T>(s: State<T>)
    requires FrameInv(s) && s.net != []
    ensures FrameInv(Apply(s, NetSend))
  {
    assert s.wire + s.net == s.wire + [s.net[0]] + s.net[1..];
  }

  lemma DrainKeepsInv<T>(s: State<T>)
    requires Inv(s) && s.asyncPending
    ensures Inv(Apply(s, LoopDrain))
  {
    var t := Apply(s, LoopDrain);
    StaysClient(s, t);
    StaysServer(s, t);
    DrainKeepsReplies(s);
    assert FrameInv(t);
  }

  lemma DrainKeepsReplies<T>(s: State<T>)
    requires ReplyInv(s) && s.asyncPending
    ensures ReplyInv(Apply(s, LoopDrain))
  {
    assert s.replies + s.outbox + [] == s.replies + s.outbox;
  }

  lemma SignalKeepsInv<T>(s: State<T>, l: Label<T>)
    requires Inv(s) && Enabled(s, l) && (l.Arrive? || (l.ServerStep? && s.server.SSignal?))
    ensures Inv(Apply(s, l))
  {
    var t := Apply(s, l);
    StaysClient(s, t);
    StaysServer(s, t);
    assert ReplyInv(t) && FrameInv(t);
  }

  lemma StepKeepsInv<T>(s: State<T>, l: Label<T>)
    requires Inv(s) && Enabled(s, l)
    ensures Inv(Apply(s, l))
  {
    match l
    case ClientStep => ClientKeepsInv(s);
    case ServerStep(accept) =>
      if s.server.SSignal? {
        SignalKeepsInv(s, l);
      } else if s.wire[0].Probe? {
        ProbeKeepsInv(s, accept);
      } else {
        ReceiveKeepsInv(s, accept);
      }
    case Arrive(_) => SignalKeepsInv(s, l);
    case NetSend => SendKeepsInv(s);
    case LoopDrain => DrainKeepsInv(s);
  }

  // ---------------------------------------------------------------------------
  // Whole runs
  // ---------------------------------------------------------------------------

  ghost predicate Runnable<T>(s: State<T>, ls: seq<Label<T>>)
    decreases |ls|
  {
    ls == [] || (Enabled(s, ls[0]) && Runnable(Apply(s, ls[0]), ls[1..]))
  }

  ghost function Run<T>(s: State<T>, ls: seq<Label<T>>): State<T>
    requires Runnable(s, ls)
    decreases |ls|
  {
    if ls == [] then s else Run(Apply(s, ls[0]), ls[1..])
  }

  ghost predicate Reachable<T(!new)>(s: State<T>) {
    exists ls :: Runnable(Initial(), ls) && Run(Initial(), ls) == s
  }

  lemma {:induction false} RunKeepsInv<T>(s: State<T>, ls: seq<Label<T>>)
    requires Inv(s) && Runnable(s, ls)
    ensures Inv(Run(s, ls))
    decreases |ls|
  {
    if ls != [] {
      StepKeepsInv(s, ls[0]);
      RunKeepsInv(Apply(s, ls[0]), ls[1..]);
    }
  }

  lemma ReachableInv<T(!new)>(s: State<T>)
    requires Reachable(s)
    ensures Inv(s)
  {
    var ls :| Runnable(Initial<T>(), ls) && Run(Initial<T>(), ls) == s;
    RunKeepsInv(Initial<T>(), ls);
  }

  /** Lockstep: neither side ever meets a key it does not expect, the window is respected, and
      units are uploaded and skipped in the order they were handed over, each at most once and
      as the filter said. Keys may wrap around. */
  lemma Lockstep<T(!new)>(s: State<T>)
    requires Reachable(s)
    ensures !s.client.CFailed? && !s.server.SBroken?
    ensures s.client.CRead? && s.client.i < |s.pending| && s.replies != [] ==>
              s.replies[0].key == s.pending[s.client.i].key
    ensures |s.pending| <= 128 && REPLY_SIZE * |s.replies + s.outbox| <= 9 * 128
    ensures s.client.CIdle? && s.pending != [] ==> s.queue != []
    ensures 0 <= Dealt(s) <= |s.decisions| <= |s.handed| && s.served <= |s.decisions|
    ensures 0 <= ReadSoFar(s) <= |s.decisions| && s.replies + s.outbox == Answers(s.decisions, ReadSoFar(s))
    ensures s.uploaded == Pick(s.handed, s.decisions, Dealt(s), true)
    ensures s.skipped == Pick(s.handed, s.decisions, Dealt(s), false)
    ensures s.received == Pairs(Pick(s.handed, s.decisions, s.served, true))
  {
    ReachableInv(s);
    if s.client.CRead? && s.client.i < |s.pending| && s.replies != [] {
      ReplyMatchesPending(s);
    }
  }

  /** `accepted_` holds the accepted, not yet uploaded probes, under their own keys. */
  lemma AcceptedExactly<T(!new)>(s: State<T>)
    requires Reachable(s)
    ensures s.served <= |s.decisions| <= |s.handed|
    ensures forall k :: k in s.accepted ==>
              exists i :: s.served <= i < |s.decisions| && s.decisions[i] && Key(i) == k && s.handed[i] == s.accepted[k]
    ensures forall i :: s.served <= i < |s.decisions| && s.decisions[i] ==>
              Key(i) in s.accepted && s.accepted[Key(i)] == s.handed[i]
  {
    ReachableInv(s);
  }

  /** Nothing left to do anywhere. */
  ghost predicate Settled<T>(s: State<T>) {
    && s.queue == [] && s.client.CIdle? && s.pending == []
    && s.net == [] && s.wire == [] && s.server.SIdle? && s.outbox == [] && s.replies == []
  }

  /** No deadlock: short of having finished, some actor other than the scheduler can move. */
  lemma NoDeadlock<T(!new)>(s: State<T>) returns (l: Label<T>)
    requires Reachable(s) && !Settled(s)
    ensures !l.Arrive? && Enabled(s, l)
  {
    ReachableInv(s);
    if s.server.SSignal? || s.wire != [] {
      l := ServerStep(true);
    } else if s.net != [] {
      l := NetSend;
    } else if s.asyncPending {
      l := LoopDrain;
    } else {
      l := ClientStep;
      assert s.replies + s.outbox == s.replies;
      assert Probes(s.handed, |s.decisions|) == [];
    }
  }

  /** How many more steps the work in the system can cause. */
  function Fuel<T>(s: State<T>): nat {
    16 * |s.queue| + 4 * |s.net| + 3 * |s.wire|
    + (if s.server.SSignal? then 3 else if s.server.SIdle? then 1 else 0)
    + (if s.asyncPending then 1 else 0)
    + (match s.client
       case CIdle => 6 * |s.pending|
       case CDecide => 6 * |s.pending| + 5
       case CAwait => 6 * |s.pending| + 4
       case CRead(i) => if i <= |s.pending| then 6 * |s.pending| - i + 3 else 0
       case CUpload(i) => if i <= |s.pending| then 5 * (|s.pending| - i) + 2 else 0
       case CFailed => 0)
  }

  lemma ClientBurnsFuel<T>(s: State<T>)
    requires ClientShape(s) && Enabled(s, ClientStep)
    ensures Fuel(StepClient(s)) < Fuel(s)
  {
  }

  lemma StepBurnsFuel<T>(s: State<T>, l: Label<T>)
    requires ClientShape(s) && Enabled(s, l) && !l.Arrive?
    ensures Fuel(Apply(s, l)) < Fuel(s)
  {
    if l.ClientStep? {
      ClientBurnsFuel(s);
    }
  }

  /** Once the scheduler stops, every schedule is finite. */
  lemma {:induction false} RunsAreFinite<T>(s: State<T>, ls: seq<Label<T>>)
    requires Inv(s) && Runnable(s, ls) && forall i :: 0 <= i < |ls| ==> !ls[i].Arrive?
    ensures |ls| <= Fuel(s)
    decreases |ls|
  {
    if ls != [] {
      StepBurnsFuel(s, ls[0]);
      StepKeepsInv(s, ls[0]);
      RunsAreFinite(Apply(s, ls[0]), ls[1..]);
    }
  }

  // ---------------------------------------------------------------------------
  // What came in and what was decided
  // ---------------------------------------------------------------------------

  /** The tasks the scheduler handed in during a run. */
  function Arrivals<T>(ls: seq<Label<T>>): seq<T> {
    if ls == [] then [] else if ls[0].Arrive? then [ls[0].task] + Arrivals(ls[1..]) else Arrivals(ls[1..])
  }

  /** The filter's answers during a run: one for each step in which the server meets a probe. */
  ghost function Rulings<T>(s: State<T>, ls: seq<Label<T>>): seq<bool>
    requires Runnable(s, ls)
    decreases |ls|
  {
    if ls == [] then []
    else if ls[0].ServerStep? && s.server.SIdle? && s.wire[0].Probe? then [ls[0].accept] + Rulings(Apply(s, ls[0]), ls[1..])
    else Rulings(Apply(s, ls[0]), ls[1..])
  }

  /** No task is lost, made up or reordered on its way in. */
  lemma {:induction false} ArrivalsAreHandedOver<T>(s: State<T>, ls: seq<Label<T>>)
    requires Runnable(s, ls)
    ensures Run(s, ls).handed + Run(s, ls).queue == s.handed + s.queue + Arrivals(ls)
    decreases |ls|
  {
    if ls == [] {
      assert s.handed + s.queue + [] == s.handed + s.queue;
    } else {
      var t := Apply(s, ls[0]);
      ArrivalsAreHandedOver(t, ls[1..]);
      if ls[0].Arrive? {
        OneMoreArrival(s.handed, s.queue, ls[0].task, Arrivals(ls[1..]));
      } else {
        assert t.handed + t.queue == s.handed + s.queue;
      }
    }
  }

  lemma OneMoreArrival<T>(handed: seq<T>, queue: seq<T>, t: T, more: seq<T>)
    ensures handed + (queue + [t]) + more == handed + queue + ([t] + more)
  {
  }

  /** What the server goes by is what the filter answered. */
  lemma {:induction false} RulingsAreKept<T>(s: State<T>, ls: seq<Label<T>>)
    requires Runnable(s, ls)
    ensures Run(s, ls).decisions == s.decisions + Rulings(s, ls)
    decreases |ls|
  {
    if ls == [] {
      assert s.decisions + [] == s.decisions;
    } else {
      RulingsAreKept(Apply(s, ls[0]), ls[1..]);
    }
  }

  /** From the start: the queue holds what is not handed over yet, and nothing else is missing. */
  lemma FromTheStart<T>(ls: seq<Label<T>>)
    requires Runnable(Initial<T>(), ls)
    ensures var s := Run(Initial<T>(), ls);
            && s.handed + s.queue == Arrivals(ls) && s.decisions == Rulings(Initial<T>(), ls)
            && s.handed <= Arrivals(ls) && (s.queue == [] ==> s.handed == Arrivals(ls))
  {
    ArrivalsAreHandedOver(Initial<T>(), ls);
    RulingsAreKept(Initial<T>(), ls);
    var s := Run(Initial<T>(), ls);
    assert [] + [] + Arrivals(ls) == Arrivals(ls) && [] + Rulings(Initial<T>(), ls) == Rulings(Initial<T>(), ls);
    assert s.handed + [] == s.handed;
  }

  /** The n-th question to the filter is about the n-th task that arrived. */
  lemma AskedInOrder<T(!new)>(ls: seq<Label<T>>)
    requires Runnable(Initial<T>(), ls)
    requires var s := Run(Initial<T>(), ls); s.server.SIdle? && s.wire != [] && s.wire[0].Probe?
    ensures var s, n := Run(Initial<T>(), ls), |Rulings(Initial<T>(), ls)|;
            n < |Arrivals(ls)| && s.wire[0] == Probe(Key(n), Arrivals(ls)[n])
  {
    var s := Run(Initial<T>(), ls);
    RunKeepsInv(Initial<T>(), ls);
    NextFrame(s);
    FromTheStart(ls);
  }

  /** Replies are read only once every probe of the window is on the wire. */
  ghost predicate ReadsAfterSending<T>(s: State<T>) { s.client.CRead? ==> s.net == [] }

  lemma {:induction false} RunReadsAfterSending<T>(s: State<T>, ls: seq<Label<T>>)
    requires ReadsAfterSending(s) && Runnable(s, ls)
    ensures ReadsAfterSending(Run(s, ls))
    decreases |ls|
  {
    if ls != [] {
      RunReadsAfterSending(Apply(s, ls[0]), ls[1..]);
    }
  }

  /** A window is resolved exactly when it is full or nothing more is queued, and its replies are
      awaited only after its probes are out. */
  lemma WindowsAreFilled<T(!new)>(ls: seq<Label<T>>)
    requires Runnable(Initial<T>(), ls)
    ensures var s := Run(Initial<T>(), ls);
            && (s.client.CRead? ==> s.net == [])
            && (s.client.CDecide? ==> (Apply(s, ClientStep).client.CAwait? <==> |s.pending| == 128 || s.queue == []))
            && (s.client.CDecide? && !Apply(s, ClientStep).client.CAwait? ==> Apply(s, ClientStep).client.CIdle?)
            && (s.client.CIdle? && s.queue != [] ==> Apply(s, ClientStep).client.CDecide?)
  {
    RunKeepsInv(Initial<T>(), ls);
    RunReadsAfterSending(Initial<T>(), ls);
  }

  /** And when it ends, every task that arrived has been uploaded and received, or skipped, exactly
      once, in order of arrival, as the filter ruled; the server waits for nothing. */
  lemma SettledOutcome<T(!new)>(ls: seq<Label<T>>)
    requires Runnable(Initial<T>(), ls) && Settled(Run(Initial<T>(), ls))
    ensures var s, all, ds := Run(Initial<T>(), ls), Arrivals(ls), Rulings(Initial<T>(), ls);
            && |ds| == |all|
            && s.uploaded == Pick(all, ds, |all|, true) && s.skipped == Pick(all, ds, |all|, false)
            && s.received == Pairs(s.uploaded) && s.accepted == map[]
  {
    var s := Run(Initial<T>(), ls);
    RunKeepsInv(Initial<T>(), ls);
    FromTheStart(ls);
    SettledMeans(s);
  }

  lemma SettledMeans<T>(s: State<T>)
    requires Inv(s) && Settled(s)
    ensures |s.decisions| == |s.handed|
    ensures s.uploaded == Pick(s.handed, s.decisions, |s.handed|, true)
    ensures s.skipped == Pick(s.handed, s.decisions, |s.handed|, false)
    ensures s.received == Pairs(s.uploaded)
    ensures s.accepted == map[]
  {
    var n := |s.handed|;
    UploadsHead(s.handed, s.decisions, s.served, n);
    assert s.wire + s.net == [];
    PickSkip(s.handed, s.decisions, s.served, n, true);
  }

  /** Uploaded and skipped units together are all units, none lost and none twice. */
  lemma {:induction false} PickPartitions<T>(ts: seq<T>, ds: seq<bool>, k: nat)
    requires k <= |ts| && k <= |ds|
    ensures multiset(Pick(ts, ds, k, true)) + multiset(Pick(ts, ds, k, false)) == multiset(ts[..k])
  {
    if k > 0 {
      PickPartitions(ts, ds, k - 1);
      assert ts[..k] == ts[..k - 1] + [ts[k - 1]];
      AddOne(multiset(Pick(ts, ds, k - 1, true)), multiset(Pick(ts, ds, k - 1, false)), ts[k - 1]);
    }
  }

  lemma AddOne<T>(a: multiset<T>, b: multiset<T>, x: T)
    ensures a + multiset{x} + b == a + b + multiset{x} == a + (b + multiset{x})
  {
  }
}
