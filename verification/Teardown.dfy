/** Connection teardown in server/connection.cxx: loop callbacks and the consumer thread, one step
    each, in any interleaving. */
module Teardown {
  import opened Bytes

  /** Whether the consumer, given these bytes on an open channel, finishes by itself. */
  type Finishes = Bytes -> bool

  datatype Handle = Tcp | Resume | Close | Outbox

  datatype Phase = Handshaking | Streaming | Closing

  /** The consumer thread: it sends its last signal, then returns. */
  datatype Consumer = Absent | Running | Signalled | Exited

  datatype Handles = Handles(
    calls: multiset<Handle>,     // uv_close calls made
    waiting: set<Handle>,        // close callbacks still to come
    pending: nat,                // pending_handle_closes_
    started: bool)               // handles_closing_

  datatype Conn = Conn(
    finishes: Finishes,          // fixed
    phase: Phase,
    teardown: bool,              // teardown_started_
    channelClosed: bool,
    received: Bytes,             // what has been pushed to the channel
    consumerStarted: bool,
    consumer: Consumer,
    closeSignal: bool,           // close_async_ is due
    writes: nat,                 // writes on the socket not reported yet
    finals: nat,                 // those of them that carry a refusal: teardown_after
    handles: Handles,
    deletes: nat,
    joined: bool)

  datatype Label =
    | HandshakeOk(queued: bool, leftover: Bytes) | HandshakeBad(queued: bool) | ReadError | ReadData(data: Bytes)
    | OutboxDue(queued: bool) | WriteDone(final: bool, failed: bool) | CloseDue | HandleClosed(h: Handle)
    | ConsumerEnds | ConsumerExits

  // ---------------------------------------------------------------------------
  // The callbacks
  // ---------------------------------------------------------------------------

  /** `close_handle` */
  function CloseHandle(hs: Handles, h: Handle): Handles {
    if h in hs.calls then hs
    else hs.(calls := hs.calls + multiset{h}, waiting := hs.waiting + {h}, pending := hs.pending + 1)
  }

  /** `finalize_close` */
  function Finalize(hs: Handles): Handles {
    if hs.started then hs
    else CloseHandle(CloseHandle(CloseHandle(CloseHandle(hs.(started := true), Tcp), Resume), Close), Outbox)
  }

  /** `begin_teardown` */
  function Begin(c: Conn): Conn {
    if c.teardown then c
    else
      var d := c.(teardown := true, phase := Closing);
      if c.consumerStarted then d.(channelClosed := true) else d.(handles := Finalize(c.handles))
  }

  predicate Alive(c: Conn, h: Handle) { c.deletes == 0 && h !in c.handles.calls }

  predicate Enabled(c: Conn, l: Label) {
    match l
    case HandshakeOk(_, _) => Alive(c, Tcp) && c.phase == Handshaking
    case HandshakeBad(_) => Alive(c, Tcp) && c.phase == Handshaking
    case ReadError => Alive(c, Tcp)
    case ReadData(_) => Alive(c, Tcp)
    case OutboxDue(_) => Alive(c, Outbox) && c.consumer != Absent
    case WriteDone(final, _) => c.deletes == 0 && if final then c.finals > 0 && c.writes > 0 else c.writes > c.finals
    case CloseDue => Alive(c, Close) && c.closeSignal
    case HandleClosed(h) =>
      && c.deletes == 0 && h in c.handles.waiting && c.handles.pending > 0
      && (h == Tcp ==> c.writes == 0)
      && (c.handles.pending == 1 && c.consumerStarted ==> c.consumer == Exited)
    case ConsumerEnds => c.consumer == Running && (c.channelClosed || c.finishes(c.received))
    case ConsumerExits => c.consumer == Signalled
  }

  function Reported(c: Conn, final: bool): Conn
    requires c.writes > 0 && (final ==> c.finals > 0)
  {
    c.(writes := c.writes - 1, finals := if final then c.finals - 1 else c.finals)
  }

  function Apply(c: Conn, l: Label): Conn
    requires Enabled(c, l)
  {
    match l
    case HandshakeOk(queued, leftover) =>
      var d := if queued then c.(writes := c.writes + 1) else Begin(c);
      d.(phase := Streaming, consumerStarted := true, consumer := Running, received := leftover)
    case HandshakeBad(queued) => if queued then c.(writes := c.writes + 1, finals := c.finals + 1) else Begin(c)
    case ReadError => Begin(c)
    case ReadData(data) => if c.phase == Streaming then c.(received := c.received + data) else c
    case OutboxDue(queued) => if c.teardown then c else if queued then c.(writes := c.writes + 1) else Begin(c)
    case WriteDone(final, failed) => if final || failed then Begin(Reported(c, final)) else Reported(c, final)
    case CloseDue => c.(closeSignal := false, teardown := true, phase := Closing, handles := Finalize(c.handles))
    case HandleClosed(h) =>
      var hs := c.handles.(waiting := c.handles.waiting - {h}, pending := c.handles.pending - 1);
      if hs.pending == 0 then c.(handles := hs, joined := c.consumerStarted, deletes := c.deletes + 1) else c.(handles := hs)
    case ConsumerEnds => c.(consumer := Signalled, closeSignal := true)
    case ConsumerExits => c.(consumer := Exited)
  }

  ghost predicate Init(c: Conn) {
    c == Conn(c.finishes, Handshaking, false, false, [], false, Absent, false, 0, 0, Handles(multiset{}, {}, 0, false), 0, false)
  }

  predicate Runnable(c: Conn, ls: seq<Label>)
    decreases |ls|
  {
    ls == [] || (Enabled(c, ls[0]) && Runnable(Apply(c, ls[0]), ls[1..]))
  }

  function Run(c: Conn, ls: seq<Label>): Conn
    requires Runnable(c, ls)
    decreases |ls|
  {
    if ls == [] then c else Run(Apply(c, ls[0]), ls[1..])
  }

  // ---------------------------------------------------------------------------
  // What every step keeps
  // ---------------------------------------------------------------------------

  const ALL: set<Handle> := {Tcp, Resume, Close, Outbox}

  /** Either nothing has been closed, or each handle exactly once with its callback counted. */
  ghost predicate Counted(hs: Handles) {
    && hs.pending == |hs.waiting|
    && hs.calls == (if hs.started then multiset{Tcp, Resume, Close, Outbox} else multiset{})
    && (!hs.started ==> hs.waiting == {})
  }

  /** How far the consumer is, against what the loop has done. */
  predicate Ordered(c: Conn) {
    && (c.consumerStarted <==> c.consumer != Absent)
    && (c.phase == Handshaking ==> !c.consumerStarted && !c.teardown && !c.channelClosed)
    && (c.phase == Streaming ==> c.consumerStarted && !c.teardown)
    && (c.phase == Closing ==> c.teardown)
    && (c.handles.started ==> c.teardown && c.consumer != Running)
    && (c.consumerStarted && c.consumer != Running && !c.handles.started ==> c.closeSignal)
    && (c.consumer == Running || c.consumer == Absent ==> !c.closeSignal)
    && (c.teardown && c.consumer == Running ==> c.channelClosed)
    && (c.teardown ==> c.handles.started || c.consumerStarted)
  }

  /** Deleted once, when the last callback has come, the consumer joined and no write is left. */
  predicate Ended(c: Conn) {
    && (c.deletes == 0 || c.deletes == 1)
    && (c.deletes == 1 <==> c.handles.started && c.handles.pending == 0)
    && (c.deletes == 1 && c.consumerStarted ==> c.consumer == Exited && c.joined)
    && (c.handles.started && Tcp !in c.handles.waiting ==> c.writes == 0)
    && c.finals <= c.writes
  }

  ghost predicate Inv(c: Conn) { Counted(c.handles) && Ordered(c) && Ended(c) }

  lemma FinalizeCounted(hs: Handles)
    requires Counted(hs)
    ensures Counted(Finalize(hs)) && Finalize(hs).started
    ensures !hs.started ==> Finalize(hs).waiting == ALL && Finalize(hs).pending == 4
  {
    if !hs.started {
      var h := hs.(started := true);
      assert CloseHandle(h, Tcp) == Handles(multiset{Tcp}, {Tcp}, 1, true);
      assert CloseHandle(CloseHandle(h, Tcp), Resume) == Handles(multiset{Tcp, Resume}, {Tcp, Resume}, 2, true);
    }
  }

  lemma BeginKeepsInv(c: Conn)
    requires Inv(c) && c.deletes == 0
    ensures Inv(Begin(c))
  {
    FinalizeCounted(c.handles);
  }

  lemma ClosedKeepsInv(c: Conn, h: Handle)
    requires Inv(c) && Enabled(c, HandleClosed(h))
    ensures Inv(Apply(c, HandleClosed(h)))
  {
    assert |c.handles.waiting - {h}| == |c.handles.waiting| - 1;
  }

  /** The OK reply was not refused on the spot. */
  predicate Replied(l: Label) { l.HandshakeOk? ==> l.queued }

  predicate AllReplied(ls: seq<Label>) { ls == [] || (Replied(ls[0]) && AllReplied(ls[1..])) }

  lemma ConsumerKeepsInv(c: Conn, l: Label)
    requires Inv(c) && Enabled(c, l) && (l.ConsumerEnds? || l.ConsumerExits?)
    ensures Inv(Apply(c, l))
  {
  }

  lemma ReadKeepsInv(c: Conn, l: Label)
    requires Inv(c) && Enabled(c, l) && Replied(l) && (l.HandshakeOk? || l.HandshakeBad? || l.ReadError? || l.ReadData?)
    ensures Inv(Apply(c, l))
  {
    BeginKeepsInv(c);
  }

  lemma OutboxKeepsInv(c: Conn, queued: bool)
    requires Inv(c) && Enabled(c, OutboxDue(queued))
    ensures Inv(Apply(c, OutboxDue(queued)))
  {
    if !c.teardown && !queued {
      BeginKeepsInv(c);
    }
  }

  lemma ReportedKeepsInv(c: Conn, final: bool)
    requires Inv(c) && c.deletes == 0 && if final then c.finals > 0 else c.writes > c.finals
    ensures Inv(Reported(c, final))
  {
  }

  lemma WriteKeepsInv(c: Conn, final: bool, failed: bool)
    requires Inv(c) && Enabled(c, WriteDone(final, failed))
    ensures Inv(Apply(c, WriteDone(final, failed)))
  {
    ReportedKeepsInv(c, final);
    if final || failed {
      BeginKeepsInv(Reported(c, final));
    }
  }

  lemma CloseKeepsInv(c: Conn)
    requires Inv(c) && Enabled(c, CloseDue)
    ensures Inv(Apply(c, CloseDue))
  {
    FinalizeCounted(c.handles);
  }

  lemma StepKeepsInv(c: Conn, l: Label)
    requires Inv(c) && Enabled(c, l) && Replied(l)
    ensures Inv(Apply(c, l))
  {
    match l
    case OutboxDue(queued) => OutboxKeepsInv(c, queued);
    case WriteDone(final, failed) => WriteKeepsInv(c, final, failed);
    case CloseDue => CloseKeepsInv(c);
    case HandleClosed(h) => ClosedKeepsInv(c, h);
    case ConsumerEnds => ConsumerKeepsInv(c, l);
    case ConsumerExits => ConsumerKeepsInv(c, l);
    case _ => ReadKeepsInv(c, l);
  }

  lemma {:induction false} RunKeepsInv(c: Conn, ls: seq<Label>)
    requires Inv(c) && Runnable(c, ls) && AllReplied(ls)
    ensures Inv(Run(c, ls))
    decreases |ls|
  {
    if ls != [] {
      StepKeepsInv(c, ls[0]);
      RunKeepsInv(Apply(c, ls[0]), ls[1..]);
    }
  }

  // ---------------------------------------------------------------------------
  // What every run keeps
  // ---------------------------------------------------------------------------

  /** No handle is closed twice, the connection is deleted at most once, and then only after every
      close was reported, the consumer was joined and every write was reported. */
  lemma SafeTeardown(c: Conn, ls: seq<Label>, h: Handle)
    requires Init(c) && Runnable(c, ls) && AllReplied(ls)
    ensures var d := Run(c, ls);
            && d.handles.calls[h] <= 1 && d.deletes <= 1
            && (d.deletes == 1 ==> d.handles.calls == multiset{Tcp, Resume, Close, Outbox} && d.handles.waiting == {})
            && (d.deletes == 1 ==> d.writes == 0 && (d.consumerStarted ==> d.consumer == Exited && d.joined))
  {
    assert Inv(c);
    RunKeepsInv(c, ls);
  }

  /** While the consumer can still signal, the handles it signals are open. */
  lemma ConsumerSignalsOpenHandles(c: Conn, ls: seq<Label>, h: Handle)
    requires Init(c) && Runnable(c, ls) && AllReplied(ls) && Run(c, ls).consumer == Running
    ensures Alive(Run(c, ls), h)
  {
    assert Inv(c);
    RunKeepsInv(c, ls);
  }

  /** Steps a teardown still needs, at most. */
  function Fuel(c: Conn): nat {
    (match c.consumer case Running => 2 case Signalled => 1 case _ => 0)
    + c.writes + (if c.handles.started then c.handles.pending else 5)
  }

  lemma NextStep(c: Conn) returns (l: Label)
    requires Inv(c) && c.teardown && c.deletes == 0
    ensures Enabled(c, l) && Replied(l) && Fuel(Apply(c, l)) < Fuel(c) && Apply(c, l).teardown
  {
    if c.consumer == Running {
      l := ConsumerEnds;
    } else if c.consumer == Signalled {
      l := ConsumerExits;
    } else if c.writes > 0 {
      l := WriteDone(c.finals > 0, true);
    } else if !c.handles.started {
      FinalizeCounted(c.handles);
      l := CloseDue;
    } else {
      assert c.handles.waiting != {};
      var h :| h in c.handles.waiting;
      l := HandleClosed(h);
    }
  }

  /** Every teardown that has started, by whatever callback and with the consumer wherever it may
      be, can run to deletion. */
  lemma {:induction false} TeardownCompletes(c: Conn) returns (ls: seq<Label>)
    requires Inv(c) && c.teardown
    ensures Runnable(c, ls) && Run(c, ls).deletes == 1
    decreases Fuel(c)
  {
    if c.deletes == 1 {
      ls := [];
    } else {
      var l := NextStep(c);
      StepKeepsInv(c, l);
      var rest := TeardownCompletes(Apply(c, l));
      ls := [l] + rest;
      assert ls[1..] == rest;
    }
  }

  /** The same from the start: no run reaches a teardown that cannot complete. */
  lemma NoRunIsStranded(c: Conn, ls: seq<Label>) returns (more: seq<Label>)
    requires Init(c) && Runnable(c, ls) && AllReplied(ls) && Run(c, ls).teardown
    ensures Runnable(Run(c, ls), more) && Run(Run(c, ls), more).deletes == 1
  {
    assert Inv(c);
    RunKeepsInv(c, ls);
    more := TeardownCompletes(Run(c, ls));
  }

  // ---------------------------------------------------------------------------
  // What starts a teardown
  // ---------------------------------------------------------------------------

  predicate Starts(l: Label) {
    match l
    case HandshakeOk(queued, _) => !queued
    case HandshakeBad(queued) => !queued
    case ReadError => true
    case OutboxDue(queued) => !queued
    case WriteDone(final, failed) => final || failed
    case CloseDue => true
    case _ => false
  }

  /** A teardown starts at a read error, a write that is refused or fails, the end of a refusal's write
      and the consumer's last signal, and at nothing else. It closes the channel of a consumer that
      still runs, and the handles if there is none. */
  lemma TeardownStarts(c: Conn, l: Label)
    requires Inv(c) && Enabled(c, l) && !c.teardown
    ensures var d := Apply(c, l);
            && (d.teardown <==> Starts(l))
            && (Starts(l) && Replied(l) ==> d.phase == Closing && (d.consumer == Running ==> d.channelClosed))
            && (Starts(l) && d.consumer != Running ==> d.handles.started || d.closeSignal)
            && (d.handles.started ==> d.handles.calls == multiset{Tcp, Resume, Close, Outbox})
  {
    FinalizeCounted(c.handles);
  }

  /** Once the consumer has sent its last signal, or a refusal is on its way out, the connection can run
      to deletion from wherever it is. */
  lemma EndingsComplete(c: Conn) returns (ls: seq<Label>)
    requires Inv(c) && (c.consumer == Signalled || c.consumer == Exited || c.finals > 0)
    ensures Runnable(c, ls) && Run(c, ls).deletes == 1
  {
    if c.teardown {
      ls := TeardownCompletes(c);
    } else {
      var l := if c.finals > 0 then WriteDone(true, false) else CloseDue;
      StepKeepsInv(c, l);
      TeardownStarts(c, l);
      var rest := TeardownCompletes(Apply(c, l));
      ls := [l] + rest;
      assert ls[1..] == rest;
    }
  }

  // ---------------------------------------------------------------------------
  // An OK reply refused on the spot
  // ---------------------------------------------------------------------------

  /** The handles are closing, the consumer was started all the same, and nobody will close its
      channel. */
  predicate Orphaned(c: Conn) {
    && c.consumerStarted && c.consumer == Running && !c.channelClosed && !c.finishes(c.received) && c.teardown && c.deletes == 0
    && Tcp in c.handles.calls && Close in c.handles.calls && c.handles.pending > 0
  }

  lemma {:induction false} OrphanForever(c: Conn, ls: seq<Label>)
    requires Orphaned(c) && Runnable(c, ls)
    ensures Run(c, ls).deletes == 0
    decreases |ls|
  {
    if ls != [] {
      assert Orphaned(Apply(c, ls[0]));
      OrphanForever(Apply(c, ls[0]), ls[1..]);
    }
  }

  /** All handles are closing and the consumer is gone: only callbacks are awaited. */
  ghost predicate WindingUp(c: Conn) {
    && Counted(c.handles) && c.handles.started && Ended(c) && c.teardown && (c.consumerStarted ==> c.consumer == Exited)
  }

  lemma WindUpStep(c: Conn) returns (l: Label)
    requires WindingUp(c) && c.deletes == 0
    ensures Enabled(c, l) && WindingUp(Apply(c, l)) && Fuel(Apply(c, l)) < Fuel(c)
  {
    if c.writes > 0 {
      l := WriteDone(c.finals > 0, true);
    } else {
      l := WindUpHandle(c);
    }
  }

  lemma WindUpHandle(c: Conn) returns (l: Label)
    requires WindingUp(c) && c.deletes == 0 && c.writes == 0
    ensures Enabled(c, l) && WindingUp(Apply(c, l)) && Fuel(Apply(c, l)) < Fuel(c)
  {
    assert c.handles.waiting != {};
    var h :| h in c.handles.waiting;
    assert |c.handles.waiting - {h}| == |c.handles.waiting| - 1;
    l := HandleClosed(h);
  }

  lemma {:induction false} WindUp(c: Conn) returns (ls: seq<Label>)
    requires WindingUp(c)
    ensures Runnable(c, ls) && Run(c, ls).deletes == 1
    decreases Fuel(c)
  {
    if c.deletes == 1 {
      ls := [];
    } else {
      var l := WindUpStep(c);
      var rest := WindUp(Apply(c, l));
      ls := [l] + rest;
      assert ls[1..] == rest;
    }
  }

  ghost predicate CanEnd(c: Conn) { exists ls :: Runnable(c, ls) && Run(c, ls).deletes == 1 }

  lemma CanEndBack(c: Conn, l: Label)
    requires Enabled(c, l) && CanEnd(Apply(c, l))
    ensures CanEnd(c)
  {
    var ls :| Runnable(Apply(c, l), ls) && Run(Apply(c, l), ls).deletes == 1;
    var more := [l] + ls;
    assert more[1..] == ls;
    assert Runnable(c, more) && Run(c, more).deletes == 1;
  }

  /** An OK reply whose write fails at once begins a teardown that can end if and only if the bytes
      that came with the handshake let the consumer finish: otherwise it waits on a channel that is
      never closed, and the last close callback waits for it. */
  lemma RefusedReply(c: Conn, leftover: Bytes)
    requires Inv(c) && Enabled(c, HandshakeOk(false, leftover))
    ensures CanEnd(Apply(c, HandshakeOk(false, leftover))) <==> c.finishes(leftover)
  {
    var d := Apply(c, HandshakeOk(false, leftover));
    FinalizeCounted(c.handles);
    if c.finishes(leftover) {
      var e := Apply(d, ConsumerEnds);
      var f := Apply(e, ConsumerExits);
      assert WindingUp(f);
      var ls := WindUp(f);
      CanEndBack(e, ConsumerExits);
      CanEndBack(d, ConsumerEnds);
    } else {
      assert Orphaned(d);
      forall ls | Runnable(d, ls) ensures Run(d, ls).deletes == 0 {
        OrphanForever(d, ls);
      }
    }
  }
}
