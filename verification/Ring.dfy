/** The lock-free single-producer single-consumer ring, one step per atomic operation.

    Memory is sequentially consistent. `head` and `tail` are wrapped 64-bit counters, the
    gates wrapped 32-bit ones. `pushed`, `popped`, the bump counts and the `seen` fields are
    history: no step reads them to decide anything. */
module SpscRing {
  import opened Bits

  /** The slots and counters; `pushed` and `popped` are everything published and consumed so far. */
  datatype Memory<T> = Memory(logCap: nat, cap: nat, buf: seq<T>, head: nat, tail: nat, pushed: seq<T>, popped: seq<T>)
  {
    /** The slot of a counter: `counter & Mask`. */
    function Slot(counter: nat): nat
      requires cap > 0
    {
      And(counter, cap - 1)
    }

    /** `tl - head < Cap` in 64-bit unsigned arithmetic. */
    predicate HasRoom(tl: nat) { (tl - head) % WORD64 < cap }

    predicate WellSized() { |buf| == cap == Pow2(logCap) }

    function Write(tl: nat, v: T): Memory<T>
      requires WellSized()
    {
      AndMask(tl, logCap);
      this.(buf := buf[Slot(tl) := v])
    }

    function Publish(tl: nat, v: T): Memory<T> {
      this.(tail := (tl + 1) % WORD64, pushed := pushed + [v])
    }

    function Read(hd: nat): T
      requires WellSized()
    {
      AndMask(hd, logCap);
      buf[Slot(hd)]
    }

    function Advance(hd: nat, out: T): Memory<T> {
      this.(head := (hd + 1) % WORD64, popped := popped + [out])
    }

    ghost function Queue(): seq<T>
      requires |popped| <= |pushed|
    {
      pushed[|popped|..]
    }
  }

  /** The wake-up gates, with the number of times each was bumped. */
  datatype Gates = Gates(notEmpty: nat, notFull: nat, notEmptyBumps: nat, notFullBumps: nat)
  {
    function BumpNotEmpty(): Gates {
      this.(notEmpty := (notEmpty + 1) % WORD32, notEmptyBumps := notEmptyBumps + 1)
    }

    function BumpNotFull(): Gates {
      this.(notFull := (notFull + 1) % WORD32, notFullBumps := notFullBumps + 1)
    }
  }

  datatype Producer<T> =
    | PIdle
    | PLoadTail(v: T)
    | PCheckClosed(v: T, tl: nat)
    | PCheckRoom(v: T, tl: nat)
    | PLoadGate(v: T, tl: nat)
    | PRecheckRoom(v: T, tl: nat, g: nat, seen: nat)
    | PRecheckClosed(v: T, tl: nat, g: nat, seen: nat)
    | PWait(v: T, tl: nat, g: nat, seen: nat)
    | PParked(v: T, tl: nat, g: nat, seen: nat)
    | PWriteSlot(v: T, tl: nat)
    | PPublish(v: T, tl: nat)
    | PBump
    | PNotify
  {
    /** A notification sends a parked thread back to comparing the gate. */
    function Wake(): Producer<T> { if PParked? then PWait(v, tl, g, seen) else this }
  }

  datatype Consumer<T> =
    | KIdle
    | KLoadHead
    | KCheckTail(hd: nat)
    | KCheckClosed(hd: nat)
    | KLastLook(hd: nat)
    | KLoadGate(hd: nat)
    | KRecheckTail(hd: nat, g: nat, seen: nat)
    | KRecheckClosed(hd: nat, g: nat, seen: nat)
    | KWait(hd: nat, g: nat, seen: nat)
    | KParked(hd: nat, g: nat, seen: nat)
    | KReadSlot(hd: nat)
    | KAdvance(hd: nat, out: T)
    | KBump
    | KNotify
  {
    function Wake(): Consumer<T> { if KParked? then KWait(hd, g, seen) else this }
  }

  datatype Closer = CIdle | CSetClosed | CBumpNotEmpty | CWakeConsumer | CBumpNotFull | CWakeProducer

  datatype Ring<T> = Ring(
    mem: Memory<T>,
    gates: Gates,
    closed: bool,
    closesLeft: nat,
    producer: Producer<T>,
    consumer: Consumer<T>,
    closer: Closer)

  /** What may happen next: a call starts, a thread takes its next atomic step, or a wait wakes spuriously. */
  datatype Label<T> =
    | CallPush(v: T) | CallPop | CallClose
    | ProducerStep | ConsumerStep | CloserStep
    | SpuriousProducer | SpuriousConsumer

  predicate Enabled<T>(s: Ring<T>, l: Label<T>) {
    && s.mem.WellSized()
    && match l
       case CallPush(_) => s.producer.PIdle?
       case CallPop => s.consumer.KIdle?
       case CallClose => s.closer.CIdle? && s.closesLeft > 0
       case ProducerStep => !s.producer.PIdle? && !s.producer.PParked?
       case ConsumerStep => !s.consumer.KIdle? && !s.consumer.KParked?
       case CloserStep => !s.closer.CIdle?
       case SpuriousProducer => s.producer.PParked?
       case SpuriousConsumer => s.consumer.KParked?
  }

  function Apply<T>(s: Ring<T>, l: Label<T>): Ring<T>
    requires Enabled(s, l)
  {
    match l
    case CallPush(v) => s.(producer := PLoadTail(v))
    case CallPop => s.(consumer := KLoadHead)
    case CallClose => s.(closer := CSetClosed, closesLeft := s.closesLeft - 1)
    case ProducerStep => StepProducer(s)
    case ConsumerStep => StepConsumer(s)
    case CloserStep => StepCloser(s)
    case SpuriousProducer => s.(producer := s.producer.Wake())
    case SpuriousConsumer => s.(consumer := s.consumer.Wake())
  }

  /** One atomic step of `push`. */
  function StepProducer<T>(s: Ring<T>): Ring<T>
    requires Enabled(s, ProducerStep)
  {
    match s.producer
    case PLoadTail(v) => s.(producer := PCheckClosed(v, s.mem.tail))
    case PCheckClosed(v, tl) => s.(producer := if s.closed then PIdle else PCheckRoom(v, tl))
    case PCheckRoom(v, tl) => s.(producer := if s.mem.HasRoom(tl) then PWriteSlot(v, tl) else PLoadGate(v, tl))
    case PLoadGate(v, tl) => s.(producer := PRecheckRoom(v, tl, s.gates.notFull, s.gates.notFullBumps))
    case PRecheckRoom(v, tl, g, seen) =>
      s.(producer := if s.mem.HasRoom(tl) then PCheckClosed(v, tl) else PRecheckClosed(v, tl, g, seen))
    case PRecheckClosed(v, tl, g, seen) =>
      s.(producer := if s.closed then PCheckClosed(v, tl) else PWait(v, tl, g, seen))
    case PWait(v, tl, g, seen) =>
      s.(producer := if s.gates.notFull == g then PParked(v, tl, g, seen) else PCheckClosed(v, tl))
    case PWriteSlot(v, tl) => s.(mem := s.mem.Write(tl, v), producer := PPublish(v, tl))
    case PPublish(v, tl) => s.(mem := s.mem.Publish(tl, v), producer := PBump)
    case PBump => s.(gates := s.gates.BumpNotEmpty(), producer := PNotify)
    case PNotify => s.(consumer := s.consumer.Wake(), producer := PIdle)
  }

  /** One atomic step of `pop`. */
  function StepConsumer<T>(s: Ring<T>): Ring<T>
    requires Enabled(s, ConsumerStep)
  {
    match s.consumer
    case KLoadHead => s.(consumer := KCheckTail(s.mem.head))
    case KCheckTail(hd) => s.(consumer := if hd != s.mem.tail then KReadSlot(hd) else KCheckClosed(hd))
    case KCheckClosed(hd) => s.(consumer := if s.closed then KLastLook(hd) else KLoadGate(hd))
    case KLastLook(hd) => s.(consumer := if hd == s.mem.tail then KIdle else KReadSlot(hd))
    case KLoadGate(hd) => s.(consumer := KRecheckTail(hd, s.gates.notEmpty, s.gates.notEmptyBumps))
    case KRecheckTail(hd, g, seen) =>
      s.(consumer := if hd != s.mem.tail then KCheckTail(hd) else KRecheckClosed(hd, g, seen))
    case KRecheckClosed(hd, g, seen) =>
      s.(consumer := if s.closed then KCheckTail(hd) else KWait(hd, g, seen))
    case KWait(hd, g, seen) =>
      s.(consumer := if s.gates.notEmpty == g then KParked(hd, g, seen) else KCheckTail(hd))
    case KReadSlot(hd) => s.(consumer := KAdvance(hd, s.mem.Read(hd)))
    case KAdvance(hd, out) => s.(mem := s.mem.Advance(hd, out), consumer := KBump)
    case KBump => s.(gates := s.gates.BumpNotFull(), consumer := KNotify)
    case KNotify => s.(producer := s.producer.Wake(), consumer := KIdle)
  }

  /** One atomic step of `close`. */
  function StepCloser<T>(s: Ring<T>): Ring<T>
    requires !s.closer.CIdle?
  {
    match s.closer
    case CSetClosed => s.(closed := true, closer := CBumpNotEmpty)
    case CBumpNotEmpty => s.(gates := s.gates.BumpNotEmpty(), closer := CWakeConsumer)
    case CWakeConsumer => s.(consumer := s.consumer.Wake(), closer := CBumpNotFull)
    case CBumpNotFull => s.(gates := s.gates.BumpNotFull(), closer := CWakeProducer)
    case CWakeProducer => s.(producer := s.producer.Wake(), closer := CIdle)
  }

  /** A fresh ring of capacity 2^logCap that will be closed at most `closes` times. */
  ghost predicate Init<T>(s: Ring<T>, closes: nat) {
    && s.mem.logCap <= 64
    && s.mem.WellSized()
    && s.mem.cap + closes + 1 < WORD32
    && s == Ring(Memory(s.mem.logCap, s.mem.cap, s.mem.buf, 0, 0, [], []), Gates(0, 0, 0, 0),
                 false, closes, PIdle, KIdle, CIdle)
  }

  // ---------------------------------------------------------------------------
  // The invariant
  // ---------------------------------------------------------------------------

  /** Counters match the true counts; every item published and not popped sits in the slot of its count. */
  ghost predicate MemInv<T>(m: Memory<T>) {
    && m.logCap <= 64 && m.WellSized() && m.cap < WORD32
    && |m.popped| <= |m.pushed| <= |m.popped| + m.cap
    && m.head == |m.popped| % WORD64 && m.tail == |m.pushed| % WORD64
    && m.popped == m.pushed[..|m.popped|]
    && forall i :: |m.popped| <= i < |m.pushed| ==> m.buf[i % m.cap] == m.pushed[i]
  }

  ghost predicate Room<T>(m: Memory<T>) { |m.pushed| < |m.popped| + m.cap }

  ghost predicate Holds<T>(m: Memory<T>, v: T) { m.WellSized() && m.buf[|m.pushed| % m.cap] == v }

  ghost predicate ProducerData<T>(p: Producer<T>, m: Memory<T>) {
    match p
    case PIdle | PBump | PNotify => true
    case PLoadTail(_) => true
    case PWriteSlot(_, tl) => tl == m.tail && Room(m)
    case PPublish(v, tl) => tl == m.tail && Room(m) && Holds(m, v)
    case _ => p.tl == m.tail
  }

  ghost predicate Front<T>(m: Memory<T>, v: T) { |m.popped| < |m.pushed| && m.pushed[|m.popped|] == v }

  ghost predicate ConsumerData<T>(k: Consumer<T>, m: Memory<T>) {
    match k
    case KIdle | KLoadHead | KBump | KNotify => true
    case KReadSlot(hd) => hd == m.head && |m.popped| < |m.pushed|
    case KAdvance(hd, out) => hd == m.head && Front(m, out)
    case _ => k.hd == m.head
  }

  ghost predicate DataInv<T>(s: Ring<T>) {
    MemInv(s.mem) && ProducerData(s.producer, s.mem) && ConsumerData(s.consumer, s.mem)
  }

  /** How many times each gate has been bumped, out of at most `closes` calls to close. */
  ghost predicate BumpInv<T>(s: Ring<T>, closes: nat) {
    && s.closesLeft <= closes && s.mem.cap + closes + 1 < WORD32
    && (s.closer.CIdle? || s.closesLeft < closes)
    && NotEmptyBumps(s, closes - s.closesLeft) && NotFullBumps(s, closes - s.closesLeft)
  }

  ghost predicate NotEmptyBumps<T>(s: Ring<T>, calls: int) {
    && s.gates.notEmpty == s.gates.notEmptyBumps % WORD32
    && s.gates.notEmptyBumps + (if s.producer.PBump? then 1 else 0)
       + (if s.closer.CSetClosed? || s.closer.CBumpNotEmpty? then 1 else 0) == |s.mem.pushed| + calls
  }

  ghost predicate NotFullBumps<T>(s: Ring<T>, calls: int) {
    && s.gates.notFull == s.gates.notFullBumps % WORD32
    && s.gates.notFullBumps + (if s.consumer.KBump? then 1 else 0)
       + (if s.closer.CIdle? || s.closer.CWakeProducer? then 0 else 1) == |s.mem.popped| + calls
  }

  /** `g` is the gate as it stood after `seen` bumps, no earlier than `low - 1` of them. */
  ghost predicate Loaded(bumps: nat, g: nat, seen: nat, low: int) {
    seen <= bumps && g == seen % WORD32 && low <= seen + 1
  }

  /** What the consumer knows since it loaded the not-empty gate: if no bump came since, the
      ring was empty and open when it looked; if it is parked and one did, a wake-up is due. */
  ghost predicate ConsumerGate<T>(k: Consumer<T>, bumps: nat, low: int, empty: bool, open: bool, waking: bool) {
    match k
    case KRecheckTail(_, g, seen) => Loaded(bumps, g, seen, low)
    case KRecheckClosed(_, g, seen) => Loaded(bumps, g, seen, low) && (seen == bumps ==> empty)
    case KWait(_, g, seen) => Loaded(bumps, g, seen, low) && (seen == bumps ==> empty && open)
    case KParked(_, g, seen) =>
      Loaded(bumps, g, seen, low) && (if seen == bumps then empty && open else waking)
    case _ => true
  }

  /** The same for the producer and the not-full gate. */
  ghost predicate ProducerGate<T>(p: Producer<T>, bumps: nat, low: int, full: bool, open: bool, waking: bool) {
    match p
    case PRecheckRoom(_, _, g, seen) => Loaded(bumps, g, seen, low)
    case PRecheckClosed(_, _, g, seen) => Loaded(bumps, g, seen, low) && (seen == bumps ==> full)
    case PWait(_, _, g, seen) => Loaded(bumps, g, seen, low) && (seen == bumps ==> full && open)
    case PParked(_, _, g, seen) =>
      Loaded(bumps, g, seen, low) && (if seen == bumps then full && open else waking)
    case _ => true
  }

  /** The ring is empty, or the producer has published and not yet bumped the gate. */
  ghost predicate NothingToRead<T>(s: Ring<T>) { |s.mem.pushed| == |s.mem.popped| || s.producer.PBump? }

  ghost predicate NoRoom<T>(s: Ring<T>) { |s.mem.pushed| == |s.mem.popped| + s.mem.cap || s.consumer.KBump? }

  /** Not closed, or the closer has not yet bumped the not-empty gate. */
  ghost predicate OpenToConsumer<T>(s: Ring<T>) { !s.closed || s.closer.CBumpNotEmpty? }

  ghost predicate OpenToProducer<T>(s: Ring<T>) {
    !s.closed || s.closer.CBumpNotEmpty? || s.closer.CWakeConsumer? || s.closer.CBumpNotFull?
  }

  ghost predicate ConsumerSide<T>(s: Ring<T>) {
    ConsumerGate(s.consumer, s.gates.notEmptyBumps, |s.mem.popped|, NothingToRead(s), OpenToConsumer(s),
                 s.producer.PNotify? || s.closer.CWakeConsumer?)
  }

  ghost predicate ProducerSide<T>(s: Ring<T>) {
    ProducerGate(s.producer, s.gates.notFullBumps, |s.mem.pushed| - s.mem.cap, NoRoom(s), OpenToProducer(s),
                 s.consumer.KNotify? || s.closer.CWakeProducer?)
  }

  /** The consumer takes a last look only at a closed ring. */
  ghost predicate LastLookClosed<T>(s: Ring<T>) { s.consumer.KLastLook? ==> s.closed }

  ghost predicate Inv<T>(s: Ring<T>, closes: nat) {
    DataInv(s) && BumpInv(s, closes) && ConsumerSide(s) && ProducerSide(s) && LastLookClosed(s)
  }

  // ---------------------------------------------------------------------------
  // Every step keeps it
  // ---------------------------------------------------------------------------

  /** The wrapped comparisons decide whether a slot is free and whether an item waits. */
  lemma WrappedChecks<T>(m: Memory<T>)
    requires MemInv(m)
    ensures m.HasRoom(m.tail) <==> Room(m)
    ensures m.head == m.tail <==> |m.pushed| == |m.popped|
  {
    WrapInjective(|m.popped|, |m.pushed|, WORD64);
  }

  lemma WriteKeeps<T>(m: Memory<T>, v: T)
    requires MemInv(m) && Room(m)
    ensures MemInv(m.Write(m.tail, v)) && Holds(m.Write(m.tail, v), v)
  {
    var t, cap := |m.pushed|, m.cap;
    MaskedCounter(t, m.logCap);
    forall i | |m.popped| <= i < t ensures m.Write(m.tail, v).buf[i % cap] == m.pushed[i] {
      WrapInjective(i, t, cap);
    }
  }

  lemma PublishKeeps<T>(m: Memory<T>, v: T)
    requires MemInv(m) && Room(m) && Holds(m, v)
    ensures MemInv(m.Publish(m.tail, v))
  {
    WrapNext(|m.pushed|, WORD64);
    assert m.popped == (m.pushed + [v])[..|m.popped|];
  }

  lemma ReadReturnsFront<T>(m: Memory<T>)
    requires MemInv(m) && |m.popped| < |m.pushed|
    ensures Front(m, m.Read(m.head))
  {
    MaskedCounter(|m.popped|, m.logCap);
  }

  lemma AdvanceKeeps<T>(m: Memory<T>, out: T)
    requires MemInv(m) && Front(m, out)
    ensures MemInv(m.Advance(m.head, out)) && Room(m.Advance(m.head, out))
  {
    WrapNext(|m.popped|, WORD64);
    assert m.popped + [out] == m.pushed[..|m.popped| + 1];
  }

  lemma GateComparesBumps(bumps: nat, g: nat, seen: nat, low: int, span: nat)
    requires Loaded(bumps, g, seen, low) && bumps <= low + span && span + 1 < WORD32
    ensures bumps % WORD32 == g <==> bumps == seen
  {
    WrapInjective(seen, bumps, WORD32);
  }

  lemma ProducerKeepsData<T>(s: Ring<T>)
    requires DataInv(s) && Enabled(s, ProducerStep)
    ensures DataInv(StepProducer(s))
  {
    match s.producer
    case PWriteSlot(v, _) => WriteKeeps(s.mem, v);
    case PPublish(v, _) => PublishKeeps(s.mem, v);
    case PCheckRoom(_, _) => WrappedChecks(s.mem);
    case _ =>
  }

  lemma ConsumerKeepsData<T>(s: Ring<T>)
    requires DataInv(s) && Enabled(s, ConsumerStep)
    ensures DataInv(StepConsumer(s))
  {
    match s.consumer
    case KReadSlot(_) => ReadReturnsFront(s.mem);
    case KAdvance(_, out) => AdvanceKeeps(s.mem, out);
    case _ => WrappedChecks(s.mem);
  }

  /** All the gate arguments need from the data: occupancy in bounds, and honest re-checks. */
  ghost predicate Counts<T>(s: Ring<T>) {
    && |s.mem.popped| <= |s.mem.pushed| <= |s.mem.popped| + s.mem.cap
    && (s.consumer.KRecheckTail? && s.consumer.hd == s.mem.tail ==> |s.mem.pushed| == |s.mem.popped|)
    && (s.producer.PRecheckRoom? && !s.mem.HasRoom(s.producer.tl) ==> |s.mem.pushed| == |s.mem.popped| + s.mem.cap)
    && (s.producer.PPublish? ==> |s.mem.pushed| < |s.mem.popped| + s.mem.cap)
    && (s.consumer.KAdvance? ==> |s.mem.popped| < |s.mem.pushed|)
  }

  lemma DataGivesCounts<T>(s: Ring<T>)
    requires DataInv(s)
    ensures Counts(s)
  {
    WrappedChecks(s.mem);
  }

  lemma StepKeepsBumps<T>(s: Ring<T>, l: Label<T>, closes: nat)
    requires BumpInv(s, closes) && Enabled(s, l)
    ensures BumpInv(Apply(s, l), closes)
  {
    StepKeepsNotEmptyBumps(s, l, closes - s.closesLeft);
    StepKeepsNotFullBumps(s, l, closes - s.closesLeft);
  }

  lemma StepKeepsNotEmptyBumps<T>(s: Ring<T>, l: Label<T>, calls: int)
    requires NotEmptyBumps(s, calls) && Enabled(s, l)
    ensures NotEmptyBumps(Apply(s, l), if l.CallClose? then calls + 1 else calls)
  {
    WrapNext(s.gates.notEmptyBumps, WORD32);
  }

  lemma StepKeepsNotFullBumps<T>(s: Ring<T>, l: Label<T>, calls: int)
    requires NotFullBumps(s, calls) && Enabled(s, l)
    ensures NotFullBumps(Apply(s, l), if l.CallClose? then calls + 1 else calls)
  {
    WrapNext(s.gates.notFullBumps, WORD32);
  }

  lemma ConsumerKeepsOwnSide<T>(s: Ring<T>, closes: nat)
    requires Counts(s) && BumpInv(s, closes) && ConsumerSide(s) && Enabled(s, ConsumerStep)
    ensures ConsumerSide(StepConsumer(s))
  {
    if s.consumer.KWait? {
      GateComparesBumps(s.gates.notEmptyBumps, s.consumer.g, s.consumer.seen, |s.mem.popped|, s.mem.cap + closes);
    }
  }

  lemma ProducerKeepsConsumerSide<T>(s: Ring<T>)
    requires ConsumerSide(s) && Enabled(s, ProducerStep)
    ensures ConsumerSide(StepProducer(s))
  {
  }

  lemma ProducerKeepsOwnSide<T>(s: Ring<T>, closes: nat)
    requires Counts(s) && BumpInv(s, closes) && ProducerSide(s) && Enabled(s, ProducerStep)
    ensures ProducerSide(StepProducer(s))
  {
    if s.producer.PWait? {
      GateComparesBumps(s.gates.notFullBumps, s.producer.g, s.producer.seen, |s.mem.pushed| - s.mem.cap, s.mem.cap + closes);
    }
  }

  lemma ConsumerKeepsProducerSide<T>(s: Ring<T>)
    requires ProducerSide(s) && Enabled(s, ConsumerStep)
    ensures ProducerSide(StepConsumer(s))
  {
  }

  lemma OthersKeepConsumerSide<T>(s: Ring<T>, l: Label<T>)
    requires Enabled(s, l) && !l.ProducerStep? && !l.ConsumerStep? && ConsumerSide(s)
    ensures ConsumerSide(Apply(s, l))
  {
  }

  lemma OthersKeepProducerSide<T>(s: Ring<T>, l: Label<T>)
    requires Enabled(s, l) && !l.ProducerStep? && !l.ConsumerStep? && ProducerSide(s)
    ensures ProducerSide(Apply(s, l))
  {
  }

  lemma OthersKeepData<T>(s: Ring<T>, l: Label<T>)
    requires DataInv(s) && Enabled(s, l) && !l.ProducerStep? && !l.ConsumerStep?
    ensures DataInv(Apply(s, l))
  {
  }

  lemma StepKeepsLastLook<T>(s: Ring<T>, l: Label<T>)
    requires LastLookClosed(s) && Enabled(s, l)
    ensures LastLookClosed(Apply(s, l))
  {
  }

  lemma StepKeepsInv<T>(s: Ring<T>, l: Label<T>, closes: nat)
    requires Inv(s, closes) && Enabled(s, l)
    ensures Inv(Apply(s, l), closes)
  {
    StepKeepsLastLook(s, l);
    DataGivesCounts(s);
    StepKeepsBumps(s, l, closes);
    match l
    case ProducerStep =>
      ProducerKeepsData(s);
      ProducerKeepsOwnSide(s, closes);
      ProducerKeepsConsumerSide(s);
    case ConsumerStep =>
      ConsumerKeepsData(s);
      ConsumerKeepsOwnSide(s, closes);
      ConsumerKeepsProducerSide(s);
    case _ =>
      OthersKeepData(s, l);
      OthersKeepConsumerSide(s, l);
      OthersKeepProducerSide(s, l);
  }

  // ---------------------------------------------------------------------------
  // Whole runs
  // ---------------------------------------------------------------------------

  /** `ls` can be executed from `s`, in that order. */
  ghost predicate Runnable<T>(s: Ring<T>, ls: seq<Label<T>>)
    decreases |ls|
  {
    ls == [] || (Enabled(s, ls[0]) && Runnable(Apply(s, ls[0]), ls[1..]))
  }

  ghost function Run<T>(s: Ring<T>, ls: seq<Label<T>>): Ring<T>
    requires Runnable(s, ls)
    decreases |ls|
  {
    if ls == [] then s else Run(Apply(s, ls[0]), ls[1..])
  }

  /** Some interleaving of pushes, pops and at most `closes` closes leads to `s`. */
  ghost predicate Reachable<T(!new)>(s: Ring<T>, closes: nat) {
    exists s0, ls :: Init(s0, closes) && Runnable(s0, ls) && Run(s0, ls) == s
  }

  lemma {:induction false} RunKeepsInv<T>(s: Ring<T>, ls: seq<Label<T>>, closes: nat)
    requires Inv(s, closes) && Runnable(s, ls)
    ensures Inv(Run(s, ls), closes)
    decreases |ls|
  {
    if ls != [] {
      StepKeepsInv(s, ls[0], closes);
      RunKeepsInv(Apply(s, ls[0]), ls[1..], closes);
    }
  }

  lemma ReachableInv<T(!new)>(s: Ring<T>, closes: nat)
    requires Reachable(s, closes)
    ensures Inv(s, closes)
  {
    var s0, ls :| Init(s0, closes) && Runnable(s0, ls) && Run(s0, ls) == s;
    RunKeepsInv(s0, ls, closes);
  }

  /** The ring is a bounded FIFO queue: what has been popped is a prefix of what has been
      pushed, and between zero and `cap` items are in between. */
  lemma PoppedIsPrefixOfPushed<T(!new)>(s: Ring<T>, closes: nat)
    requires Reachable(s, closes)
    ensures s.mem.popped <= s.mem.pushed
    ensures 0 <= |s.mem.Queue()| <= s.mem.cap
  {
    ReachableInv(s, closes);
  }

  /** Each atomic step either leaves the abstract queue alone, appends the item being pushed,
      or removes the front, and the item removed is the one read out of the masked slot. */
  lemma StepRefinesQueue<T(!new)>(s: Ring<T>, l: Label<T>, closes: nat)
    requires Reachable(s, closes) && Enabled(s, l)
    ensures s.mem.popped <= s.mem.pushed && Apply(s, l).mem.popped <= Apply(s, l).mem.pushed
    ensures var q, q' := s.mem.Queue(), Apply(s, l).mem.Queue();
            if l.ProducerStep? && s.producer.PPublish? then q' == q + [s.producer.v]
            else if l.ConsumerStep? && s.consumer.KAdvance? then q == [s.consumer.out] + q'
            else q' == q
  {
    ReachableInv(s, closes);
    StepKeepsInv(s, l, closes);
    var m := s.mem;
    if l.ConsumerStep? && s.consumer.KAdvance? {
      assert m.Queue() == [m.pushed[|m.popped|]] + m.pushed[|m.popped| + 1..];
    }
  }

  /** The slot about to be written is not one that holds an unread item. */
  lemma NoOverwrite<T(!new)>(s: Ring<T>, closes: nat, i: nat)
    requires Reachable(s, closes) && s.producer.PWriteSlot?
    requires |s.mem.popped| <= i < |s.mem.pushed|
    ensures s.mem.cap > 0 && s.mem.Slot(s.producer.tl) != s.mem.Slot(i % WORD64)
  {
    ReachableInv(s, closes);
    MaskedCounter(|s.mem.pushed|, s.mem.logCap);
    MaskedCounter(i, s.mem.logCap);
    WrapInjective(i, |s.mem.pushed|, s.mem.cap);
  }

  /** `pop` gives up only on a closed ring from which everything published has been taken. */
  lemma PopFailsOnlyWhenDrained<T(!new)>(s: Ring<T>, closes: nat)
    requires Reachable(s, closes) && s.consumer.KLastLook?
    ensures s.closed && Enabled(s, ConsumerStep)
    ensures Apply(s, ConsumerStep).consumer.KIdle? <==> s.mem.popped == s.mem.pushed
  {
    ReachableInv(s, closes);
    WrappedChecks(s.mem);
  }

  /** No lost wake-up. A parked consumer whose gate is unchanged has nothing to do, unless the
      other side is between its publishing store and its bump; if the gate did change, a
      notification is on its way. The 32-bit gate cannot wrap back to the value it read. */
  lemma NoLostWakeupForConsumer<T(!new)>(s: Ring<T>, closes: nat)
    requires Reachable(s, closes) && s.consumer.KParked?
    ensures s.gates.notEmpty == s.consumer.g ==>
              && (s.mem.popped == s.mem.pushed || s.producer.PBump?)
              && (!s.closed || s.closer.CBumpNotEmpty?)
    ensures s.gates.notEmpty != s.consumer.g ==> s.producer.PNotify? || s.closer.CWakeConsumer?
  {
    ReachableInv(s, closes);
    DataGivesCounts(s);
    GateComparesBumps(s.gates.notEmptyBumps, s.consumer.g, s.consumer.seen, |s.mem.popped|, s.mem.cap + closes);
  }

  lemma NoLostWakeupForProducer<T(!new)>(s: Ring<T>, closes: nat)
    requires Reachable(s, closes) && s.producer.PParked?
    ensures s.gates.notFull == s.producer.g ==>
              && (|s.mem.pushed| == |s.mem.popped| + s.mem.cap || s.consumer.KBump?)
              && (!s.closed || s.closer.CBumpNotEmpty? || s.closer.CWakeConsumer? || s.closer.CBumpNotFull?)
    ensures s.gates.notFull != s.producer.g ==> s.consumer.KNotify? || s.closer.CWakeProducer?
  {
    ReachableInv(s, closes);
    DataGivesCounts(s);
    GateComparesBumps(s.gates.notFullBumps, s.producer.g, s.producer.seen, |s.mem.pushed| - s.mem.cap, s.mem.cap + closes);
  }

  /** The two threads never sleep at once, except while a close that will wake both is under way. */
  lemma NeverBothAsleep<T(!new)>(s: Ring<T>, closes: nat)
    requires Reachable(s, closes) && s.producer.PParked? && s.consumer.KParked?
    ensures !s.closer.CIdle?
  {
    ReachableInv(s, closes);
  }

  ghost predicate Steps<T>(s: Ring<T>, ls: seq<Label<T>>, l: Label<T>) {
    Runnable(s, ls) && forall i :: 0 <= i < |ls| ==> ls[i] == l
  }

  lemma OneMoreStep<T>(s: Ring<T>, l: Label<T>, ls: seq<Label<T>>)
    requires Enabled(s, l) && Steps(Apply(s, l), ls, l)
    ensures Steps(s, [l] + ls, l) && Run(s, [l] + ls) == Run(Apply(s, l), ls)
  {
    assert ([l] + ls)[1..] == ls;
  }

  function ToWake(c: Closer): nat {
    match c
    case CIdle => 0
    case CSetClosed => 5
    case CBumpNotEmpty => 4
    case CWakeConsumer => 3
    case CBumpNotFull => 2
    case CWakeProducer => 1
  }

  /** A close under way reaches a parked producer. */
  lemma {:induction false} CloserWakesProducer<T>(s: Ring<T>) returns (ls: seq<Label<T>>)
    requires s.mem.WellSized() && s.producer.PParked? && !s.closer.CIdle?
    ensures |ls| == ToWake(s.closer) && Steps(s, ls, CloserStep) && Run(s, ls).producer.PWait?
    decreases ToWake(s.closer)
  {
    var rest: seq<Label<T>> := [];
    if !s.closer.CWakeProducer? {
      rest := CloserWakesProducer(Apply(s, CloserStep));
    }
    OneMoreStep(s, CloserStep, rest);
    ls := [CloserStep] + rest;
  }

  lemma ConsumerWakesProducer<T>(s: Ring<T>) returns (ls: seq<Label<T>>)
    requires s.mem.WellSized() && s.producer.PParked? && (s.consumer.KBump? || s.consumer.KNotify?)
    ensures |ls| <= 2 && Steps(s, ls, ConsumerStep) && Run(s, ls).producer.PWait?
  {
    var t := Apply(s, ConsumerStep);
    ls := [];
    if s.consumer.KBump? {
      OneMoreStep(t, ConsumerStep, []);
      ls := [ConsumerStep] + [];
    }
    OneMoreStep(s, ConsumerStep, ls);
    ls := [ConsumerStep] + ls;
  }

  /** A producer parked although there is room or the ring is closed is woken by at most the next four
      steps of the one other thread that is on its way to do so. */
  lemma ParkedProducerIsWoken<T(!new)>(s: Ring<T>, closes: nat) returns (l: Label<T>, ls: seq<Label<T>>)
    requires Reachable(s, closes) && s.producer.PParked?
    requires |s.mem.pushed| < |s.mem.popped| + s.mem.cap || s.closed
    ensures l.ConsumerStep? || l.CloserStep?
    ensures |ls| <= 4 && Steps(s, ls, l) && Run(s, ls).producer.PWait?
  {
    ReachableInv(s, closes);
    if s.consumer.KBump? || s.consumer.KNotify? {
      l := ConsumerStep;
      ls := ConsumerWakesProducer(s);
    } else {
      l := CloserStep;
      assert !s.closer.CIdle? && !s.closer.CSetClosed?;
      ls := CloserWakesProducer(s);
    }
  }

  lemma ProducerWakesConsumer<T>(s: Ring<T>) returns (ls: seq<Label<T>>)
    requires s.mem.WellSized() && s.consumer.KParked? && (s.producer.PBump? || s.producer.PNotify?)
    ensures |ls| <= 2 && Steps(s, ls, ProducerStep) && Run(s, ls).consumer.KWait?
  {
    var t := Apply(s, ProducerStep);
    ls := [];
    if s.producer.PBump? {
      OneMoreStep(t, ProducerStep, []);
      ls := [ProducerStep] + [];
    }
    OneMoreStep(s, ProducerStep, ls);
    ls := [ProducerStep] + ls;
  }

  lemma CloserWakesConsumer<T>(s: Ring<T>) returns (ls: seq<Label<T>>)
    requires s.mem.WellSized() && s.consumer.KParked? && (s.closer.CBumpNotEmpty? || s.closer.CWakeConsumer?)
    ensures |ls| <= 2 && Steps(s, ls, CloserStep) && Run(s, ls).consumer.KWait?
  {
    var t := Apply(s, CloserStep);
    ls := [];
    if s.closer.CBumpNotEmpty? {
      OneMoreStep(t, CloserStep, []);
      ls := [CloserStep] + [];
    }
    OneMoreStep(s, CloserStep, ls);
    ls := [CloserStep] + ls;
  }

  /** A consumer parked although an item or a close awaits it is woken by at most the next two
      steps of the one other thread that is on its way to do so. */
  lemma ParkedConsumerIsWoken<T(!new)>(s: Ring<T>, closes: nat) returns (l: Label<T>, ls: seq<Label<T>>)
    requires Reachable(s, closes) && s.consumer.KParked?
    requires s.mem.popped != s.mem.pushed || s.closed
    ensures l.ProducerStep? || l.CloserStep?
    ensures |ls| <= 2 && Steps(s, ls, l) && Run(s, ls).consumer.KWait?
  {
    ReachableInv(s, closes);
    DataGivesCounts(s);
    if s.producer.PBump? || s.producer.PNotify? {
      l := ProducerStep;
      ls := ProducerWakesConsumer(s);
    } else {
      l := CloserStep;
      ls := CloserWakesConsumer(s);
    }
  }

  // ---------------------------------------------------------------------------
  // How calls end
  // ---------------------------------------------------------------------------

  /** `pop` returns after taking an item and announcing the room, or on a closed ring from which
      everything published has been taken; never otherwise. */
  lemma PopEnds<T(!new)>(s: Ring<T>, closes: nat)
    requires Reachable(s, closes) && Enabled(s, ConsumerStep) && Apply(s, ConsumerStep).consumer.KIdle?
    ensures s.consumer.KNotify? || (s.closed && s.mem.popped == s.mem.pushed)
  {
    ReachableInv(s, closes);
    WrappedChecks(s.mem);
  }

  /** `push` returns after publishing its item and announcing it, or on a closed ring. */
  lemma PushEnds<T(!new)>(s: Ring<T>, closes: nat)
    requires Reachable(s, closes) && Enabled(s, ProducerStep) && Apply(s, ProducerStep).producer.PIdle?
    ensures s.producer.PNotify? || s.closed
  {
  }

  /** The announcements follow an item taken or published by the same call. */
  lemma AnnouncementsAreEarned<T(!new)>(s: Ring<T>, l: Label<T>, closes: nat)
    requires Reachable(s, closes) && Enabled(s, l)
    ensures var t := Apply(s, l);
            && (t.consumer.KBump? && !s.consumer.KBump? ==> |t.mem.popped| == |s.mem.popped| + 1)
            && (t.consumer.KNotify? && !s.consumer.KNotify? ==> s.consumer.KBump?)
            && (t.producer.PBump? && !s.producer.PBump? ==> |t.mem.pushed| == |s.mem.pushed| + 1)
            && (t.producer.PNotify? && !s.producer.PNotify? ==> s.producer.PBump?)
  {
  }

  /** A `close` that has returned, or is past its first step, has closed the ring for good. */
  ghost predicate ClosedBehind<T>(s: Ring<T>) {
    !s.closer.CIdle? && !s.closer.CSetClosed? ==> s.closed
  }

  lemma CloseCloses<T>(s: Ring<T>, l: Label<T>)
    requires ClosedBehind(s) && Enabled(s, l)
    ensures ClosedBehind(Apply(s, l)) && (s.closed ==> Apply(s, l).closed)
    ensures l.CloserStep? && Apply(s, l).closer.CIdle? ==> Apply(s, l).closed
    ensures l.CallClose? ==> Apply(s, l).closer.CSetClosed?
  {
  }

  // ---------------------------------------------------------------------------
  // A thread on its own
  // ---------------------------------------------------------------------------

  /** `n` steps `l` lead from `s` to `t`. */
  ghost predicate Goes<T>(s: Ring<T>, l: Label<T>, n: nat, t: Ring<T>)
    decreases n
  {
    if n == 0 then s == t else Enabled(s, l) && Goes(Apply(s, l), l, n - 1, t)
  }

  lemma {:induction false} Chain<T>(ss: seq<Ring<T>>, l: Label<T>)
    requires ss != [] && forall i :: 0 <= i < |ss| - 1 ==> Enabled(ss[i], l) && ss[i + 1] == Apply(ss[i], l)
    ensures Goes(ss[0], l, |ss| - 1, ss[|ss| - 1])
    decreases |ss|
  {
    if |ss| > 1 {
      assert ss[1..][0] == ss[1] && ss[1..][|ss| - 2] == ss[|ss| - 1];
      Chain(ss[1..], l);
    }
  }

  lemma LonePopTakesFrontSteps<T>(s: Ring<T>) returns (t: Ring<T>)
    requires s.mem.WellSized() && s.consumer.KIdle? && s.mem.head != s.mem.tail
    ensures Goes(Apply(s, CallPop), ConsumerStep, 6, t)
    ensures t.consumer.KIdle? && t.mem == s.mem.Advance(s.mem.head, s.mem.Read(s.mem.head))
  {
    var s0 := Apply(s, CallPop);
    var s1 := Apply(s0, ConsumerStep);
    var s2 := Apply(s1, ConsumerStep);
    var s3 := Apply(s2, ConsumerStep);
    var s4 := Apply(s3, ConsumerStep);
    var s5 := Apply(s4, ConsumerStep);
    var s6 := Apply(s5, ConsumerStep);
    t := s6;
    Chain([s0, s1, s2, s3, s4, s5, s6], ConsumerStep);
  }

  /** With an item waiting, a `pop` left to itself takes the front item and returns. */
  lemma LonePopTakesFront<T(!new)>(s: Ring<T>, closes: nat) returns (t: Ring<T>)
    requires Reachable(s, closes) && s.consumer.KIdle? && s.mem.popped != s.mem.pushed
    ensures Enabled(s, CallPop) && Goes(Apply(s, CallPop), ConsumerStep, 6, t)
    ensures |s.mem.popped| < |s.mem.pushed|
    ensures t.consumer.KIdle? && t.mem.popped == s.mem.popped + [s.mem.pushed[|s.mem.popped|]] && t.mem.pushed == s.mem.pushed
  {
    ReachableInv(s, closes);
    WrappedChecks(s.mem);
    ReadReturnsFront(s.mem);
    t := LonePopTakesFrontSteps(s);
  }

  lemma LonePopParksSteps<T>(s: Ring<T>) returns (t: Ring<T>)
    requires s.mem.WellSized() && s.consumer.KIdle? && s.mem.head == s.mem.tail && !s.closed
    ensures Goes(Apply(s, CallPop), ConsumerStep, 7, t)
    ensures t.consumer.KParked? && t.mem == s.mem
  {
    var s0 := Apply(s, CallPop);
    var s1 := Apply(s0, ConsumerStep);
    var s2 := Apply(s1, ConsumerStep);
    var s3 := Apply(s2, ConsumerStep);
    var s4 := Apply(s3, ConsumerStep);
    var s5 := Apply(s4, ConsumerStep);
    var s6 := Apply(s5, ConsumerStep);
    var s7 := Apply(s6, ConsumerStep);
    t := s7;
    Chain([s0, s1, s2, s3, s4, s5, s6, s7], ConsumerStep);
  }

  /** On an open empty ring a `pop` left to itself goes to sleep. */
  lemma LonePopParks<T(!new)>(s: Ring<T>, closes: nat) returns (t: Ring<T>)
    requires Reachable(s, closes) && s.consumer.KIdle? && s.mem.popped == s.mem.pushed && !s.closed
    ensures Enabled(s, CallPop) && Goes(Apply(s, CallPop), ConsumerStep, 7, t)
    ensures t.consumer.KParked? && t.mem == s.mem
  {
    ReachableInv(s, closes);
    WrappedChecks(s.mem);
    t := LonePopParksSteps(s);
  }

  lemma LonePopGivesUpSteps<T>(s: Ring<T>) returns (t: Ring<T>)
    requires s.mem.WellSized() && s.consumer.KIdle? && s.mem.head == s.mem.tail && s.closed
    ensures Goes(Apply(s, CallPop), ConsumerStep, 4, t)
    ensures t == s
  {
    var s0 := Apply(s, CallPop);
    var s1 := Apply(s0, ConsumerStep);
    var s2 := Apply(s1, ConsumerStep);
    var s3 := Apply(s2, ConsumerStep);
    var s4 := Apply(s3, ConsumerStep);
    t := s4;
    Chain([s0, s1, s2, s3, s4], ConsumerStep);
  }

  /** On a closed empty ring it returns with nothing. */
  lemma LonePopGivesUp<T(!new)>(s: Ring<T>, closes: nat) returns (t: Ring<T>)
    requires Reachable(s, closes) && s.consumer.KIdle? && s.mem.popped == s.mem.pushed && s.closed
    ensures Enabled(s, CallPop) && Goes(Apply(s, CallPop), ConsumerStep, 4, t)
    ensures t == s
  {
    ReachableInv(s, closes);
    WrappedChecks(s.mem);
    t := LonePopGivesUpSteps(s);
  }

  lemma LonePushPublishesSteps<T>(s: Ring<T>, v: T) returns (t: Ring<T>)
    requires s.mem.WellSized() && s.producer.PIdle? && !s.closed && s.mem.HasRoom(s.mem.tail)
    ensures Goes(Apply(s, CallPush(v)), ProducerStep, 7, t)
    ensures t.producer.PIdle? && t.mem.pushed == s.mem.pushed + [v] && t.mem.popped == s.mem.popped
  {
    var s0 := Apply(s, CallPush(v));
    var s1 := Apply(s0, ProducerStep);
    var s2 := Apply(s1, ProducerStep);
    var s3 := Apply(s2, ProducerStep);
    var s4 := Apply(s3, ProducerStep);
    AndMask(s.mem.tail, s.mem.logCap);
    assert s4.mem.WellSized();
    var s5 := Apply(s4, ProducerStep);
    var s6 := Apply(s5, ProducerStep);
    var s7 := Apply(s6, ProducerStep);
    t := s7;
    Chain([s0, s1, s2, s3, s4, s5, s6, s7], ProducerStep);
  }

  /** With room on an open ring, a `push` left to itself publishes its item and returns. */
  lemma LonePushPublishes<T(!new)>(s: Ring<T>, v: T, closes: nat) returns (t: Ring<T>)
    requires Reachable(s, closes) && s.producer.PIdle? && !s.closed && |s.mem.pushed| < |s.mem.popped| + s.mem.cap
    ensures Enabled(s, CallPush(v)) && Goes(Apply(s, CallPush(v)), ProducerStep, 7, t)
    ensures t.producer.PIdle? && t.mem.pushed == s.mem.pushed + [v] && t.mem.popped == s.mem.popped
  {
    ReachableInv(s, closes);
    WrappedChecks(s.mem);
    t := LonePushPublishesSteps(s, v);
  }

  lemma LonePushParksSteps<T>(s: Ring<T>, v: T) returns (t: Ring<T>)
    requires s.mem.WellSized() && s.producer.PIdle? && !s.closed && !s.mem.HasRoom(s.mem.tail)
    ensures Goes(Apply(s, CallPush(v)), ProducerStep, 7, t)
    ensures t.producer.PParked? && t.mem == s.mem
  {
    var s0 := Apply(s, CallPush(v));
    var s1 := Apply(s0, ProducerStep);
    var s2 := Apply(s1, ProducerStep);
    var s3 := Apply(s2, ProducerStep);
    var s4 := Apply(s3, ProducerStep);
    var s5 := Apply(s4, ProducerStep);
    var s6 := Apply(s5, ProducerStep);
    var s7 := Apply(s6, ProducerStep);
    t := s7;
    Chain([s0, s1, s2, s3, s4, s5, s6, s7], ProducerStep);
  }

  /** On a full open ring it goes to sleep with nothing published. */
  lemma LonePushParks<T(!new)>(s: Ring<T>, v: T, closes: nat) returns (t: Ring<T>)
    requires Reachable(s, closes) && s.producer.PIdle? && !s.closed && |s.mem.pushed| == |s.mem.popped| + s.mem.cap
    ensures Enabled(s, CallPush(v)) && Goes(Apply(s, CallPush(v)), ProducerStep, 7, t)
    ensures t.producer.PParked? && t.mem == s.mem
  {
    ReachableInv(s, closes);
    WrappedChecks(s.mem);
    t := LonePushParksSteps(s, v);
  }

  lemma LonePushGivesUpSteps<T>(s: Ring<T>, v: T) returns (t: Ring<T>)
    requires s.mem.WellSized() && s.producer.PIdle? && s.closed
    ensures Goes(Apply(s, CallPush(v)), ProducerStep, 2, t)
    ensures t == s
  {
    var s0 := Apply(s, CallPush(v));
    var s1 := Apply(s0, ProducerStep);
    var s2 := Apply(s1, ProducerStep);
    t := s2;
    Chain([s0, s1, s2], ProducerStep);
  }

  /** On a closed ring it returns with nothing published. */
  lemma LonePushGivesUp<T(!new)>(s: Ring<T>, v: T, closes: nat) returns (t: Ring<T>)
    requires Reachable(s, closes) && s.producer.PIdle? && s.closed
    ensures Enabled(s, CallPush(v)) && Goes(Apply(s, CallPush(v)), ProducerStep, 2, t)
    ensures t == s
  {
    ReachableInv(s, closes);
    WrappedChecks(s.mem);
    t := LonePushGivesUpSteps(s, v);
  }
}
