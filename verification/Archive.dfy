/** The resumable tar writer of server/archive.cxx against the archive it is meant to produce. */
module Archive {
  import opened Basics
  import opened Bytes
  import Tar

  const RAW_TARGET: nat := 256 * 1024
  const READ_BUFFER: nat := 65536

  /** A file found by the directory walk. `content` is what reading it yields later on: nothing if
      it can no longer be opened, and possibly more or less than the `size` recorded. */
  datatype Entry = Entry(name: Bytes, size: nat, content: Option<Bytes>)

  // ---------------------------------------------------------------------------
  // What the archive is, for any header writer `h`
  // ---------------------------------------------------------------------------

  /** The first `n` bytes of `s`, zero-filled if there are fewer. */
  function Fit(s: Bytes, n: nat): (r: Bytes)
    ensures |r| == n
    ensures forall i :: 0 <= i < n ==> r[i] == if i < |s| then s[i] else 0
  {
    if |s| >= n then s[..n] else s + Zeros(n - |s|)
  }

  function PadLength(size: nat): nat { (512 - size % 512) % 512 }

  function Member(h: (Bytes, nat) -> Bytes, e: Entry): Bytes {
    match e.content
    case None => []
    case Some(c) => h(e.name, e.size) + (Fit(c, e.size) + Zeros(PadLength(e.size)))
  }

  function Members(h: (Bytes, nat) -> Bytes, es: seq<Entry>): Bytes {
    if es == [] then [] else Member(h, es[0]) + Members(h, es[1..])
  }

  /** Every file that could be opened, in order, then two zero blocks. */
  function Tarball(h: (Bytes, nat) -> Bytes, es: seq<Entry>): Bytes { Members(h, es) + Zeros(1024) }

  /** The size the recorded file sizes announce: a header block and whole data blocks for each. */
  function Blocks(es: seq<Entry>): nat {
    if es == [] then 0
    else (if es[0].content.Some? then 1 + (es[0].size + 511) / 512 else 0) + Blocks(es[1..])
  }

  lemma PadsToBlock(n: nat)
    ensures n + PadLength(n) == (n + 511) / 512 * 512
  {
    var q, r := n / 512, n % 512;
    assert n == 512 * q + r;
    if r == 0 {
      assert (n + 511) / 512 == q;
    } else {
      assert n + 511 == 512 * (q + 1) + (r - 1);
      assert (n + 511) / 512 == q + 1;
    }
  }

  lemma {:induction false} ArchiveLength(h: (Bytes, nat) -> Bytes, es: seq<Entry>)
    requires forall n, s :: |h(n, s)| == 512
    ensures |Members(h, es)| == 512 * Blocks(es)
  {
    if es != [] {
      ArchiveLength(h, es[1..]);
      PadsToBlock(es[0].size);
    }
  }

  lemma TarballNext(h: (Bytes, nat) -> Bytes, es: seq<Entry>)
    requires es != []
    ensures Tarball(h, es) == Member(h, es[0]) + Tarball(h, es[1..])
  {
  }

  /** Reading `got` of the bytes wanted leaves the rest of the fitted content. */
  lemma FitSplit(s: Bytes, n: nat, got: nat)
    requires got <= |s| && got <= n
    ensures Fit(s, n) == s[..got] + Fit(s[got..], n - got)
  {
  }

  /** What is staged and what is left keep their concatenation when bytes move across. */
  lemma Moved(a: Bytes, b: Bytes, c: Bytes, r: Bytes, whole: Bytes)
    requires b + c == r && a + r == whole
    ensures (a + b) + c == whole
  {
  }

  lemma MovedInto(b: Bytes, owed: Bytes, after: Bytes, rest: Bytes)
    requires b + after == owed
    ensures b + (after + rest) == owed + rest
  {
  }

  // ---------------------------------------------------------------------------
  // The streamer
  // ---------------------------------------------------------------------------

  /** The open member: unread content, bytes still owed to it, padding after them. */
  datatype Open = Open(cur: Bytes, curRemaining: nat, padRemaining: nat)

  function Owed(m: Open): Bytes { Fit(m.cur, m.curRemaining) + Zeros(m.padRemaining) }

  lemma MemberBegins(h: (Bytes, nat) -> Bytes, es: seq<Entry>)
    requires es != []
    ensures es[0].content.None? ==> Tarball(h, es) == Tarball(h, es[1..])
    ensures es[0].content.Some? ==>
              Tarball(h, es) == h(es[0].name, es[0].size)
                                + (Owed(Open(es[0].content.value, es[0].size, PadLength(es[0].size))) + Tarball(h, es[1..]))
  {
    TarballNext(h, es);
    var rest := Tarball(h, es[1..]);
    if es[0].content.None? {
      assert [] + rest == rest;
    } else {
      MovedInto(h(es[0].name, es[0].size), Member(h, es[0]), Owed(Open(es[0].content.value, es[0].size, PadLength(es[0].size))), rest);
    }
  }

  /** One `read` of the open file, at most a buffer; a short read is made up with zeros. */
  method ReadMember(m: Open) returns (bytes: Bytes, after: Open)
    requires m.curRemaining > 0
    ensures bytes + Owed(after) == Owed(m)
    ensures after.curRemaining < m.curRemaining && after.padRemaining == m.padRemaining
  {
    var want := if m.curRemaining < READ_BUFFER then m.curRemaining else READ_BUFFER;
    var got := if |m.cur| < want then |m.cur| else want;
    FitSplit(m.cur, m.curRemaining, got);
    bytes := m.cur[..got];
    after := m.(cur := m.cur[got..], curRemaining := m.curRemaining - got);
    if got < want {
      bytes := bytes + Zeros(after.curRemaining);
      after := after.(curRemaining := 0);
    }
  }

  class ArchiveStreamer {
    const header: (Bytes, nat) -> Bytes
    const entries: seq<Entry>
    var idx: nat
    var headerPending: bool
    var open: Open
    var inputDone: bool
    var finished: bool
    var raw: Bytes
    var fed: Bytes              // what the compressor has been given

    constructor (header: (Bytes, nat) -> Bytes, entries: seq<Entry>)
      ensures this.entries == entries && this.header == header
      ensures Valid() && raw == [] && fed == [] && !finished
      ensures Rest() == Tarball(header, entries)
    {
      this.header := header;
      this.entries := entries;
      idx, headerPending, open := 0, true, Open([], 0, 0);
      inputDone, finished, raw, fed := false, false, [], [];
      new;
      assert entries[0..] == entries;
    }

    ghost predicate Valid()
      reads this`idx, this`headerPending, this`inputDone
    {
      idx <= |entries| && (inputDone ==> idx == |entries|) && (idx == |entries| ==> headerPending)
    }

    /** The bytes still to be staged. */
    ghost function Rest(): Bytes
      reads this`idx, this`headerPending, this`open, this`inputDone
      requires Valid()
    {
      if inputDone then []
      else if headerPending then Tarball(header, entries[idx..])
      else Owed(open) + Tarball(header, entries[idx + 1..])
    }

    ghost function Left(): nat
      reads this`headerPending, this`open
    {
      if headerPending then 0 else 1 + open.curRemaining + (if open.padRemaining > 0 then 1 else 0)
    }

    /** The head of a member, or nothing if its file cannot be opened any more. */
    method BeginMember() returns (bytes: Bytes)
      requires Valid() && !inputDone && idx < |entries| && headerPending
      modifies this`idx, this`headerPending, this`open
      ensures Valid() && bytes + Rest() == old(Rest())
      ensures idx > old(idx) || (idx == old(idx) && !headerPending)
    {
      var entry := entries[idx];
      MemberBegins(header, entries[idx..]);
      assert entries[idx..][1..] == entries[idx + 1..];
      if entry.content.None? {
        idx := idx + 1;
        bytes := [];
        assert [] + Rest() == Rest();
        return;
      }
      bytes := header(entry.name, entry.size);
      open := Open(entry.content.value, entry.size, (512 - entry.size % 512) % 512);
      headerPending := false;
    }

    /** One pass of the staging loop: the trailer, a header, a read, a padding, or the next file. */
    method Stage() returns (bytes: Bytes)
      requires Valid() && !inputDone
      modifies this`idx, this`headerPending, this`open, this`inputDone
      ensures Valid() && bytes + Rest() == old(Rest())
      ensures inputDone || idx > old(idx) ||
              (idx == old(idx) && (if old(headerPending) then !headerPending else !headerPending && Left() < old(Left())))
    {
      if idx >= |entries| {
        inputDone := true;
        return Zeros(1024);
      }
      if headerPending {
        bytes := BeginMember();
        return;
      }
      if open.curRemaining > 0 {
        var after;
        bytes, after := ReadMember(open);
        MovedInto(bytes, Owed(open), Owed(after), Tarball(header, entries[idx + 1..]));
        open := after;
        return;
      }
      if open.padRemaining > 0 {
        bytes := Zeros(open.padRemaining);
        assert Owed(open) == bytes && Owed(open.(padRemaining := 0)) == [];
        MovedInto(bytes, bytes, [], Tarball(header, entries[idx + 1..]));
        open := open.(padRemaining := 0);
        return;
      }
      bytes := [];
      assert Owed(open) == [];
      assert [] + Tarball(header, entries[idx + 1..]) == Tarball(header, entries[idx + 1..]);
      idx := idx + 1;
      headerPending := true;
    }

    /** The same with the bytes appended to what is staged. */
    method StageRaw()
      requires Valid() && !inputDone
      modifies this`idx, this`headerPending, this`open, this`inputDone, this`raw
      ensures Valid() && raw + Rest() == old(raw) + old(Rest()) && |raw| >= |old(raw)|
      ensures inputDone || idx > old(idx) ||
              (idx == old(idx) && (if old(headerPending) then !headerPending else !headerPending && Left() < old(Left())))
    {
      hide Tarball, Owed, Fit;
      ghost var before, rest := raw, Rest();
      var bytes := Stage();
      ghost var after := Rest();
      Moved(before, bytes, after, rest, before + rest);
      raw := raw + bytes;
      assert Rest() == after;
    }

    /** `refill_raw`: stage until enough is there or the input is over; nothing is lost or added. */
    method RefillRaw()
      requires Valid()
      modifies this`idx, this`headerPending, this`open, this`inputDone, this`raw
      ensures Valid() && raw + Rest() == old(raw) + old(Rest())
      ensures |raw| >= RAW_TARGET || inputDone
      ensures |raw| >= |old(raw)|
    {
      ghost var whole := raw + Rest();
      while |raw| < RAW_TARGET && !inputDone
        invariant Valid() && raw + Rest() == whole
        invariant |raw| >= |old(raw)|
        decreases !inputDone, |entries| - idx, headerPending, Left()
      {
        StageRaw();
      }
    }

    /** One round of `next`: everything staged goes to the compressor, and the stream is finished
        by the first round that finds nothing left. */
    method Round()
      requires Valid() && !finished && raw == []
      modifies this
      ensures Valid() && raw == [] && fed + Rest() == old(fed) + old(Rest())
      ensures finished ==> Rest() == []
      ensures finished || |fed| > |old(fed)|
    {
      ghost var rest := Rest();
      RefillRaw();
      assert raw + Rest() == rest;
      if inputDone && raw == [] {
        finished := true;
        return;
      }
      Moved(fed, raw, Rest(), rest, fed + rest);
      fed := fed + raw;
      raw := [];
    }
  }

  /** A run of `next` to the end hands the compressor exactly the archive, whatever the sizes, the
      file lengths found on reading, and the files gone missing. */
  method Stream(entries: seq<Entry>) returns (out: Bytes)
    ensures out == Tarball(Tar.Header, entries)
    ensures |out| == 512 * Blocks(entries) + 1024 && out[|out| - 1024..] == Zeros(1024)
  {
    ArchiveLength(Tar.Header, entries);
    var s := new ArchiveStreamer(Tar.Header, entries);
    ghost var whole := s.Rest();
    while !s.finished
      invariant s.Valid() && s.raw == [] && s.fed + s.Rest() == whole
      invariant s.finished ==> s.Rest() == []
      decreases !s.finished, |whole| - |s.fed|
    {
      s.Round();
    }
    out := s.fed;
  }
}
