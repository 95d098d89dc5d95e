/** Reading a written archive back gives the files: the round trip of server/archive.cxx. */
module Untar {
  import opened Basics
  import opened Bytes
  import opened Archive
  import Tar

  /** How a header block is read: is it sound, whose is it, how long is its data. */
  datatype Reader = Reader(sound: Bytes -> bool, name: Bytes -> Bytes, size: Bytes -> nat)

  datatype File = File(name: Bytes, data: Bytes)

  /** A strict tar reader: members one after the other, filled up with zeros, closed by two zero blocks
      and nothing more; anything else is no archive. */
  function Read(rd: Reader, b: Bytes): Option<seq<File>>
    decreases |b|
  {
    if b == Zeros(1024) then Some([])
    else if |b| < 512 || b[..512] == Zeros(512) || !rd.sound(b[..512]) then None
    else
      var size := rd.size(b[..512]);
      var end := 512 + (size + 511) / 512 * 512;
      if |b| < end || 512 + size > end || b[512 + size..end] != Zeros(end - 512 - size) then None
      else
        var more :- Read(rd, b[end..]);
        Some([File(rd.name(b[..512]), b[512..512 + size])] + more)
  }

  /** The files the archive is expected to hold: those that could be opened, cut or zero-filled to
      the size recorded. */
  function Files(es: seq<Entry>): seq<File> {
    if es == [] then []
    else if es[0].content.None? then Files(es[1..])
    else [File(es[0].name, Fit(es[0].content.value, es[0].size))] + Files(es[1..])
  }

  /** Header writers whose blocks are sound and never mistaken for the end. */
  ghost predicate WritesBlocks(rd: Reader, h: (Bytes, nat) -> Bytes) {
    forall n, s :: |h(n, s)| == 512 && h(n, s) != Zeros(512) && rd.sound(h(n, s))
  }

  /** The reader gets name and size of `e` out of its header. */
  ghost predicate Understands(rd: Reader, h: (Bytes, nat) -> Bytes, e: Entry) {
    rd.name(h(e.name, e.size)) == e.name && rd.size(h(e.name, e.size)) == e.size
  }

  lemma Slices(b: Bytes, data: Bytes, pad: Bytes, rest: Bytes)
    ensures var whole, n := (b + (data + pad)) + rest, |b| + |data|;
            && whole[..|b|] == b && whole[|b|..n] == data && whole[n..n + |pad|] == pad && whole[n + |pad|..] == rest
  {
  }

  lemma ReadMember(rd: Reader, b: Bytes, data: Bytes, rest: Bytes)
    requires |b| == 512 && b != Zeros(512) && rd.sound(b) && rd.size(b) == |data|
    ensures var whole := (b + (data + Zeros(PadLength(|data|)))) + rest;
            Read(rd, whole) == match Read(rd, rest) case None => None case Some(fs) => Some([File(rd.name(b), data)] + fs)
  {
    PadsToBlock(|data|);
    Slices(b, data, Zeros(PadLength(|data|)), rest);
    assert Zeros(1024)[..512] == Zeros(512);
    hide PadLength;
  }

  lemma Misread(rd: Reader, h: (Bytes, nat) -> Bytes, es: seq<Entry>)
    requires WritesBlocks(rd, h) && es != [] && es[0].content.Some? && !Understands(rd, h, es[0])
    ensures Read(rd, Tarball(h, es)) != Some(Files(es))
  {
    var b := h(es[0].name, es[0].size);
    TarballNext(h, es);
    var whole := Tarball(h, es);
    assert whole[..512] == b && Zeros(1024)[..512] == Zeros(512);
    assert Files(es)[0].name == es[0].name && |Files(es)[0].data| == es[0].size;
  }

  ghost predicate AllUnderstood(rd: Reader, h: (Bytes, nat) -> Bytes, es: seq<Entry>) {
    forall i :: 0 <= i < |es| && es[i].content.Some? ==> Understands(rd, h, es[i])
  }

  lemma AllUnderstoodNext(rd: Reader, h: (Bytes, nat) -> Bytes, es: seq<Entry>)
    requires es != []
    ensures AllUnderstood(rd, h, es)
            <==> (es[0].content.Some? ==> Understands(rd, h, es[0])) && AllUnderstood(rd, h, es[1..])
  {
    assert forall i :: 0 < i < |es| ==> es[i] == es[1..][i - 1];
    if AllUnderstood(rd, h, es) {
      assert forall i :: 0 <= i < |es[1..]| ==> es[1..][i] == es[i + 1];
    }
  }

  /** One member further. */
  lemma ReadNext(rd: Reader, h: (Bytes, nat) -> Bytes, es: seq<Entry>)
    requires WritesBlocks(rd, h) && es != []
    ensures Read(rd, Tarball(h, es)) == Some(Files(es))
            <==> (es[0].content.Some? ==> Understands(rd, h, es[0])) && Read(rd, Tarball(h, es[1..])) == Some(Files(es[1..]))
  {
    var rest := Tarball(h, es[1..]);
    TarballNext(h, es);
    if es[0].content.None? {
      assert [] + rest == rest;
    } else if Understands(rd, h, es[0]) {
      var data := Fit(es[0].content.value, es[0].size);
      ReadMember(rd, h(es[0].name, es[0].size), data, rest);
      if Read(rd, rest).Some? {
        SameTail(File(es[0].name, data), Read(rd, rest).value, Files(es[1..]));
      }
    } else {
      Misread(rd, h, es);
    }
  }

  /** The archive reads back as its files if and only if every header in it does. */
  lemma {:induction false} ReadTarball(rd: Reader, h: (Bytes, nat) -> Bytes, es: seq<Entry>)
    requires WritesBlocks(rd, h)
    ensures Read(rd, Tarball(h, es)) == Some(Files(es)) <==> AllUnderstood(rd, h, es)
  {
    if es == [] {
      assert Tarball(h, es) == Zeros(1024);
    } else {
      ReadNext(rd, h, es);
      ReadTarball(rd, h, es[1..]);
      AllUnderstoodNext(rd, h, es);
    }
  }

  lemma SameTail(x: File, a: seq<File>, b: seq<File>)
    ensures [x] + a == [x] + b <==> a == b
  {
    assert ([x] + a)[1..] == a && ([x] + b)[1..] == b;
  }

  // ---------------------------------------------------------------------------
  // With the ustar header
  // ---------------------------------------------------------------------------

  predicate Sound(h: Bytes) { |h| == 512 && Tar.ChecksumHolds(h) && Tar.ReadSize(h) >= 0 }

  function Name(h: Bytes): Bytes { if |h| == 512 then Tar.ReadName(h) else [] }

  function Size(h: Bytes): nat { if |h| == 512 && Tar.ReadSize(h) >= 0 then Tar.ReadSize(h) else 0 }

  function Ustar(): Reader { Reader(Sound, Name, Size) }

  /** Names and sizes the ustar header can carry. */
  ghost predicate Storable(e: Entry) {
    (|e.name| <= Tar.NAME || exists p :: p > 0 && Tar.SplitsAt(e.name, p)) && e.size < Tar.Pow8(11)
  }

  lemma UnderstandsIffStorable(e: Entry)
    requires Tar.NoZero(e.name)
    ensures Understands(Ustar(), Tar.Header, e) <==> Storable(e)
  {
    HeaderFacts(e.name, e.size);
    Tar.NameReadsBack(e.name, e.size);
    Tar.SizeReadsBack(e.name, e.size);
  }

  lemma HeaderFacts(name: Bytes, size: nat)
    ensures var h := Tar.Header(name, size);
            h != Zeros(512) && Tar.ChecksumHolds(h) && Tar.ReadSize(h) >= 0
  {
    Tar.UstarMarks(name, size);
    Tar.ChecksumAlwaysHolds(name, size);
    Tar.SizeIsNatural(name, size);
  }

  lemma UstarWritesBlocks()
    ensures WritesBlocks(Ustar(), Tar.Header)
  {
    forall n, s
      ensures |Tar.Header(n, s)| == 512 && Tar.Header(n, s) != Zeros(512) && Sound(Tar.Header(n, s))
    {
      HeaderFacts(n, s);
    }
  }

  /** Reading the archive back gives exactly the files that could be opened, if and only if ustar
      can carry every one of their names and sizes. */
  lemma ArchiveReadsBack(entries: seq<Entry>)
    requires forall i :: 0 <= i < |entries| ==> Tar.NoZero(entries[i].name)
    ensures Read(Ustar(), Tarball(Tar.Header, entries)) == Some(Files(entries))
            <==> forall i :: 0 <= i < |entries| && entries[i].content.Some? ==> Storable(entries[i])
  {
    forall i | 0 <= i < |entries|
      ensures Understands(Ustar(), Tar.Header, entries[i]) <==> Storable(entries[i])
    {
      UnderstandsIffStorable(entries[i]);
    }
    UstarWritesBlocks();
    ReadTarball(Ustar(), Tar.Header, entries);
  }
}
