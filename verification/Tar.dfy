/** The tar member header of server/archive.cxx, and a reader for it after the "ustar Interchange
    Format" section of the pax utility in POSIX.1-2017. */
module Tar {
  import Bits
  import opened Bytes

  const NAME: nat := 100
  const PREFIX: nat := 155
  const SLASH: Byte := 47
  const SPACE: Byte := 32
  const ZERO: Byte := 48

  // ---------------------------------------------------------------------------
  // Octal fields
  // ---------------------------------------------------------------------------

  function Pow8(n: nat): (p: nat)
    ensures p > 0
  {
    if n == 0 then 1 else 8 * Pow8(n - 1)
  }

  /** The last `n` octal digits of `v`. */
  function Octal(v: nat, n: nat): (r: Bytes)
    ensures |r| == n && forall i :: 0 <= i < n ==> ZERO <= r[i] < ZERO + 8
  {
    if n == 0 then [] else Octal(v / 8, n - 1) + [ZERO + v % 8]
  }

  function OctalField(v: nat, n: nat): (r: Bytes)
    requires n > 0
    ensures |r| == n
  {
    Octal(v, n - 1) + [0]
  }

  /** The number an octal field stands for. */
  function UnOctal(s: Bytes): int {
    if s == [] then 0 else 8 * UnOctal(s[..|s| - 1]) + (s[|s| - 1] - ZERO)
  }

  lemma {:induction false} UnOctalOfOctal(v: nat, n: nat)
    ensures UnOctal(Octal(v, n)) == v % Pow8(n)
  {
    if n > 0 {
      UnOctalOfOctal(v / 8, n - 1);
      assert Octal(v, n)[..n - 1] == Octal(v / 8, n - 1);
      ModByEight(v, Pow8(n - 1));
    }
  }

  lemma ModByEight(v: nat, p: nat)
    requires p > 0
    ensures v % (8 * p) == 8 * ((v / 8) % p) + v % 8
  {
    var q, r := (v / 8) / p, (v / 8) % p;
    assert v / 8 == p * q + r;
    assert v == (8 * p) * q + (8 * r + v % 8) by { assert 8 * (p * q) == (8 * p) * q; }
    Bits.ModUnique(v, 8 * p, q, 8 * r + v % 8);
  }

  /** `set_octal`: digits from the back, then the terminator. */
  method SetOctal(h: array<Byte>, at: nat, n: nat, v: nat)
    requires n > 0 && at + n <= h.Length
    modifies h
    ensures h[..] == Patch(old(h[..]), at, OctalField(v, n))
  {
    var x := v;
    ghost var tail: Bytes := [];
    for k := 0 to n - 1
      invariant Octal(v, n - 1) == Octal(x, n - 1 - k) + tail && |tail| == k
      invariant forall i :: 0 <= i < h.Length ==>
                  h[i] == if at + n - 1 - k <= i < at + n - 1 then tail[i - (at + n - 1 - k)] else old(h[i])
    {
      h[at + n - 2 - k] := ZERO + x % 8;
      tail := [ZERO + x % 8] + tail;
      x := x / 8;
    }
    h[at + n - 1] := 0;
  }

  // ---------------------------------------------------------------------------
  // Names
  // ---------------------------------------------------------------------------

  /** A '/' at `p` leaves at most 100 bytes after it and at most 155 before it. */
  predicate SplitsAt(name: Bytes, p: nat) {
    p < |name| && name[p] == SLASH && |name| - (p + 1) <= NAME && p <= PREFIX
  }

  /** The largest acceptable split, or |name| if there is none. */
  function LastSplit(name: Bytes, k: nat): (p: nat)
    requires k <= |name|
    ensures p <= |name| && (p < |name| ==> p < k && SplitsAt(name, p))
    ensures forall q :: 0 <= q < k && (p < q || p == |name|) ==> !SplitsAt(name, q)
  {
    if k == 0 then |name| else if SplitsAt(name, k - 1) then k - 1 else LastSplit(name, k - 1)
  }

  method FindSplit(name: Bytes) returns (split: nat)
    ensures split == LastSplit(name, |name|)
  {
    split := |name|;
    for p := 0 to |name|
      invariant split == LastSplit(name, p)
    {
      if name[p] == SLASH {
        var suffixLen := |name| - (p + 1);
        if suffixLen <= NAME && p <= PREFIX {
          split := p;
        }
      }
    }
  }

  /** The name and prefix fields: a long name is split at a '/', or else cut to its last 100 bytes. */
  function NameFields(name: Bytes): (r: (Bytes, Bytes))
    ensures |r.0| <= NAME && |r.1| <= PREFIX
  {
    if |name| <= NAME then (name, [])
    else
      var p := LastSplit(name, |name|);
      if p < |name| then (name[p + 1..], name[..p]) else (name[|name| - NAME..], [])
  }

  // ---------------------------------------------------------------------------
  // The header
  // ---------------------------------------------------------------------------

  /** Everything but the checksum, laid over 512 zero bytes. */
  function Fields(f: Bytes, p: Bytes, size: nat): (h: Bytes)
    requires |f| <= NAME && |p| <= PREFIX
    ensures |h| == 512
  {
    var h := Patch(Patch(Zeros(512), 0, f), 345, p);
    var h := Patch(Patch(Patch(h, 100, OctalField(420, 8)), 108, OctalField(0, 8)), 116, OctalField(0, 8));
    var h := Patch(Patch(h, 124, OctalField(size, 12)), 136, OctalField(0, 12));
    var h := Patch(Patch(h, 156, [ZERO]), 257, [117, 115, 116, 97, 114]);
    Patch(h, 263, [ZERO, ZERO])
  }

  function Sum(s: Bytes): nat { if s == [] then 0 else Sum(s[..|s| - 1]) + s[|s| - 1] }

  lemma {:induction false} SumBound(s: Bytes)
    ensures Sum(s) <= 255 * |s|
  {
    if s != [] {
      SumBound(s[..|s| - 1]);
    }
  }

  /** The checksum field read as spaces. */
  function Blanked(h: Bytes): (r: Bytes)
    requires |h| == 512
    ensures |r| == 512
  {
    Patch(h, 148, seq(8, _ => SPACE))
  }

  function Header(name: Bytes, size: nat): (h: Bytes)
    ensures |h| == 512
  {
    var (f, p) := NameFields(name);
    var g := Blanked(Fields(f, p, size));
    Patch(Patch(g, 148, Octal(Sum(g), 6)), 154, [0, SPACE])
  }

  /** A long name is split at a slash, or cut to its last hundred bytes. */
  method SplitName(name: Bytes) returns (f: Bytes, p: Bytes)
    ensures (f, p) == NameFields(name)
  {
    f, p := name, [];
    if |name| > NAME {
      var split := FindSplit(name);
      if split < |name| {
        p, f := name[..split], name[split + 1..];
      } else {
        f := name[|name| - NAME..];
      }
    }
  }

  /** `emit_header`: the same, written in place. */
  method EmitHeader(name: Bytes, size: nat) returns (h: array<Byte>)
    ensures fresh(h) && h[..] == Header(name, size)
  {
    h := new Byte[512](_ => 0);
    assert h[..] == Zeros(512);
    var fieldName, fieldPrefix := SplitName(name);
    EmitFields(h, fieldName, fieldPrefix, size);
    EmitChecksum(h);
  }

  /** Everything but the checksum, on a zeroed block. */
  method EmitFields(h: array<Byte>, f: Bytes, p: Bytes, size: nat)
    requires h[..] == Zeros(512) && |f| <= NAME && |p| <= PREFIX
    modifies h
    ensures h[..] == Fields(f, p, size)
  {
    Blit(h, 0, f);
    Blit(h, 345, p);
    SetOctal(h, 100, 8, 420);
    SetOctal(h, 108, 8, 0);
    SetOctal(h, 116, 8, 0);
    SetOctal(h, 124, 12, size);
    SetOctal(h, 136, 12, 0);
    Blit(h, 156, [ZERO]);
    Blit(h, 257, [117, 115, 116, 97, 114]);
    Blit(h, 263, [ZERO, ZERO]);
  }

  method EmitChecksum(h: array<Byte>)
    requires h.Length == 512
    modifies h
    ensures var g := Blanked(old(h[..])); h[..] == Patch(Patch(g, 148, Octal(Sum(g), 6)), 154, [0, SPACE])
  {
    Blit(h, 148, seq(8, _ => SPACE));
    var sum := SumOf(h);
    Blit(h, 148, Octal(sum, 6));
    Blit(h, 154, [0, SPACE]);
  }

  method SumOf(h: array<Byte>) returns (sum: nat)
    ensures sum == Sum(h[..])
  {
    sum := 0;
    for k := 0 to h.Length
      invariant sum == Sum(h[..k])
    {
      assert h[..k + 1][..k] == h[..k];
      sum := sum + h[k];
    }
    assert h[..h.Length] == h[..];
  }

  // ---------------------------------------------------------------------------
  // Reading it back
  // ---------------------------------------------------------------------------

  /** A string field: up to the first zero byte, or the whole field. */
  function Text(s: Bytes): Bytes { if s == [] || s[0] == 0 then [] else [s[0]] + Text(s[1..]) }

  function ReadName(h: Bytes): Bytes
    requires |h| == 512
  {
    var name, prefix := Text(h[..100]), Text(h[345..500]);
    if prefix == [] then name else prefix + [SLASH] + name
  }

  function ReadSize(h: Bytes): int
    requires |h| == 512
  {
    UnOctal(h[124..135])
  }

  predicate ChecksumHolds(h: Bytes)
    requires |h| == 512
  {
    UnOctal(h[148..154]) == Sum(Blanked(h))
  }

  predicate NoZero(s: Bytes) { forall i :: 0 <= i < |s| ==> s[i] != 0 }

  lemma {:induction false} TextOfPadded(s: Bytes, n: nat)
    requires NoZero(s)
    ensures Text(s + Zeros(n)) == s
  {
    if s != [] {
      TextOfPadded(s[1..], n);
      assert (s + Zeros(n))[1..] == s[1..] + Zeros(n);
    }
  }

  lemma Summed(fields: Bytes)
    requires |fields| == 512
    ensures var g := Blanked(fields); ChecksumHolds(Patch(Patch(g, 148, Octal(Sum(g), 6)), 154, [0, SPACE]))
  {
    var g := Blanked(fields);
    var h := Patch(Patch(g, 148, Octal(Sum(g), 6)), 154, [0, SPACE]);
    SumBound(g);
    assert Pow8(6) == 262144;
    UnOctalOfOctal(Sum(g), 6);
    hide Sum, UnOctal, Octal;
    assert Blanked(h) == g;
    assert h[148..154] == Octal(Sum(g), 6);
  }

  /** Every header carries a valid checksum. */
  lemma ChecksumAlwaysHolds(name: Bytes, size: nat)
    ensures ChecksumHolds(Header(name, size))
  {
    var (f, p) := NameFields(name);
    Summed(Fields(f, p, size));
  }

  /** The size is read back exactly when it fits eleven octal digits. */
  lemma SizeReadsBack(name: Bytes, size: nat)
    ensures ReadSize(Header(name, size)) == size <==> size < Pow8(11)
  {
    var h := Header(name, size);
    assert h[124..135] == Octal(size, 11);
    UnOctalOfOctal(size, 11);
  }

  lemma SizeIsNatural(name: Bytes, size: nat)
    ensures ReadSize(Header(name, size)) >= 0
  {
    var h := Header(name, size);
    assert h[124..135] == Octal(size, 11);
    UnOctalOfOctal(size, 11);
  }

  /** The checksum is the only thing added to the fields. */
  lemma HeaderOutsideChecksum(name: Bytes, size: nat)
    ensures var (f, p) := NameFields(name);
            forall i :: 0 <= i < 148 || 156 <= i < 512 ==> Header(name, size)[i] == Fields(f, p, size)[i]
  {
  }

  lemma FieldMarks(f: Bytes, p: Bytes, size: nat)
    requires |f| <= NAME && |p| <= PREFIX
    ensures var h := Fields(f, p, size);
            && h[156] == ZERO && h[257] == 117 && h[258] == 115 && h[259] == 116 && h[260] == 97 && h[261] == 114
            && h[262] == 0 && h[263] == ZERO && h[264] == ZERO
  {
  }

  /** A regular-file member in ustar format, version 00. */
  lemma UstarMarks(name: Bytes, size: nat)
    ensures var h := Header(name, size);
            h[156] == ZERO && h[257..263] == [117, 115, 116, 97, 114, 0] && h[263..265] == [ZERO, ZERO]
  {
    var (f, p) := NameFields(name);
    HeaderOutsideChecksum(name, size);
    FieldMarks(f, p, size);
    var h := Header(name, size);
    SixAndTwo(h);
  }

  lemma SixAndTwo(h: Bytes)
    requires |h| == 512
    ensures h[257..263] == [h[257], h[258], h[259], h[260], h[261], h[262]] && h[263..265] == [h[263], h[264]]
  {
  }

  /** Mode 0644, no owner, no group, no time. */
  lemma OwnerFields(name: Bytes, size: nat)
    ensures var h := Header(name, size);
            && UnOctal(h[100..107]) == 420 && UnOctal(h[108..115]) == 0
            && UnOctal(h[116..123]) == 0 && UnOctal(h[136..147]) == 0
  {
    var h := Header(name, size);
    assert h[100..107] == Octal(420, 7);
    assert h[108..115] == Octal(0, 7);
    assert h[116..123] == Octal(0, 7);
    assert h[136..147] == Octal(0, 11);
    OctalReads(420, 7);
    OctalReads(0, 7);
    OctalReads(0, 11);
  }

  /** Everything the other fields leave: terminators, the end of the checksum, zeros. */
  lemma HeaderFill(name: Bytes, size: nat)
    ensures var h := Header(name, size);
            && h[107] == h[115] == h[123] == h[135] == h[147] == h[154] == 0 && h[155] == 32
            && (forall i :: 157 <= i < 257 || 265 <= i < 345 || 500 <= i < 512 ==> h[i] == 0)
  {
  }

  lemma SmallMod(v: nat, p: nat)
    requires p > 0
    ensures v < p ==> v % p == v
  {
  }

  lemma OctalReads(v: nat, n: nat)
    requires v == 0 || (v == 420 && n == 7)
    ensures UnOctal(Octal(v, n)) == v
  {
    UnOctalOfOctal(v, n);
    SmallMod(v, Pow8(n));
    if v == 420 { assert Pow8(7) == 2097152; }
  }

  lemma NameFieldBytes(name: Bytes, size: nat)
    ensures var (f, p) := NameFields(name);
            var h := Header(name, size);
            h[..100] == f + Zeros(100 - |f|) && h[345..500] == p + Zeros(155 - |p|)
  {
  }

  /** The fields of a name, put together as a reader does. */
  function Joined(f: Bytes, p: Bytes): Bytes { if p == [] then f else p + [SLASH] + f }

  lemma ReadNameOfHeader(name: Bytes, size: nat)
    requires NoZero(name)
    ensures ReadName(Header(name, size)) == Joined(NameFields(name).0, NameFields(name).1)
  {
    NameFieldBytes(name, size);
    NameFieldsNoZero(name);
    ReadNameOfFields(Header(name, size), NameFields(name).0, NameFields(name).1);
  }

  lemma NameFieldsNoZero(name: Bytes)
    requires NoZero(name)
    ensures NoZero(NameFields(name).0) && NoZero(NameFields(name).1)
  {
  }

  lemma ReadNameOfFields(h: Bytes, f: Bytes, p: Bytes)
    requires |h| == 512 && |f| <= 100 && |p| <= 155 && NoZero(f) && NoZero(p)
    requires h[..100] == f + Zeros(100 - |f|) && h[345..500] == p + Zeros(155 - |p|)
    ensures ReadName(h) == Joined(f, p)
  {
    assert Text(h[..100]) == f by { TextOfPadded(f, 100 - |f|); }
    assert Text(h[345..500]) == p by { TextOfPadded(p, 155 - |p|); }
  }

  lemma JoinedName(name: Bytes)
    ensures Joined(NameFields(name).0, NameFields(name).1) == name
            <==> |name| <= NAME || exists p :: p > 0 && SplitsAt(name, p)
  {
    var at := LastSplit(name, |name|);
    if |name| > NAME && 0 < at < |name| {
      assert name == name[..at] + [SLASH] + name[at + 1..];
    }
  }

  /** The name is read back exactly when it is short, or splits at a '/' that is not its first byte. */
  lemma NameReadsBack(name: Bytes, size: nat)
    requires NoZero(name)
    ensures ReadName(Header(name, size)) == name
            <==> |name| <= NAME || exists p :: p > 0 && SplitsAt(name, p)
  {
    ReadNameOfHeader(name, size);
    JoinedName(name);
  }
}
