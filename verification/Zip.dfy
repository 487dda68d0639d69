/** ZipBuilder: the archive it writes, and a reader that starts from the last 22 bytes (sections
    4.3.7, 4.3.12 and 4.3.16 of PKWARE's APPNOTE). CRC-32 values and deflated bytes are given. */
module Zip {
  import opened Arithmetic
  import opened Bytes
  import opened Options

  const LOCAL_SIGNATURE := 0x04034b50
  const CENTRAL_SIGNATURE := 0x02014b50
  const END_SIGNATURE := 0x06054b50
  const TWO_TO_16 := 0x1_0000
  const TWO_TO_32 := 0x1_0000_0000

  datatype Entry = Entry(name: seq<byte>, uncompressedSize: nat, compressed: seq<byte>, compressedSize: nat, crc: nat)
  {
    /** What add_file stores: sizes truncated to 32 bits. */
    predicate Valid() {
      crc < TWO_TO_32 && uncompressedSize < TWO_TO_32 && compressedSize == |compressed| % TWO_TO_32
    }
  }

  // What add_file is given, with the checksum and the deflated bytes that zlib makes of the data.
  datatype File = File(name: seq<byte>, data: seq<byte>, crc: nat, deflated: seq<byte>)

  /** The entry of a file; its sizes are kept in 32 bits. */
  function Stored(f: File): Entry {
    Entry(f.name, |f.data| % TWO_TO_32, f.deflated, |f.deflated| % TWO_TO_32, f.crc)
  }

  function StoredAll(files: seq<File>): (entries: seq<Entry>)
    ensures |entries| == |files|
  {
    seq(|files|, i requires 0 <= i < |files| => Stored(files[i]))
  }

  // ---- Bytes of the archive ----

  /** The low 16 and 32 bits, little-endian: larger values are cut off as put16 and put32 cut them. */
  function Le16(v: nat): (bytes: seq<byte>)
    ensures |bytes| == 2
  {
    [v % 0x100, v / 0x100 % 0x100]
  }

  function Le32(v: nat): (bytes: seq<byte>)
    ensures |bytes| == 4
  {
    Le16(v) + Le16(v / 0x1_0000)
  }

  function LocalHeader(e: Entry): (bytes: seq<byte>)
    ensures |bytes| == 30 + |e.name|
  {
    Le32(LOCAL_SIGNATURE) + (Le16(20) + (Le16(0) + (Le16(8) + (Le16(0) + (Le16(0) + LocalTail(e))))))
  }

  function LocalTail(e: Entry): (bytes: seq<byte>)
    ensures |bytes| == 16 + |e.name|
  {
    Le32(e.crc) + (Le32(e.compressedSize) + (Le32(e.uncompressedSize) + (Le16(|e.name|) + (Le16(0) + e.name))))
  }

  function CentralHeader(e: Entry, offset: nat): (bytes: seq<byte>)
    ensures |bytes| == 46 + |e.name|
  {
    Le32(CENTRAL_SIGNATURE) + (Le16(20) + (Le16(20) + (Le16(0) + (Le16(8) + (Le16(0) + (Le16(0) + CentralSizes(e, offset)))))))
  }

  function CentralSizes(e: Entry, offset: nat): (bytes: seq<byte>)
    ensures |bytes| == 30 + |e.name|
  {
    Le32(e.crc) + (Le32(e.compressedSize) + (Le32(e.uncompressedSize) + (Le16(|e.name|) + CentralTail(e, offset))))
  }

  function CentralTail(e: Entry, offset: nat): (bytes: seq<byte>)
    ensures |bytes| == 16 + |e.name|
  {
    Le16(0) + (Le16(0) + (Le16(0) + (Le16(0) + (Le32(0) + (Le32(offset) + e.name)))))
  }

  function EndRecord(count: nat, size: nat, offset: nat): (bytes: seq<byte>)
    ensures |bytes| == 22
  {
    Le32(END_SIGNATURE) + (Le16(0) + (Le16(0) + (Le16(count) + (Le16(count) + (Le32(size) + (Le32(offset) + Le16(0)))))))
  }

  /** Local headers, each followed by its compressed bytes. */
  function Locals(entries: seq<Entry>): seq<byte> {
    if entries == [] then []
    else
      var e := entries[|entries| - 1];
      Locals(entries[..|entries| - 1]) + (LocalHeader(e) + e.compressed)
  }

  function OffsetOf(entries: seq<Entry>, i: nat): nat
    requires i <= |entries|
  {
    |Locals(entries[..i])|
  }

  /** The central directory from entry i on; offsets are stored in 32 bits. */
  function Centrals(entries: seq<Entry>, i: nat): seq<byte>
    requires i <= |entries|
    decreases |entries| - i
  {
    if i == |entries| then []
    else CentralHeader(entries[i], OffsetOf(entries, i) % TWO_TO_32) + Centrals(entries, i + 1)
  }

  function Archive(entries: seq<Entry>): seq<byte> {
    var locals, centrals := Locals(entries), Centrals(entries, 0);
    var cdOffset := |locals| % TWO_TO_32;
    var cdSize := ((|locals| + |centrals|) % TWO_TO_32 - cdOffset) % TWO_TO_32;
    locals + (centrals + EndRecord(|entries| % TWO_TO_16, cdSize, cdOffset))
  }

  // ---- The builder ----

  /** A std::string that grows at its end. */
  class Output {
    var bytes: seq<byte>

    constructor ()
      ensures bytes == []
    {
      bytes := [];
    }

    method Put16(v: nat)
      modifies this
      ensures bytes == old(bytes) + Le16(v)
    {
      bytes := bytes + [v % 0x100];
      bytes := bytes + [v / 0x100 % 0x100];
    }

    method Put32(v: nat)
      modifies this
      ensures bytes == old(bytes) + Le32(v)
    {
      bytes := bytes + [v % 0x100];
      bytes := bytes + [v / 0x100 % 0x100];
      bytes := bytes + [v / 0x1_0000 % 0x100];
      bytes := bytes + [v / 0x100_0000 % 0x100];
      assert v / 0x100_0000 == v / 0x1_0000 / 0x100;
    }

    method Append(more: seq<byte>)
      modifies this
      ensures bytes == old(bytes) + more
    {
      bytes := bytes + more;
    }

    method WriteLocalHeader(e: Entry)
      modifies this
      ensures bytes == old(bytes) + LocalHeader(e)
    {
      hide Le16, Le32;
      ghost var before := bytes;
      Put32(LOCAL_SIGNATURE);
      Put16(20);
      Put16(0);
      Put16(8);
      Put16(0);
      ghost var middle0 := bytes;
      Put16(0);
      ghost var middle := bytes;
      Put32(e.crc);
      Put32(e.compressedSize);
      Put32(e.uncompressedSize);
      Put16(|e.name| % TWO_TO_16);
      Put16(0);
      Append(e.name);
      NameLength(|e.name|);
      Regroup6(middle, Le32(e.crc), Le32(e.compressedSize), Le32(e.uncompressedSize), Le16(|e.name|), Le16(0), e.name);
      Regroup6(before, Le32(LOCAL_SIGNATURE), Le16(20), Le16(0), Le16(8), Le16(0), Le16(0) + LocalTail(e));
      Regroup(middle0, Le16(0), LocalTail(e));
    }

    method WriteCentralHeader(e: Entry, localOffset: nat)
      modifies this
      ensures bytes == old(bytes) + CentralHeader(e, localOffset)
    {
      hide Le16, Le32;
      ghost var before := bytes;
      Put32(CENTRAL_SIGNATURE);
      Put16(20);
      Put16(20);
      Put16(0);
      Put16(8);
      ghost var sizes5 := bytes;
      Put16(0);
      Put16(0);
      ghost var sizes := bytes;
      Put32(e.crc);
      Put32(e.compressedSize);
      Put32(e.uncompressedSize);
      Put16(|e.name| % TWO_TO_16);
      ghost var tail := bytes;
      Put16(0);
      Put16(0);
      Put16(0);
      Put16(0);
      Put32(0);
      ghost var tail5 := bytes;
      Put32(localOffset);
      Append(e.name);
      NameLength(|e.name|);
      var end := Le32(localOffset) + e.name;
      Regroup(tail5, Le32(localOffset), e.name);
      Regroup6(tail, Le16(0), Le16(0), Le16(0), Le16(0), Le32(0), end);
      Regroup6(sizes, Le32(e.crc), Le32(e.compressedSize), Le32(e.uncompressedSize), Le16(|e.name|), [], CentralTail(e, localOffset));
      Unit(CentralTail(e, localOffset));
      Unit(tail);
      var rest := Le16(0) + (Le16(0) + CentralSizes(e, localOffset));
      Regroup(sizes5, Le16(0), Le16(0) + CentralSizes(e, localOffset));
      Regroup(sizes5 + Le16(0), Le16(0), CentralSizes(e, localOffset));
      Regroup6(before, Le32(CENTRAL_SIGNATURE), Le16(20), Le16(20), Le16(0), Le16(8), rest);
    }

    method WriteEnd(count: nat, cdSize: nat, cdOffset: nat)
      modifies this
      ensures bytes == old(bytes) + EndRecord(count, cdSize, cdOffset)
    {
      hide Le16, Le32;
      ghost var before := bytes;
      Put32(END_SIGNATURE);
      Put16(0);
      Put16(0);
      Put16(count);
      Put16(count);
      ghost var end5 := bytes;
      Put32(cdSize);
      ghost var end6 := bytes;
      Put32(cdOffset);
      Put16(0);
      Regroup(end6, Le32(cdOffset), Le16(0));
      var tail := Le32(cdSize) + (Le32(cdOffset) + Le16(0));
      Regroup(end5, Le32(cdSize), Le32(cdOffset) + Le16(0));
      Regroup6(before, Le32(END_SIGNATURE), Le16(0), Le16(0), Le16(count), Le16(count), tail);
    }
  }

  lemma Regroup(x: seq<byte>, a: seq<byte>, b: seq<byte>)
    ensures x + a + b == x + (a + b)
  {
  }

  lemma Unit(a: seq<byte>)
    ensures [] + a == a && a + [] == a
  {
  }

  lemma Regroup6(x: seq<byte>, a: seq<byte>, b: seq<byte>, c: seq<byte>, d: seq<byte>, e: seq<byte>, f: seq<byte>)
    ensures x + a + b + c + d + e + f == x + (a + (b + (c + (d + (e + f)))))
  {
    Regroup(x + a + b + c + d, e, f);
    Regroup(x + a + b + c, d, e + f);
    Regroup(x + a + b, c, d + (e + f));
    Regroup(x + a, b, c + (d + (e + f)));
    Regroup(x, a, b + (c + (d + (e + f))));
  }

  /** A name length is cut to 16 bits before it is written, which put16 would do anyway. */
  lemma NameLength(n: nat)
    ensures Le16(n % TWO_TO_16) == Le16(n)
  {
    var q, r := n / 0x1_0000, n % 0x1_0000;
    assert n == 0x100 * (0x100 * q + r / 0x100) + r % 0x100;
    QuotientOf(0x100, 0x100 * q + r / 0x100, r % 0x100);
    QuotientOf(0x100, q, r / 0x100);
  }

  /** `approx`: what build() reserves. */
  function Reserved(entries: seq<Entry>): nat {
    if entries == [] then 22
    else
      var e := entries[|entries| - 1];
      Reserved(entries[..|entries| - 1]) + 30 + |e.name| + |e.compressed| + 46 + |e.name|
  }

  class ZipBuilder {
    var entries: seq<Entry>

    predicate Valid()
      reads this
    {
      forall i :: 0 <= i < |entries| ==> entries[i].Valid()
    }

    constructor ()
      ensures entries == [] && Valid()
    {
      entries := [];
    }

    method AddFile(path: seq<byte>, data: seq<byte>, crc: nat, deflated: seq<byte>)
      requires Valid() && crc < TWO_TO_32
      modifies this
      ensures Valid()
      ensures entries == old(entries) + [Stored(File(path, data, crc, deflated))]
    {
      entries := entries + [Entry(path, |data| % TWO_TO_32, deflated, |deflated| % TWO_TO_32, crc)];
    }

    method Build() returns (out: seq<byte>)
      ensures out == Archive(entries) && |out| == Reserved(entries)
    {
      hide LocalHeader, CentralHeader, EndRecord, Archive, Locals, Centrals, OffsetOf;
      var approx := 0;
      for i := 0 to |entries|
        invariant approx + 22 == Reserved(entries[..i])
      {
        var e := entries[i];
        assert entries[..i + 1][..i] == entries[..i];
        approx := approx + 30 + |e.name| + |e.compressed| + 46 + |e.name|;
      }
      approx := approx + 22;
      var output := new Output();
      var offsets: seq<nat> := [];
      NoLocals(entries);
      for i := 0 to |entries|
        invariant fresh(output) && output.bytes == Locals(entries[..i])
        invariant |offsets| == i && forall j :: 0 <= j < i ==> offsets[j] == OffsetOf(entries, j) % TWO_TO_32
      {
        var e := entries[i];
        offsets := offsets + [|output.bytes| % TWO_TO_32];
        output.WriteLocalHeader(e);
        Regroup(Locals(entries[..i]), LocalHeader(e), e.compressed);
        output.Append(e.compressed);
        LocalsStep(entries, i);
      }
      assert entries[..|entries|] == entries;
      ghost var locals := output.bytes;
      var cdOffset := |output.bytes| % TWO_TO_32;
      for i := 0 to |entries|
        invariant fresh(output) && |offsets| == |entries|
        invariant output.bytes + Centrals(entries, i) == locals + Centrals(entries, 0)
      {
        ghost var before := output.bytes;
        output.WriteCentralHeader(entries[i], offsets[i]);
        CentralsStep(entries, i);
        Regroup(before, CentralHeader(entries[i], offsets[i]), Centrals(entries, i + 1));
      }
      var cdSize := (|output.bytes| % TWO_TO_32 - cdOffset) % TWO_TO_32;
      NoCentrals(entries);
      ghost var centrals := Centrals(entries, 0);
      assert output.bytes == locals + centrals;
      output.WriteEnd(|entries| % TWO_TO_16, cdSize, cdOffset);
      out := output.bytes;
      Regroup(locals, centrals, EndRecord(|entries| % TWO_TO_16, cdSize, cdOffset));
      ArchiveIs(entries);
      ArchiveLength(entries);
      assert |out| == approx;
    }
  }

  lemma NoLocals(entries: seq<Entry>)
    ensures Locals(entries[..0]) == []
  {
  }

  lemma NoCentrals(entries: seq<Entry>)
    ensures Centrals(entries, |entries|) == []
  {
  }

  lemma LocalsStep(entries: seq<Entry>, i: nat)
    requires i < |entries|
    ensures Locals(entries[..i + 1]) == Locals(entries[..i]) + (LocalHeader(entries[i]) + entries[i].compressed)
    ensures OffsetOf(entries, i) == |Locals(entries[..i])|
  {
    hide LocalHeader;
    assert entries[..i + 1][..i] == entries[..i];
  }

  lemma CentralsStep(entries: seq<Entry>, i: nat)
    requires i < |entries|
    ensures Centrals(entries, i) == CentralHeader(entries[i], OffsetOf(entries, i) % TWO_TO_32) + Centrals(entries, i + 1)
  {
    hide CentralHeader, OffsetOf;
  }

  lemma ArchiveIs(entries: seq<Entry>)
    ensures var locals, centrals := Locals(entries), Centrals(entries, 0);
            var cdOffset := |locals| % TWO_TO_32;
            Archive(entries) == locals + (centrals + EndRecord(|entries| % TWO_TO_16,
              ((|locals| + |centrals|) % TWO_TO_32 - cdOffset) % TWO_TO_32, cdOffset))
  {
    hide Locals, Centrals, EndRecord;
  }

  /** The reservation is exact: build() never grows its buffer and never over-allocates. */
  lemma ArchiveLength(entries: seq<Entry>)
    ensures |Archive(entries)| == Reserved(entries)
  {
    hide LocalHeader, CentralHeader, EndRecord;
    SizesAdd(entries);
  }

  lemma {:induction false} CentralsLength(entries: seq<Entry>, i: nat)
    requires i <= |entries|
    ensures |Centrals(entries, i)| == 46 * (|entries| - i) + NameBytes(entries, i)
    decreases |entries| - i
  {
    hide CentralHeader, OffsetOf;
    if i < |entries| {
      CentralsLength(entries, i + 1);
    }
  }

  function NameBytes(entries: seq<Entry>, i: nat): nat
    requires i <= |entries|
    decreases |entries| - i
  {
    if i == |entries| then 0 else |entries[i].name| + NameBytes(entries, i + 1)
  }

  lemma {:induction false} NameBytesPush(entries: seq<Entry>, i: nat)
    requires entries != [] && i < |entries|
    ensures NameBytes(entries, i) == NameBytes(entries[..|entries| - 1], i) + |entries[|entries| - 1].name|
    decreases |entries| - i
  {
    if i + 1 < |entries| {
      NameBytesPush(entries, i + 1);
    } else {
      assert NameBytes(entries, i + 1) == 0;
    }
  }

  lemma {:induction false} SizesAdd(entries: seq<Entry>)
    ensures |Locals(entries)| + |Centrals(entries, 0)| + 22 == Reserved(entries)
  {
    hide LocalHeader, CentralHeader;
    CentralsLength(entries, 0);
    if entries != [] {
      var front := entries[..|entries| - 1];
      SizesAdd(front);
      CentralsLength(front, 0);
      NameBytesPush(entries, 0);
    }
  }

  // ---- Reading back ----

  function U16(d: seq<byte>, p: nat): (v: int)
    requires p + 2 <= |d|
    ensures 0 <= v < TWO_TO_16
  {
    var a: int, b: int := d[p], d[p + 1];
    a + 0x100 * b
  }

  function U32(d: seq<byte>, p: nat): (v: int)
    requires p + 4 <= |d|
    ensures 0 <= v < TWO_TO_32
  {
    U16(d, p) + 0x1_0000 * U16(d, p + 2)
  }

  lemma LowWord(v: nat)
    ensures v % 0x100 + 0x100 * (v / 0x100 % 0x100) == v % TWO_TO_16
  {
    var q, r := v / 0x1_0000, v % 0x1_0000;
    assert v == 0x100 * (0x100 * q + r / 0x100) + r % 0x100;
    QuotientOf(0x100, 0x100 * q + r / 0x100, r % 0x100);
    QuotientOf(0x100, q, r / 0x100);
  }

  lemma Get16(d: seq<byte>, p: nat, v: nat, rest: seq<byte>)
    requires At(d, p, Le16(v) + rest)
    ensures p + 2 + |rest| <= |d| && U16(d, p) == v % TWO_TO_16 && At(d, p + 2, rest)
  {
    hide At;
    AtSplit(d, p, Le16(v), rest);
    AtInside(d, p, Le16(v));
    AtInside(d, p + 2, rest);
    LowWord(v);
    assert d[p] == d[p..p + 2][0] && d[p + 1] == d[p..p + 2][1];
  }

  lemma Get32(d: seq<byte>, p: nat, v: nat, rest: seq<byte>)
    requires At(d, p, Le32(v) + rest)
    ensures p + 4 + |rest| <= |d| && U32(d, p) == v % TWO_TO_32 && At(d, p + 4, rest)
  {
    hide At, U16, Le16;
    assert Le32(v) + rest == Le16(v) + (Le16(v / 0x1_0000) + rest);
    Get16(d, p, v, Le16(v / 0x1_0000) + rest);
    Get16(d, p + 2, v / 0x1_0000, rest);
    assert v == 0x1_0000_0000 * (v / 0x1_0000_0000) + (0x1_0000 * (v / 0x1_0000 % 0x1_0000) + v % 0x1_0000);
  }

  // What a reader gets of one entry.
  datatype Member = Member(name: seq<byte>, crc: int, compressedSize: int, uncompressedSize: int, bytes: seq<byte>)

  /** The compressed bytes behind a local header that agrees with the directory. An extractor of version 2.0
      takes a deflated member that is neither encrypted nor patched nor followed by a data descriptor: all
      flags are 0. */
  function LocalBytes(d: seq<byte>, p: nat, name: seq<byte>, crc: int, size: nat, plainSize: int): Option<seq<byte>> {
    if p + 30 > |d| || U32(d, p) != 0x04034b50 then None
    else if U16(d, p + 4) > 20 || U16(d, p + 6) != 0 || U16(d, p + 8) != 8 then None
    else if U32(d, p + 14) != crc || U32(d, p + 18) != size || U32(d, p + 22) != plainSize then None
    else
      var nameLen, extraLen := U16(d, p + 26), U16(d, p + 28);
      var start := p + 30 + nameLen + extraLen;
      if start + size > |d| || d[p + 30..p + 30 + nameLen] != name then None
      else Some(d[start..start + size])
  }

  /** The directory entry at p, together with the member it points to. */
  function MemberAt(d: seq<byte>, p: nat): Option<(Member, nat)> {
    if p + 46 > |d| || U32(d, p) != 0x02014b50 then None
    else if U16(d, p + 6) > 20 || U16(d, p + 8) != 0 || U16(d, p + 10) != 8 || U16(d, p + 34) != 0 then None
    else
      var crc, size, plainSize := U32(d, p + 16), U32(d, p + 20), U32(d, p + 24);
      var nameLen, extraLen, commentLen := U16(d, p + 28), U16(d, p + 30), U16(d, p + 32);
      var next := p + 46 + nameLen + extraLen + commentLen;
      if next > |d| then None
      else
        var name := d[p + 46..p + 46 + nameLen];
        match LocalBytes(d, U32(d, p + 42), name, crc, size, plainSize)
        case None => None
        case Some(bytes) => Some((Member(name, crc, size, plainSize, bytes), next))
  }

  function MembersAt(d: seq<byte>, p: nat, n: nat): Option<seq<Member>>
    decreases n
  {
    if n == 0 then Some([])
    else
      match MemberAt(d, p)
      case None => None
      case Some(first) =>
        match MembersAt(d, first.1, n - 1)
        case None => None
        case Some(rest) => Some([first.0] + rest)
  }

  /** An unzip program: the end record is the last 22 bytes, it says where the directory is and how
      many entries it has, all on the first and only disk. */
  function ReadBack(d: seq<byte>): Option<seq<Member>> {
    if |d| < 22 then None
    else
      var p := |d| - 22;
      if U32(d, p) != 0x06054b50 || U16(d, p + 4) != 0 || U16(d, p + 6) != 0 then None
      else if U16(d, p + 8) != U16(d, p + 10) || U16(d, p + 20) != 0 then None
      else if U32(d, p + 16) + U32(d, p + 12) != p then None
      else MembersAt(d, U32(d, p + 16), U16(d, p + 10))
  }

  function MemberOf(e: Entry): Member {
    Member(e.name, e.crc, |e.compressed|, e.uncompressedSize, e.compressed)
  }

  function MembersFrom(entries: seq<Entry>, i: nat): seq<Member>
    requires i <= |entries|
    decreases |entries| - i
  {
    if i == |entries| then [] else [MemberOf(entries[i])] + MembersFrom(entries, i + 1)
  }

  lemma LocalRead(d: seq<byte>, p: nat, e: Entry)
    requires e.Valid() && |e.name| < TWO_TO_16 && |e.compressed| < TWO_TO_32
    requires At(d, p, LocalHeader(e) + e.compressed)
    ensures LocalBytes(d, p, e.name, e.crc, e.compressedSize, e.uncompressedSize) == Some(e.compressed)
  {
    hide Le16, Le32, U16, U32, At;
    AtSplit(d, p, LocalHeader(e), e.compressed);
    AtInside(d, p + 30 + |e.name|, e.compressed);
    LocalStart(d, p, e);
    LocalFields(d, p + 14, e);
  }

  lemma LocalStart(d: seq<byte>, p: nat, e: Entry)
    requires At(d, p, LocalHeader(e))
    ensures p + 30 + |e.name| <= |d| && U32(d, p) == LOCAL_SIGNATURE
    ensures U16(d, p + 4) == 20 && U16(d, p + 6) == 0 && U16(d, p + 8) == 8
    ensures At(d, p + 14, LocalTail(e))
  {
    hide Le16, Le32, U16, U32, At, LocalTail;
    var f5 := Le16(0) + LocalTail(e);
    var f4 := Le16(0) + f5;
    var f3 := Le16(8) + f4;
    var f2 := Le16(0) + f3;
    var f1 := Le16(20) + f2;
    Get32(d, p, LOCAL_SIGNATURE, f1);
    Get16(d, p + 4, 20, f2);
    Get16(d, p + 6, 0, f3);
    Get16(d, p + 8, 8, f4);
    Get16(d, p + 10, 0, f5);
    Get16(d, p + 12, 0, LocalTail(e));
  }

  lemma LocalFields(d: seq<byte>, p: nat, e: Entry)
    requires e.Valid() && |e.name| < TWO_TO_16 && At(d, p, LocalTail(e))
    ensures p + 16 + |e.name| <= |d| && U32(d, p) == e.crc && U32(d, p + 4) == e.compressedSize
    ensures U32(d, p + 8) == e.uncompressedSize && U16(d, p + 12) == |e.name| && U16(d, p + 14) == 0
    ensures d[p + 16..p + 16 + |e.name|] == e.name
  {
    hide Le16, Le32, U16, U32, At;
    var f4 := Le16(0) + e.name;
    var f3 := Le16(|e.name|) + f4;
    var f2 := Le32(e.uncompressedSize) + f3;
    var f1 := Le32(e.compressedSize) + f2;
    Get32(d, p, e.crc, f1);
    Get32(d, p + 4, e.compressedSize, f2);
    Get32(d, p + 8, e.uncompressedSize, f3);
    Get16(d, p + 12, |e.name|, f4);
    Get16(d, p + 14, 0, e.name);
    AtInside(d, p + 16, e.name);
  }

  lemma CentralStart(d: seq<byte>, p: nat, e: Entry, offset: nat)
    requires At(d, p, CentralHeader(e, offset))
    ensures p + 46 + |e.name| <= |d| && U32(d, p) == CENTRAL_SIGNATURE
    ensures U16(d, p + 6) == 20 && U16(d, p + 8) == 0 && U16(d, p + 10) == 8
    ensures At(d, p + 16, CentralSizes(e, offset))
  {
    hide Le16, Le32, U16, U32, At, CentralSizes;
    var f6 := Le16(0) + CentralSizes(e, offset);
    var f5 := Le16(0) + f6;
    var f4 := Le16(8) + f5;
    var f3 := Le16(0) + f4;
    var f2 := Le16(20) + f3;
    var f1 := Le16(20) + f2;
    Get32(d, p, CENTRAL_SIGNATURE, f1);
    Get16(d, p + 4, 20, f2);
    Get16(d, p + 6, 20, f3);
    Get16(d, p + 8, 0, f4);
    Get16(d, p + 10, 8, f5);
    Get16(d, p + 12, 0, f6);
    Get16(d, p + 14, 0, CentralSizes(e, offset));
  }

  lemma CentralFields(d: seq<byte>, p: nat, e: Entry, offset: nat)
    requires e.Valid() && At(d, p, CentralSizes(e, offset)) && offset < TWO_TO_32
    ensures p + 30 + |e.name| <= |d| && U32(d, p) == e.crc && U32(d, p + 4) == e.compressedSize
    ensures U32(d, p + 8) == e.uncompressedSize && U16(d, p + 12) == |e.name| % TWO_TO_16
    ensures U16(d, p + 14) == 0 && U16(d, p + 16) == 0 && U16(d, p + 18) == 0 && U32(d, p + 26) == offset
    ensures d[p + 30..p + 30 + |e.name|] == e.name
  {
    hide Le16, Le32, U16, U32, At;
    var f3 := Le16(|e.name|) + CentralTail(e, offset);
    var f2 := Le32(e.uncompressedSize) + f3;
    var f1 := Le32(e.compressedSize) + f2;
    Get32(d, p, e.crc, f1);
    Get32(d, p + 4, e.compressedSize, f2);
    Get32(d, p + 8, e.uncompressedSize, f3);
    Get16(d, p + 12, |e.name|, CentralTail(e, offset));
    var g5 := Le32(offset) + e.name;
    var g4 := Le32(0) + g5;
    var g3 := Le16(0) + g4;
    var g2 := Le16(0) + g3;
    var g1 := Le16(0) + g2;
    Get16(d, p + 14, 0, g1);
    Get16(d, p + 16, 0, g2);
    Get16(d, p + 18, 0, g3);
    Get16(d, p + 20, 0, g4);
    Get32(d, p + 22, 0, g5);
    Get32(d, p + 26, offset, e.name);
    AtInside(d, p + 30, e.name);
  }

  lemma EndRead(d: seq<byte>, count: nat, size: nat, offset: nat)
    requires |d| >= 22 && At(d, |d| - 22, EndRecord(count, size, offset))
    ensures var p := |d| - 22;
            && U32(d, p) == END_SIGNATURE && U16(d, p + 4) == 0 && U16(d, p + 6) == 0 && U16(d, p + 8) == U16(d, p + 10) == count % TWO_TO_16
            && U32(d, p + 12) == size % TWO_TO_32 && U32(d, p + 16) == offset % TWO_TO_32 && U16(d, p + 20) == 0
  {
    hide Le16, Le32, U16, U32, At;
    var p := |d| - 22;
    var f6 := Le32(offset) + Le16(0);
    var f5 := Le32(size) + f6;
    var f4 := Le16(count) + f5;
    var f3 := Le16(count) + f4;
    var f2 := Le16(0) + f3;
    var f1 := Le16(0) + f2;
    Get32(d, p, END_SIGNATURE, f1);
    Get16(d, p + 4, 0, f2);
    Get16(d, p + 6, 0, f3);
    Get16(d, p + 8, count, f4);
    Get16(d, p + 10, count, f5);
    Get32(d, p + 12, size, f6);
    Get32(d, p + 16, offset, Le16(0));
    assert Le16(0) + [] == Le16(0);
    Get16(d, p + 20, 0, []);
  }

  /** Every entry's local part stands at its offset. */
  lemma {:induction false} LocalsAt(entries: seq<Entry>, i: nat, d: seq<byte>)
    requires i < |entries| && At(d, 0, Locals(entries))
    ensures At(d, OffsetOf(entries, i), LocalHeader(entries[i]) + entries[i].compressed)
  {
    hide LocalHeader, At;
    var last := |entries| - 1;
    AtSplit(d, 0, Locals(entries[..last]), LocalHeader(entries[last]) + entries[last].compressed);
    if i < last {
      LocalsAt(entries[..last], i, d);
      assert entries[..last][..i] == entries[..i];
    }
  }

  lemma {:induction false} LocalsGrow(entries: seq<Entry>, i: nat)
    requires i <= |entries|
    ensures OffsetOf(entries, i) <= |Locals(entries)|
    ensures i < |entries| ==> OffsetOf(entries, i) + |entries[i].compressed| <= |Locals(entries)|
  {
    hide LocalHeader;
    if i < |entries| {
      var front := entries[..|entries| - 1];
      if i < |front| {
        LocalsGrow(front, i);
        assert front[..i] == entries[..i];
      } else {
        assert front == entries[..i];
      }
    } else {
      assert entries[..i] == entries;
    }
  }

  ghost predicate AllValid(entries: seq<Entry>) {
    forall i :: 0 <= i < |entries| ==> entries[i].Valid()
  }

  ghost predicate ShortNames(entries: seq<Entry>) {
    forall i :: 0 <= i < |entries| ==> |entries[i].name| < TWO_TO_16
  }

  lemma {:induction false} MembersRead(d: seq<byte>, entries: seq<Entry>, p: nat, i: nat)
    requires i <= |entries| && AllValid(entries) && ShortNames(entries) && |Locals(entries)| < TWO_TO_32
    requires At(d, 0, Locals(entries)) && At(d, p, Centrals(entries, i))
    ensures MembersAt(d, p, |entries| - i) == Some(MembersFrom(entries, i))
    decreases |entries| - i
  {
    hide LocalHeader, CentralHeader, At, U16, U32, LocalBytes, Locals, OffsetOf, CentralSizes;
    if i < |entries| {
      var e, offset := entries[i], OffsetOf(entries, i);
      LocalsGrow(entries, i);
      AtSplit(d, p, CentralHeader(e, offset % TWO_TO_32), Centrals(entries, i + 1));
      CentralStart(d, p, e, offset);
      CentralFields(d, p + 16, e, offset);
      LocalsAt(entries, i, d);
      LocalRead(d, offset, e);
      MembersRead(d, entries, p + 46 + |e.name|, i + 1);
    }
  }

  lemma SmallSizes(locals: nat, centrals: nat)
    requires locals + centrals < TWO_TO_32
    ensures locals % TWO_TO_32 == locals && ((locals + centrals) % TWO_TO_32 - locals) % TWO_TO_32 == centrals
  {
  }

  lemma ArchiveParts(entries: seq<Entry>)
    requires |Archive(entries)| < TWO_TO_32
    ensures var d, locals, centrals := Archive(entries), Locals(entries), Centrals(entries, 0);
            && |d| == |locals| + |centrals| + 22 && At(d, 0, locals) && At(d, |locals|, centrals)
            && At(d, |d| - 22, EndRecord(|entries| % TWO_TO_16, |centrals|, |locals|))
  {
    hide EndRecord, Locals, Centrals, At;
    var d, locals, centrals := Archive(entries), Locals(entries), Centrals(entries, 0);
    var end := EndRecord(|entries| % TWO_TO_16, |centrals|, |locals|);
    SmallSizes(|locals|, |centrals|);
    assert d == locals + (centrals + end);
    Unit(d);
    AtStart(d, []);
    AtSplit(d, 0, locals, centrals + end);
    AtSplit(d, |locals|, centrals, end);
  }

  /** Below 4 GiB, the archive reads back as its entries exactly when there are fewer than 65536 of them
      and every name is shorter than 65536 bytes. */
  lemma EntriesReadBack(entries: seq<Entry>)
    requires AllValid(entries) && |Archive(entries)| < TWO_TO_32
    ensures ReadBack(Archive(entries)) == Some(MembersFrom(entries, 0))
       <==> |entries| < TWO_TO_16 && ShortNames(entries)
  {
    hide EndRecord, Locals, Centrals, At, U16, U32, Archive, MembersAt, MembersFrom;
    var d := Archive(entries);
    ArchiveParts(entries);
    EndRead(d, |entries| % TWO_TO_16, |Centrals(entries, 0)|, |Locals(entries)|);
    MembersLength(entries, 0);
    if |entries| < TWO_TO_16 && ShortNames(entries) {
      MembersRead(d, entries, |Locals(entries)|, 0);
    } else if ReadBack(d).Some? {
      MembersCount(d, |Locals(entries)|, |entries| % TWO_TO_16);
      if |entries| < TWO_TO_16 {
        var i :| 0 <= i < |entries| && |entries[i].name| >= TWO_TO_16;
        MemberAtIndex(entries, 0, i);
      }
    }
  }

  lemma {:induction false} MembersLength(entries: seq<Entry>, i: nat)
    requires i <= |entries|
    ensures |MembersFrom(entries, i)| == |entries| - i
    decreases |entries| - i
  {
    if i < |entries| {
      MembersLength(entries, i + 1);
    }
  }

  lemma {:induction false} MemberAtIndex(entries: seq<Entry>, i: nat, j: nat)
    requires i <= j < |entries|
    ensures |MembersFrom(entries, i)| > j - i && MembersFrom(entries, i)[j - i].name == entries[j].name
    decreases |entries| - i
  {
    if i < j {
      MemberAtIndex(entries, i + 1, j);
    }
  }

  /** A reader never sees more entries, or longer names, than its 16-bit fields can say. */
  lemma {:induction false} MembersCount(d: seq<byte>, p: nat, n: nat)
    requires MembersAt(d, p, n).Some?
    ensures |MembersAt(d, p, n).value| == n
    ensures forall i :: 0 <= i < n ==> |MembersAt(d, p, n).value[i].name| < TWO_TO_16
                                       && MembersAt(d, p, n).value[i].uncompressedSize < TWO_TO_32
    decreases n
  {
    hide LocalBytes, U16, U32;
    if n > 0 {
      MembersCount(d, MemberAt(d, p).value.1, n - 1);
    }
  }

  // ---- From the files added to the files read ----

  function MemberOfFile(f: File): Member {
    Member(f.name, f.crc, |f.deflated|, |f.data|, f.deflated)
  }

  function MembersOfFiles(files: seq<File>): (members: seq<Member>)
    ensures |members| == |files|
  {
    seq(|files|, i requires 0 <= i < |files| => MemberOfFile(files[i]))
  }

  ghost predicate SmallFiles(files: seq<File>) {
    forall i :: 0 <= i < |files| ==> |files[i].data| < TWO_TO_32
  }

  ghost predicate ShortFileNames(files: seq<File>) {
    forall i :: 0 <= i < |files| ==> |files[i].name| < TWO_TO_16
  }

  lemma {:induction false} MembersOfStored(files: seq<File>, i: nat)
    requires i <= |files| && SmallFiles(files)
    ensures MembersFrom(StoredAll(files), i) == MembersOfFiles(files)[i..]
    decreases |files| - i
  {
    if i < |files| {
      MembersOfStored(files, i + 1);
      assert MembersOfFiles(files)[i..] == [MembersOfFiles(files)[i]] + MembersOfFiles(files)[i + 1..];
    }
  }

  /** Below 4 GiB, the archive reads back as the files that were added, in order, with their names,
      checksums, sizes and compressed bytes, exactly when there are fewer than 65536 of them, every name is
      shorter than 65536 bytes, and every file is smaller than 4 GiB before compression. */
  lemma ReadBackExact(files: seq<File>)
    requires |Archive(StoredAll(files))| < TWO_TO_32 && forall i :: 0 <= i < |files| ==> files[i].crc < TWO_TO_32
    ensures ReadBack(Archive(StoredAll(files))) == Some(MembersOfFiles(files))
       <==> |files| < TWO_TO_16 && ShortFileNames(files) && SmallFiles(files)
  {
    hide Archive, ReadBack, MembersFrom;
    var entries, members := StoredAll(files), MembersOfFiles(files);
    EntriesReadBack(entries);
    assert ShortNames(entries) <==> ShortFileNames(files) by { NamesStored(files); }
    if SmallFiles(files) {
      MembersOfStored(files, 0);
      assert members[0..] == members;
    }
    if ReadBack(Archive(entries)) == Some(members) {
      SizesRead(Archive(entries), members);
      forall i | 0 <= i < |files| ensures |files[i].data| < TWO_TO_32 {
        assert members[i].uncompressedSize < TWO_TO_32;
      }
    }
  }

  lemma NamesStored(files: seq<File>)
    ensures ShortNames(StoredAll(files)) <==> ShortFileNames(files)
  {
    assert forall i :: 0 <= i < |files| ==> StoredAll(files)[i].name == files[i].name;
    if ShortNames(StoredAll(files)) {
      forall i | 0 <= i < |files| ensures |files[i].name| < TWO_TO_16 {
        assert |StoredAll(files)[i].name| < TWO_TO_16;
      }
    }
  }

  /** A size that was read fits its 32-bit field. */
  lemma SizesRead(d: seq<byte>, members: seq<Member>)
    requires ReadBack(d) == Some(members)
    ensures forall i :: 0 <= i < |members| ==> members[i].uncompressedSize < TWO_TO_32
  {
    hide MembersAt, U16, U32;
    var p, n := U32(d, |d| - 22 + 16), U16(d, |d| - 22 + 10);
    MembersCount(d, p, n);
  }
}
