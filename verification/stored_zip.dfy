/**
 A byte array being filled from the front, recorded as the list of chunks written so far. Chunk
 contents stay uninterpreted here.
 */
module Chunks {
  import opened Results

  datatype Log = Empty | Snoc(init: Log, last: seq<Byte>)
  {
    function Then(chunk: seq<Byte>): (r: Log)
      ensures r.Size() == Size() + |chunk|
    {
      Snoc(this, chunk)
    }

    function Bytes(): seq<Byte> {
      if Empty? then [] else init.Bytes() + last
    }

    function Size(): nat {
      if Empty? then 0 else init.Size() + |last|
    }

    lemma {:induction false} SizeIsLength()
      ensures |Bytes()| == Size()
    {
      if Snoc? { init.SizeIsLength(); }
    }
  }

  function Zeros(n: nat): seq<Byte> {
    seq(n, _ => 0)
  }

  /** The bytes of the log, then nothing but zero bytes. */
  ghost predicate Written(s: seq<Byte>, done: Log) {
    && done.Size() <= |s|
    && s[..done.Size()] == done.Bytes()
    && s[done.Size()..] == Zeros(|s| - done.Size())
  }

  /** Every chunk of the log stands in `s` at its offset. */
  ghost predicate Holds(s: seq<Byte>, log: Log) {
    log.Snoc? ==>
      && Holds(s, log.init)
      && log.Size() <= |s|
      && s[log.init.Size()..log.Size()] == log.last
  }

  lemma {:induction false} PrefixHolds(s: seq<Byte>, log: Log)
    requires log.Bytes() <= s
    ensures Holds(s, log)
  {
    log.SizeIsLength();
    if log.Snoc? {
      log.init.SizeIsLength();
      assert s[..log.Size()] == log.Bytes();
      assert log.Bytes()[log.init.Size()..] == log.last;
      assert log.init.Bytes() <= log.Bytes();
      PrefixHolds(s, log.init);
    }
  }

  /** Uint8Array.set, and DataView writes of already encoded fields. */
  method Put(view: array<Byte>, offset: int, bytes: seq<Byte>, ghost done: Log) returns (ghost next: Log)
    requires Written(view[..], done) && offset == done.Size() && offset + |bytes| <= view.Length
    modifies view
    ensures next == done.Then(bytes)
    ensures Written(view[..], next) && next.Size() == offset + |bytes|
  {
    next := done.Then(bytes);
    done.SizeIsLength();
    forall i | 0 <= i < |bytes| {
      view[offset + i] := bytes[i];
    }
    ghost var was := old(view[..]);
    assert view[..offset] == was[..offset];
    assert view[..offset + |bytes|] == was[..offset] + bytes;
    forall i | offset + |bytes| <= i < view.Length ensures view[i] == 0 {
      assert was[i] == was[offset..][i - offset] == 0;
    }
  }

  lemma {:induction false} BlankIsWritten(s: seq<Byte>)
    requires forall i :: 0 <= i < |s| ==> s[i] == 0
    ensures Written(s, Empty)
  {
  }

  lemma {:induction false} FullyWritten(s: seq<Byte>, done: Log)
    requires Written(s, done) && done.Size() == |s|
    ensures s == done.Bytes()
  {
    assert s[..|s|] == s;
  }

  /** Bytes the writer leaves alone are zero bytes of the record. */
  lemma {:induction false} Skip(s: seq<Byte>, done: Log, bytes: seq<Byte>) returns (next: Log)
    requires Written(s, done) && done.Size() + |bytes| <= |s| && bytes == Zeros(|bytes|)
    ensures next == done.Then(bytes)
    ensures Written(s, next) && next.Size() == done.Size() + |bytes|
  {
    next := done.Then(bytes);
    done.SizeIsLength();
    var at := done.Size();
    forall i | at <= i < |s| ensures s[i] == 0 {
      assert s[i] == s[at..][i - at];
    }
    assert s[at..at + |bytes|] == bytes;
    assert s[..at + |bytes|] == s[..at] + s[at..at + |bytes|];
  }
}

/**
 The single-entry stored ZIP archive of the provisioner
 (frontend/homepass-nfc-provisioner.js, storedZip), and a reader that follows the ZIP file format
 (APPNOTE sections 4.3.7, 4.3.12 and 4.3.16): it starts from the end record and trusts nothing
 but the fields it finds there.
 */
module ZipLayout {
  import opened Results
  import opened Chunks

  const LOCAL_SIGNATURE := 0x04034b50
  const CENTRAL_SIGNATURE := 0x02014b50
  const END_SIGNATURE := 0x06054b50
  const U16 := 0x1_0000
  const U32 := 0x1_0000_0000

  /** How two- and four-byte fields are encoded; layout and reader work for any lawful choice. */
  datatype Codec = Codec(u16: int -> seq<Byte>, u32: int -> seq<Byte>,
                         read16: seq<Byte> -> int, read32: seq<Byte> -> int)
  {
    ghost predicate Lawful() {
      && (forall v :: |u16(v)| == 2)
      && (forall v :: |u32(v)| == 4)
      && (forall v :: 0 <= v < U16 ==> read16(u16(v)) == v)
      && (forall v :: 0 <= v < U32 ==> read32(u32(v)) == v)
      && (forall b :: 0 <= read16(b) && 0 <= read32(b))
      && u16(0) == Zeros(2) && u32(0) == Zeros(4)
    }

    function U16At(s: seq<Byte>, at: int): int
      requires 0 <= at && at + 2 <= |s|
    {
      read16(s[at..at + 2])
    }

    function U32At(s: seq<Byte>, at: int): int
      requires 0 <= at && at + 4 <= |s|
    {
      read32(s[at..at + 4])
    }
  }

  // ----- the records -----

  function LocalRecord(c: Codec, name: seq<Byte>, data: seq<Byte>, crc: int): Log {
    Empty.Then(c.u32(LOCAL_SIGNATURE)).Then(c.u16(20)).Then(c.u16(0x0800)).Then(c.u16(0))
    .Then(c.u16(0)).Then(c.u16(0)).Then(c.u32(crc)).Then(c.u32(|data|)).Then(c.u32(|data|))
    .Then(c.u16(|name|)).Then(c.u16(0)).Then(name).Then(data)
  }

  function CentralRecord(c: Codec, before: Log, name: seq<Byte>, data: seq<Byte>, crc: int): Log {
    before.Then(c.u32(CENTRAL_SIGNATURE)).Then(c.u16(20)).Then(c.u16(20)).Then(c.u16(0x0800)).Then(c.u16(0))
    .Then(c.u16(0)).Then(c.u16(0)).Then(c.u32(crc)).Then(c.u32(|data|)).Then(c.u32(|data|))
    .Then(c.u16(|name|)).Then(c.u16(0)).Then(c.u16(0)).Then(c.u16(0)).Then(c.u16(0))
    .Then(c.u32(0)).Then(c.u32(0)).Then(name)
  }

  function EndRecord(c: Codec, before: Log, centralSize: int, localSize: int): Log {
    before.Then(c.u32(END_SIGNATURE)).Then(c.u16(0)).Then(c.u16(0)).Then(c.u16(1)).Then(c.u16(1))
    .Then(c.u32(centralSize)).Then(c.u32(localSize)).Then(c.u16(0))
  }

  /** Local header and contents, central directory, end record, and nothing in between or after. */
  function Archive(c: Codec, name: seq<Byte>, data: seq<Byte>, crc: int): Log {
    EndRecord(c, CentralRecord(c, LocalRecord(c, name, data, crc), name, data, crc),
              46 + |name|, 30 + |name| + |data|)
  }

  // ----- the writer -----

  method WriteLocal(c: Codec, output: array<Byte>, name: seq<Byte>, data: seq<Byte>, crc: int)
    returns (ghost done: Log)
    requires c.Lawful() && output.Length >= 30 + |name| + |data| && Written(output[..], Empty)
    modifies output
    ensures done == LocalRecord(c, name, data, crc)
    ensures Written(output[..], done) && done.Size() == 30 + |name| + |data|
  {
    done := Empty;
    done := Put(output, 0, c.u32(LOCAL_SIGNATURE), done);
    done := Put(output, 4, c.u16(20), done);
    done := Put(output, 6, c.u16(0x0800), done);
    done := Put(output, 8, c.u16(0), done);
    done := Skip(output[..], done, c.u16(0));
    done := Skip(output[..], done, c.u16(0));
    done := Put(output, 14, c.u32(crc), done);
    done := Put(output, 18, c.u32(|data|), done);
    done := Put(output, 22, c.u32(|data|), done);
    done := Put(output, 26, c.u16(|name|), done);
    done := Skip(output[..], done, c.u16(0));
    done := Put(output, 30, name, done);
    done := Put(output, 30 + |name|, data, done);
  }

  method WriteCentral(c: Codec, output: array<Byte>, central: int, name: seq<Byte>, data: seq<Byte>, crc: int,
                      ghost before: Log)
    returns (ghost done: Log)
    requires c.Lawful() && output.Length >= central + 46 + |name|
    requires Written(output[..], before) && before.Size() == central
    modifies output
    ensures done == CentralRecord(c, before, name, data, crc)
    ensures Written(output[..], done) && done.Size() == central + 46 + |name|
  {
    done := before;
    done := Put(output, central, c.u32(CENTRAL_SIGNATURE), done);
    done := Put(output, central + 4, c.u16(20), done);
    done := Put(output, central + 6, c.u16(20), done);
    done := Put(output, central + 8, c.u16(0x0800), done);
    done := Put(output, central + 10, c.u16(0), done);
    done := Skip(output[..], done, c.u16(0));
    done := Skip(output[..], done, c.u16(0));
    done := Put(output, central + 16, c.u32(crc), done);
    done := Put(output, central + 20, c.u32(|data|), done);
    done := Put(output, central + 24, c.u32(|data|), done);
    done := Put(output, central + 28, c.u16(|name|), done);
    done := Skip(output[..], done, c.u16(0));
    done := Skip(output[..], done, c.u16(0));
    done := Skip(output[..], done, c.u16(0));
    done := Skip(output[..], done, c.u16(0));
    done := Skip(output[..], done, c.u32(0));
    done := Skip(output[..], done, c.u32(0));
    done := Put(output, central + 46, name, done);
  }

  method WriteEnd(c: Codec, output: array<Byte>, end: int, centralSize: int, localSize: int, ghost before: Log)
    returns (ghost done: Log)
    requires c.Lawful() && output.Length == end + 22
    requires Written(output[..], before) && before.Size() == end
    modifies output
    ensures done == EndRecord(c, before, centralSize, localSize)
    ensures Written(output[..], done) && done.Size() == output.Length
  {
    done := before;
    done := Put(output, end, c.u32(END_SIGNATURE), done);
    done := Skip(output[..], done, c.u16(0));
    done := Skip(output[..], done, c.u16(0));
    done := Put(output, end + 8, c.u16(1), done);
    done := Put(output, end + 10, c.u16(1), done);
    done := Put(output, end + 12, c.u32(centralSize), done);
    done := Put(output, end + 16, c.u32(localSize), done);
    done := Skip(output[..], done, c.u16(0));
  }

  method Allocate(n: nat) returns (output: array<Byte>)
    ensures fresh(output) && output.Length == n && Written(output[..], Empty)
  {
    output := new Byte[n](_ => 0);
    BlankIsWritten(output[..]);
  }

  lemma {:induction false} ArchiveInParts(c: Codec, name: seq<Byte>, data: seq<Byte>, crc: int,
                                          local: Log, directory: Log, archive: Log)
    requires local == LocalRecord(c, name, data, crc)
    requires directory == CentralRecord(c, local, name, data, crc)
    requires archive == EndRecord(c, directory, 46 + |name|, 30 + |name| + |data|)
    ensures archive == Archive(c, name, data, crc)
  {
  }

  method WriteArchive(c: Codec, name: seq<Byte>, data: seq<Byte>, crc: int) returns (output: array<Byte>)
    requires c.Lawful()
    ensures fresh(output) && output[..] == Archive(c, name, data, crc).Bytes()
  {
    var localSize := 30 + |name| + |data|;
    var centralSize := 46 + |name|;
    output := Allocate(localSize + centralSize + 22);
    ghost var local := WriteLocal(c, output, name, data, crc);
    ghost var directory := WriteCentral(c, output, localSize, name, data, crc, local);
    ghost var archive := WriteEnd(c, output, localSize + centralSize, centralSize, localSize, directory);
    FullyWritten(output[..], archive);
    ArchiveInParts(c, name, data, crc, local, directory, archive);
  }

  // ----- the reader -----

  datatype Entry = Entry(name: seq<Byte>, contents: seq<Byte>, checksum: int)

  datatype ZipError = Truncated | BadSignature | NotSingleStoredEntry | SizesDisagree

  function ReadZip(c: Codec, s: seq<Byte>): Result<Entry, ZipError>
    requires c.Lawful()
  {
    if |s| < 22 then Err(Truncated)
    else
      var end := |s| - 22;
      var centralSize := c.U32At(s, end + 12);
      var central := c.U32At(s, end + 16);
      if c.U32At(s, end) != END_SIGNATURE then Err(BadSignature)
      else if c.U16At(s, end + 8) != 1 || c.U16At(s, end + 10) != 1 || c.U16At(s, end + 20) != 0 then
        Err(NotSingleStoredEntry)
      else if central + centralSize != end || centralSize < 46 then Err(SizesDisagree)
      else ReadCentral(c, s, central, centralSize)
  }

  /** The central directory record says where the local header is and what it must repeat. */
  function ReadCentral(c: Codec, s: seq<Byte>, central: int, centralSize: int): Result<Entry, ZipError>
    requires c.Lawful() && 0 <= central && 46 <= centralSize && central + centralSize <= |s|
  {
    var size := c.U32At(s, central + 24);
    var nameSize := c.U16At(s, central + 28);
    var local := c.U32At(s, central + 42);
    if c.U32At(s, central) != CENTRAL_SIGNATURE then Err(BadSignature)
    else if c.U16At(s, central + 6) != 20 || c.U16At(s, central + 8) != 0x0800
         || c.U16At(s, central + 10) != 0 || c.U32At(s, central + 20) != size
         || c.U16At(s, central + 30) != 0 || c.U16At(s, central + 32) != 0 then Err(NotSingleStoredEntry)
    else if 46 + nameSize != centralSize || local + 30 + nameSize + size != central then Err(SizesDisagree)
    else
      ReadLocal(c, s, local, s[central + 46..central + centralSize], size, c.U32At(s, central + 16))
  }

  /** The local header must agree with the directory before its contents are believed. */
  function ReadLocal(c: Codec, s: seq<Byte>, local: int, name: seq<Byte>, size: int, checksum: int)
    : Result<Entry, ZipError>
    requires c.Lawful() && 0 <= local && 0 <= size && local + 30 + |name| + size <= |s|
  {
    var contents := local + 30 + |name|;
    if c.U32At(s, local) != LOCAL_SIGNATURE then Err(BadSignature)
    else if c.U16At(s, local + 4) != 20 || c.U16At(s, local + 6) != 0x0800 || c.U16At(s, local + 8) != 0
         || c.U16At(s, local + 28) != 0 then Err(NotSingleStoredEntry)
    else if c.U32At(s, local + 14) != checksum || c.U32At(s, local + 18) != size || c.U32At(s, local + 22) != size
         || c.U16At(s, local + 26) != |name| || s[local + 30..contents] != name then Err(SizesDisagree)
    else Ok(Entry(name, s[contents..contents + size], checksum))
  }

  /** Sizes and offsets that fit their fields. */
  predicate Representable(name: seq<Byte>, data: seq<Byte>, crc: int) {
    |name| < U16 && 30 + |name| + |data| < U32 && 0 <= crc < U32
  }

  lemma {:induction false} Peel16(c: Codec, s: seq<Byte>, log: Log, v: int)
    requires c.Lawful() && log.Snoc? && Holds(s, log) && log.last == c.u16(v) && 0 <= v < U16
    ensures Holds(s, log.init) && log.init.Size() + 2 == log.Size() <= |s|
    ensures c.U16At(s, log.init.Size()) == v
  {
  }

  lemma {:induction false} Peel32(c: Codec, s: seq<Byte>, log: Log, v: int)
    requires c.Lawful() && log.Snoc? && Holds(s, log) && log.last == c.u32(v) && 0 <= v < U32
    ensures Holds(s, log.init) && log.init.Size() + 4 == log.Size() <= |s|
    ensures c.U32At(s, log.init.Size()) == v
  {
  }

  /** The fields from the compression method to the name length have the same shape in both headers. */
  function CommonFields(c: Codec, log: Log, name: seq<Byte>, data: seq<Byte>, crc: int): Log {
    log.Then(c.u16(0)).Then(c.u16(0)).Then(c.u16(0)).Then(c.u32(crc)).Then(c.u32(|data|)).Then(c.u32(|data|))
    .Then(c.u16(|name|))
  }

  lemma {:induction false} CommonFieldsRead(c: Codec, s: seq<Byte>, log: Log, name: seq<Byte>, data: seq<Byte>,
                                            crc: int)
    requires c.Lawful() && Representable(name, data, crc)
    requires Holds(s, CommonFields(c, log, name, data, crc))
    ensures Holds(s, log)
    ensures log.Size() + 20 == CommonFields(c, log, name, data, crc).Size() <= |s|
    ensures c.U16At(s, log.Size()) == 0
    ensures c.U32At(s, log.Size() + 6) == crc
    ensures c.U32At(s, log.Size() + 10) == c.U32At(s, log.Size() + 14) == |data|
    ensures c.U16At(s, log.Size() + 18) == |name|
  {
    var l7 := CommonFields(c, log, name, data, crc);
    var l6, l5, l4 := l7.init, l7.init.init, l7.init.init.init;
    var l2 := log.Then(c.u16(0)).Then(c.u16(0));
    var l3 := l2.Then(c.u16(0));
    Peel16(c, s, l7, |name|);
    Peel32(c, s, l6, |data|);
    Peel32(c, s, l5, |data|);
    Peel32(c, s, l4, crc);
    Peel16(c, s, l3, 0);
    Peel16(c, s, l2, 0);
    Peel16(c, s, l2.init, 0);
  }

  lemma {:induction false} LocalReads(c: Codec, s: seq<Byte>, name: seq<Byte>, data: seq<Byte>, crc: int)
    requires c.Lawful() && Representable(name, data, crc)
    requires Holds(s, LocalRecord(c, name, data, crc))
    ensures 30 + |name| + |data| == LocalRecord(c, name, data, crc).Size() <= |s|
    ensures ReadLocal(c, s, 0, name, |data|, crc) == Ok(Entry(name, data, crc))
  {
    var l13 := LocalRecord(c, name, data, crc);
    var l3 := Empty.Then(c.u32(LOCAL_SIGNATURE)).Then(c.u16(20)).Then(c.u16(0x0800));
    var l10 := CommonFields(c, l3, name, data, crc);
    assert Holds(s, l13.init) && Holds(s, l13.init.init);
    Peel16(c, s, l13.init.init, 0);
    CommonFieldsRead(c, s, l3, name, data, crc);
    Peel16(c, s, l3, 0x0800);
    Peel16(c, s, l3.init, 20);
    Peel32(c, s, l3.init.init, LOCAL_SIGNATURE);
  }

  function TailFields(c: Codec, log: Log, name: seq<Byte>): Log {
    log.Then(c.u16(0)).Then(c.u16(0)).Then(c.u16(0)).Then(c.u16(0)).Then(c.u32(0)).Then(c.u32(0)).Then(name)
  }

  lemma {:induction false} CentralTail(c: Codec, s: seq<Byte>, log: Log, name: seq<Byte>)
    requires c.Lawful()
    requires Holds(s, TailFields(c, log, name))
    ensures Holds(s, log) && log.Size() + 16 + |name| <= |s|
    ensures c.U16At(s, log.Size()) == 0 && c.U16At(s, log.Size() + 2) == 0
    ensures c.U32At(s, log.Size() + 12) == 0
    ensures s[log.Size() + 16..log.Size() + 16 + |name|] == name
  {
    var l4 := log.Then(c.u16(0)).Then(c.u16(0)).Then(c.u16(0)).Then(c.u16(0));
    var l6 := l4.Then(c.u32(0)).Then(c.u32(0));
    assert Holds(s, l6);
    Peel32(c, s, l6, 0);
    Peel32(c, s, l6.init, 0);
    Peel16(c, s, l4, 0);
    Peel16(c, s, l4.init, 0);
    Peel16(c, s, l4.init.init, 0);
    Peel16(c, s, l4.init.init.init, 0);
  }

  /** The directory fields a reader looks at, for a record at `k`. */
  ghost predicate CentralFields(c: Codec, s: seq<Byte>, k: int, name: seq<Byte>, data: seq<Byte>, crc: int) {
    && 0 <= k && k + 46 + |name| <= |s|
    && c.U32At(s, k) == CENTRAL_SIGNATURE
    && c.U16At(s, k + 6) == 20 && c.U16At(s, k + 8) == 0x0800 && c.U16At(s, k + 10) == 0
    && c.U32At(s, k + 16) == crc
    && c.U32At(s, k + 20) == c.U32At(s, k + 24) == |data|
    && c.U16At(s, k + 28) == |name|
    && c.U16At(s, k + 30) == 0 && c.U16At(s, k + 32) == 0
    && c.U32At(s, k + 42) == 0
    && s[k + 46..k + 46 + |name|] == name
  }

  lemma {:induction false} CentralHolds(c: Codec, s: seq<Byte>, before: Log, name: seq<Byte>, data: seq<Byte>, crc: int)
    requires c.Lawful() && Representable(name, data, crc)
    requires Holds(s, CentralRecord(c, before, name, data, crc))
    ensures Holds(s, before)
    ensures CentralFields(c, s, before.Size(), name, data, crc)
  {
    var l4 := before.Then(c.u32(CENTRAL_SIGNATURE)).Then(c.u16(20)).Then(c.u16(20)).Then(c.u16(0x0800));
    CentralShape(c, before, name, data, crc);
    CentralTail(c, s, CommonFields(c, l4, name, data, crc), name);
    CommonFieldsRead(c, s, l4, name, data, crc);
    CentralHead(c, s, before);
  }

  lemma {:induction false} CentralShape(c: Codec, before: Log, name: seq<Byte>, data: seq<Byte>, crc: int)
    ensures var l4 := before.Then(c.u32(CENTRAL_SIGNATURE)).Then(c.u16(20)).Then(c.u16(20)).Then(c.u16(0x0800));
            CentralRecord(c, before, name, data, crc) == TailFields(c, CommonFields(c, l4, name, data, crc), name)
  {
  }

  lemma {:induction false} CentralHead(c: Codec, s: seq<Byte>, before: Log)
    requires c.Lawful()
    requires Holds(s, before.Then(c.u32(CENTRAL_SIGNATURE)).Then(c.u16(20)).Then(c.u16(20)).Then(c.u16(0x0800)))
    ensures Holds(s, before) && before.Size() + 10 <= |s| && c.U32At(s, before.Size()) == CENTRAL_SIGNATURE
    ensures c.U16At(s, before.Size() + 6) == 20 && c.U16At(s, before.Size() + 8) == 0x0800
    ensures before.Then(c.u32(CENTRAL_SIGNATURE)).Then(c.u16(20)).Then(c.u16(20)).Then(c.u16(0x0800)).Size()
            == before.Size() + 10
  {
    var l4 := before.Then(c.u32(CENTRAL_SIGNATURE)).Then(c.u16(20)).Then(c.u16(20)).Then(c.u16(0x0800));
    Peel16(c, s, l4, 0x0800);
    Peel16(c, s, l4.init, 20);
    Peel16(c, s, l4.init.init, 20);
    Peel32(c, s, l4.init.init.init, CENTRAL_SIGNATURE);
  }

  lemma {:induction false} CentralReads(c: Codec, s: seq<Byte>, name: seq<Byte>, data: seq<Byte>, crc: int)
    requires c.Lawful() && CentralFields(c, s, 30 + |name| + |data|, name, data, crc)
    ensures ReadCentral(c, s, 30 + |name| + |data|, 46 + |name|) == ReadLocal(c, s, 0, name, |data|, crc)
  {
  }

  ghost predicate EndFields(c: Codec, s: seq<Byte>, e: int, centralSize: int, localSize: int) {
    && 0 <= e && |s| == e + 22
    && c.U32At(s, e) == END_SIGNATURE
    && c.U16At(s, e + 8) == 1 && c.U16At(s, e + 10) == 1
    && c.U32At(s, e + 12) == centralSize
    && c.U32At(s, e + 16) == localSize
    && c.U16At(s, e + 20) == 0
  }

  lemma {:induction false} EndHolds(c: Codec, s: seq<Byte>, before: Log, centralSize: int, localSize: int)
    requires c.Lawful() && 0 <= centralSize < U32 && 0 <= localSize < U32
    requires Holds(s, EndRecord(c, before, centralSize, localSize)) && |s| == before.Size() + 22
    ensures Holds(s, before)
    ensures EndFields(c, s, before.Size(), centralSize, localSize)
  {
    var l5 := before.Then(c.u32(END_SIGNATURE)).Then(c.u16(0)).Then(c.u16(0)).Then(c.u16(1)).Then(c.u16(1));
    var l6 := l5.Then(c.u32(centralSize));
    var l7 := l6.Then(c.u32(localSize));
    Peel16(c, s, l7.Then(c.u16(0)), 0);
    Peel32(c, s, l7, localSize);
    Peel32(c, s, l6, centralSize);
    Peel16(c, s, l5, 1);
    Peel16(c, s, l5.init, 1);
    Peel16(c, s, l5.init.init, 0);
    Peel16(c, s, l5.init.init.init, 0);
    Peel32(c, s, l5.init.init.init.init, END_SIGNATURE);
  }

  lemma {:induction false} EndReads(c: Codec, s: seq<Byte>, centralSize: int, localSize: int)
    requires c.Lawful() && 46 <= centralSize && 0 <= localSize
    requires EndFields(c, s, localSize + centralSize, centralSize, localSize)
    ensures ReadZip(c, s) == ReadCentral(c, s, localSize, centralSize)
  {
  }

  /** What the three records hold, wherever they are read. */
  lemma {:induction false} ArchiveHolds(c: Codec, name: seq<Byte>, data: seq<Byte>, crc: int)
    requires c.Lawful() && Representable(name, data, crc)
    ensures var s := Archive(c, name, data, crc).Bytes();
            var local := LocalRecord(c, name, data, crc);
            && Holds(s, local)
            && local.Size() == 30 + |name| + |data|
            && CentralFields(c, s, local.Size(), name, data, crc)
            && |s| == 98 + 2 * |name| + |data|
            && EndFields(c, s, |s| - 22, 46 + |name|, 30 + |name| + |data|)
  {
    var archive := Archive(c, name, data, crc);
    var s := archive.Bytes();
    var local := LocalRecord(c, name, data, crc);
    var central := CentralRecord(c, local, name, data, crc);
    ArchiveSizes(c, name, data, crc);
    archive.SizeIsLength();
    PrefixHolds(s, archive);
    PartsHold(c, s, local, central, name, data, crc);
  }

  lemma {:induction false} PartsHold(c: Codec, s: seq<Byte>, local: Log, central: Log, name: seq<Byte>,
                                     data: seq<Byte>, crc: int)
    requires c.Lawful() && Representable(name, data, crc)
    requires central == CentralRecord(c, local, name, data, crc)
    requires Holds(s, EndRecord(c, central, 46 + |name|, 30 + |name| + |data|)) && |s| == central.Size() + 22
    ensures Holds(s, local) && CentralFields(c, s, local.Size(), name, data, crc)
    ensures EndFields(c, s, central.Size(), 46 + |name|, 30 + |name| + |data|)
  {
    EndHolds(c, s, central, 46 + |name|, 30 + |name| + |data|);
    CentralHolds(c, s, local, name, data, crc);
  }

  lemma {:induction false} ArchiveReads(c: Codec, name: seq<Byte>, data: seq<Byte>, crc: int)
    requires c.Lawful() && Representable(name, data, crc)
    ensures ReadZip(c, Archive(c, name, data, crc).Bytes()) == Ok(Entry(name, data, crc))
    ensures |Archive(c, name, data, crc).Bytes()| == 98 + 2 * |name| + |data|
  {
    var s := Archive(c, name, data, crc).Bytes();
    ArchiveHolds(c, name, data, crc);
    RecordsRead(c, s, name, data, crc);
  }

  /** A file that holds the three records is read back. */
  lemma {:induction false} RecordsRead(c: Codec, s: seq<Byte>, name: seq<Byte>, data: seq<Byte>, crc: int)
    requires c.Lawful() && Representable(name, data, crc)
    requires Holds(s, LocalRecord(c, name, data, crc)) && CentralFields(c, s, 30 + |name| + |data|, name, data, crc)
    requires EndFields(c, s, 76 + 2 * |name| + |data|, 46 + |name|, 30 + |name| + |data|)
    ensures ReadZip(c, s) == Ok(Entry(name, data, crc))
  {
    DirectoryReads(c, s, name, data, crc);
    EndReads(c, s, 46 + |name|, 30 + |name| + |data|);
  }

  lemma {:induction false} DirectoryReads(c: Codec, s: seq<Byte>, name: seq<Byte>, data: seq<Byte>, crc: int)
    requires c.Lawful() && Representable(name, data, crc)
    requires Holds(s, LocalRecord(c, name, data, crc)) && CentralFields(c, s, 30 + |name| + |data|, name, data, crc)
    ensures ReadCentral(c, s, 30 + |name| + |data|, 46 + |name|) == Ok(Entry(name, data, crc))
  {
    CentralReads(c, s, name, data, crc);
    LocalReads(c, s, name, data, crc);
  }

  lemma {:induction false} ArchiveSizes(c: Codec, name: seq<Byte>, data: seq<Byte>, crc: int)
    requires c.Lawful()
    ensures var local := LocalRecord(c, name, data, crc);
            local.Size() == 30 + |name| + |data|
            && CentralRecord(c, local, name, data, crc).Size() == local.Size() + 46 + |name|
            && Archive(c, name, data, crc).Size() == local.Size() + 46 + |name| + 22
  {
  }
}

/** The archive as the provisioner writes it: little-endian fields and a CRC-32 of the contents. */
module StoredZip {
  import opened Results
  import opened Chunks
  import opened ZipLayout
  import Crc32
  import WordFacts

  /** DataView.setUint16 and setUint32 keep the value's low 16 or 32 bits. */
  function U16Bytes(v: int): seq<Byte> {
    [v % 0x100, v % U16 / 0x100]
  }

  function U32Bytes(v: int): seq<Byte> {
    U16Bytes(v) + U16Bytes(v / U16)
  }

  function ReadU16(s: seq<Byte>): int {
    if |s| == 2 then (s[0] as int) + 0x100 * (s[1] as int) else 0
  }

  function ReadU32(s: seq<Byte>): int {
    if |s| == 4 then ReadU16([s[0], s[1]]) + U16 * ReadU16([s[2], s[3]]) else 0
  }

  const LITTLE_ENDIAN := Codec(U16Bytes, U32Bytes, ReadU16, ReadU32)

  lemma ReadsU16(v: int)
    ensures ReadU16(U16Bytes(v)) == v % U16
  {
    assert v % 0x100 == v % U16 % 0x100 by {
      assert v % U16 == v - v / U16 * U16;
    }
  }

  lemma ReadsU32(v: int)
    requires 0 <= v < U32
    ensures ReadU32(U32Bytes(v)) == v
  {
    var s := U32Bytes(v);
    assert [s[0], s[1]] == U16Bytes(v);
    assert [s[2], s[3]] == U16Bytes(v / U16);
    ReadsU16(v);
    ReadsU16(v / U16);
  }

  /** Fields lie lowest byte first, so the three records begin with their published signatures. */
  lemma FieldsAsWritten(v: int)
    requires 0 <= v < U32
    ensures v < U16 ==> U16Bytes(v) == [v % 0x100, v / 0x100]
    ensures U32Bytes(v) == [v % 0x100, v / 0x100 % 0x100, v / 0x1_0000 % 0x100, v / 0x100_0000]
    ensures U32Bytes(LOCAL_SIGNATURE) == ['P' as Byte, 'K' as Byte, 3, 4]
    ensures U32Bytes(CENTRAL_SIGNATURE) == ['P' as Byte, 'K' as Byte, 1, 2]
    ensures U32Bytes(END_SIGNATURE) == ['P' as Byte, 'K' as Byte, 5, 6]
  {
    LowHalf(v);
  }

  lemma LowHalf(v: int)
    requires 0 <= v < U32
    ensures v % U16 % 0x100 == v % 0x100 && v % U16 / 0x100 == v / 0x100 % 0x100
    ensures v / U16 % 0x100 == v / 0x1_0000 % 0x100 && v / U16 / 0x100 == v / 0x100_0000
    ensures v / U16 % U16 == v / U16
  {
    var high, low := v / U16, v % U16;
    assert v == U16 * high + low;
    assert v / 0x100 == 0x100 * high + low / 0x100;
    assert v / 0x100_0000 == high / 0x100;
  }

  lemma ZeroFields()
    ensures U16Bytes(0) == Zeros(2) && U32Bytes(0) == Zeros(4)
  {
  }

  lemma FieldAt(v: int)
    ensures |LITTLE_ENDIAN.u16(v)| == 2 && |LITTLE_ENDIAN.u32(v)| == 4
    ensures 0 <= v < U16 ==> LITTLE_ENDIAN.read16(LITTLE_ENDIAN.u16(v)) == v
    ensures 0 <= v < U32 ==> LITTLE_ENDIAN.read32(LITTLE_ENDIAN.u32(v)) == v
  {
    assert LITTLE_ENDIAN.u16(v) == U16Bytes(v) && LITTLE_ENDIAN.u32(v) == U32Bytes(v);
    if 0 <= v < U16 { ReadsU16(v); }
    if 0 <= v < U32 { ReadsU32(v); }
  }

  lemma ReadAt(b: seq<Byte>)
    ensures 0 <= LITTLE_ENDIAN.read16(b) && 0 <= LITTLE_ENDIAN.read32(b)
  {
  }

  lemma LittleEndianIsLawful()
    ensures LITTLE_ENDIAN.Lawful()
  {
    forall v ensures |LITTLE_ENDIAN.u16(v)| == 2 { FieldAt(v); }
    forall v ensures |LITTLE_ENDIAN.u32(v)| == 4 { FieldAt(v); }
    forall v | 0 <= v < U16 ensures LITTLE_ENDIAN.read16(LITTLE_ENDIAN.u16(v)) == v { FieldAt(v); }
    forall v | 0 <= v < U32 ensures LITTLE_ENDIAN.read32(LITTLE_ENDIAN.u32(v)) == v { FieldAt(v); }
    forall b ensures 0 <= LITTLE_ENDIAN.read16(b) && 0 <= LITTLE_ENDIAN.read32(b) { ReadAt(b); }
    ZeroFields();
  }

  function Words(bytes: seq<Byte>): seq<bv8> {
    seq(|bytes|, i requires 0 <= i < |bytes| => bytes[i] as bv8)
  }

  function ChecksumOf(data: seq<Byte>): int {
    Crc32.Checksum(Words(data)) as int
  }

  method StoredZip(name: seq<Byte>, data: seq<Byte>) returns (output: array<Byte>)
    ensures fresh(output)
    ensures output[..] == Archive(LITTLE_ENDIAN, name, data, ChecksumOf(data)).Bytes()
  {
    var crc := Crc32.ComputeCrc32(Words(data));
    LittleEndianIsLawful();
    output := WriteArchive(LITTLE_ENDIAN, name, data, crc as int);
  }

  lemma ChecksumFits(data: seq<Byte>)
    ensures 0 <= ChecksumOf(data) < U32
  {
  }

  /** The format's own limits: a 16-bit name length, 32-bit sizes and offsets. */
  predicate FitsFormat(name: seq<Byte>, data: seq<Byte>) {
    |name| < U16 && 30 + |name| + |data| < U32
  }

  /** Whatever was archived is read back, and the three records fill the file exactly. */
  lemma StoredZipRoundTrip(name: seq<Byte>, data: seq<Byte>)
    requires FitsFormat(name, data)
    ensures LITTLE_ENDIAN.Lawful()
    ensures var s := Archive(LITTLE_ENDIAN, name, data, ChecksumOf(data)).Bytes();
            ReadZip(LITTLE_ENDIAN, s) == Ok(Entry(name, data, ChecksumOf(data)))
            && |s| == (30 + |name| + |data|) + (46 + |name|) + 22
  {
    LittleEndianIsLawful();
    ChecksumFits(data);
    ArchiveReads(LITTLE_ENDIAN, name, data, ChecksumOf(data));
  }

  lemma DifferentWords(a: seq<Byte>, b: seq<Byte>)
    requires |a| == |b| && a != b
    ensures Words(a) != Words(b)
  {
    var i :| 0 <= i < |a| && a[i] != b[i];
    WordFacts.ByteAsWord(a[i]);
    WordFacts.ByteAsWord(b[i]);
    assert Words(a)[i] == a[i] as bv8 && Words(b)[i] == b[i] as bv8;
  }

  /**
   Contents altered within four consecutive bytes while the headers stay: the file still parses,
   and its stored checksum no longer matches the contents.
   */
  lemma AlteredContentsDetected(name: seq<Byte>, data: seq<Byte>, altered: seq<Byte>, from: nat, until: nat)
    requires FitsFormat(name, data) && |altered| == |data| && altered != data
    requires from <= until <= |data| && until - from <= 4
    requires altered[..from] == data[..from] && altered[until..] == data[until..]
    ensures LITTLE_ENDIAN.Lawful()
    ensures var s := Archive(LITTLE_ENDIAN, name, altered, ChecksumOf(data)).Bytes();
            ReadZip(LITTLE_ENDIAN, s) == Ok(Entry(name, altered, ChecksumOf(data)))
            && ChecksumOf(altered) != ChecksumOf(data)
  {
    LittleEndianIsLawful();
    ChecksumFits(data);
    ArchiveReads(LITTLE_ENDIAN, name, altered, ChecksumOf(data));
    DifferentWords(altered, data);
    SlicesOfWords(altered, from, until);
    SlicesOfWords(data, from, until);
    Crc32.BurstErrorsDetected(Words(altered), Words(data), from, until);
    WordFacts.WordsAsInts(Crc32.Checksum(Words(altered)), Crc32.Checksum(Words(data)));
  }

  lemma SlicesOfWords(a: seq<Byte>, from: nat, until: nat)
    requires from <= until <= |a|
    ensures Words(a)[..from] == Words(a[..from]) && Words(a)[until..] == Words(a[until..])
  {
  }
}
