/** The writer and the reader of recordings (src/output/disk_logger.cpp) over a file of bytes
    with a moving position. Opening and writing are assumed not to fail; the wall clock is an
    argument. */
module DiskIo {
  import opened Words
  import opened Recording

  /** A file on disk. */
  class ByteFile {
    var bytes: seq<byte>

    constructor ()
      ensures bytes == []
    {
      bytes := [];
    }
  }

  /** `fwrite` at a position: overwrites what is there and extends the file when it runs past the end. */
  function Overwrite(bytes: seq<byte>, pos: nat, data: seq<byte>): seq<byte>
    requires pos <= |bytes|
  {
    bytes[..pos] + data + (if pos + |data| < |bytes| then bytes[pos + |data|..] else [])
  }

  /** Patching the count field turns the image of an open recording into that of a closed one. */
  lemma {:induction false} PatchCount(createdUs: u64, old_: u32, count: u32, es: seq<Entry>)
    ensures |FileImage(createdUs, old_, es)| >= FILE_HEADER_SIZE
    ensures Overwrite(FileImage(createdUs, old_, es), COUNT_OFFSET, Le(count, 4)) == FileImage(createdUs, count, es)
  {
    var before := Le(FILE_MAGIC, 4) + Le(FILE_VERSION, 4) + Le(createdUs, 8);
    var after := Le(0, 4);
    var body := PutEntries(es);
    HeaderParts(createdUs, old_);
    HeaderParts(createdUs, count);
    Regroup(before, Le(old_, 4), after, body);
    Regroup(before, Le(count, 4), after, body);
    Replace(before, Le(old_, 4), Le(count, 4), after + body);
  }

  lemma {:induction false} HeaderParts(createdUs: u64, count: u32)
    ensures PutFileHeader(FileHeader(FILE_MAGIC, FILE_VERSION, createdUs, count, 0))
         == Le(FILE_MAGIC, 4) + Le(FILE_VERSION, 4) + Le(createdUs, 8) + Le(count, 4) + Le(0, 4)
  {
  }

  lemma {:induction false} Regroup(a: seq<byte>, b: seq<byte>, c: seq<byte>, d: seq<byte>)
    ensures a + b + c + d == a + (b + (c + d))
  {
  }

  lemma {:induction false} Replace(a: seq<byte>, b: seq<byte>, b': seq<byte>, c: seq<byte>)
    requires |b| == |b'|
    ensures Overwrite(a + (b + c), |a|, b') == a + (b' + c)
  {
    var s := a + (b + c);
    assert s[..|a|] == a;
    assert s[|a| + |b|..] == c;
  }

  lemma {:induction false} AppendEntry(es: seq<Entry>, e: Entry)
    ensures PutEntries(es + [e]) == PutEntries(es) + PutEntry(e)
  {
    hide PutEntry;
    if es == [] {
      assert es + [e] == [e];
    } else {
      AppendEntry(es[1..], e);
      assert (es + [e])[1..] == es[1..] + [e];
    }
  }

  lemma {:induction false} ValidSnoc(es: seq<Entry>, e: Entry)
    requires ValidEntries(es) && ValidRecord(e.record)
    ensures ValidEntries(es + [e])
  {
  }

  lemma {:induction false} OverwriteAtEnd(bytes: seq<byte>, data: seq<byte>)
    ensures Overwrite(bytes, |bytes|, data) == bytes + data
  {
  }

  /** Writing a record header and a record at the end of an image adds one entry to it. */
  lemma {:induction false} ImageGrows(createdUs: u64, es: seq<Entry>, e: Entry)
    ensures var s := FileImage(createdUs, 0, es);
      var h := PutRecordHeader(RecordHeader(e.wallUs, PAYLOAD_SIZE));
      && Overwrite(s, |s|, h) == s + h
      && Overwrite(s + h, |s + h|, PutRecord(e.record)) == FileImage(createdUs, 0, es + [e])
  {
    var head, body := PutFileHeader(FileHeader(FILE_MAGIC, FILE_VERSION, createdUs, 0, 0)), PutEntries(es);
    var h, r := PutRecordHeader(RecordHeader(e.wallUs, PAYLOAD_SIZE)), PutRecord(e.record);
    OverwriteAtEnd(head + body, h);
    OverwriteAtEnd(head + body + h, r);
    AppendEntry(es, e);
    Regroup(head, body, h, r);
  }

  lemma {:induction false} EmptyImage(createdUs: u64)
    ensures var h := PutFileHeader(FileHeader(FILE_MAGIC, FILE_VERSION, createdUs, 0, 0));
      Overwrite([], 0, h) == FileImage(createdUs, 0, []) && ValidEntries([])
  {
  }

  /** The 32-bit counter follows the number of records modulo 2^32. */
  lemma {:induction false} CountWraps(n: nat)
    ensures (n % U32_SPAN + 1) % U32_SPAN == (n + 1) % U32_SPAN
  {
  }

  class DiskLogger {
    var file: ByteFile?
    var pos: nat
    var recordCount: u32
    ghost var createdUs: u64
    ghost var written: seq<Entry>

    /** While open, the file is the image of what has been written, its count field still zero. */
    ghost predicate Valid()
      reads this, file
    {
      file != null ==>
        && ValidEntries(written) && file.bytes == FileImage(createdUs, 0, written)
        && pos == |file.bytes| && recordCount == |written| % U32_SPAN
    }

    constructor ()
      ensures Valid() && file == null
    {
      file, pos, recordCount, written := null, 0, 0, [];
      createdUs := 0;
    }

    method FWrite(data: seq<byte>)
      requires file != null && pos <= |file.bytes|
      modifies file, `pos
      ensures file.bytes == Overwrite(old(file.bytes), old(pos), data) && pos == old(pos) + |data|
    {
      file.bytes := Overwrite(file.bytes, pos, data);
      pos := pos + |data|;
    }

    /** Opens `target` for writing; a recording still open is closed first. */
    method Open(target: ByteFile, now: u64)
      requires Valid()
      modifies this, file, target
      ensures Valid() && file == target && written == [] && createdUs == now && recordCount == 0
      ensures old(file) != null && old(file) != target ==>
        old(file).bytes == FileImage(old(createdUs), old(|written|) % U32_SPAN, old(written))
    {
      if file != null {
        Close();
      }
      file, pos, recordCount := target, 0, 0;
      target.bytes := [];
      written, createdUs := [], now;
      EmptyImage(now);
      FWrite(PutFileHeader(FileHeader(FILE_MAGIC, FILE_VERSION, now, 0, 0)));
    }

    /** Appends one record; false and nothing written when no file is open. */
    method Write(u: DepthUpdate, now: u64) returns (ok: bool)
      requires Valid() && ValidUpdate(u)
      modifies this, file
      ensures Valid() && ok == (old(file) != null) && file == old(file)
      ensures written == (if ok then old(written) + [Entry(now, ToRecord(u))] else old(written))
      ensures createdUs == old(createdUs)
    {
      if file == null { return false; }
      ConversionRoundTrip(u);
      ghost var e := Entry(now, ToRecord(u));
      assert ValidEntries(written + [e]) by { ValidSnoc(written, e); }
      ImageGrows(createdUs, written, e);
      FWrite(PutRecordHeader(RecordHeader(now, PAYLOAD_SIZE)));
      FWrite(PutRecord(ToRecord(u)));
      CountWraps(|written|);
      recordCount := (recordCount + 1) % U32_SPAN;
      written := written + [e];
      assert file.bytes == FileImage(createdUs, 0, written);
      ok := true;
    }

    /** Patches the record count into the header and lets go of the file. */
    method Close()
      requires Valid()
      modifies this, file
      ensures Valid() && file == null && written == old(written)
      ensures old(file) != null ==>
        old(file).bytes == FileImage(old(createdUs), old(|written|) % U32_SPAN, old(written))
    {
      if file == null { return; }
      PatchCount(createdUs, 0, recordCount, written);
      pos := COUNT_OFFSET;
      FWrite(Le(recordCount, 4));
      file := null;
    }
  }

  class DiskReader {
    var file: ByteFile?
    var pos: nat
    var header: FileHeader

    ghost predicate Valid()
      reads this, file
    {
      file != null ==> FILE_HEADER_SIZE <= |file.bytes| && pos <= |file.bytes|
    }

    constructor ()
      ensures Valid() && file == null
    {
      file, pos := null, 0;
      header := FileHeader(FILE_MAGIC, FILE_VERSION, 0, 0, 0);
    }

    /** `fread` of one struct. */
    method FRead(size: nat) returns (ok: bool, data: seq<byte>)
      requires file != null && pos <= |file.bytes|
      modifies `pos
      ensures ok <==> old(pos) + size <= |file.bytes|
      ensures ok ==> data == file.bytes[old(pos)..old(pos) + size] && pos == old(pos) + size
      ensures !ok ==> pos == |file.bytes|
    {
      if pos + size <= |file.bytes| {
        ok, data := true, file.bytes[pos..pos + size];
        pos := pos + size;
      } else {
        ok, data := false, [];
        pos := |file.bytes|;
      }
    }

    /** Accepts exactly the files that hold a whole header with this magic and version; `null`
        stands for a path that cannot be opened. */
    method Open(source: ByteFile?) returns (ok: bool)
      requires Valid()
      modifies this
      ensures Valid() && (ok <==> file != null) && (ok ==> file == source)
      ensures ok <==>
        && source != null && |source.bytes| >= FILE_HEADER_SIZE
        && GetFileHeader(source.bytes[..FILE_HEADER_SIZE]).magic == FILE_MAGIC
        && GetFileHeader(source.bytes[..FILE_HEADER_SIZE]).version == FILE_VERSION
      ensures ok ==> pos == FILE_HEADER_SIZE && header == GetFileHeader(source.bytes[..FILE_HEADER_SIZE])
    {
      file, pos := source, 0;
      if file == null { return false; }
      var got, data := FRead(FILE_HEADER_SIZE);
      if !got { file := null; return false; }
      header := GetFileHeader(data);
      if header.magic != FILE_MAGIC || header.version != FILE_VERSION { file := null; return false; }
      ok := true;
    }

    /** Delivers the record at the current position, if there is a whole one. */
    method ReadNextRecord() returns (ok: bool, record: DepthRecord, rhdr: RecordHeader)
      requires Valid()
      modifies `pos
      ensures Valid()
      ensures file == null ==> !ok && pos == old(pos)
      ensures file != null && ok ==>
        ReadNext(file.bytes, old(pos)) == Got(Entry(rhdr.wallUs, record), pos) && rhdr.payloadSize == PAYLOAD_SIZE
      ensures file != null && !ok ==> ReadNext(file.bytes, old(pos)) == Stop(pos)
    {
      record := DepthRecord(0, 0, 0, Zeros(SYMBOL_MAX_LEN), 0, 0, [], []);
      rhdr := RecordHeader(0, 0);
      if file == null { return false, record, rhdr; }
      var got, data := FRead(RECORD_HEADER_SIZE);
      if !got { return false, record, rhdr; }
      rhdr := GetRecordHeader(data);
      if rhdr.payloadSize != PAYLOAD_SIZE { return false, record, rhdr; }
      got, data := FRead(PAYLOAD_SIZE);
      if !got { return false, record, rhdr; }
      return true, GetRecord(data), rhdr;
    }

    /** Back to the first record; what can be read from here is again `ReadAll` of the file. */
    method Rewind() returns (ok: bool)
      requires Valid()
      modifies `pos
      ensures Valid() && ok == (file != null)
      ensures pos == if ok then FILE_HEADER_SIZE else old(pos)
    {
      if file == null { return false; }
      pos := FILE_HEADER_SIZE;
      ok := true;
    }

    method Close()
      modifies `file
      ensures Valid() && file == null
    {
      file := null;
    }
  }
}
