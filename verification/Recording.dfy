/** The binary recording format of src/output/disk_logger.h, byte by byte.
    Integers are little-endian as on the machines the program targets; a double is its 64-bit
    pattern. */
module Recording {
  import opened Words

  const FILE_MAGIC: u32 := 0x4D444531
  const FILE_VERSION: u32 := 1
  const SYMBOL_MAX_LEN: nat := 32
  const MAX_LEVELS: nat := 64
  const FILE_HEADER_SIZE: nat := 24
  const COUNT_OFFSET: nat := 16
  const RECORD_HEADER_SIZE: nat := 12
  const PAYLOAD_SIZE: nat := 2108
  const RECORD_SIZE: nat := RECORD_HEADER_SIZE + PAYLOAD_SIZE

  datatype Level = Level(price: u64, qty: u64)

  /** `core::DepthUpdate`, latency stamps apart. */
  datatype DepthUpdate = DepthUpdate(
    eventTimeMs: u64, firstId: u64, lastId: u64, symbol: seq<byte>,
    bids: seq<Level>, asks: seq<Level>, bidCount: u16, askCount: u16)

  datatype DepthRecord = DepthRecord(
    eventTimeMs: u64, firstId: u64, lastId: u64, symbol: seq<byte>,
    bidCount: u16, askCount: u16, bids: seq<Level>, asks: seq<Level>)

  datatype FileHeader = FileHeader(magic: u32, version: u32, createdUs: u64, recordCount: u32, reserved: u32)

  datatype RecordHeader = RecordHeader(wallUs: u64, payloadSize: u32)

  /** One record of a file: when it was written, and what. */
  datatype Entry = Entry(wallUs: u64, record: DepthRecord)

  predicate ValidUpdate(u: DepthUpdate) {
    |u.bids| == MAX_LEVELS && |u.asks| == MAX_LEVELS
  }

  predicate ValidRecord(r: DepthRecord) {
    |r.bids| == MAX_LEVELS && |r.asks| == MAX_LEVELS && |r.symbol| == SYMBOL_MAX_LEN
  }

  // ---------------------------------------------------------------- conversions

  function Zeros(n: nat): (z: seq<byte>)
    ensures |z| == n
  {
    seq(n, _ => 0)
  }

  /** The prefix of a char array that assigning it to a std::string keeps. */
  function CString(s: seq<byte>): seq<byte> {
    if s == [] || s[0] == 0 then [] else [s[0]] + CString(s[1..])
  }

  /** `to_record`: the symbol is cut to 31 bytes and padded with zeros. */
  function ToRecord(u: DepthUpdate): DepthRecord {
    var len := if |u.symbol| >= SYMBOL_MAX_LEN then SYMBOL_MAX_LEN - 1 else |u.symbol|;
    DepthRecord(u.eventTimeMs, u.firstId, u.lastId, u.symbol[..len] + Zeros(SYMBOL_MAX_LEN - len),
                u.bidCount, u.askCount, u.bids, u.asks)
  }

  function FromRecord(r: DepthRecord): DepthUpdate {
    DepthUpdate(r.eventTimeMs, r.firstId, r.lastId, CString(r.symbol), r.bids, r.asks, r.bidCount, r.askCount)
  }

  /** A symbol the format stores without loss. */
  predicate Storable(symbol: seq<byte>) {
    |symbol| < SYMBOL_MAX_LEN && 0 !in symbol
  }

  lemma {:induction false} CStringOfPadded(s: seq<byte>, n: nat)
    requires n > 0
    ensures CString(s + Zeros(n)) == CString(s)
    ensures CString(s) <= s
    ensures CString(s) == s <==> 0 !in s
  {
    if s == [] {
      assert s + Zeros(n) == Zeros(n);
    } else {
      CStringOfPadded(s[1..], n);
      assert (s + Zeros(n))[1..] == s[1..] + Zeros(n);
      assert s == [s[0]] + s[1..];
    }
  }

  /** Converting to a record and back loses exactly what the symbol field cannot hold. */
  lemma {:induction false} ConversionRoundTrip(u: DepthUpdate)
    ensures FromRecord(ToRecord(u)) == u <==> Storable(u.symbol)
    ensures FromRecord(ToRecord(u)).(symbol := u.symbol) == u
    ensures FromRecord(ToRecord(u)).symbol <= u.symbol && Storable(FromRecord(ToRecord(u)).symbol)
    ensures ValidUpdate(u) ==> ValidRecord(ToRecord(u))
  {
    var len := if |u.symbol| >= SYMBOL_MAX_LEN then SYMBOL_MAX_LEN - 1 else |u.symbol|;
    CStringOfPadded(u.symbol[..len], SYMBOL_MAX_LEN - len);
    CStringHasNoZero(u.symbol[..len]);
    if |u.symbol| < SYMBOL_MAX_LEN { assert u.symbol[..len] == u.symbol; }
  }

  lemma {:induction false} CStringHasNoZero(s: seq<byte>)
    ensures 0 !in CString(s)
  {
    if s != [] && s[0] != 0 { CStringHasNoZero(s[1..]); }
  }

  // ---------------------------------------------------------------- integers

  function Span(k: nat): (p: nat)
    ensures p > 0
  {
    if k == 0 then 1 else 256 * Span(k - 1)
  }

  function Le(n: nat, k: nat): (s: seq<byte>)
    ensures |s| == k
  {
    if k == 0 then [] else [n % 256] + Le(n / 256, k - 1)
  }

  function FromLe(s: seq<byte>): (n: nat)
    ensures n < Span(|s|)
  {
    if s == [] then 0 else s[0] + 256 * FromLe(s[1..])
  }

  lemma {:induction false} LeRoundTrip(n: nat, k: nat)
    requires n < Span(k)
    ensures FromLe(Le(n, k)) == n
  {
    if k > 0 {
      LeRoundTrip(n / 256, k - 1);
      assert Le(n, k)[1..] == Le(n / 256, k - 1);
    }
  }

  lemma {:induction false} Spans()
    ensures Span(2) == 0x1_0000 && Span(4) == 0x1_0000_0000 && Span(8) == 0x1_0000_0000_0000_0000
  {
    assert Span(1) == 0x100;
    assert Span(2) == 0x1_0000;
    assert Span(3) == 0x100_0000;
    assert Span(4) == 0x1_0000_0000;
    assert Span(5) == 0x100_0000_0000;
    assert Span(6) == 0x1_0000_0000_0000;
    assert Span(7) == 0x100_0000_0000_0000;
  }

  function Get16(s: seq<byte>): u16
    requires |s| == 2
  {
    Spans(); FromLe(s)
  }

  function Get32(s: seq<byte>): u32
    requires |s| == 4
  {
    Spans(); FromLe(s)
  }

  function Get64(s: seq<byte>): u64
    requires |s| == 8
  {
    Spans(); FromLe(s)
  }

  lemma {:induction false} Le16(n: u16) ensures Get16(Le(n, 2)) == n { Spans(); LeRoundTrip(n, 2); }
  lemma {:induction false} Le32(n: u32) ensures Get32(Le(n, 4)) == n { Spans(); LeRoundTrip(n, 4); }
  lemma {:induction false} Le64(n: u64) ensures Get64(Le(n, 8)) == n { Spans(); LeRoundTrip(n, 8); }

  // ---------------------------------------------------------------- structs

  function PutLevels(ls: seq<Level>): (s: seq<byte>)
    ensures |s| == 16 * |ls|
  {
    if ls == [] then [] else Le(ls[0].price, 8) + (Le(ls[0].qty, 8) + PutLevels(ls[1..]))
  }

  function GetLevels(s: seq<byte>): (ls: seq<Level>)
    requires |s| % 16 == 0
    ensures |ls| == |s| / 16
  {
    if s == [] then []
    else [Level(Get64(s[..8]), Get64(s[8..16]))] + GetLevels(s[16..])
  }

  lemma {:induction false} LevelsRoundTrip(ls: seq<Level>)
    ensures GetLevels(PutLevels(ls)) == ls
  {
    if ls != [] {
      var a, b, c := Le(ls[0].price, 8), Le(ls[0].qty, 8), PutLevels(ls[1..]);
      var s := a + (b + c);
      assert s[..8] == a && s[8..16] == b && s[16..] == c;
      Le64(ls[0].price);
      Le64(ls[0].qty);
      LevelsRoundTrip(ls[1..]);
    }
  }

  function PutRecord(r: DepthRecord): (s: seq<byte>)
    ensures ValidRecord(r) ==> |s| == PAYLOAD_SIZE
  {
    Le(r.eventTimeMs, 8) + (Le(r.firstId, 8) + (Le(r.lastId, 8) + (r.symbol
      + (Le(r.bidCount, 2) + (Le(r.askCount, 2) + (PutLevels(r.bids) + PutLevels(r.asks)))))))
  }

  function GetRecord(s: seq<byte>): (r: DepthRecord)
    requires |s| == PAYLOAD_SIZE
    ensures ValidRecord(r)
  {
    DepthRecord(Get64(s[0..8]), Get64(s[8..16]), Get64(s[16..24]), s[24..56],
                Get16(s[56..58]), Get16(s[58..60]), GetLevels(s[60..1084]), GetLevels(s[1084..2108]))
  }

  /** Which bytes of a record hold which field. */
  lemma {:induction false} RecordFields(r: DepthRecord)
    requires ValidRecord(r)
    ensures var s := PutRecord(r);
      && |s| == PAYLOAD_SIZE
      && s[0..8] == Le(r.eventTimeMs, 8) && s[8..16] == Le(r.firstId, 8) && s[16..24] == Le(r.lastId, 8)
      && s[24..56] == r.symbol && s[56..58] == Le(r.bidCount, 2) && s[58..60] == Le(r.askCount, 2)
      && s[60..1084] == PutLevels(r.bids) && s[1084..2108] == PutLevels(r.asks)
  {
    var bids, asks := PutLevels(r.bids), PutLevels(r.asks);
    var e := bids + asks;
    var d := Le(r.askCount, 2) + e;
    var c := Le(r.bidCount, 2) + d;
    var b := r.symbol + c;
    var a3 := Le(r.lastId, 8) + b;
    var a2 := Le(r.firstId, 8) + a3;
    var s := Le(r.eventTimeMs, 8) + a2;
    assert s == PutRecord(r);
    assert s[16..] == a3;
    assert s[24..] == b by { assert s[24..] == a3[8..]; }
    assert s[24..56] == r.symbol by { assert s[24..56] == b[..32]; }
    assert s[56..] == c by { assert s[56..] == b[32..]; }
    assert s[56..58] == Le(r.bidCount, 2) by { assert s[56..58] == c[..2]; }
    assert s[58..] == d by { assert s[58..] == c[2..]; }
    assert s[58..60] == Le(r.askCount, 2) by { assert s[58..60] == d[..2]; }
    assert s[60..] == e by { assert s[60..] == d[2..]; }
    assert s[60..1084] == bids by { assert s[60..1084] == e[..1024]; }
    assert s[1084..2108] == asks by { assert s[1084..2108] == e[1024..]; }
  }

  lemma {:induction false} RecordRoundTrip(r: DepthRecord)
    requires ValidRecord(r)
    ensures GetRecord(PutRecord(r)) == r
  {
    hide PutRecord, Le;
    RecordFields(r);
    Le64(r.eventTimeMs); Le64(r.firstId); Le64(r.lastId); Le16(r.bidCount); Le16(r.askCount);
    LevelsRoundTrip(r.bids);
    LevelsRoundTrip(r.asks);
  }

  function PutFileHeader(h: FileHeader): (s: seq<byte>)
    ensures |s| == FILE_HEADER_SIZE
  {
    Le(h.magic, 4) + Le(h.version, 4) + Le(h.createdUs, 8) + Le(h.recordCount, 4) + Le(h.reserved, 4)
  }

  function GetFileHeader(s: seq<byte>): FileHeader
    requires |s| == FILE_HEADER_SIZE
  {
    FileHeader(Get32(s[0..4]), Get32(s[4..8]), Get64(s[8..16]), Get32(s[16..20]), Get32(s[20..24]))
  }

  lemma {:induction false} FileHeaderRoundTrip(h: FileHeader)
    ensures GetFileHeader(PutFileHeader(h)) == h
  {
    var s := PutFileHeader(h);
    assert s[0..4] == Le(h.magic, 4) && s[4..8] == Le(h.version, 4) && s[8..16] == Le(h.createdUs, 8)
      && s[16..20] == Le(h.recordCount, 4) && s[20..24] == Le(h.reserved, 4);
    Le32(h.magic); Le32(h.version); Le64(h.createdUs); Le32(h.recordCount); Le32(h.reserved);
  }

  function PutRecordHeader(h: RecordHeader): (s: seq<byte>)
    ensures |s| == RECORD_HEADER_SIZE
  {
    Le(h.wallUs, 8) + Le(h.payloadSize, 4)
  }

  function GetRecordHeader(s: seq<byte>): RecordHeader
    requires |s| == RECORD_HEADER_SIZE
  {
    RecordHeader(Get64(s[0..8]), Get32(s[8..12]))
  }

  lemma {:induction false} RecordHeaderRoundTrip(h: RecordHeader)
    ensures GetRecordHeader(PutRecordHeader(h)) == h
  {
    var s := PutRecordHeader(h);
    assert s[0..8] == Le(h.wallUs, 8) && s[8..12] == Le(h.payloadSize, 4);
    Le64(h.wallUs); Le32(h.payloadSize);
  }

  // ---------------------------------------------------------------- files

  function PutEntry(e: Entry): (s: seq<byte>)
    ensures ValidRecord(e.record) ==> |s| == RECORD_SIZE
  {
    PutRecordHeader(RecordHeader(e.wallUs, PAYLOAD_SIZE)) + PutRecord(e.record)
  }

  ghost predicate ValidEntries(es: seq<Entry>) {
    forall i {:trigger es[i]} :: 0 <= i < |es| ==> ValidRecord(es[i].record)
  }

  function PutEntries(es: seq<Entry>): seq<byte> {
    if es == [] then [] else PutEntry(es[0]) + PutEntries(es[1..])
  }

  /** The bytes of a recording: its header, with the given record count, and its records. */
  function FileImage(createdUs: u64, count: u32, es: seq<Entry>): seq<byte> {
    PutFileHeader(FileHeader(FILE_MAGIC, FILE_VERSION, createdUs, count, 0)) + PutEntries(es)
  }

  /** Outcome of one `read_next` and the file position it leaves behind. `fread` of one struct
      delivers it whole or, at a short end of file, consumes what is left and fails. */
  datatype ReadResult = Got(entry: Entry, next: nat) | Stop(next: nat)

  function ReadNext(bytes: seq<byte>, pos: nat): (r: ReadResult)
    requires pos <= |bytes|
    ensures pos <= r.next <= |bytes|
    ensures r.Got? ==> r.next == pos + RECORD_SIZE && ValidRecord(r.entry.record)
  {
    if |bytes| - pos < RECORD_HEADER_SIZE then Stop(|bytes|)
    else
      var body := pos + RECORD_HEADER_SIZE;
      var h := GetRecordHeader(bytes[pos..body]);
      if h.payloadSize != PAYLOAD_SIZE then Stop(body)
      else if |bytes| - body < PAYLOAD_SIZE then Stop(|bytes|)
      else Got(Entry(h.wallUs, GetRecord(bytes[body..body + PAYLOAD_SIZE])), body + PAYLOAD_SIZE)
  }

  /** Everything `read_next` delivers from a position until it first returns false. */
  function ReadAll(bytes: seq<byte>, pos: nat): seq<Entry>
    requires pos <= |bytes|
    decreases |bytes| - pos
  {
    match ReadNext(bytes, pos)
    case Stop(_) => []
    case Got(e, next) => [e] + ReadAll(bytes, next)
  }

  lemma {:induction false} TakeSplit<T>(s: seq<T>, n: nat)
    requires 0 < n <= |s|
    ensures s[..n] == [s[0]] + s[1..][..n - 1]
  {
  }

  lemma {:induction false} ValidTail(es: seq<Entry>)
    requires es != [] && ValidEntries(es)
    ensures ValidRecord(es[0].record) && ValidEntries(es[1..])
  {
    assert forall i {:trigger es[1..][i]} :: 0 <= i < |es| - 1 ==> es[1..][i] == es[i + 1];
  }

  lemma {:induction false} EntriesLength(es: seq<Entry>)
    requires ValidEntries(es)
    ensures |PutEntries(es)| == RECORD_SIZE * |es|
  {
    if es != [] {
      ValidTail(es);
      EntriesLength(es[1..]);
    }
  }

  lemma {:induction false} ReadOneEntry(bytes: seq<byte>, pos: nat, e: Entry)
    requires ValidRecord(e.record) && pos + RECORD_SIZE <= |bytes|
    requires bytes[pos..pos + RECORD_SIZE] == PutEntry(e)
    ensures ReadNext(bytes, pos) == Got(e, pos + RECORD_SIZE)
  {
    var h := RecordHeader(e.wallUs, PAYLOAD_SIZE);
    var s := PutEntry(e);
    assert s[..RECORD_HEADER_SIZE] == PutRecordHeader(h);
    assert s[RECORD_HEADER_SIZE..] == PutRecord(e.record);
    var body := pos + RECORD_HEADER_SIZE;
    assert bytes[pos..body] == s[..RECORD_HEADER_SIZE];
    assert bytes[body..body + PAYLOAD_SIZE] == s[RECORD_HEADER_SIZE..];
    RecordHeaderRoundTrip(h);
    RecordRoundTrip(e.record);
  }

  /** A record cut anywhere before its end is not delivered and leaves the reader at the end. */
  lemma {:induction false} ReadCutEntry(bytes: seq<byte>, pos: nat, e: Entry)
    requires ValidRecord(e.record) && pos <= |bytes| < pos + RECORD_SIZE
    requires bytes[pos..] <= PutEntry(e)
    ensures ReadNext(bytes, pos) == Stop(|bytes|)
  {
    var h := RecordHeader(e.wallUs, PAYLOAD_SIZE);
    RecordHeaderRoundTrip(h);
    if |bytes| - pos >= RECORD_HEADER_SIZE {
      var body := pos + RECORD_HEADER_SIZE;
      assert bytes[pos..body] == bytes[pos..][..RECORD_HEADER_SIZE] == PutEntry(e)[..RECORD_HEADER_SIZE];
      assert PutEntry(e)[..RECORD_HEADER_SIZE] == PutRecordHeader(h);
    }
  }

  /** A sequence that continues with (part of) a and then b, cut at the seam or before it. */
  lemma {:induction false} Seam<T>(s: seq<T>, pos: nat, a: seq<T>, b: seq<T>)
    requires pos <= |s| && s[pos..] <= a + b
    ensures pos + |a| <= |s| ==> s[pos..pos + |a|] == a && s[pos + |a|..] <= b
    ensures |s| < pos + |a| ==> s[pos..] <= a
  {
    var rest := s[pos..];
    assert rest == (a + b)[..|rest|];
    if pos + |a| <= |s| {
      assert s[pos..pos + |a|] == rest[..|a|] == a;
      assert s[pos + |a|..] == rest[|a|..] == b[..|rest| - |a|];
    } else {
      assert rest == a[..|rest|];
    }
  }

  /** The first read of a recording that may have been cut. */
  lemma {:induction false} ReadFirst(bytes: seq<byte>, pos: nat, e: Entry, more: seq<byte>)
    requires ValidRecord(e.record) && pos <= |bytes| && bytes[pos..] <= PutEntry(e) + more
    ensures |bytes| < pos + RECORD_SIZE ==> ReadNext(bytes, pos) == Stop(|bytes|)
    ensures |bytes| >= pos + RECORD_SIZE ==>
      ReadNext(bytes, pos) == Got(e, pos + RECORD_SIZE) && bytes[pos + RECORD_SIZE..] <= more
  {
    Seam(bytes, pos, PutEntry(e), more);
    if |bytes| < pos + RECORD_SIZE {
      ReadCutEntry(bytes, pos, e);
    } else {
      ReadOneEntry(bytes, pos, e);
    }
  }

  /** Where the n-th record after a position starts. */
  function Offset(pos: nat, n: nat): nat
    decreases n
  {
    if n == 0 then pos else Offset(pos + RECORD_SIZE, n - 1)
  }

  lemma {:induction false} OffsetIs(pos: nat, n: nat)
    ensures Offset(pos, n) == pos + RECORD_SIZE * n
    decreases n
  {
    if n > 0 { OffsetIs(pos + RECORD_SIZE, n - 1); }
  }

  lemma {:induction false} ReadCutEntries(bytes: seq<byte>, pos: nat, es: seq<Entry>, n: nat)
    requires ValidEntries(es) && pos <= Offset(pos, n) <= |bytes| < Offset(pos, n) + RECORD_SIZE
    requires bytes[pos..] <= PutEntries(es)
    ensures n <= |es| && ReadAll(bytes, pos) == es[..n]
    ensures ReadNext(bytes, Offset(pos, n)) == Stop(|bytes|)
    decreases |es|
  {
    hide ReadNext, PutEntry, ValidEntries, ValidRecord;
    OffsetIs(pos, n);
    if es == [] {
      assert n == 0 by { assert |bytes[pos..]| == 0; }
    } else {
      var e, more := es[0], es[1..];
      ValidTail(es);
      ReadFirst(bytes, pos, e, PutEntries(more));
      if n > 0 {
        var next := pos + RECORD_SIZE;
        OffsetIs(next, n - 1);
        ReadCutEntries(bytes, next, more, n - 1);
        TakeSplit(es, n);
      }
    }
  }

  lemma {:induction false} PrefixOfConcat(s: seq<byte>, a: seq<byte>, b: seq<byte>)
    requires s <= a + b && |a| <= |s|
    ensures s[..|a|] == a && s[|a|..] <= b
  {
    assert s[|a|..] == b[..|s| - |a|];
  }

  /** How many whole records fit into a file of this length. */
  function Whole(length: nat): nat
    requires length >= FILE_HEADER_SIZE
  {
    (length - FILE_HEADER_SIZE) / RECORD_SIZE
  }

  lemma {:induction false} WholeFits(length: nat)
    requires FILE_HEADER_SIZE <= length
    ensures var next := Offset(FILE_HEADER_SIZE, Whole(length));
      next == FILE_HEADER_SIZE + RECORD_SIZE * Whole(length) && FILE_HEADER_SIZE <= next <= length < next + RECORD_SIZE
  {
    OffsetIs(FILE_HEADER_SIZE, Whole(length));
  }

  /** Main theorem. Let bytes be a recording cut at any length that still holds its header:
      reading delivers exactly the records that fit completely, and from there on every further
      read fails at the end of the file. The record count in the header plays no part. */
  lemma {:induction false} TruncatedReadBack(bytes: seq<byte>, createdUs: u64, count: u32, es: seq<Entry>)
    requires ValidEntries(es) && FILE_HEADER_SIZE <= |bytes| && bytes <= FileImage(createdUs, count, es)
    ensures Whole(|bytes|) <= |es| && ReadAll(bytes, FILE_HEADER_SIZE) == es[..Whole(|bytes|)]
    ensures Offset(FILE_HEADER_SIZE, Whole(|bytes|)) == FILE_HEADER_SIZE + RECORD_SIZE * Whole(|bytes|) <= |bytes|
    ensures ReadNext(bytes, Offset(FILE_HEADER_SIZE, Whole(|bytes|))) == Stop(|bytes|)
  {
    PrefixOfConcat(bytes, PutFileHeader(FileHeader(FILE_MAGIC, FILE_VERSION, createdUs, count, 0)), PutEntries(es));
    WholeFits(|bytes|);
    ReadCutEntries(bytes, FILE_HEADER_SIZE, es, Whole(|bytes|));
  }

  /** Its header reads back whole, and a read at the end of the file fails again and again. */
  lemma {:induction false} TruncatedHeader(bytes: seq<byte>, createdUs: u64, count: u32, es: seq<Entry>)
    requires FILE_HEADER_SIZE <= |bytes| && bytes <= FileImage(createdUs, count, es)
    ensures GetFileHeader(bytes[..FILE_HEADER_SIZE]) == FileHeader(FILE_MAGIC, FILE_VERSION, createdUs, count, 0)
    ensures ReadNext(bytes, |bytes|) == Stop(|bytes|)
  {
    var h := FileHeader(FILE_MAGIC, FILE_VERSION, createdUs, count, 0);
    PrefixOfConcat(bytes, PutFileHeader(h), PutEntries(es));
    FileHeaderRoundTrip(h);
  }

  /** An uncut recording reads back exactly what was written. */
  lemma {:induction false} WholeReadBack(createdUs: u64, count: u32, es: seq<Entry>)
    requires ValidEntries(es)
    ensures |FileImage(createdUs, count, es)| == FILE_HEADER_SIZE + RECORD_SIZE * |es|
    ensures ReadAll(FileImage(createdUs, count, es), FILE_HEADER_SIZE) == es
  {
    EntriesLength(es);
    var image := FileImage(createdUs, count, es);
    assert image[FILE_HEADER_SIZE..] == PutEntries(es);
    OffsetIs(FILE_HEADER_SIZE, |es|);
    ReadCutEntries(image, FILE_HEADER_SIZE, es, |es|);
    assert es[..|es|] == es;
  }
}
