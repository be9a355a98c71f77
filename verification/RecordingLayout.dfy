/** The recording format as a table of offsets (src/output/disk_logger.h): where each field of a depth
    message stands in the file, byte by byte. */
module RecordingLayout {
  import Masks
  import opened Words
  import opened Recording
  import opened Arrivals

  function ByteAt(s: seq<byte>, at: nat, k: nat): byte
    requires at + k < |s|
  {
    s[at + k]
  }

  /** From offset `at` on there are `width` bytes of n, least significant first. */
  ghost predicate HasInt(s: seq<byte>, at: nat, width: nat, n: nat) {
    at + width <= |s| && forall k: nat {:trigger ByteAt(s, at, k)} :: k < width ==> ByteAt(s, at, k) == (n / Span(k)) % 256
  }

  /** Pairs of price and quantity, eight bytes each. */
  ghost predicate HasLevels(s: seq<byte>, at: nat, ls: seq<Level>) {
    forall i {:trigger ls[i]} :: 0 <= i < |ls| ==> HasInt(s, at + 16 * i, 8, ls[i].price) && HasInt(s, at + 16 * i + 8, 8, ls[i].qty)
  }

  /** The symbol field: at most 31 bytes of the symbol, then zeros. */
  ghost predicate HasSymbol(s: seq<byte>, at: nat, symbol: seq<byte>) {
    at + 32 <= |s|
    && forall k: nat {:trigger ByteAt(s, at, k)} :: k < 32 ==> ByteAt(s, at, k) == if k < |symbol| && k < 31 then symbol[k] else 0
  }

  ghost predicate IsRecordOf(s: seq<byte>, u: DepthUpdate) {
    && |s| == 2108
    && HasInt(s, 0, 8, u.eventTimeMs) && HasInt(s, 8, 8, u.firstId) && HasInt(s, 16, 8, u.lastId)
    && HasSymbol(s, 24, u.symbol)
    && HasInt(s, 56, 2, u.bidCount) && HasInt(s, 58, 2, u.askCount)
    && |u.bids| == 64 && HasLevels(s, 60, u.bids) && |u.asks| == 64 && HasLevels(s, 1084, u.asks)
  }

  ghost predicate IsEntryOf(s: seq<byte>, wallUs: u64, u: DepthUpdate) {
    |s| == 2120 && HasInt(s, 0, 8, wallUs) && HasInt(s, 8, 4, 2108) && IsRecordOf(s[12..], u)
  }

  ghost predicate IsHeaderOf(s: seq<byte>, createdUs: u64, count: u32) {
    && |s| == 24 && s[..4] == [0x31, 0x45, 0x44, 0x4D] && HasInt(s, 4, 4, 1)
    && HasInt(s, 8, 8, createdUs) && HasInt(s, 16, 4, count) && HasInt(s, 20, 4, 0)
  }

  // ---------------------------------------------------------------- proofs

  lemma DivTwice(n: nat, a: nat, b: nat)
    requires a > 0 && b > 0
    ensures n / (a * b) == (n / a) / b
  {
    var q, r := (n / a) / b, (n / a) % b;
    Distribute(a, b * q, r);
    Associate(a, b, q);
    Masks.Multiple(a, b - r);
    Distribute(a, b - r, r);
    Masks.ModUnique(n, a * b, q, a * r + n % a);
  }

  lemma Distribute(a: int, b: int, c: int)
    ensures a * (b + c) == a * b + a * c
  {
  }

  lemma Associate(a: int, b: int, c: int)
    ensures a * (b * c) == (a * b) * c
  {
  }

  lemma {:induction false} LeBytes(n: nat, width: nat, k: nat)
    requires k < width
    ensures Le(n, width)[k] == (n / Span(k)) % 256
    decreases width
  {
    if k > 0 {
      LeBytes(n / 256, width - 1, k - 1);
      DivTwice(n, 256, Span(k - 1));
    }
  }

  lemma {:induction false} IntAt(s: seq<byte>, at: nat, width: nat, n: nat)
    requires at + width <= |s| && s[at..at + width] == Le(n, width)
    ensures HasInt(s, at, width, n)
  {
    forall k: nat | k < width ensures ByteAt(s, at, k) == (n / Span(k)) % 256 {
      LeBytes(n, width, k);
      assert s[at + k] == s[at..at + width][k];
    }
  }

  lemma {:induction false} LevelAt(ls: seq<Level>, i: nat)
    requires i < |ls|
    ensures |PutLevels(ls)| == 16 * |ls|
    ensures PutLevels(ls)[16 * i..16 * i + 8] == Le(ls[i].price, 8) && PutLevels(ls)[16 * i + 8..16 * i + 16] == Le(ls[i].qty, 8)
    decreases i
  {
    hide Le;
    var a, b, rest := Le(ls[0].price, 8), Le(ls[0].qty, 8), PutLevels(ls[1..]);
    var s := a + (b + rest);
    assert s[..8] == a && s[8..16] == b && s[16..] == rest;
    if i > 0 {
      LevelAt(ls[1..], i - 1);
      assert s[16 * i..16 * i + 8] == rest[16 * (i - 1)..16 * (i - 1) + 8];
      assert s[16 * i + 8..16 * i + 16] == rest[16 * (i - 1) + 8..16 * (i - 1) + 16];
    }
  }

  lemma {:induction false} LevelsAt(s: seq<byte>, at: nat, ls: seq<Level>)
    requires at + 16 * |ls| <= |s| && s[at..at + 16 * |ls|] == PutLevels(ls)
    ensures HasLevels(s, at, ls)
  {
    hide HasInt, PutLevels, Le;
    var p := PutLevels(ls);
    forall i | 0 <= i < |ls| ensures HasInt(s, at + 16 * i, 8, ls[i].price) && HasInt(s, at + 16 * i + 8, 8, ls[i].qty) {
      LevelAt(ls, i);
      Within(s, at, p, 16 * i, 8);
      Within(s, at, p, 16 * i + 8, 8);
      IntAt(s, at + 16 * i, 8, ls[i].price);
      IntAt(s, at + 16 * i + 8, 8, ls[i].qty);
    }
  }

  lemma Within(s: seq<byte>, at: nat, p: seq<byte>, j: nat, w: nat)
    requires at + |p| <= |s| && s[at..at + |p|] == p && j + w <= |p|
    ensures s[at + j..at + j + w] == p[j..j + w]
  {
    var x, y := s[at + j..at + j + w], p[j..j + w];
    forall k | 0 <= k < w ensures x[k] == y[k] {
      assert p[j + k] == s[at..at + |p|][j + k] == s[at + (j + k)];
    }
  }

  lemma {:induction false} SymbolAt(s: seq<byte>, u: DepthUpdate)
    requires 56 <= |s| && s[24..56] == ToRecord(u).symbol
    ensures HasSymbol(s, 24, u.symbol)
  {
    var f, len := ToRecord(u).symbol, if |u.symbol| < 32 then |u.symbol| else 31;
    assert f == u.symbol[..len] + Zeros(32 - len);
    forall k: nat | k < 32 ensures ByteAt(s, 24, k) == if k < |u.symbol| && k < 31 then u.symbol[k] else 0 {
      assert s[24 + k] == s[24..56][k] == f[k];
    }
  }

  /** A depth message in the file. */
  lemma {:induction false} RecordLayout(u: DepthUpdate)
    requires ValidUpdate(u)
    ensures IsRecordOf(PutRecord(ToRecord(u)), u)
  {
    hide HasInt, HasLevels, HasSymbol, Le, PutLevels, ToRecord;
    var r := ToRecord(u);
    SameFields(u);
    RecordFields(r);
    var s := PutRecord(r);
    IntAt(s, 0, 8, u.eventTimeMs);
    IntAt(s, 8, 8, u.firstId);
    IntAt(s, 16, 8, u.lastId);
    SymbolAt(s, u);
    IntAt(s, 56, 2, u.bidCount);
    IntAt(s, 58, 2, u.askCount);
    LevelsAt(s, 60, u.bids);
    LevelsAt(s, 1084, u.asks);
  }

  lemma SameFields(u: DepthUpdate)
    requires ValidUpdate(u)
    ensures var r := ToRecord(u);
      && ValidRecord(r) && r.eventTimeMs == u.eventTimeMs && r.firstId == u.firstId && r.lastId == u.lastId
      && r.bidCount == u.bidCount && r.askCount == u.askCount && r.bids == u.bids && r.asks == u.asks
  {
  }

  lemma {:induction false} EntryLayout(wallUs: u64, u: DepthUpdate)
    requires ValidUpdate(u)
    ensures IsEntryOf(PutEntry(Entry(wallUs, ToRecord(u))), wallUs, u)
  {
    hide HasInt, IsRecordOf, PutRecord, ToRecord;
    SameFields(u);
    RecordLayout(u);
    var h, s := RecordHeader(wallUs, PAYLOAD_SIZE), PutEntry(Entry(wallUs, ToRecord(u)));
    assert s[12..] == PutRecord(ToRecord(u));
    assert s[0..8] == PutRecordHeader(h)[0..8] == Le(wallUs, 8);
    assert s[8..12] == PutRecordHeader(h)[8..12] == Le(PAYLOAD_SIZE, 4);
    IntAt(s, 0, 8, wallUs);
    IntAt(s, 8, 4, PAYLOAD_SIZE);
  }

  lemma {:induction false} HeaderLayout(createdUs: u64, count: u32)
    ensures IsHeaderOf(PutFileHeader(FileHeader(FILE_MAGIC, FILE_VERSION, createdUs, count, 0)), createdUs, count)
  {
    hide HasInt;
    var s := PutFileHeader(FileHeader(FILE_MAGIC, FILE_VERSION, createdUs, count, 0));
    assert s[0..4] == Le(FILE_MAGIC, 4) && s[4..8] == Le(FILE_VERSION, 4) && s[8..16] == Le(createdUs, 8)
      && s[16..20] == Le(count, 4) && s[20..24] == Le(0, 4);
    MagicBytes();
    IntAt(s, 4, 4, FILE_VERSION);
    IntAt(s, 8, 8, createdUs);
    IntAt(s, 16, 4, count);
    IntAt(s, 20, 4, 0);
  }

  lemma MagicBytes()
    ensures Le(FILE_MAGIC, 4) == [0x31, 0x45, 0x44, 0x4D]
  {
    assert Le(0x4D, 1) == [0x4D] + Le(0, 0);
    assert Le(0x4D44, 2) == [0x44] + Le(0x4D, 1);
    assert Le(0x4D4445, 3) == [0x45] + Le(0x4D44, 2);
  }

  // ---------------------------------------------------------------- whole recordings

  /** The depth messages of a run. */
  function DepthArrivals(arrivals: seq<Arrival>): (ds: seq<Arrival>)
    ensures forall i {:trigger ds[i]} :: 0 <= i < |ds| ==> ds[i].message.ParsedDepth? && ds[i] in arrivals
  {
    if arrivals == [] then []
    else
      var a := arrivals[|arrivals| - 1];
      DepthArrivals(arrivals[..|arrivals| - 1]) + (if a.message.ParsedDepth? then [a] else [])
  }

  lemma {:induction false} RecordedInOrder(arrivals: seq<Arrival>)
    ensures var ds, es := DepthArrivals(arrivals), Recorded(arrivals);
      |es| == |ds| && forall i {:trigger es[i]} :: 0 <= i < |es| ==> es[i] == Entry(ds[i].wallUs, ToRecord(ds[i].message.update))
  {
    hide ToRecord;
    if arrivals != [] { RecordedInOrder(arrivals[..|arrivals| - 1]); }
  }

  lemma {:induction false} EntryAt(es: seq<Entry>, i: nat)
    requires ValidEntries(es) && i < |es|
    ensures |PutEntries(es)| == 2120 * |es| && PutEntries(es)[2120 * i..2120 * i + 2120] == PutEntry(es[i])
    decreases i
  {
    hide PutEntry;
    EntriesLength(es);
    ValidTail(es);
    EntryLength(es[0]);
    var rest := PutEntries(es[1..]);
    if i > 0 {
      EntryAt(es[1..], i - 1);
      assert PutEntries(es)[2120 * i..2120 * i + 2120] == rest[2120 * (i - 1)..2120 * (i - 1) + 2120];
    }
  }

  lemma EntryLength(e: Entry)
    requires ValidRecord(e.record)
    ensures |PutEntry(e)| == 2120
  {
  }

  /** Main theorem. The file a recorder leaves behind after a run: 24 bytes of header, and from byte
      24 + 2120 * i on the i-th depth message of the run with the time it was recorded at. */
  lemma {:induction false} RecordingBytes(live: seq<Arrival>, createdUs: u64)
    requires SoundArrivals(live)
    ensures var s, ds := RecordingOf(live, createdUs), DepthArrivals(live);
      && |s| == 24 + 2120 * |ds| && IsHeaderOf(s[..24], createdUs, |ds| % 0x1_0000_0000)
      && forall i {:trigger ds[i]} :: 0 <= i < |ds| ==>
           IsEntryOf(s[24 + 2120 * i..24 + 2120 * i + 2120], ds[i].wallUs, ds[i].message.update)
  {
    hide IsEntryOf, IsHeaderOf, PutEntry, ToRecord, Recorded, DepthArrivals, PutEntries, PutFileHeader, ValidEntries;
    var es, ds := Recorded(live), DepthArrivals(live);
    RecordedInOrder(live);
    AllValid(live);
    EntriesLength(es);
    HeaderLayout(createdUs, |es| % U32_SPAN);
    var head, body, s := PutFileHeader(FileHeader(FILE_MAGIC, FILE_VERSION, createdUs, |es| % U32_SPAN, 0)), PutEntries(es), RecordingOf(live, createdUs);
    assert s[..24] == head;
    forall i | 0 <= i < |ds| ensures IsEntryOf(s[24 + 2120 * i..24 + 2120 * i + 2120], ds[i].wallUs, ds[i].message.update) {
      EntryAt(es, i);
      assert s[24 + 2120 * i..24 + 2120 * i + 2120] == body[2120 * i..2120 * i + 2120];
      EntryLayout(ds[i].wallUs, ds[i].message.update);
    }
  }

  lemma {:induction false} AllValid(live: seq<Arrival>)
    requires SoundArrivals(live)
    ensures ValidEntries(Recorded(live))
    ensures forall i {:trigger DepthArrivals(live)[i]} :: 0 <= i < |DepthArrivals(live)| ==> ValidUpdate(DepthArrivals(live)[i].message.update)
  {
    hide ToRecord;
    RecordedInOrder(live);
    forall i | 0 <= i < |DepthArrivals(live)|
      ensures ValidUpdate(DepthArrivals(live)[i].message.update) && ValidRecord(Recorded(live)[i].record)
    {
      SameFields(DepthArrivals(live)[i].message.update);
    }
  }

  // ---------------------------------------------------------------- reading

  lemma LeCons(b: byte, n: nat, k: nat)
    ensures Le(b + 256 * n, k + 1) == [b] + Le(n, k)
  {
    Masks.ModUnique(b + 256 * n, 256, n, b);
  }

  lemma {:induction false} FromLeIsInverse(s: seq<byte>)
    ensures Le(FromLe(s), |s|) == s
  {
    hide Le;
    if s == [] {
      NoBytes();
    } else {
      FromLeIsInverse(s[1..]);
      LeCons(s[0], FromLe(s[1..]), |s| - 1);
    }
  }

  lemma NoBytes()
    ensures Le(0, 0) == []
  {
  }

  lemma {:induction false} SameBytes(s: seq<byte>, t: seq<byte>, width: nat, n: nat)
    requires |s| == |t| == width && HasInt(s, 0, width, n) && HasInt(t, 0, width, n)
    ensures s == t
  {
    forall k | 0 <= k < width ensures s[k] == t[k] {
      assert ByteAt(s, 0, k) == ByteAt(t, 0, k);
    }
  }

  lemma {:induction false} FieldIs(s: seq<byte>, width: nat, n: nat)
    requires |s| == width && n < Span(width)
    ensures FromLe(s) == n <==> HasInt(s, 0, width, n)
  {
    FromLeIsInverse(s);
    assert s[0..0 + width] == s;
    if FromLe(s) == n { IntAt(s, 0, width, n); }
    if HasInt(s, 0, width, n) {
      var t := Le(n, width);
      assert t[0..0 + width] == t;
      IntAt(t, 0, width, n);
      SameBytes(s, t, width, n);
      LeRoundTrip(n, width);
    }
  }

  lemma {:induction false} FieldAt(s: seq<byte>, at: nat, width: nat, n: nat)
    requires at + width <= |s|
    ensures HasInt(s, at, width, n) <==> HasInt(s[at..at + width], 0, width, n)
  {
    var t := s[at..at + width];
    forall k: nat | k < width ensures ByteAt(t, 0, k) == ByteAt(s, at, k) {
    }
  }

  /** A read delivers a record exactly if a whole one is left and its size field says 2108; otherwise it
      ends at the end of the file, or behind a header with another size. */
  lemma {:induction false} ReadNextIff(bytes: seq<byte>, pos: nat)
    requires pos <= |bytes|
    ensures var sized := pos + 12 <= |bytes| && HasInt(bytes, pos + 8, 4, 2108);
      if sized && pos + 2120 <= |bytes| then ReadNext(bytes, pos).Got? && ReadNext(bytes, pos).next == pos + 2120
      else ReadNext(bytes, pos) == Stop(if pos + 12 <= |bytes| && !sized then pos + 12 else |bytes|)
  {
    hide HasInt, GetRecord, FromLe;
    if pos + 12 <= |bytes| {
      var h := bytes[pos..pos + 12];
      assert h[8..12] == bytes[pos + 8..pos + 8 + 4];
      FieldAt(bytes, pos + 8, 4, 2108);
      Spans();
      FieldIs(h[8..12], 4, 2108);
    }
  }

  /** The header a reader accepts starts with the four magic bytes and version 1. */
  lemma {:induction false} AcceptedIff(s: seq<byte>)
    requires |s| == 24
    ensures GetFileHeader(s).magic == FILE_MAGIC && GetFileHeader(s).version == FILE_VERSION
            <==> s[..4] == [0x31, 0x45, 0x44, 0x4D] && HasInt(s, 4, 4, 1)
  {
    hide HasInt;
    MagicBytes();
    Spans();
    FromLeIsInverse(s[0..4]);
    LeRoundTrip(FILE_MAGIC, 4);
    assert s[..4] == s[0..4] && s[4..8] == s[4..4 + 4];
    FieldAt(s, 4, 4, 1);
    FieldIs(s[4..8], 4, 1);
  }
}
