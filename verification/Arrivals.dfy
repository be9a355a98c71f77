/** Messages as they come out of the queue, and what the engine and the recorder make of them
    (src/core/types.h, src/engine/processing_thread.cpp). */
module Arrivals {
  import opened Words
  import opened Recording
  import OrderBooks
  import Levels
  import TradeAggregators
  import opened Engine

  /** A queue message as parsed: doubles are bit patterns. */
  datatype Parsed = ParsedDepth(update: Recording.DepthUpdate) | ParsedTrade(trade: TradeAggregators.Trade)

  /** A parsed message, the recorder's wall clock and the detector's readings. */
  datatype Arrival = Arrival(message: Parsed, wallUs: u64, clock: seq<u64>)

  /** The real number a 64-bit pattern denotes; which one it is does not matter here. */
  type Decoding = u64 -> real

  /** What the parser guarantees: full level arrays and counts within them. */
  predicate Sound(u: Recording.DepthUpdate) {
    ValidUpdate(u) && u.bidCount <= MAX_LEVELS && u.askCount <= MAX_LEVELS
  }

  function DecodeLevels(val: Decoding, ls: seq<Recording.Level>): (r: seq<Levels.Level>)
    ensures |r| == |ls|
  {
    seq(|ls|, i requires 0 <= i < |ls| => Levels.Level(val(ls[i].price), val(ls[i].qty)))
  }

  function DecodeUpdate(val: Decoding, u: Recording.DepthUpdate): OrderBooks.Update
    requires Sound(u)
  {
    OrderBooks.Update(u.symbol, u.eventTimeMs, u.firstId, u.lastId,
                      DecodeLevels(val, u.bids[..u.bidCount]), DecodeLevels(val, u.asks[..u.askCount]))
  }

  ghost predicate SoundParsed(ps: seq<Parsed>) {
    forall i {:trigger ps[i]} :: 0 <= i < |ps| && ps[i].ParsedDepth? ==> Sound(ps[i].update)
  }

  /** What the engine makes of a queue message. */
  function MessageOf(val: Decoding, p: Parsed): Message
    requires p.ParsedDepth? ==> Sound(p.update)
  {
    match p case ParsedDepth(u) => Depth(DecodeUpdate(val, u)) case ParsedTrade(t) => TradeMessage(t)
  }

  function MessagesOf(val: Decoding, ps: seq<Parsed>): (ms: seq<Message>)
    requires SoundParsed(ps)
    ensures |ms| == |ps|
  {
    seq(|ps|, i requires 0 <= i < |ps| => MessageOf(val, ps[i]))
  }

  ghost predicate SoundArrivals(arrivals: seq<Arrival>) {
    forall i {:trigger arrivals[i]} :: 0 <= i < |arrivals| && arrivals[i].message.ParsedDepth? ==> Sound(arrivals[i].message.update)
  }

  function EventOf(val: Decoding, a: Arrival): Event
    requires a.message.ParsedDepth? ==> Sound(a.message.update)
  {
    Event(MessageOf(val, a.message), a.clock)
  }

  function Events(val: Decoding, arrivals: seq<Arrival>): (evs: seq<Event>)
    requires SoundArrivals(arrivals)
    ensures |evs| == |arrivals|
  {
    seq(|arrivals|, i requires 0 <= i < |arrivals| => EventOf(val, arrivals[i]))
  }

  /** What `process_depth` writes during a run: one record per depth message, trades never. */
  function Recorded(arrivals: seq<Arrival>): seq<Entry> {
    if arrivals == [] then []
    else
      var a := arrivals[|arrivals| - 1];
      Recorded(arrivals[..|arrivals| - 1]) +
      (match a.message case ParsedDepth(u) => [Entry(a.wallUs, ToRecord(u))] case ParsedTrade(_) => [])
  }

  /** The bytes a recorder leaves behind when it is closed after a live run. */
  function RecordingOf(live: seq<Arrival>, createdUs: u64): seq<byte> {
    FileImage(createdUs, |Recorded(live)| % U32_SPAN, Recorded(live))
  }

  /** The updates `ReplayEngine::run` builds from the records it reads. */
  function Replayed(entries: seq<Entry>): (us: seq<Recording.DepthUpdate>)
    ensures |us| == |entries|
  {
    seq(|entries|, i requires 0 <= i < |entries| => FromRecord(entries[i].record))
  }

  lemma RecordedOne(a: Arrival)
    ensures Recorded([a]) ==
      match a.message case ParsedDepth(u) => [Entry(a.wallUs, ToRecord(u))] case ParsedTrade(_) => []
  {
    assert [a][..0] == [];
  }
}
