/** What parsed messages do to a book, in terms of the messages as they come out of the queue. */
module ParsedMeaning {
  import opened Words
  import Recording
  import Levels
  import opened OrderBooks
  import opened BookMeaning
  import TradeAggregators
  import Signals
  import opened Engine
  import opened Arrivals
  import opened Sharding
  import opened SymbolHistory
  import opened Published
  import opened Processor

  /** The levels a message carries for one side: the first entries of its array, as many as it counts. */
  function Entries(val: Decoding, u: Recording.DepthUpdate, bid: bool): seq<Levels.Level>
    requires Sound(u)
  {
    if bid then seq(u.bidCount, i requires 0 <= i < u.bidCount => Levels.Level(val(u.bids[i].price), val(u.bids[i].qty)))
    else seq(u.askCount, i requires 0 <= i < u.askCount => Levels.Level(val(u.asks[i].price), val(u.asks[i].qty)))
  }

  predicate IsUpdateOf(a: Arrival, s: Symbol) {
    a.message.ParsedDepth? && a.message.update.symbol == s
  }

  /** All levels the symbol's depth messages carry for one side, in order. */
  function ParsedQuotes(val: Decoding, arrivals: seq<Arrival>, s: Symbol, bid: bool): seq<Levels.Level>
    requires SoundArrivals(arrivals)
  {
    if arrivals == [] then []
    else
      SoundInit(arrivals);
      var n := |arrivals| - 1;
      ParsedQuotes(val, arrivals[..n], s, bid)
      + (if IsUpdateOf(arrivals[n], s) then Entries(val, arrivals[n].message.update, bid) else [])
  }

  function NumUpdates(arrivals: seq<Arrival>, s: Symbol): nat {
    if arrivals == [] then 0
    else NumUpdates(arrivals[..|arrivals| - 1], s) + (if IsUpdateOf(arrivals[|arrivals| - 1], s) then 1 else 0)
  }

  /** The last id of the symbol's newest update. */
  function NewestId(arrivals: seq<Arrival>, s: Symbol): u64 {
    if arrivals == [] then 0
    else
      var a := arrivals[|arrivals| - 1];
      if IsUpdateOf(a, s) then a.message.update.lastId else NewestId(arrivals[..|arrivals| - 1], s)
  }

  function ParsedTrades(arrivals: seq<Arrival>, s: Symbol): seq<TradeAggregators.Trade> {
    if arrivals == [] then []
    else
      var m := arrivals[|arrivals| - 1].message;
      ParsedTrades(arrivals[..|arrivals| - 1], s) + (if m.ParsedTrade? && m.trade.symbol == s then [m.trade] else [])
  }

  lemma {:induction false} SoundInit(arrivals: seq<Arrival>)
    requires arrivals != [] && SoundArrivals(arrivals)
    ensures SoundArrivals(arrivals[..|arrivals| - 1])
  {
    var init := arrivals[..|arrivals| - 1];
    assert forall i {:trigger init[i]} :: 0 <= i < |init| ==> init[i] == arrivals[i];
  }

  lemma {:induction false} EventsSnoc(val: Decoding, arrivals: seq<Arrival>)
    requires arrivals != [] && SoundArrivals(arrivals)
    ensures SoundArrivals(arrivals[..|arrivals| - 1])
    ensures var n := |arrivals| - 1;
      Events(val, arrivals)[..n] == Events(val, arrivals[..n]) && Events(val, arrivals)[n] == EventOf(val, arrivals[n])
  {
    SoundInit(arrivals);
  }

  lemma {:induction false} QuotesSnoc(us: seq<Update>, u: Update, bid: bool)
    ensures Quotes(us + [u], bid) == Quotes(us, bid) + (if bid then u.bids else u.asks)
  {
    QuotesAreDeltas(us + [u], bid);
    QuotesAreDeltas(us, bid);
    SnocInit(us, u);
  }

  lemma {:induction false} DecodedEntries(val: Decoding, u: Recording.DepthUpdate)
    requires Sound(u)
    ensures var d := DecodeUpdate(val, u);
      && d.bids == Entries(val, u, true) && d.asks == Entries(val, u, false)
      && d.symbol == u.symbol && d.lastId == u.lastId && d.firstId == u.firstId && d.eventTimeMs == u.eventTimeMs
  {
  }

  /** The engine's history of a symbol is the parsed one. */
  lemma {:induction false} HistoryIsParsed(val: Decoding, arrivals: seq<Arrival>, s: Symbol)
    requires SoundArrivals(arrivals)
    ensures var us := DepthsOf(Events(val, arrivals), s);
      && Quotes(us, true) == ParsedQuotes(val, arrivals, s, true) && Quotes(us, false) == ParsedQuotes(val, arrivals, s, false)
      && |us| == NumUpdates(arrivals, s) && (if us == [] then 0 else us[|us| - 1].lastId) == NewestId(arrivals, s)
    ensures TradesOf(Events(val, arrivals), s) == ParsedTrades(arrivals, s)
    decreases |arrivals|
  {
    hide DecodeUpdate, Entries, Quotes;
    if arrivals == [] {
      NoQuotes();
    } else {
      var n := |arrivals| - 1;
      EventsSnoc(val, arrivals);
      HistoryIsParsed(val, arrivals[..n], s);
      var evs := Events(val, arrivals);
      var us := DepthsOf(evs[..n], s);
      match arrivals[n].message {
        case ParsedDepth(u) =>
          DecodedEntries(val, u);
          QuotesSnoc(us, DecodeUpdate(val, u), true);
          QuotesSnoc(us, DecodeUpdate(val, u), false);
          assert TradesOf(evs, s) == TradesOf(evs[..n], s);
          assert DepthsOf(evs, s) == if u.symbol == s then us + [DecodeUpdate(val, u)] else us;
        case ParsedTrade(t) =>
          assert DepthsOf(evs, s) == us;
      }
    }
  }

  lemma NoQuotes()
    ensures forall bid :: Quotes([], bid) == []
  {
  }

  /** b is the book of a symbol after these messages: a price stands on a side exactly if its last mention
      among the counted entries of that side has a non-zero quantity, and with that quantity. */
  ghost predicate IsParsedBook(b: Book, val: Decoding, arrivals: seq<Arrival>, s: Symbol)
    requires SoundArrivals(arrivals)
  {
    && IsSide(b.bids, ParsedQuotes(val, arrivals, s, true), true)
    && IsSide(b.asks, ParsedQuotes(val, arrivals, s, false), false)
    && b.updates == NumUpdates(arrivals, s) && b.lastId == NewestId(arrivals, s)
  }

  /** Main theorem. For every run of parsed messages and every symbol. */
  lemma {:induction false} BookOfMessages(val: Decoding, cs: seq<Signals.Condition>, arrivals: seq<Arrival>, s: Symbol)
    requires SoundArrivals(arrivals) && Clocked(cs, Events(val, arrivals))
    ensures IsParsedBook(StateOf(Run(cs, Events(val, arrivals)), s).book, val, arrivals, s)
  {
    hide Run, IsSide, IsHistory;
    StateMeans(cs, Events(val, arrivals), s);
    HistoryIsParsed(val, arrivals, s);
  }

  /** So the books the processing thread holds are those of the messages it has processed. */
  lemma {:induction false} BooksOfThread(thread: ProcessingThread, done: seq<Arrival>, s: Symbol)
    requires thread.Valid() && thread.Follows(done) && s in thread.states
    ensures IsParsedBook(thread.states[s].book.State(), thread.val, done, s)
  {
    hide Run, IsParsedBook;
    BookOfMessages(thread.val, thread.detector.conditions, done, s);
    assert thread.states[s].State() == thread.view[s];
  }
}
