/** Recording a live run and replaying the file rebuilds the same depth state: the processor, the
    file format, the queue and the shutdown protocol composed. */
module ReplayEquivalence {
  import opened Masks
  import opened Words
  import opened Recording
  import OrderBooks
  import Signals
  import opened Engine
  import opened Arrivals
  import opened Sharding
  import opened SymbolHistory
  import Protocol = ReplayProtocol

  // ---------------------------------------------------------------- recording

  function LiveDepths(arrivals: seq<Arrival>): seq<Recording.DepthUpdate> {
    if arrivals == [] then []
    else
      var a := arrivals[|arrivals| - 1];
      LiveDepths(arrivals[..|arrivals| - 1]) + (match a.message case ParsedDepth(u) => [u] case ParsedTrade(_) => [])
  }

  ghost predicate StorableSymbols(arrivals: seq<Arrival>) {
    forall i {:trigger arrivals[i]} :: 0 <= i < |arrivals| && arrivals[i].message.ParsedDepth? ==>
      Storable(arrivals[i].message.update.symbol)
  }

  lemma {:induction false} ArrivalsInit(arrivals: seq<Arrival>)
    requires arrivals != [] && SoundArrivals(arrivals)
    ensures SoundArrivals(arrivals[..|arrivals| - 1])
    ensures StorableSymbols(arrivals) ==> StorableSymbols(arrivals[..|arrivals| - 1])
  {
    var init := arrivals[..|arrivals| - 1];
    assert forall i {:trigger init[i]} :: 0 <= i < |init| ==> init[i] == arrivals[i];
  }

  /** Through the record format the depth messages come back unchanged. */
  lemma {:induction false} RecordedComesBack(arrivals: seq<Arrival>)
    requires SoundArrivals(arrivals) && StorableSymbols(arrivals)
    ensures ValidEntries(Recorded(arrivals)) && Replayed(Recorded(arrivals)) == LiveDepths(arrivals)
    decreases |arrivals|
  {
    if arrivals != [] {
      var init, a := arrivals[..|arrivals| - 1], arrivals[|arrivals| - 1];
      ArrivalsInit(arrivals);
      RecordedComesBack(init);
      if a.message.ParsedDepth? {
        ConversionRoundTrip(a.message.update);
      } else {
        assert Recorded(arrivals) == Recorded(init);
      }
    }
  }

  /** The depth updates of a symbol as the engine sees them are decoded from the parsed ones. */
  function DecodedFor(val: Decoding, us: seq<Recording.DepthUpdate>, s: Symbol): seq<OrderBooks.Update>
    requires forall i {:trigger us[i]} :: 0 <= i < |us| ==> Sound(us[i])
  {
    if us == [] then []
    else
      var u := us[|us| - 1];
      DecodedFor(val, us[..|us| - 1], s) + (if u.symbol == s then [DecodeUpdate(val, u)] else [])
  }

  lemma {:induction false} LiveDepthsSound(arrivals: seq<Arrival>)
    requires SoundArrivals(arrivals)
    ensures forall i {:trigger LiveDepths(arrivals)[i]} :: 0 <= i < |LiveDepths(arrivals)| ==> Sound(LiveDepths(arrivals)[i])
  {
    if arrivals != [] {
      ArrivalsInit(arrivals);
      LiveDepthsSound(arrivals[..|arrivals| - 1]);
    }
  }

  lemma {:induction false} EventsInit(val: Decoding, arrivals: seq<Arrival>)
    requires arrivals != [] && SoundArrivals(arrivals)
    ensures SoundArrivals(arrivals[..|arrivals| - 1])
    ensures Events(val, arrivals)[..|arrivals| - 1] == Events(val, arrivals[..|arrivals| - 1])
  {
    ArrivalsInit(arrivals);
  }

  lemma {:induction false} DepthsAreDecoded(val: Decoding, arrivals: seq<Arrival>, s: Symbol)
    requires SoundArrivals(arrivals)
    ensures forall i {:trigger LiveDepths(arrivals)[i]} :: 0 <= i < |LiveDepths(arrivals)| ==> Sound(LiveDepths(arrivals)[i])
    ensures DepthsOf(Events(val, arrivals), s) == DecodedFor(val, LiveDepths(arrivals), s)
    decreases |arrivals|
  {
    LiveDepthsSound(arrivals);
    if arrivals != [] {
      var init, a := arrivals[..|arrivals| - 1], arrivals[|arrivals| - 1];
      EventsInit(val, arrivals);
      DepthsAreDecoded(val, init, s);
      assert Events(val, arrivals)[|arrivals| - 1] == EventOf(val, a);
      if a.message.ParsedDepth? {
        SnocInit(LiveDepths(init), a.message.update);
      } else {
        assert LiveDepths(arrivals) == LiveDepths(init);
        assert DepthsOf(Events(val, arrivals), s) == DepthsOf(Events(val, init), s);
      }
    }
  }

  /** A second run whose depth messages are `us`, with no trades and any clock readings. */
  ghost predicate Delivers(replay: seq<Arrival>, us: seq<Recording.DepthUpdate>) {
    |replay| == |us| && forall i {:trigger replay[i]} :: 0 <= i < |us| ==> replay[i].message == ParsedDepth(us[i])
  }

  lemma {:induction false} DeliversDepths(replay: seq<Arrival>, us: seq<Recording.DepthUpdate>)
    requires Delivers(replay, us)
    ensures LiveDepths(replay) == us
    decreases |us|
  {
    if us != [] {
      var n := |us| - 1;
      assert Delivers(replay[..n], us[..n]) by {
        assert forall i {:trigger replay[..n][i]} :: 0 <= i < n ==> replay[..n][i] == replay[i];
      }
      DeliversDepths(replay[..n], us[..n]);
      assert us == us[..n] + [us[n]];
    }
  }

  /** The records `read_next` delivers from a recording are the live depth messages. */
  lemma {:induction false} RecordingReadsBack(live: seq<Arrival>, createdUs: u64)
    requires SoundArrivals(live) && StorableSymbols(live)
    ensures |RecordingOf(live, createdUs)| >= FILE_HEADER_SIZE
    ensures Replayed(ReadAll(RecordingOf(live, createdUs), FILE_HEADER_SIZE)) == LiveDepths(live)
  {
    RecordedComesBack(live);
    WholeReadBack(createdUs, |Recorded(live)| % U32_SPAN, Recorded(live));
  }

  /** Two runs with the same depth messages, whatever their trades and clocks, end with the same
      depth state. */
  lemma {:induction false} SameDepthsSameState(val: Decoding, cs: seq<Signals.Condition>, a: seq<Arrival>, b: seq<Arrival>, s: Symbol)
    requires SoundArrivals(a) && SoundArrivals(b) && LiveDepths(a) == LiveDepths(b)
    requires Clocked(cs, Events(val, a)) && Clocked(cs, Events(val, b))
    ensures DepthsOf(Events(val, a), s) != [] ==>
      var x, y := Run(cs, Events(val, a)), Run(cs, Events(val, b));
      s in x.states && s in y.states && y.states[s].book == x.states[s].book && y.states[s].agg == x.states[s].agg
  {
    DepthsAreDecoded(val, a, s);
    DepthsAreDecoded(val, b, s);
    DepthStateIgnoresTrades(cs, Events(val, a), s);
    DepthStateIgnoresTrades(cs, Events(val, b), s);
  }

  lemma {:induction false} DeliversSound(replay: seq<Arrival>, us: seq<Recording.DepthUpdate>)
    requires Delivers(replay, us) && forall i {:trigger us[i]} :: 0 <= i < |us| ==> Sound(us[i])
    ensures SoundArrivals(replay)
  {
    forall i | 0 <= i < |replay| ensures replay[i].message.ParsedDepth? && Sound(replay[i].message.update) {
      assert replay[i].message == ParsedDepth(us[i]);
    }
  }

  /** Record/replay equivalence. Take any live run whose depth symbols the format can hold, the
      bytes its recorder leaves behind, and any run of the replay protocol over the records
      readable in those bytes that ends by "Replay complete". A fresh processor fed with what
      that run processed has, for every symbol that had a depth update, the same book and the
      same statistics as the live processor: whatever the scheduling, the queue size, the trades
      in the live stream and the clocks. */
  lemma {:induction false} RecordReplayEquivalence(
      val: Decoding, cs: seq<Signals.Condition>, live: seq<Arrival>, createdUs: u64,
      buffer: seq<Recording.DepthUpdate>, file: seq<Recording.DepthUpdate>, steps: seq<Protocol.Step<Recording.DepthUpdate>>,
      final: Protocol.State<Recording.DepthUpdate>, replay: seq<Arrival>, s: Symbol)
    requires SoundArrivals(live) && StorableSymbols(live) && Clocked(cs, Events(val, live))
    requires |RecordingOf(live, createdUs)| >= FILE_HEADER_SIZE
    requires file == Replayed(ReadAll(RecordingOf(live, createdUs), FILE_HEADER_SIZE))
    requires IsPow2(|buffer|) && Protocol.Runs(Protocol.Init(buffer, file), steps, final)
    requires final.complete && final.mpc.MEnd?
    requires Delivers(replay, final.processed)
    requires forall i {:trigger replay[i]} :: 0 <= i < |replay| ==> |replay[i].clock| == |cs|
    ensures SoundArrivals(replay) && Clocked(cs, Events(val, replay))
    ensures DepthsOf(Events(val, live), s) != [] ==>
      var a, b := Run(cs, Events(val, live)), Run(cs, Events(val, replay));
      s in a.states && s in b.states && b.states[s].book == a.states[s].book && b.states[s].agg == a.states[s].agg
  {
    RecordingReadsBack(live, createdUs);
    assert final.processed == file by {
      Protocol.ReplayCompleteMeansEverything(buffer, file, steps, final, [], final);
    }
    LiveDepthsSound(live);
    DeliversSound(replay, file);
    DeliversDepths(replay, file);
    SameDepthsSameState(val, cs, live, replay, s);
  }

  // ---------------------------------------------------------------- cut recordings and early stops

  /** The live messages up to the n-th depth message. */
  lemma {:induction false} PrefixWithDepths(live: seq<Arrival>, n: nat) returns (k: nat)
    requires n <= |LiveDepths(live)|
    ensures k <= |live| && LiveDepths(live[..k]) == LiveDepths(live)[..n]
    decreases |live|
  {
    var all := LiveDepths(live);
    if n == |all| {
      k := |live|;
      assert live[..k] == live && all[..n] == all;
    } else {
      var init := live[..|live| - 1];
      assert LiveDepths(init) == all[..|LiveDepths(init)|];
      k := PrefixWithDepths(init, n);
      assert init[..k] == live[..k];
    }
  }

  lemma {:induction false} PrefixIsSound(val: Decoding, cs: seq<Signals.Condition>, live: seq<Arrival>, k: nat)
    requires SoundArrivals(live) && Clocked(cs, Events(val, live)) && k <= |live|
    ensures SoundArrivals(live[..k]) && Clocked(cs, Events(val, live[..k]))
  {
    assert forall i {:trigger live[..k][i]} :: 0 <= i < k ==> live[..k][i] == live[i];
    forall i | 0 <= i < k ensures |Events(val, live[..k])[i].clock| == |cs| {
      assert Events(val, live)[i].clock == live[i].clock;
    }
  }

  /** Equal depth messages give every symbol the same book and statistics. */
  lemma {:induction false} SameDepthsEverywhere(val: Decoding, cs: seq<Signals.Condition>, a: seq<Arrival>, b: seq<Arrival>, s: Symbol)
    requires SoundArrivals(a) && SoundArrivals(b) && LiveDepths(a) == LiveDepths(b)
    requires Clocked(cs, Events(val, a)) && Clocked(cs, Events(val, b))
    ensures SameDepthState(Run(cs, Events(val, a)), Run(cs, Events(val, b)), s)
  {
    DepthsAreDecoded(val, a, s);
    DepthsAreDecoded(val, b, s);
    DepthStateIgnoresTrades(cs, Events(val, a), s);
    DepthStateIgnoresTrades(cs, Events(val, b), s);
  }

  ghost predicate SameDepthState(x: State, y: State, s: Symbol) {
    StateOf(x, s).book == StateOf(y, s).book && StateOf(x, s).agg == StateOf(y, s).agg
  }

  /** A recording cut at any length that still holds its header, closed or not, reads back as the
      depth messages of a prefix of the live run. */
  lemma {:induction false} CutRecordingReadsBack(live: seq<Arrival>, bytes: seq<byte>, createdUs: u64, count: u32)
    requires SoundArrivals(live) && StorableSymbols(live)
    requires FILE_HEADER_SIZE <= |bytes| && bytes <= FileImage(createdUs, count, Recorded(live))
    ensures Whole(|bytes|) <= |LiveDepths(live)|
    ensures Replayed(ReadAll(bytes, FILE_HEADER_SIZE)) == LiveDepths(live)[..Whole(|bytes|)]
  {
    RecordedComesBack(live);
    TruncatedReadBack(bytes, createdUs, count, Recorded(live));
    var n := Whole(|bytes|);
    assert Replayed(Recorded(live)[..n]) == Replayed(Recorded(live))[..n];
  }

  /** What any run of the protocol over a cut recording has processed. */
  lemma {:induction false} ReplayedPrefix(
      live: seq<Arrival>, bytes: seq<byte>, createdUs: u64, count: u32,
      buffer: seq<Recording.DepthUpdate>, file: seq<Recording.DepthUpdate>, steps: seq<Protocol.Step<Recording.DepthUpdate>>,
      final: Protocol.State<Recording.DepthUpdate>)
    requires SoundArrivals(live) && StorableSymbols(live)
    requires FILE_HEADER_SIZE <= |bytes| && bytes <= FileImage(createdUs, count, Recorded(live))
    requires file == Replayed(ReadAll(bytes, FILE_HEADER_SIZE))
    requires IsPow2(|buffer|) && Protocol.Runs(Protocol.Init(buffer, file), steps, final)
    ensures |final.processed| <= |LiveDepths(live)| && final.processed == LiveDepths(live)[..|final.processed|]
    ensures final.complete && final.mpc.MEnd? ==> |final.processed| == Whole(|bytes|)
  {
    hide LiveDepths, Recorded, ReadAll, Replayed, FileImage;
    CutRecordingReadsBack(live, bytes, createdUs, count);
    Protocol.ProcessedIsPrefix(buffer, file, steps, final);
    if final.complete && final.mpc.MEnd? {
      Protocol.ReplayCompleteMeansEverything(buffer, file, steps, final, [], final);
    }
  }

  /** Main theorem. Cut the recording of a live run at any length that still holds its header, replay
      it, and stop the replay at any moment: what has been processed by then gives every symbol the
      book and the statistics the live processor had after some prefix of its run, the one that ends
      with the last depth message replayed. Replayed to completion, that is every record that fits. */
  lemma {:induction false} PartialReplayIsEarlierState(
      val: Decoding, cs: seq<Signals.Condition>, live: seq<Arrival>, bytes: seq<byte>, createdUs: u64, count: u32,
      buffer: seq<Recording.DepthUpdate>, file: seq<Recording.DepthUpdate>, steps: seq<Protocol.Step<Recording.DepthUpdate>>,
      final: Protocol.State<Recording.DepthUpdate>, replay: seq<Arrival>) returns (k: nat)
    requires SoundArrivals(live) && StorableSymbols(live) && Clocked(cs, Events(val, live))
    requires FILE_HEADER_SIZE <= |bytes| && bytes <= FileImage(createdUs, count, Recorded(live))
    requires file == Replayed(ReadAll(bytes, FILE_HEADER_SIZE))
    requires IsPow2(|buffer|) && Protocol.Runs(Protocol.Init(buffer, file), steps, final)
    requires Delivers(replay, final.processed)
    requires forall i {:trigger replay[i]} :: 0 <= i < |replay| ==> |replay[i].clock| == |cs|
    ensures SoundArrivals(replay) && Clocked(cs, Events(val, replay))
    ensures k <= |live| && SoundArrivals(live[..k]) && Clocked(cs, Events(val, live[..k]))
    ensures |final.processed| <= |LiveDepths(live)|
    ensures LiveDepths(live[..k]) == final.processed == LiveDepths(live)[..|final.processed|]
    ensures forall s: Symbol :: SameDepthState(Run(cs, Events(val, replay)), Run(cs, Events(val, live[..k])), s)
    ensures final.complete && final.mpc.MEnd? ==> |final.processed| == Whole(|bytes|)
  {
    hide Run, SameDepthState, Protocol.Runs;
    var n := |final.processed|;
    ReplayedPrefix(live, bytes, createdUs, count, buffer, file, steps, final);
    k := PrefixWithDepths(live, n);
    PrefixIsSound(val, cs, live, k);
    LiveDepthsSound(live);
    DeliversSound(replay, final.processed);
    DeliversDepths(replay, final.processed);
    forall s: Symbol ensures SameDepthState(Run(cs, Events(val, replay)), Run(cs, Events(val, live[..k])), s) {
      SameDepthsEverywhere(val, cs, replay, live[..k], s);
    }
  }
}
