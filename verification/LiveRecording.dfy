/** Live mode from the opening of the recording to its closing (src/main.cpp): what the recorder
    leaves on disk after the processing thread has run. */
module LiveRecording {
  import opened Words
  import opened Recording
  import opened Signals
  import Engine
  import opened Arrivals
  import opened DiskIo
  import opened Processor

  /** Opens the recording, processes the messages in order and closes the recording. The file then
      holds exactly the recording of this run, and the thread is in the state of this run. */
  method RecordLiveRun(val: Decoding, conditions: seq<Condition>, arrivals: seq<Arrival>, target: ByteFile, now: u64)
      returns (thread: ProcessingThread)
    requires SoundArrivals(arrivals)
    requires forall i {:trigger arrivals[i]} :: 0 <= i < |arrivals| ==> |arrivals[i].clock| == |conditions|
    modifies target
    ensures target.bytes == RecordingOf(arrivals, now)
    ensures thread.val == val && thread.detector.conditions == conditions && thread.Follows(arrivals)
  {
    hide ProcessingThread.Valid, Recorded, DiskLogger.Valid, RecordingOf, ProcessingThread.Follows, SoundArrivals, Sound;
    var logger := new DiskLogger();
    logger.Open(target, now);
    thread := new ProcessingThread(val, conditions, logger);
    Begin(thread, arrivals);
    var i := 0;
    while i < |arrivals|
      invariant 0 <= i <= |arrivals|
      invariant thread.Valid() && thread.Follows(arrivals[..i]) && thread.detector.conditions == conditions
      invariant logger.file == target && logger.createdUs == now && logger.written == Recorded(arrivals[..i])
      invariant fresh(thread.Repr)
    {
      OneMore(arrivals, i);
      thread.ProcessFollowing(arrivals[i], arrivals[..i]);
      i := i + 1;
    }
    Finish(thread, logger, arrivals, now);
    logger.Close();
  }

  lemma Begin(thread: ProcessingThread, arrivals: seq<Arrival>)
    requires thread.State() == Engine.Start
    ensures thread.Follows(arrivals[..0]) && Recorded(arrivals[..0]) == []
  {
    assert Events(thread.val, []) == [];
  }

  lemma OneMore(arrivals: seq<Arrival>, i: nat)
    requires i < |arrivals| && SoundArrivals(arrivals)
    ensures arrivals[i].message.ParsedDepth? ==> Sound(arrivals[i].message.update)
    ensures arrivals[..i + 1] == arrivals[..i] + [arrivals[i]]
    ensures Recorded(arrivals[..i + 1]) == Recorded(arrivals[..i]) + Recorded([arrivals[i]])
  {
    StampedSnoc([], arrivals, i);
    assert [] + arrivals[..i] == arrivals[..i];
  }

  lemma Finish(thread: ProcessingThread, logger: DiskLogger, arrivals: seq<Arrival>, now: u64)
    requires thread.Valid() && thread.recorder == logger
    ensures logger.Valid() && arrivals[..|arrivals|] == arrivals
    ensures RecordingOf(arrivals, now) == FileImage(now, |Recorded(arrivals)| % U32_SPAN, Recorded(arrivals))
  {
  }
}
