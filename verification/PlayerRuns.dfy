/** Runs of the player that show where properties fail, and that bounds are reached. */
module PlayerRuns {
  import opened Options
  import opened Player
  import opened PlayerSound

  const GO := ControlStep(true, true, false)
  const NO := ControlStep(false, false, false)
  const BARE := ControlStep(true, false, false)

  lemma Extend(acts: seq<Action>, a: Action) returns (more: seq<Action>)
    requires Run(acts).Some?
    ensures more == acts + [a] && Run(more) == Next(Run(acts).value, a)
  {
    more := acts + [a];
    assert more[..|acts|] == acts;
  }

  /** Choosing a first file, up to its parameters. */
  lemma ReachParam() returns (acts: seq<Action>)
    ensures Run(acts) == Some(CREATED.(control := Param, mutex := Some(Control), live := true))
  {
    acts := Extend([], Begin(SetFile));
    hide Run;
    acts := Extend(acts, GO); // nothing to join
    acts := Extend(acts, GO);
    acts := Extend(acts, GO); // lock
    acts := Extend(acts, GO); // no pipeline
    acts := Extend(acts, GO); // no file
    acts := Extend(acts, GO); // init
  }

  /** The file has one video stream. */
  lemma ReachPipe() returns (acts: seq<Action>)
    ensures Run(acts) == Some(CREATED.(video := NO_STREAM.(enabled := true), control := Pipe, mutex := Some(Control),
                                       live := true))
  {
    hide Run;
    acts := ReachParam();
    acts := Extend(acts, GO); // param
  }

  /** A failed pipeline, and the next `rk_player_set_file` joins a missing thread. */
  lemma FailedPipeJoinsNothing() returns (acts: seq<Action>)
    ensures Run(acts).Some? && Run(acts).value.control.Undefined?
  {
    hide Run;
    acts := ReachPipe();
    acts := Extend(acts, NO); // the pipeline fails
    acts := Extend(acts, GO); // unlock
    acts := Extend(acts, Begin(SetFile));
    acts := Extend(acts, GO); // join
  }

  /** A thread that cannot be created, and the next `rk_player_set_file` joins it. */
  lemma LostThreadJoinsNothing() returns (acts: seq<Action>)
    ensures Run(acts).Some? && Run(acts).value.control.Undefined? && !Run(acts).value.pipeFailed
  {
    hide Run;
    acts := ReachPipe();
    acts := Extend(acts, GO); // the pipeline is created
    acts := Extend(acts, NO); // the video thread is not
    acts := Extend(acts, GO); // no audio
    acts := Extend(acts, GO); // unlock
    acts := Extend(acts, Begin(SetFile));
    acts := Extend(acts, GO); // join
  }

  /** A file with neither a video nor an audio codec has been set. */
  lemma ReachBare() returns (acts: seq<Action>)
    ensures Run(acts) == Some(CREATED.(live := true, bare := true))
  {
    hide Run;
    acts := ReachParam();
    acts := Extend(acts, BARE); // no stream
    acts := Extend(acts, GO); // the pipeline of no stream
    acts := Extend(acts, GO); // no video
    acts := Extend(acts, GO); // no audio
    acts := Extend(acts, GO); // unlock
  }

  /** The handle of such a file is still live after `rk_player_destroy`. */
  lemma BareFileLeaks() returns (acts: seq<Action>)
    ensures Run(acts).Some? && Run(acts).value.control.Gone? && Run(acts).value.live
  {
    hide Run;
    acts := ReachBare();
    acts := Extend(acts, Begin(Destroy));
    acts := Extend(acts, GO); // nothing to join
    acts := Extend(acts, GO);
    acts := Extend(acts, GO); // lock
    acts := Extend(acts, GO); // no pipeline
    acts := Extend(acts, GO); // no status, so nothing to remove
    acts := Extend(acts, GO); // unlock
  }

  /** And the next `rk_player_set_file` initialises a new handle over it. */
  lemma BareFileOverwritten() returns (acts: seq<Action>)
    ensures Run(acts).Some? && Run(acts).value.live
    ensures Calls(Run(acts).value, GO) == Some((DemuxInit, Control)) && Next(Run(acts).value, GO).Some?
  {
    hide Run;
    acts := ReachBare();
    acts := Extend(acts, Begin(SetFile));
    acts := Extend(acts, GO); // nothing to join
    acts := Extend(acts, GO);
    acts := Extend(acts, GO); // lock
    acts := Extend(acts, GO); // no pipeline
    acts := Extend(acts, GO); // no status, so nothing to remove
  }

  // ----- Runs that play

  /** Between calls, with a file of one stream. */
  function OneStream(s: Stream, status: Status, thread: Thread): State {
    CREATED.(running := true, live := true).Put(s, StreamState(true, status, thread, false))
  }

  /** The parameters of a file with the one stream `s`. */
  function Only(s: Stream): Action {
    ControlStep(true, s.Video?, s.Audio?)
  }

  /** A file with one stream has been set; its thread is about to read the status. */
  lemma ReachDispatch(s: Stream) returns (acts: seq<Action>)
    ensures Run(acts) == Some(OneStream(s, Pause, Thread(Dispatch)))
  {
    hide Run;
    acts := ReachParam();
    acts := Extend(acts, Only(s)); // param
    acts := Extend(acts, GO); // the pipeline is created
    acts := Extend(acts, GO); // video
    acts := Extend(acts, GO); // audio
    acts := Extend(acts, GO); // unlock
    acts := Extend(acts, WorkerStep(s, Packet)); // enters the loop
    acts := Extend(acts, WorkerStep(s, Packet)); // is to run
  }

  /** A play has returned. */
  lemma ReachPlaying(s: Stream) returns (acts: seq<Action>)
    ensures Run(acts) == Some(OneStream(s, Running, Thread(Dispatch)))
  {
    hide Run;
    acts := ReachDispatch(s);
    acts := Extend(acts, Begin(Play));
    acts := Extend(acts, GO); // lock
    acts := Extend(acts, GO); // video
    acts := Extend(acts, GO); // audio
    acts := Extend(acts, GO); // unlock
  }

  /** A file with one stream, of either kind, is set and played, and a packet delivered. */
  lemma EitherStreamPlays(s: Stream) returns (acts: seq<Action>, from: nat)
    ensures Run(acts).Some? && Deliveries(acts, from, s) == 1
  {
    hide Run, Deliveries;
    var played := ReachPlaying(s);
    from := |played|;
    acts := DeliversOne(played, s);
  }

  lemma ReachPausing() returns (acts: seq<Action>)
    ensures Run(acts) == Some(OneStream(Video, Pause, Thread(WantLock)).(control := Unlocking(PauseCall),
                                                                         mutex := Some(Control)))
  {
    hide Run;
    acts := ReachPlaying(Video);
    acts := Extend(acts, WorkerStep(Video, Packet)); // sees RUNNING
    acts := Extend(acts, Begin(PauseCall));
    acts := Extend(acts, GO); // lock
    acts := Extend(acts, GO); // video pauses
    acts := Extend(acts, GO); // no audio
  }

  /** One packet can indeed be delivered after `rk_player_pause` has returned. */
  lemma PauseBoundIsReached() returns (acts: seq<Action>, i: nat)
    ensures Run(acts).Some? && Returns(acts, i, PauseCall)
    ensures (forall j :: i < j < |acts| ==> !Wakeup(acts[j], Video)) && Deliveries(acts, i + 1, Video) == 1
  {
    hide Run, Deliveries, Wakeup, Next;
    var before := ReachPausing();
    i := |before|;
    var returned := PauseDone(before);
    acts := OnePacket(returned);
    assert acts[..i] == before && acts[i] == returned[i] == GO;
  }

  lemma PauseDone(acts: seq<Action>) returns (more: seq<Action>)
    requires Run(acts).Some? && Run(acts).value.control == Unlocking(PauseCall)
    requires Run(acts).value.video.thread == Thread(WantLock)
    ensures more == acts + [GO] && Run(more).Some? && Run(more).value.mutex.None?
    ensures Run(more).value.video.thread == Thread(WantLock)
  {
    hide Run;
    more := Extend(acts, GO);
  }

  /** A thread that waits for the mutex goes on to deliver one packet. */
  lemma OnePacket(acts: seq<Action>) returns (more: seq<Action>)
    requires Run(acts).Some? && Run(acts).value.mutex.None?
    requires Run(acts).value.video.thread == Thread(WantLock)
    ensures |more| == |acts| + 4 && acts <= more && Run(more).Some?
    ensures forall j :: |acts| <= j < |more| ==> !Wakeup(more[j], Video)
    ensures Deliveries(more, |acts|, Video) == 1
  {
    hide Run, Deliveries;
    NoneYet(acts, Video);
    more := OneMore(acts, acts, Video, Packet); // lock
    more := OneMore(acts, more, Video, Packet); // read
    more := OneMore(acts, more, Video, Packet); // unlock
    more := OneMore(acts, more, Video, Packet); // deliver
  }
}
