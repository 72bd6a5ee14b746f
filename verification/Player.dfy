/** The media player as a transition system: one control thread that makes the API
    calls one after another, a video thread and an audio thread.

    Every step is one access to what the threads share: a read or write of a status,
    of the enable flags or of `thread_running`, taking or releasing the mutex, or one
    call on the demuxer handle of the context. The results of foreign calls are the
    arguments of the action, so a run is any list of actions. */
module Player {
  import opened Options

  datatype Stream = Video | Audio

  datatype Status = Uninitialized | Pause | Running

  /** Where a stream thread is in its loop. */
  datatype ThreadPc =
    | Start                  // created, has not reached the loop
    | Top                    // about to read `thread_running`
    | Dispatch               // about to read the status
    | WantLock               // saw RUNNING, waits for the mutex
    | Read                   // holds the mutex, about to read a packet
    | EofSeek                // read an end-of-stream packet, about to rewind
    | Release(packet: bool)  // holds the mutex, about to release it
    | Deliver                // about to hand the packet to the decoder
    | Exited

  datatype Thread = NoThread | Thread(pc: ThreadPc)

  /** The part of the context that belongs to one stream. `lost`: the thread of the
      stream could not be created. */
  datatype StreamState = StreamState(enabled: bool, status: Status, thread: Thread, lost: bool)
  {
    function Goto(pc: ThreadPc): StreamState {
      this.(thread := Thread(pc))
    }
  }

  datatype Call = SetFile | Play | PauseCall | Stop | Destroy | Seek(s: Stream)

  /** Where the control thread is. */
  datatype ControlPc =
    | Idle
    | Joining(call: Call, s: Stream)      // about to join the thread of `s`
    | Locking(call: Call)                 // about to take the mutex
    | Teardown(call: Call)                // destroy_media_pipe_unlocked
    | Remove(call: Call)                  // remove_record_file_unlocked
    | Init                                // rkdemuxer_init in set_record_file_unlocked
    | Param                               // rkdemuxer_get_param
    | InitUndo                            // rkdemuxer_deinit after a failed get_param
    | Pipe                                // create_media_pipe_unlocked
    | Starting(s: Stream)                 // status, thread_running, pthread_create
    | StatusChange(call: Call, s: Stream) // the status of `s` in play, pause and stop
    | SeekCall(call: Call, s: Stream)     // rkdemuxer_seek_*_pts in stop and seek
    | SeekRun(s: Stream)                  // status = RUNNING after a seek
    | Unlocking(call: Call)               // about to release the mutex
    | Gone                                // destroyed
    | Undefined                           // joined a thread that does not exist

  datatype Owner = Control | Worker(s: Stream)

  /** `live`: the demuxer handle is between its init and its deinit. `bare`: the file
      behind the handle has neither a video nor an audio codec. `pipeFailed`: the
      media pipeline of the current file could not be created. */
  datatype State = State(
    video: StreamState, audio: StreamState, control: ControlPc, mutex: Option<Owner>,
    running: bool, live: bool, bare: bool, pipeFailed: bool)
  {
    function Get(s: Stream): StreamState {
      if s.Video? then video else audio
    }

    function Put(s: Stream, x: StreamState): State {
      if s.Video? then this.(video := x) else this.(audio := x)
    }

    function At(pc: ControlPc): State {
      this.(control := pc)
    }
  }

  datatype ReadResult = Failed | Eof | Packet

  datatype Action =
    | Begin(call: Call)
    | ControlStep(ok: bool, hasVideo: bool, hasAudio: bool)
    | WorkerStep(s: Stream, result: ReadResult)

  const NO_STREAM := StreamState(false, Uninitialized, NoThread, false)

  /** The context after `rk_player_create`. */
  const CREATED := State(NO_STREAM, NO_STREAM, Idle, None, false, false, false, false)

  // ----- The stream threads

  /** One step of `video_player_loop` or `audio_player_loop`, on the fields of its
      stream and the mutex; `None` when the thread is blocked or does not exist. */
  function StreamNext(x: StreamState, s: Stream, running: bool, mutex: Option<Owner>, result: ReadResult)
    : Option<(StreamState, Option<Owner>)>
  {
    if x.thread.NoThread? then None
    else
      match x.thread.pc
      case Start => Some((x.Goto(if s.Video? && result.Failed? then Exited else Top), mutex)) // a frame rate of 0
      case Top => Some((x.Goto(if running then Dispatch else Exited), mutex))
      case Dispatch =>
        Some((x.Goto(match x.status case Uninitialized => Exited case Pause => Top case Running => WantLock), mutex))
      case WantLock => if mutex.Some? then None else Some((x.Goto(Read), Some(Worker(s))))
      case Read =>
        (match result
         case Failed => Some((x.(status := Pause).Goto(Release(false)), mutex))
         case Eof => Some((x.Goto(EofSeek), mutex))
         case Packet => Some((x.Goto(Release(true)), mutex)))
      case EofSeek => Some((x.(status := Pause).Goto(Release(true)), mutex))
      case Release(packet) => Some((x.Goto(if packet then Deliver else Top), None))
      case Deliver => Some((x.Goto(Top), mutex))
      case Exited => None
  }

  function WorkerNext(st: State, s: Stream, result: ReadResult): Option<State> {
    match StreamNext(st.Get(s), s, st.running, st.mutex, result)
    case None => None
    case Some((x, mutex)) => Some(st.(mutex := mutex).Put(s, x))
  }

  // ----- The control thread

  /** The start of an API call: `rk_player_set_file` and `rk_player_destroy` clear
      `thread_running` before they join. */
  function BeginNext(st: State, call: Call): Option<State> {
    if !st.control.Idle? then None
    else
      match call
      case SetFile => Some(st.(running := false).At(Joining(call, Video)))
      case Destroy => Some(st.(running := false).At(Joining(call, Video)))
      case _ => Some(st.At(Locking(call)))
  }

  function AfterJoin(call: Call, s: Stream): ControlPc {
    if s.Video? then Joining(call, Audio) else Locking(call)
  }

  /** `pthread_join` of an enabled stream: waits for the thread to exit. */
  function JoinNext(st: State, call: Call, s: Stream): Option<State> {
    var x := st.Get(s);
    if !x.enabled then Some(st.At(AfterJoin(call, s)))
    else if x.thread.NoThread? then Some(st.At(Undefined))
    else if x.thread.pc.Exited? then Some(st.Put(s, x.(thread := NoThread)).At(AfterJoin(call, s)))
    else None
  }

  /** The first step of each call once it holds the mutex. */
  function FirstLocked(call: Call): ControlPc {
    match call
    case SetFile => Teardown(call)
    case Destroy => Teardown(call)
    case Play => StatusChange(call, Video)
    case PauseCall => StatusChange(call, Video)
    case Stop => StatusChange(call, Video)
    case Seek(s) => SeekCall(call, s)
  }

  /** The new status of a stream in `rk_player_play`, `_pause` and `_stop`. */
  function NewStatus(x: StreamState, call: Call): Status {
    if !x.enabled || x.status.Uninitialized? then x.status
    else if call.Play? then Running
    else if x.status.Running? then Pause
    else x.status
  }

  function AfterStream(call: Call, s: Stream): ControlPc {
    if s.Video? then StatusChange(call, Audio) else Unlocking(call)
  }

  /** Stop rewinds every enabled stream; seek skips an uninitialised one. */
  predicate DoesSeek(st: State, call: Call, s: Stream) {
    st.Get(s).enabled && (call.Stop? || !st.Get(s).status.Uninitialized?)
  }

  predicate HasFile(st: State) {
    !st.video.status.Uninitialized? || !st.audio.status.Uninitialized?
  }

  /** The check at the top of `set_record_file_unlocked`. */
  predicate NeedsRemoval(st: State) {
    || (!st.audio.status.Uninitialized? && st.audio.enabled)
    || (!st.video.status.Uninitialized? && st.video.enabled)
  }

  function Removed(x: StreamState): StreamState {
    x.(enabled := false, status := Uninitialized)
  }

  /** Creating a pipeline for no stream cannot fail. */
  predicate PipeOk(st: State, ok: bool) {
    ok || !(st.video.enabled || st.audio.enabled)
  }

  /** The result of `pthread_create` is ignored: the status is set either way. */
  function Started(x: StreamState, ok: bool): StreamState {
    if ok then x.(status := Pause, thread := Thread(Start)) else x.(status := Pause, lost := true)
  }

  function LockNext(st: State, call: Call): Option<State> {
    if st.mutex.Some? then None else Some(st.(mutex := Some(Control)).At(FirstLocked(call)))
  }

  /** `remove_record_file_unlocked`: nothing to do when no status is set. */
  function RemoveNext(st: State, call: Call): State {
    (if HasFile(st) then st.(live := false, video := Removed(st.video), audio := Removed(st.audio)) else st)
    .At(if call.SetFile? then Init else Unlocking(call))
  }

  function InitNext(st: State, ok: bool): State {
    if NeedsRemoval(st) || !ok then st.At(Unlocking(SetFile))
    else st.(live := true, bare := false).At(Param)
  }

  function ParamNext(st: State, ok: bool, hasVideo: bool, hasAudio: bool): State {
    if !ok then st.At(InitUndo)
    else st.(video := st.video.(enabled := hasVideo), audio := st.audio.(enabled := hasAudio),
             bare := !hasVideo && !hasAudio).At(Pipe)
  }

  function PipeNext(st: State, ok: bool): State {
    if PipeOk(st, ok) then st.At(Starting(Video)) else st.(pipeFailed := true).At(Unlocking(SetFile))
  }

  /** Status, `thread_running`, then `pthread_create`. */
  function StartNext(st: State, s: Stream, ok: bool): State {
    (if st.Get(s).enabled then st.(running := true).Put(s, Started(st.Get(s), ok)) else st)
    .At(if s.Video? then Starting(Audio) else Unlocking(SetFile))
  }

  function StatusNext(st: State, call: Call, s: Stream): State {
    st.Put(s, st.Get(s).(status := NewStatus(st.Get(s), call)))
      .At(if call.Stop? then SeekCall(call, s) else AfterStream(call, s))
  }

  function SeekNext(st: State, call: Call, s: Stream): State {
    st.At(if call.Stop? then AfterStream(call, s)
          else if DoesSeek(st, call, s) then SeekRun(s)
          else Unlocking(call))
  }

  function SeekRunNext(st: State, s: Stream): State {
    st.Put(s, st.Get(s).(status := Running)).At(Unlocking(Seek(s)))
  }

  function UnlockNext(st: State, call: Call): State {
    st.(mutex := None).At(if call.Destroy? then Gone else Idle)
  }

  /** One step of the API call in progress; `None` when it has to wait or none is. */
  function ControlNext(st: State, ok: bool, hasVideo: bool, hasAudio: bool): Option<State> {
    match st.control
    case Idle => None
    case Gone => None
    case Undefined => None
    case Joining(call, s) => JoinNext(st, call, s)
    case Locking(call) => LockNext(st, call)
    case Teardown(call) => Some(st.At(Remove(call)))
    case Remove(call) => Some(RemoveNext(st, call))
    case Init => Some(InitNext(st, ok))
    case Param => Some(ParamNext(st, ok, hasVideo, hasAudio))
    case InitUndo => Some(st.(live := false).At(Unlocking(SetFile)))
    case Pipe => Some(PipeNext(st, ok))
    case Starting(s) => Some(StartNext(st, s, ok))
    case StatusChange(call, s) => Some(StatusNext(st, call, s))
    case SeekCall(call, s) => Some(SeekNext(st, call, s))
    case SeekRun(s) => Some(SeekRunNext(st, s))
    case Unlocking(call) => Some(UnlockNext(st, call))
  }

  function Next(st: State, a: Action): Option<State> {
    match a
    case Begin(call) => BeginNext(st, call)
    case ControlStep(ok, v, u) => ControlNext(st, ok, v, u)
    case WorkerStep(s, result) => WorkerNext(st, s, result)
  }

  /** The state after a run from `rk_player_create`; `None` when some action was not
      possible. */
  function Run(acts: seq<Action>): Option<State> {
    if acts == [] then Some(CREATED)
    else
      match Run(acts[..|acts| - 1])
      case None => None
      case Some(st) => Next(st, acts[|acts| - 1])
  }

  // ----- The calls on the demuxer handle of the context

  datatype DemuxerCall = DemuxInit | DemuxDeinit | DemuxParam | DemuxRead(s: Stream) | DemuxSeek(s: Stream)

  /** The call on `ctx->demuxer_handle` that an action makes, with its caller. */
  function Calls(st: State, a: Action): Option<(DemuxerCall, Owner)> {
    match a
    case Begin(_) => None
    case WorkerStep(s, _) =>
      if st.Get(s).thread.NoThread? then None
      else if st.Get(s).thread.pc.Read? then Some((DemuxRead(s), Worker(s)))
      else if st.Get(s).thread.pc.EofSeek? then Some((DemuxSeek(s), Worker(s)))
      else None
    case ControlStep(_, _, _) =>
      match st.control
      case Init => if NeedsRemoval(st) then None else Some((DemuxInit, Control))
      case Param => Some((DemuxParam, Control))
      case InitUndo => Some((DemuxDeinit, Control))
      case Remove(_) => if HasFile(st) then Some((DemuxDeinit, Control)) else None
      case SeekCall(call, s) => if DoesSeek(st, call, s) then Some((DemuxSeek(s), Control)) else None
      case _ => None
  }
}
