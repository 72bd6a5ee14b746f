/** What holds in every interleaving of the player. */
module PlayerSafety {
  import opened Options
  import opened Player

  // ----- The invariant

  predicate WorkerHolds(x: StreamState) {
    x.thread.Thread? && (x.thread.pc.Read? || x.thread.pc.EofSeek? || x.thread.pc.Release?)
  }

  predicate ControlHolds(pc: ControlPc) {
    !(pc.Idle? || pc.Joining? || pc.Locking? || pc.Gone? || pc.Undefined?)
  }

  /** The mutex is held by exactly the thread that is inside a critical section. */
  predicate MutexInv(st: State) {
    && (st.mutex == Some(Control) <==> ControlHolds(st.control))
    && (st.mutex == Some(Worker(Video)) <==> WorkerHolds(st.video))
    && (st.mutex == Some(Worker(Audio)) <==> WorkerHolds(st.audio))
  }

  predicate Rebuilds(call: Call) {
    call.SetFile? || call.Destroy?
  }

  predicate CallInv(pc: ControlPc) {
    && (pc.Joining? ==> Rebuilds(pc.call))
    && (pc.Teardown? ==> Rebuilds(pc.call))
    && (pc.Remove? ==> Rebuilds(pc.call))
    && (pc.StatusChange? ==> pc.call.Play? || pc.call.PauseCall? || pc.call.Stop?)
    && (pc.SeekCall? ==> pc.call.Stop? || pc.call == Seek(pc.s))
  }

  /** The stream is off: no thread, no status, not enabled. */
  predicate Off(x: StreamState) {
    x.thread.NoThread? && x.status.Uninitialized? && !x.enabled && !x.lost
  }

  /** The stream is on: enabled, initialised, with a thread that was not joined. */
  predicate On(x: StreamState) {
    x.thread.Thread? && !x.status.Uninitialized? && x.enabled && !x.lost
  }

  /** The stream was to be on, but its thread could not be created. */
  predicate Lost(x: StreamState) {
    x.thread.NoThread? && !x.status.Uninitialized? && x.enabled && x.lost
  }

  /** The stream was on and its thread has been joined. */
  predicate Joined(x: StreamState) {
    x.thread.NoThread? && (x.enabled <==> !x.status.Uninitialized?) && !x.lost
  }

  /** Named by the file but not started yet, or never to be started. */
  predicate Fresh(x: StreamState) {
    x.thread.NoThread? && x.status.Uninitialized? && !x.lost
  }

  predicate Settled(x: StreamState) {
    On(x) || Off(x) || Lost(x)
  }

  /** Where each stream is in its life, for every position of the control thread. */
  predicate LifeInv(st: State) {
    match st.control
    case Joining(_, Video) => LifeBetween(st)
    case Joining(_, Audio) =>
      if st.pipeFailed then Fresh(st.audio) && st.audio.enabled && Fresh(st.video)
      else Joined(st.video) && Settled(st.audio)
    case Locking(call) =>
      if Rebuilds(call) then !st.pipeFailed && Joined(st.video) && Joined(st.audio) else LifeBetween(st)
    case Teardown(_) => !st.pipeFailed && Joined(st.video) && Joined(st.audio)
    case Remove(_) => !st.pipeFailed && Joined(st.video) && Joined(st.audio)
    case Init => !st.pipeFailed && Off(st.video) && Off(st.audio)
    case Param => !st.pipeFailed && Off(st.video) && Off(st.audio)
    case InitUndo => !st.pipeFailed && Off(st.video) && Off(st.audio)
    case Pipe => !st.pipeFailed && Fresh(st.video) && Fresh(st.audio)
    case Starting(Video) => !st.pipeFailed && Fresh(st.video) && Fresh(st.audio)
    case Starting(Audio) => !st.pipeFailed && Settled(st.video) && Fresh(st.audio)
    case SeekRun(s) => !st.pipeFailed && Settled(st.video) && Settled(st.audio) && !Off(st.Get(s))
    case Unlocking(call) => if call.Destroy? then !st.pipeFailed && Off(st.video) && Off(st.audio) else LifeBetween(st)
    case Gone => !st.pipeFailed && Off(st.video) && Off(st.audio)
    case Undefined =>
      if st.pipeFailed then Fresh(st.video) && Fresh(st.audio)
      else (Settled(st.video) || Joined(st.video)) && Settled(st.audio) && (Lost(st.video) || Lost(st.audio))
    case _ => LifeBetween(st)
  }

  /** Between calls, and inside the calls that build nothing. A failed pipeline
      leaves some stream enabled with no status and no thread. */
  predicate LifeBetween(st: State) {
    if st.pipeFailed then Fresh(st.video) && Fresh(st.audio) && (st.video.enabled || st.audio.enabled)
    else Settled(st.video) && Settled(st.audio)
  }

  /** The handle is live wherever somebody may use it, and everywhere else exactly
      when the file behind it has no stream. */
  predicate HandleInv(st: State) {
    match st.control
    case Init => st.live <==> st.bare
    case Param => st.live && !st.bare
    case InitUndo => st.live && !st.bare
    case _ => && (st.video.enabled || st.audio.enabled ==> st.live && !st.bare)
              && (!st.video.enabled && !st.audio.enabled ==> (st.live <==> st.bare))
  }

  /** A packet that the thread has read, or may still read, without looking at the
      status again. */
  function Pending(t: Thread): nat {
    if t.Thread? && (t.pc.WantLock? || t.pc.Read? || t.pc.EofSeek? || t.pc.Deliver? || t.pc == Release(true)) then 1
    else 0
  }

  /** A new stream: not running, and no packet on its way. */
  predicate Untouched(x: StreamState) {
    !x.status.Running? && Pending(x.thread) == 0
  }

  /** Running, if it can run. */
  predicate Runs(x: StreamState) {
    x.enabled && !x.status.Uninitialized? ==> x.status.Running?
  }

  /** What a call has made of the streams it has visited. */
  predicate StatusSoFar(st: State) {
    match st.control
    case Starting(s) => s.Audio? ==> Untouched(st.video)
    case StatusChange(call, s) =>
      s.Audio? ==> if call.Play? then Runs(st.video) else !st.video.status.Running?
    case SeekCall(call, s) => call.Stop? ==> !st.video.status.Running? && (s.Audio? ==> !st.audio.status.Running?)
    case Unlocking(call) => StatusAfter(st, call)
    case _ => true
  }

  /** What it has made of them in the end. */
  predicate StatusAfter(st: State, call: Call) {
    match call
    case Play => Runs(st.video) && Runs(st.audio)
    case Seek(s) => Runs(st.Get(s))
    case PauseCall => !st.video.status.Running? && !st.audio.status.Running?
    case Stop => !st.video.status.Running? && !st.audio.status.Running?
    case SetFile => Untouched(st.video) && Untouched(st.audio)
    case Destroy => true
  }

  predicate Shape(st: State) {
    && MutexInv(st) && CallInv(st.control) && LifeInv(st) && HandleInv(st)
    && (st.control.Joining? ==> !st.running)
  }

  predicate Inv(st: State) {
    Shape(st) && StatusSoFar(st)
  }

  lemma CreatedInv()
    ensures Inv(CREATED)
  {
  }

  // ----- Every step keeps it

  lemma BeginInv(st: State, call: Call)
    requires Inv(st) && BeginNext(st, call).Some?
    ensures Inv(BeginNext(st, call).value)
  {
    hide Settled, Fresh;
  }

  /** What a stream thread can do to its stream in one step. */
  predicate StreamStep(x: StreamState, x': StreamState) {
    && x.thread.Thread? && x'.thread.Thread? && x'.enabled == x.enabled && x'.lost == x.lost
    && (x'.status == x.status || (x'.status.Pause? && WorkerHolds(x)))
    && (Untouched(x) ==> Untouched(x'))
  }

  /** What it can do to the mutex: take it when it is free, give back its own. */
  predicate MutexStep(s: Stream, mutex: Option<Owner>, mutex': Option<Owner>) {
    || mutex' == mutex
    || (mutex.None? && mutex' == Some(Worker(s)))
    || (mutex == Some(Worker(s)) && mutex'.None?)
  }

  lemma StreamSteps(x: StreamState, s: Stream, running: bool, mutex: Option<Owner>, result: ReadResult)
    requires StreamNext(x, s, running, mutex, result).Some?
    ensures StreamStep(x, StreamNext(x, s, running, mutex, result).value.0)
  {
  }

  lemma MutexSteps(x: StreamState, s: Stream, running: bool, mutex: Option<Owner>, result: ReadResult)
    requires StreamNext(x, s, running, mutex, result).Some?
    requires mutex == Some(Worker(s)) <==> WorkerHolds(x)
    ensures var r := StreamNext(x, s, running, mutex, result).value;
            MutexStep(s, mutex, r.1) && (r.1 == Some(Worker(s)) <==> WorkerHolds(r.0))
  {
  }

  lemma WorkerMutex(st: State, s: Stream, result: ReadResult)
    requires MutexInv(st) && WorkerNext(st, s, result).Some?
    ensures MutexInv(WorkerNext(st, s, result).value)
  {
    MutexSteps(st.Get(s), s, st.running, st.mutex, result);
    hide StreamNext, WorkerHolds, ControlHolds;
  }

  lemma WorkerLife(st: State, s: Stream, result: ReadResult)
    requires LifeInv(st) && HandleInv(st) && WorkerNext(st, s, result).Some?
    ensures LifeInv(WorkerNext(st, s, result).value) && HandleInv(WorkerNext(st, s, result).value)
  {
    StreamSteps(st.Get(s), s, st.running, st.mutex, result);
    hide StreamNext, WorkerHolds, Untouched;
  }

  lemma WorkerStatus(st: State, s: Stream, result: ReadResult)
    requires MutexInv(st) && StatusSoFar(st) && WorkerNext(st, s, result).Some?
    ensures StatusSoFar(WorkerNext(st, s, result).value)
  {
    hide StreamNext, Untouched;
    StreamSteps(st.Get(s), s, st.running, st.mutex, result);
  }

  lemma WorkerInv(st: State, s: Stream, result: ReadResult)
    requires Inv(st) && WorkerNext(st, s, result).Some?
    ensures Inv(WorkerNext(st, s, result).value)
  {
    WorkerMutex(st, s, result);
    WorkerLife(st, s, result);
    WorkerStatus(st, s, result);
    hide StreamNext, StatusSoFar, MutexInv, LifeInv, HandleInv;
  }

  // The control thread, one position at a time.

  lemma JoinVideoInv(st: State, call: Call)
    requires Inv(st) && st.control == Joining(call, Video) && JoinNext(st, call, Video).Some?
    ensures Inv(JoinNext(st, call, Video).value)
  {
  }

  lemma JoinAudioInv(st: State, call: Call)
    requires Inv(st) && st.control == Joining(call, Audio) && JoinNext(st, call, Audio).Some?
    ensures Inv(JoinNext(st, call, Audio).value)
  {
  }

  lemma LockInv(st: State, call: Call)
    requires Inv(st) && st.control == Locking(call) && LockNext(st, call).Some?
    ensures Inv(LockNext(st, call).value)
  {
  }

  lemma RemoveInv(st: State, call: Call)
    requires Inv(st) && st.control == Remove(call)
    ensures Inv(RemoveNext(st, call))
  {
  }

  lemma InitInv(st: State, ok: bool)
    requires Inv(st) && st.control.Init?
    ensures Inv(InitNext(st, ok))
  {
  }

  lemma ParamInv(st: State, ok: bool, v: bool, u: bool)
    requires Inv(st) && st.control.Param?
    ensures Inv(ParamNext(st, ok, v, u))
  {
  }

  lemma PipeInv(st: State, ok: bool)
    requires Inv(st) && st.control.Pipe?
    ensures Inv(PipeNext(st, ok))
  {
  }

  lemma StartInv(st: State, s: Stream, ok: bool)
    requires Inv(st) && st.control == Starting(s)
    ensures Inv(StartNext(st, s, ok))
  {
  }

  lemma StatusInv(st: State, call: Call, s: Stream)
    requires Inv(st) && st.control == StatusChange(call, s)
    ensures Inv(StatusNext(st, call, s))
  {
  }

  lemma SeekInv(st: State, call: Call, s: Stream)
    requires Inv(st) && st.control == SeekCall(call, s)
    ensures Inv(SeekNext(st, call, s))
  {
  }

  lemma SeekRunInv(st: State, s: Stream)
    requires Inv(st) && st.control == SeekRun(s)
    ensures Inv(SeekRunNext(st, s))
  {
  }

  lemma UnlockInv(st: State, call: Call)
    requires Inv(st) && st.control == Unlocking(call)
    ensures Inv(UnlockNext(st, call))
  {
  }

  /** The two steps that only change the position and, in one, drop the handle. */
  lemma PlainInv(st: State)
    requires Inv(st)
    ensures st.control.Teardown? ==> Inv(st.At(Remove(st.control.call)))
    ensures st.control.InitUndo? ==> Inv(st.(live := false).At(Unlocking(SetFile)))
  {
  }

  lemma ControlInv(st: State, ok: bool, v: bool, u: bool)
    requires Inv(st) && ControlNext(st, ok, v, u).Some?
    ensures Inv(ControlNext(st, ok, v, u).value)
  {
    hide Inv, JoinNext, LockNext, RemoveNext, InitNext, ParamNext, PipeNext, StartNext, StatusNext, SeekNext,
         SeekRunNext, UnlockNext;
    match st.control {
      case Joining(call, Video) => JoinVideoInv(st, call);
      case Joining(call, Audio) => JoinAudioInv(st, call);
      case Locking(call) => LockInv(st, call);
      case Teardown(_) => PlainInv(st);
      case Remove(call) => RemoveInv(st, call);
      case Init => InitInv(st, ok);
      case Param => ParamInv(st, ok, v, u);
      case InitUndo => PlainInv(st);
      case Pipe => PipeInv(st, ok);
      case Starting(s) => StartInv(st, s, ok);
      case StatusChange(call, s) => StatusInv(st, call, s);
      case SeekCall(call, s) => SeekInv(st, call, s);
      case SeekRun(s) => SeekRunInv(st, s);
      case Unlocking(call) => UnlockInv(st, call);
    }
  }

  // ----- Every run

  lemma NextInv(st: State, a: Action)
    requires Inv(st) && Next(st, a).Some?
    ensures Inv(Next(st, a).value)
  {
    hide Inv, BeginNext, ControlNext, WorkerNext;
    match a {
      case Begin(call) => BeginInv(st, call);
      case ControlStep(ok, v, u) => ControlInv(st, ok, v, u);
      case WorkerStep(s, result) => WorkerInv(st, s, result);
    }
  }

  /** Every state that any run reaches satisfies the invariant. */
  lemma {:induction false} RunInv(acts: seq<Action>)
    requires Run(acts).Some?
    ensures Inv(Run(acts).value)
  {
    if acts == [] {
      CreatedInv();
    } else {
      hide Inv, Next;
      RunInv(acts[..|acts| - 1]);
      NextInv(Run(acts[..|acts| - 1]).value, acts[|acts| - 1]);
    }
  }

  /** In every interleaving, each call on the demuxer handle of the context is made
      with the mutex held by the caller and, but for the init itself, between a
      successful init and its deinit. */
  lemma DemuxerCallsSafe(acts: seq<Action>, a: Action)
    requires Run(acts).Some? && Next(Run(acts).value, a).Some?
    ensures var st := Run(acts).value;
            match Calls(st, a)
            case None => true
            case Some((call, caller)) => st.mutex == Some(caller) && (call.DemuxInit? || st.live)
  {
    hide Run, Next, StatusSoFar;
    RunInv(acts);
  }

  // What the steps of the control thread do to the handle.

  predicate Keeps(st: State, st': State) {
    st'.live == st.live
  }

  lemma SetupTracks(st: State, call: Call, ok: bool, v: bool, u: bool)
    ensures RemoveNext(st, call).live == (st.live && !HasFile(st))
    ensures InitNext(st, ok).live == (st.live || (ok && !NeedsRemoval(st)))
    ensures Keeps(st, ParamNext(st, ok, v, u)) && Keeps(st, PipeNext(st, ok))
  {
  }

  lemma StatusTracks(st: State, call: Call, s: Stream, ok: bool)
    ensures Keeps(st, StartNext(st, s, ok)) && Keeps(st, StatusNext(st, call, s))
    ensures Keeps(st, SeekNext(st, call, s)) && Keeps(st, SeekRunNext(st, s))
  {
    hide NewStatus, DoesSeek;
  }

  lemma JoinTracks(st: State, call: Call, s: Stream)
    requires JoinNext(st, call, s).Some?
    ensures Keeps(st, JoinNext(st, call, s).value)
  {
    hide AfterJoin;
  }

  lemma CallTracks(st: State, call: Call)
    ensures Keeps(st, UnlockNext(st, call))
    ensures LockNext(st, call).Some? ==> Keeps(st, LockNext(st, call).value)
  {
    hide FirstLocked;
  }

  lemma ControlTracks(st: State, ok: bool, v: bool, u: bool)
    requires ControlNext(st, ok, v, u).Some?
    ensures var st' := ControlNext(st, ok, v, u).value;
            st'.live == match Calls(st, ControlStep(ok, v, u))
                        case Some((DemuxInit, _)) => ok || st.live
                        case Some((DemuxDeinit, _)) => false
                        case _ => st.live
  {
    hide JoinNext, LockNext, RemoveNext, InitNext, ParamNext, PipeNext, StartNext, StatusNext, SeekNext,
         SeekRunNext, UnlockNext, HasFile, NeedsRemoval, DoesSeek;
    match st.control {
      case Joining(call, s) => JoinTracks(st, call, s);
      case Locking(call) => CallTracks(st, call);
      case Teardown(_) =>
      case Remove(call) => SetupTracks(st, call, ok, v, u);
      case Init => SetupTracks(st, SetFile, ok, v, u);
      case Param => SetupTracks(st, SetFile, ok, v, u);
      case InitUndo =>
      case Pipe => SetupTracks(st, SetFile, ok, v, u);
      case Starting(s) => StatusTracks(st, SetFile, s, ok);
      case StatusChange(call, s) => StatusTracks(st, call, s, ok);
      case SeekCall(call, s) => StatusTracks(st, call, s, ok);
      case SeekRun(s) => StatusTracks(st, SetFile, s, ok);
      case Unlocking(call) => CallTracks(st, call);
    }
  }

  /** The handle becomes live exactly by a successful init and stops being live exactly
      by a deinit. */
  lemma LiveTracksCalls(st: State, a: Action)
    requires Next(st, a).Some?
    ensures Next(st, a).value.live ==
            match Calls(st, a)
            case Some((DemuxInit, _)) => a.ok || st.live
            case Some((DemuxDeinit, _)) => false
            case _ => st.live
  {
    hide ControlNext, StreamNext;
    if a.ControlStep? {
      ControlTracks(st, a.ok, a.hasVideo, a.hasAudio);
    }
  }

  /** Between calls a stream is enabled exactly when its status is set and exactly
      when it has a thread that was created and not joined. */
  predicate InStep(x: StreamState) {
    && (x.enabled <==> !x.status.Uninitialized?)
    && (x.enabled <==> x.thread.Thread?)
  }

  /** Some part of what the stream needs could not be created. */
  predicate Broken(st: State, s: Stream) {
    st.Get(s).lost || (st.pipeFailed && st.Get(s).enabled)
  }

  // What the two flags of `Broken` record.

  /** The step is a pipeline that cannot be created. */
  predicate PipeFails(st: State, a: Action) {
    st.control.Pipe? && a.ControlStep? && !PipeOk(st, a.ok)
  }

  /** The step is a thread of `s` that cannot be created. */
  predicate ThreadFails(st: State, a: Action, s: Stream) {
    st.control == Starting(s) && a.ControlStep? && st.Get(s).enabled && !a.ok
  }

  predicate FlagsStay(st: State, st': State) {
    st'.pipeFailed == st.pipeFailed && st'.video.lost == st.video.lost && st'.audio.lost == st.audio.lost
  }

  lemma SetupFlags(st: State, call: Call, ok: bool, v: bool, u: bool)
    ensures FlagsStay(st, RemoveNext(st, call)) && FlagsStay(st, InitNext(st, ok))
    ensures FlagsStay(st, ParamNext(st, ok, v, u))
    ensures FlagsStay(st.(pipeFailed := st.pipeFailed || !PipeOk(st, ok)), PipeNext(st, ok))
  {
    hide PipeOk, HasFile, NeedsRemoval;
  }

  lemma StatusFlags(st: State, call: Call, s: Stream)
    ensures FlagsStay(st, StatusNext(st, call, s)) && FlagsStay(st, SeekNext(st, call, s))
    ensures FlagsStay(st, SeekRunNext(st, s))
  {
    hide NewStatus, DoesSeek;
  }

  lemma StartFlags(st: State, s: Stream, ok: bool)
    ensures var st', lost := StartNext(st, s, ok), st.Get(s).enabled && !ok;
            && st'.pipeFailed == st.pipeFailed
            && st'.video.lost == (st.video.lost || (lost && s.Video?))
            && st'.audio.lost == (st.audio.lost || (lost && s.Audio?))
  {
  }

  lemma JoinFlags(st: State, call: Call, s: Stream)
    requires JoinNext(st, call, s).Some?
    ensures FlagsStay(st, JoinNext(st, call, s).value)
  {
    hide AfterJoin;
  }

  lemma CallFlags(st: State, call: Call)
    ensures FlagsStay(st, UnlockNext(st, call))
    ensures LockNext(st, call).Some? ==> FlagsStay(st, LockNext(st, call).value)
  {
    hide FirstLocked;
  }

  lemma ControlFlags(st: State, ok: bool, v: bool, u: bool)
    requires ControlNext(st, ok, v, u).Some?
    ensures var st', a := ControlNext(st, ok, v, u).value, ControlStep(ok, v, u);
            && st'.pipeFailed == (st.pipeFailed || PipeFails(st, a))
            && st'.video.lost == (st.video.lost || ThreadFails(st, a, Video))
            && st'.audio.lost == (st.audio.lost || ThreadFails(st, a, Audio))
  {
    hide JoinNext, LockNext, RemoveNext, InitNext, ParamNext, PipeNext, StartNext, StatusNext, SeekNext,
         SeekRunNext, UnlockNext, PipeOk;
    match st.control {
      case Joining(call, s) => JoinFlags(st, call, s);
      case Locking(call) => CallFlags(st, call);
      case Teardown(_) =>
      case Remove(call) => SetupFlags(st, call, ok, v, u);
      case Init => SetupFlags(st, SetFile, ok, v, u);
      case Param => SetupFlags(st, SetFile, ok, v, u);
      case InitUndo =>
      case Pipe => SetupFlags(st, SetFile, ok, v, u);
      case Starting(s) => StartFlags(st, s, ok);
      case StatusChange(call, s) => StatusFlags(st, call, s);
      case SeekCall(call, s) => StatusFlags(st, call, s);
      case SeekRun(s) => StatusFlags(st, SetFile, s);
      case Unlocking(call) => CallFlags(st, call);
    }
  }

  /** The two flags record failures, and nothing else changes them. */
  lemma FlagsTrack(st: State, a: Action, s: Stream)
    requires Next(st, a).Some?
    ensures var st' := Next(st, a).value;
            && st'.pipeFailed == (st.pipeFailed || PipeFails(st, a))
            && st'.Get(s).lost == (st.Get(s).lost || ThreadFails(st, a, s))
  {
    hide ControlNext, StreamNext, PipeOk;
    if a.ControlStep? {
      ControlFlags(st, a.ok, a.hasVideo, a.hasAudio);
    } else if a.WorkerStep? {
      StreamSteps(st.Get(a.s), a.s, st.running, st.mutex, a.result);
    }
  }

  /** Action `i` of the run is a pipeline, or a thread of `s`, that cannot be created. */
  predicate PipeFailsAt(acts: seq<Action>, i: nat) {
    i < |acts| && Run(acts[..i]).Some? && PipeFails(Run(acts[..i]).value, acts[i])
  }

  predicate ThreadFailsAt(acts: seq<Action>, i: nat, s: Stream) {
    i < |acts| && Run(acts[..i]).Some? && ThreadFails(Run(acts[..i]).value, acts[i], s)
  }

  /** Failures of a run are those of the run before its last action, and the last one. */
  lemma FailuresSplit(acts: seq<Action>, i: nat, s: Stream)
    requires acts != [] && Run(acts[..|acts| - 1]).Some?
    ensures var init, last := acts[..|acts| - 1], |acts| - 1;
            if i == last then
              && PipeFailsAt(acts, i) == PipeFails(Run(init).value, acts[last]) && !PipeFailsAt(init, i)
              && ThreadFailsAt(acts, i, s) == ThreadFails(Run(init).value, acts[last], s) && !ThreadFailsAt(init, i, s)
            else
              PipeFailsAt(acts, i) == PipeFailsAt(init, i) && ThreadFailsAt(acts, i, s) == ThreadFailsAt(init, i, s)
  {
    hide Run, PipeFails, ThreadFails;
    if i < |acts| - 1 {
      assert acts[..|acts| - 1][..i] == acts[..i];
    }
  }

  /** The flags hold exactly when some action of the run failed. */
  lemma {:induction false} FlagsAreHistory(acts: seq<Action>, s: Stream)
    requires Run(acts).Some?
    ensures Run(acts).value.pipeFailed <==> exists i :: PipeFailsAt(acts, i)
    ensures Run(acts).value.Get(s).lost <==> exists i :: ThreadFailsAt(acts, i, s)
  {
    if acts == [] {
      return;
    }
    var init, last := acts[..|acts| - 1], |acts| - 1;
    FlagsAreHistory(init, s);
    FlagsTrack(Run(init).value, acts[last], s);
    hide Next, PipeFails, ThreadFails, PipeFailsAt, ThreadFailsAt;
    FailuresSplit(acts, last, s);
    if i: nat :| PipeFailsAt(init, i) {
      FailuresSplit(acts, i, s);
    }
    if i: nat :| PipeFailsAt(acts, i) {
      FailuresSplit(acts, i, s);
    }
    if i: nat :| ThreadFailsAt(init, i, s) {
      FailuresSplit(acts, i, s);
    }
    if i: nat :| ThreadFailsAt(acts, i, s) {
      FailuresSplit(acts, i, s);
    }
  }

  /** The equivalence holds for a stream between calls exactly in the runs in which
      the pipeline of the current file, when it names the stream, and the thread of
      the stream were created. */
  lemma InStepIffBuilt(acts: seq<Action>, s: Stream)
    requires Run(acts).Some? && Run(acts).value.control.Idle?
    ensures InStep(Run(acts).value.Get(s)) <==> !Broken(Run(acts).value, s)
  {
    hide Run, StatusSoFar;
    RunInv(acts);
  }

  /** A join targets a thread that does not exist, or was joined before, exactly when
      the pipeline or the thread of the stream could not be created. */
  lemma JoinsAreSound(acts: seq<Action>, a: Action)
    requires Run(acts).Some? && Next(Run(acts).value, a).Some?
    requires Run(acts).value.control.Joining? && a.ControlStep?
    ensures var st := Run(acts).value;
            Next(st, a).value.control.Undefined? <==> Broken(st, st.control.s)
  {
    hide Run, StatusSoFar;
    RunInv(acts);
  }

  /** A stream thread never sees the status UNINITIALIZED. */
  lemma ThreadsSeeAStatus(acts: seq<Action>, s: Stream)
    requires Run(acts).Some? && Run(acts).value.Get(s).thread.Thread?
    ensures !Run(acts).value.Get(s).status.Uninitialized?
  {
    hide Run, StatusSoFar;
    RunInv(acts);
  }

  /** An init overwrites a live handle exactly when the file behind it is bare. */
  lemma InitOverwritesIffBare(acts: seq<Action>)
    requires Run(acts).Some? && Run(acts).value.control.Init?
    ensures Run(acts).value.live <==> Run(acts).value.bare
  {
    hide Run, StatusSoFar;
    RunInv(acts);
  }

  /** Once `rk_player_destroy` has returned, the demuxer handle is still live exactly
      when the file behind it has neither a video nor an audio codec. */
  lemma ReleasedUnlessBare(acts: seq<Action>)
    requires Run(acts).Some? && Run(acts).value.control.Gone?
    ensures Run(acts).value.live <==> Run(acts).value.bare
  {
    hide Run, StatusSoFar;
    RunInv(acts);
  }

  // ----- Calls get through

  /** How many steps a thread can still take once `thread_running` is false. */
  function Remaining(x: StreamState): nat {
    if x.thread.NoThread? then 0
    else
      match x.thread.pc
      case Dispatch => 8
      case WantLock => 7
      case Read => 6
      case EofSeek => 5
      case Release(_) => 4
      case Deliver => 3
      case Start => 2
      case Top => 1
      case Exited => 0
  }

  /** While a call waits in `pthread_join`, every step of a stream thread brings the
      threads closer to their exit, so they can take at most 16 more. */
  lemma JoinWaitsBounded(acts: seq<Action>, s: Stream, result: ReadResult)
    requires Run(acts).Some? && Run(acts).value.control.Joining?
    requires Next(Run(acts).value, WorkerStep(s, result)).Some?
    ensures var st := Run(acts).value;
            var st' := Next(st, WorkerStep(s, result)).value;
            && st'.control == st.control
            && Remaining(st'.video) + Remaining(st'.audio) < Remaining(st.video) + Remaining(st.audio)
  {
    hide Run, StatusSoFar;
    RunInv(acts);
  }

  /** How many steps the holder of the mutex still takes with it. */
  function Held(x: StreamState): nat {
    if x.thread.NoThread? then 0
    else
      match x.thread.pc
      case Read => 3
      case EofSeek => 2
      case Release(_) => 1
      case _ => 0
  }

  lemma HolderSteps(x: StreamState, s: Stream, running: bool, mutex: Option<Owner>, result: ReadResult)
    requires WorkerHolds(x)
    ensures 1 <= Held(x) <= 3 && StreamNext(x, s, running, mutex, result).Some?
    ensures var r := StreamNext(x, s, running, mutex, result).value;
            if Held(x) == 1 then r.1.None? else r.1 == mutex && Held(r.0) < Held(x)
  {
  }

  lemma HolderIs(st: State, s: Stream)
    requires MutexInv(st)
    ensures st.mutex == Some(Worker(s)) <==> WorkerHolds(st.Get(s))
    ensures st.mutex.None? ==> !WorkerHolds(st.Get(s))
  {
  }

  /** A stream thread that holds the mutex can always step, and gives it back after at
      most three steps of its own. */
  lemma HolderReleases(acts: seq<Action>, s: Stream, result: ReadResult)
    requires Run(acts).Some? && Run(acts).value.mutex == Some(Worker(s))
    ensures var st := Run(acts).value;
            && 1 <= Held(st.Get(s)) <= 3 && Next(st, WorkerStep(s, result)).Some?
            && var st' := Next(st, WorkerStep(s, result)).value;
               if Held(st.Get(s)) == 1 then st'.mutex.None?
               else st'.mutex == st.mutex && Held(st'.Get(s)) < Held(st.Get(s))
  {
    RunInv(acts);
    var st := Run(acts).value;
    HolderIs(st, s);
    HolderSteps(st.Get(s), s, st.running, st.mutex, result);
    hide Run, Inv, StreamNext, Held;
  }

  /** Nobody else can take the mutex from it or make it hold it longer. */
  lemma HolderUndisturbed(acts: seq<Action>, s: Stream, a: Action)
    requires Run(acts).Some? && Run(acts).value.mutex == Some(Worker(s))
    requires Next(Run(acts).value, a).Some? && !(a.WorkerStep? && a.s == s)
    ensures var st, st' := Run(acts).value, Next(Run(acts).value, a).value;
            st'.mutex == st.mutex && st'.Get(s).thread == st.Get(s).thread
  {
    RunInv(acts);
    var st := Run(acts).value;
    HolderIs(st, s);
    if a.WorkerStep? {
      HolderIs(st, a.s);
      MutexSteps(st.Get(a.s), a.s, st.running, st.mutex, a.result);
    }
    hide Run, LifeInv, HandleInv, StatusSoFar, StreamNext, CallInv;
  }

  /** The thread that a call in progress waits for: the holder of the mutex, or the
      thread to be joined. */
  predicate WaitsFor(st: State, s: Stream) {
    || (st.control.Locking? && st.mutex == Some(Worker(s)))
    || (st.control.Joining? && st.control.s == s && st.Get(s).thread.Thread? && !st.Get(s).thread.pc.Exited?)
  }

  /** A call in progress can step, or it waits for a stream thread. That thread can
      step whatever the demuxer answers, unless it waits itself for the mutex, which
      the other stream thread holds; then the other one can. */
  lemma CallsNeverStuck(acts: seq<Action>, a: Action, result: ReadResult)
    requires Run(acts).Some? && a.ControlStep?
    requires var pc := Run(acts).value.control; !(pc.Idle? || pc.Gone? || pc.Undefined?)
    ensures var st := Run(acts).value;
            || Next(st, a).Some?
            || exists s :: WaitsFor(st, s)
                 && (Next(st, WorkerStep(s, result)).Some?
                     || exists t :: st.mutex == Some(Worker(t)) && Next(st, WorkerStep(t, result)).Some?)
  {
    hide Run, StatusSoFar;
    RunInv(acts);
    var st := Run(acts).value;
    if Next(st, a).None? {
      var s := if st.control.Joining? then st.control.s else st.mutex.value.s;
      assert WaitsFor(st, s);
      if st.mutex.Some? {
        HolderReleases(acts, st.mutex.value.s, result);
      }
    }
  }

  /** Once `rk_player_destroy` has returned there is no stream thread, and nothing can
      happen any more: nobody touches the context that was freed. */
  lemma DestroyedIsFinal(acts: seq<Action>, a: Action)
    requires Run(acts).Some? && Run(acts).value.control.Gone?
    ensures var st := Run(acts).value;
            && st.video.thread.NoThread? && st.audio.thread.NoThread? && st.mutex.None?
            && Next(st, a).None?
  {
    hide Run, StatusSoFar;
    RunInv(acts);
    match Run(acts).value.mutex {
      case Some(Worker(Video)) =>
      case Some(Worker(Audio)) =>
      case _ =>
    }
  }
}
