/** When a stream delivers packets and when it is silent: what pause, stop, play, seek
    and set_file have done once they have returned, in every run. */
module PlayerSound {
  import opened Options
  import opened Player
  import opened PlayerSafety

  // ----- Deliveries

  /** The action hands a packet of `s` to its decoder. */
  predicate Delivers(st: State, a: Action, s: Stream) {
    a.WorkerStep? && a.s == s && st.Get(s).thread == Thread(Deliver)
  }

  /** The deliveries of `s` in a run, from action `from` on. */
  function Deliveries(acts: seq<Action>, from: nat, s: Stream): nat {
    if |acts| <= from then 0
    else
      var init, a := acts[..|acts| - 1], acts[|acts| - 1];
      Deliveries(init, from, s) + if Run(init).Some? && Delivers(Run(init).value, a, s) then 1 else 0
  }

  /** Action `i` is the return of an API call. */
  predicate Returns(acts: seq<Action>, i: nat, call: Call) {
    i < |acts| && acts[i].ControlStep? && Run(acts[..i]).Some? && Run(acts[..i]).value.control == Unlocking(call)
  }

  lemma AfterAction(acts: seq<Action>, i: nat)
    requires i < |acts| && Run(acts[..i]).Some?
    ensures Run(acts[..i + 1]) == Next(Run(acts[..i]).value, acts[i])
  {
    assert acts[..i + 1][..i] == acts[..i];
  }

  /** A run that goes on was possible up to every point of it. */
  lemma {:induction false} RunPrefix(acts: seq<Action>, i: nat)
    requires i <= |acts| && Run(acts).Some?
    ensures Run(acts[..i]).Some?
  {
    if i == |acts| {
      assert acts[..i] == acts;
    } else {
      assert acts[..|acts| - 1][..i] == acts[..i];
      RunPrefix(acts[..|acts| - 1], i);
    }
  }

  // ----- Silence

  predicate Wakes(call: Call, s: Stream) {
    call.Play? || (call.Seek? && call.s == s)
  }

  /** A play, or a seek of `s`, is in progress. */
  predicate Waking(pc: ControlPc, s: Stream) {
    match pc
    case Locking(call) => Wakes(call, s)
    case StatusChange(call, _) => Wakes(call, s)
    case SeekCall(call, _) => Wakes(call, s)
    case SeekRun(q) => q == s
    case Unlocking(call) => Wakes(call, s)
    case _ => false
  }

  /** The action starts a play, or a seek of `s`. */
  predicate Wakeup(a: Action, s: Stream) {
    a == Begin(Play) || a == Begin(Seek(s))
  }

  /** The stream is not running, and nobody is about to make it run. */
  predicate Silent(st: State, s: Stream) {
    !st.Get(s).status.Running? && !Waking(st.control, s)
  }

  lemma StreamSpends(x: StreamState, s: Stream, running: bool, mutex: Option<Owner>, result: ReadResult)
    requires StreamNext(x, s, running, mutex, result).Some? && !x.status.Running?
    ensures var x' := StreamNext(x, s, running, mutex, result).value.0;
            && !x'.status.Running?
            && Pending(x'.thread) + (if x.thread == Thread(Deliver) then 1 else 0) <= Pending(x.thread)
  {
  }

  /** The stream stays silent, and no packet of it comes on its way. */
  predicate Spends(st: State, st': State, s: Stream) {
    Silent(st', s) && Pending(st'.Get(s).thread) <= Pending(st.Get(s).thread)
  }

  lemma RemoveSpends(st: State, s: Stream, call: Call)
    requires Silent(st, s) && Rebuilds(call)
    ensures Spends(st, RemoveNext(st, call), s)
  {
    hide HasFile, Pending;
  }

  lemma SetupSpends(st: State, s: Stream, ok: bool, v: bool, u: bool)
    requires Silent(st, s)
    ensures Spends(st, InitNext(st, ok), s) && Spends(st, ParamNext(st, ok, v, u), s) && Spends(st, PipeNext(st, ok), s)
  {
    hide PipeOk, NeedsRemoval, Pending;
  }

  lemma StartSpends(st: State, s: Stream, q: Stream, ok: bool)
    requires Silent(st, s) && st.Get(q).thread.NoThread?
    ensures Spends(st, StartNext(st, q, ok), s)
  {
  }

  lemma StatusSpends(st: State, s: Stream, call: Call, q: Stream)
    requires Silent(st, s) && (call.PauseCall? || call.Stop?)
    ensures Spends(st, StatusNext(st, call, q), s)
  {
  }

  lemma SeekSpends(st: State, s: Stream, call: Call, q: Stream)
    requires Silent(st, s) && (call.Stop? || (call == Seek(q) && q != s))
    ensures Spends(st, SeekNext(st, call, q), s) && (q != s ==> Spends(st, SeekRunNext(st, q), s))
  {
    hide DoesSeek;
  }

  lemma JoinSpends(st: State, s: Stream, call: Call, q: Stream)
    requires Silent(st, s) && Rebuilds(call) && JoinNext(st, call, q).Some?
    ensures Spends(st, JoinNext(st, call, q).value, s)
  {
    hide AfterJoin;
    assert !Waking(AfterJoin(call, q), s) by {
      AfterJoinIs(call, q);
    }
  }

  lemma AfterJoinIs(call: Call, q: Stream)
    ensures AfterJoin(call, q) == if q.Video? then Joining(call, Audio) else Locking(call)
  {
  }

  lemma CallSpends(st: State, s: Stream, call: Call)
    requires Silent(st, s) && !Wakes(call, s)
    ensures Spends(st, UnlockNext(st, call), s)
    ensures LockNext(st, call).Some? ==> Spends(st, LockNext(st, call).value, s)
  {
  }

  lemma ControlSpends(st: State, s: Stream, ok: bool, v: bool, u: bool)
    requires Inv(st) && ControlNext(st, ok, v, u).Some? && Silent(st, s)
    ensures Spends(st, ControlNext(st, ok, v, u).value, s)
  {
    hide MutexInv, HandleInv, StatusSoFar, Spends, JoinNext, LockNext, RemoveNext, InitNext, ParamNext, PipeNext,
         StartNext, StatusNext, SeekNext, SeekRunNext, UnlockNext;
    match st.control {
      case Joining(call, q) => JoinSpends(st, s, call, q);
      case Locking(call) => CallSpends(st, s, call);
      case Teardown(call) => PlainSpends(st, s);
      case Remove(call) => RemoveSpends(st, s, call);
      case Init => SetupSpends(st, s, ok, v, u);
      case Param => SetupSpends(st, s, ok, v, u);
      case InitUndo => PlainSpends(st, s);
      case Pipe => SetupSpends(st, s, ok, v, u);
      case Starting(q) => StartSpends(st, s, q, ok);
      case StatusChange(call, q) => StatusSpends(st, s, call, q);
      case SeekCall(call, q) => SeekSpends(st, s, call, q);
      case SeekRun(q) => SeekSpends(st, s, Seek(q), q);
      case Unlocking(call) => CallSpends(st, s, call);
    }
  }

  lemma PlainSpends(st: State, s: Stream)
    requires Silent(st, s)
    ensures st.control.Teardown? ==> Spends(st, st.At(Remove(st.control.call)), s)
    ensures Spends(st, st.(live := false).At(Unlocking(SetFile)), s)
  {
  }

  /** Every step keeps a silent stream silent, and every delivery spends a packet that
      was already on its way. */
  lemma SilentStep(st: State, a: Action, s: Stream)
    requires Inv(st) && Next(st, a).Some? && Silent(st, s) && !Wakeup(a, s)
    ensures var st' := Next(st, a).value;
            && Silent(st', s)
            && Pending(st'.Get(s).thread) + (if Delivers(st, a, s) then 1 else 0) <= Pending(st.Get(s).thread)
  {
    hide Inv, ControlNext, StreamNext;
    match a {
      case Begin(_) =>
      case ControlStep(ok, v, u) => ControlSpends(st, s, ok, v, u);
      case WorkerStep(q, result) =>
        if q == s {
          StreamSpends(st.Get(s), s, st.running, st.mutex, result);
        }
    }
  }

  /** A silent stream stays silent until the next play or seek of it, and delivers no
      more than was on its way. */
  lemma {:induction false} SilentRun(acts: seq<Action>, from: nat, s: Stream)
    requires from <= |acts| && Run(acts).Some?
    requires Run(acts[..from]).Some? && Silent(Run(acts[..from]).value, s)
    requires forall j :: from <= j < |acts| ==> !Wakeup(acts[j], s)
    ensures Silent(Run(acts).value, s)
    ensures Deliveries(acts, from, s) + Pending(Run(acts).value.Get(s).thread) <=
            Pending(Run(acts[..from]).value.Get(s).thread)
  {
    if from == |acts| {
      assert acts[..from] == acts;
      return;
    }
    hide Next, Wakeup, Delivers, Silent, Inv, Pending;
    var init, a := acts[..|acts| - 1], acts[|acts| - 1];
    assert init[..from] == acts[..from];
    SilentRun(init, from, s);
    RunInv(init);
    SilentStep(Run(init).value, a, s);
  }

  /** What a pause, a stop or a set_file leaves behind. */
  lemma LeavesSilent(acts: seq<Action>, i: nat, call: Call, s: Stream)
    requires Run(acts).Some? && Returns(acts, i, call) && (call.PauseCall? || call.Stop? || call.SetFile?)
    ensures Run(acts[..i + 1]).Some? && Silent(Run(acts[..i + 1]).value, s)
    ensures call.SetFile? ==> Pending(Run(acts[..i + 1]).value.Get(s).thread) == 0
  {
    AfterAction(acts, i);
    RunPrefix(acts, i + 1);
    hide Run, Shape;
    RunInv(acts[..i]);
  }

  lemma AtMostOnePending(t: Thread)
    ensures Pending(t) <= 1
  {
  }

  /** After any `rk_player_pause` has returned, and until the next play or seek of the
      stream, the stream does not run and delivers at most one packet, in every
      interleaving and whatever pauses, stops and files come in between. */
  lemma PauseIsQuiet(acts: seq<Action>, i: nat, s: Stream)
    requires Run(acts).Some? && Returns(acts, i, PauseCall)
    requires forall j :: i < j < |acts| ==> !Wakeup(acts[j], s)
    ensures Deliveries(acts, i + 1, s) <= 1 && !Run(acts).value.Get(s).status.Running?
  {
    LeavesSilent(acts, i, PauseCall, s);
    hide Run, Deliveries, Wakeup, Pending;
    SilentRun(acts, i + 1, s);
    AtMostOnePending(Run(acts[..i + 1]).value.Get(s).thread);
  }

  /** The same after any `rk_player_stop`. */
  lemma StopIsQuiet(acts: seq<Action>, i: nat, s: Stream)
    requires Run(acts).Some? && Returns(acts, i, Stop)
    requires forall j :: i < j < |acts| ==> !Wakeup(acts[j], s)
    ensures Deliveries(acts, i + 1, s) <= 1 && !Run(acts).value.Get(s).status.Running?
  {
    LeavesSilent(acts, i, Stop, s);
    hide Run, Deliveries, Wakeup, Pending;
    SilentRun(acts, i + 1, s);
    AtMostOnePending(Run(acts[..i + 1]).value.Get(s).thread);
  }

  /** A file that has been set does not play by itself: nothing is delivered until the
      next play or seek. */
  lemma SetFileIsSilent(acts: seq<Action>, i: nat, s: Stream)
    requires Run(acts).Some? && Returns(acts, i, SetFile)
    requires forall j :: i < j < |acts| ==> !Wakeup(acts[j], s)
    ensures Deliveries(acts, i + 1, s) == 0 && !Run(acts).value.Get(s).status.Running?
  {
    LeavesSilent(acts, i, SetFile, s);
    hide Run, Deliveries, Wakeup, Pending;
    SilentRun(acts, i + 1, s);
  }

  /** Action `i` is a step of the thread of `s` at position `pc`. */
  predicate ThreadAt(acts: seq<Action>, i: nat, s: Stream, pc: ThreadPc) {
    && i < |acts| && acts[i].WorkerStep? && acts[i].s == s
    && Run(acts[..i]).Some? && Run(acts[..i]).value.Get(s).thread == Thread(pc)
  }

  /** After a failed read nothing of the stream is delivered until the next play or
      seek, unless one was under way. */
  lemma FailedReadIsLast(acts: seq<Action>, i: nat, s: Stream)
    requires Run(acts).Some? && ThreadAt(acts, i, s, Read) && acts[i].result.Failed?
    requires !Waking(Run(acts[..i]).value.control, s)
    requires forall j :: i < j < |acts| ==> !Wakeup(acts[j], s)
    ensures Deliveries(acts, i + 1, s) == 0 && !Run(acts).value.Get(s).status.Running?
  {
    AfterAction(acts, i);
    hide Run, Deliveries, Wakeup, Waking;
    SilentRun(acts, i + 1, s);
  }

  /** At the end of the file the stream is rewound under the same lock and pauses; the
      packet that marks the end is the last one until the next play or seek, unless one
      was under way. */
  lemma EndOfFileIsLast(acts: seq<Action>, i: nat, s: Stream, result: ReadResult)
    requires Run(acts).Some? && ThreadAt(acts, i, s, Read) && acts[i].result.Eof?
    requires i + 1 < |acts| && acts[i + 1] == WorkerStep(s, result)
    requires !Waking(Run(acts[..i]).value.control, s)
    requires forall j :: i < j < |acts| ==> !Wakeup(acts[j], s)
    ensures Run(acts[..i + 1]).Some?
    ensures Calls(Run(acts[..i + 1]).value, acts[i + 1]) == Some((DemuxSeek(s), Worker(s)))
    ensures Deliveries(acts, i + 2, s) <= 1 && !Run(acts).value.Get(s).status.Running?
  {
    AfterAction(acts, i);
    AfterAction(acts, i + 1);
    RunPrefix(acts, i + 2);
    hide Run, Deliveries, Wakeup, Waking;
    SilentRun(acts, i + 2, s);
  }

  /** The packet that marks the end of the file is itself delivered. */
  lemma EndPacketIsDelivered(acts: seq<Action>, s: Stream, r1: ReadResult, r2: ReadResult, r3: ReadResult)
    requires Run(acts).Some? && Run(acts).value.Get(s).thread == Thread(Read)
    ensures var more := acts + [WorkerStep(s, Eof), WorkerStep(s, r1), WorkerStep(s, r2), WorkerStep(s, r3)];
            Run(more).Some? && Deliveries(more, |acts|, s) == 1
  {
    NoneYet(acts, s);
    hide Run, Deliveries;
    var more := OneMore(acts, acts, s, Eof);
    more := OneMore(acts, more, s, r1);
    more := OneMore(acts, more, s, r2);
    more := OneMore(acts, more, s, r3);
    assert more == acts + [WorkerStep(s, Eof), WorkerStep(s, r1), WorkerStep(s, r2), WorkerStep(s, r3)];
  }

  lemma OneMore(acts: seq<Action>, more: seq<Action>, s: Stream, result: ReadResult) returns (next: seq<Action>)
    requires acts <= more && Run(more).Some?
    ensures next == more + [WorkerStep(s, result)] && acts <= next
    ensures Run(next) == Next(Run(more).value, WorkerStep(s, result))
    ensures Deliveries(next, |acts|, s) == Deliveries(more, |acts|, s) +
            if Run(more).value.Get(s).thread == Thread(Deliver) then 1 else 0
  {
    next := more + [WorkerStep(s, result)];
    assert next[..|more|] == more;
    hide Next;
  }

  /** A new thread enters its loop, except a video thread without a frame rate. */
  lemma ThreadsEnter(st: State, s: Stream, result: ReadResult)
    requires st.Get(s).thread == Thread(Start)
    ensures Next(st, WorkerStep(s, result)).Some?
    ensures Next(st, WorkerStep(s, result)).value.Get(s).thread ==
            Thread(if s == Video && result == Failed then Exited else Top)
  {
  }

  lemma StreamLives(x: StreamState, s: Stream, mutex: Option<Owner>, result: ReadResult)
    requires StreamNext(x, s, true, mutex, result).Some? && !x.status.Uninitialized? && x.thread != Thread(Start)
    ensures StreamNext(x, s, true, mutex, result).value.0.thread != Thread(Exited)
  {
  }

  /** A thread in its loop does not leave it while `thread_running` holds, paused or not. */
  lemma ThreadsLive(acts: seq<Action>, s: Stream, result: ReadResult)
    requires Run(acts).Some? && Next(Run(acts).value, WorkerStep(s, result)).Some?
    requires Run(acts).value.running && Run(acts).value.Get(s).thread != Thread(Start)
    ensures Next(Run(acts).value, WorkerStep(s, result)).value.Get(s).thread != Thread(Exited)
  {
    hide Run, StreamNext;
    var x := Run(acts).value.Get(s);
    assert x.thread.Thread? by {
      HasThread(Run(acts).value, s, result);
    }
    ThreadsSeeAStatus(acts, s);
    StreamLives(x, s, Run(acts).value.mutex, result);
  }

  lemma HasThread(st: State, s: Stream, result: ReadResult)
    requires Next(st, WorkerStep(s, result)).Some?
    ensures st.Get(s).thread.Thread?
  {
  }

  // ----- Playing

  /** When a play, or a seek of `s`, has returned, the stream runs if it is enabled and
      has a status. */
  lemma PlayRuns(acts: seq<Action>, i: nat, call: Call, s: Stream)
    requires Run(acts).Some? && Returns(acts, i, call) && Wakes(call, s)
    ensures Run(acts[..i + 1]).Some? && Run(acts[..i + 1]).value.control.Idle?
    ensures Runs(Run(acts[..i + 1]).value.Get(s))
  {
    AfterAction(acts, i);
    RunPrefix(acts, i + 1);
    hide Run, Shape;
    RunInv(acts[..i]);
  }

  /** No call that ends the playing is in progress. */
  predicate Awake(pc: ControlPc) {
    match pc
    case Idle => true
    case Locking(call) => call.Play? || call.Seek?
    case StatusChange(call, _) => call.Play?
    case SeekCall(call, _) => call.Seek?
    case SeekRun(_) => true
    case Unlocking(call) => call.Play? || call.Seek?
    case _ => false
  }

  /** The thread of `s` pauses its own stream, after a failed read or at the end of the
      file. */
  predicate PausesItself(st: State, a: Action, s: Stream) {
    && a.WorkerStep? && a.s == s
    && (st.Get(s).thread == Thread(EofSeek) || (st.Get(s).thread == Thread(Read) && a.result.Failed?))
  }

  /** The action starts a call that ends the playing. */
  predicate Ends(a: Action) {
    a.Begin? && !(a.call.Play? || a.call.Seek?)
  }

  lemma StreamRuns(x: StreamState, s: Stream, running: bool, mutex: Option<Owner>, result: ReadResult)
    requires StreamNext(x, s, running, mutex, result).Some? && x.status.Running?
    requires x.thread != Thread(EofSeek) && (x.thread == Thread(Read) ==> !result.Failed?)
    ensures StreamNext(x, s, running, mutex, result).value.0.status.Running?
  {
  }

  lemma ControlRuns(st: State, s: Stream, ok: bool, v: bool, u: bool)
    requires ControlNext(st, ok, v, u).Some? && Awake(st.control) && st.Get(s).status.Running?
    ensures var st' := ControlNext(st, ok, v, u).value; Awake(st'.control) && st'.Get(s).status.Running?
  {
    hide JoinNext, RemoveNext, InitNext, ParamNext, PipeNext, StartNext, DoesSeek;
    match st.control {
      case Locking(call) =>
      case StatusChange(call, q) =>
      case SeekCall(call, q) =>
      case SeekRun(q) =>
      case Unlocking(call) =>
    }
  }

  lemma RunningStep(st: State, a: Action, s: Stream)
    requires Next(st, a).Some? && Awake(st.control) && st.Get(s).status.Running?
    requires !PausesItself(st, a, s) && !Ends(a)
    ensures Awake(Next(st, a).value.control) && Next(st, a).value.Get(s).status.Running?
  {
    hide ControlNext, StreamNext;
    match a {
      case Begin(_) =>
      case ControlStep(ok, v, u) => ControlRuns(st, s, ok, v, u);
      case WorkerStep(q, result) =>
        if q == s {
          StreamRuns(st.Get(s), s, st.running, st.mutex, result);
        }
    }
  }

  predicate PausesItselfAt(acts: seq<Action>, j: nat, s: Stream) {
    j < |acts| && Run(acts[..j]).Some? && PausesItself(Run(acts[..j]).value, acts[j], s)
  }

  lemma {:induction false} RunningRun(acts: seq<Action>, from: nat, s: Stream)
    requires from <= |acts| && Run(acts).Some? && Run(acts[..from]).Some?
    requires Awake(Run(acts[..from]).value.control) && Run(acts[..from]).value.Get(s).status.Running?
    requires forall j :: from <= j < |acts| ==> !Ends(acts[j]) && !PausesItselfAt(acts, j, s)
    ensures Awake(Run(acts).value.control) && Run(acts).value.Get(s).status.Running?
  {
    if from == |acts| {
      assert acts[..from] == acts;
      return;
    }
    hide Next, Ends, PausesItself, Awake;
    var init, a := acts[..|acts| - 1], acts[|acts| - 1];
    assert init[..from] == acts[..from];
    forall j | from <= j < |init| ensures !Ends(init[j]) && !PausesItselfAt(init, j, s) {
      assert init[..j] == acts[..j];
    }
    RunningRun(init, from, s);
    assert !PausesItselfAt(acts, |init|, s);
    RunningStep(Run(init).value, a, s);
  }

  /** From the return of a play, or of a seek of the stream, a stream that can run runs
      until its own thread pauses it or a pause, stop, set_file or destroy begins. */
  lemma PlaysOn(acts: seq<Action>, i: nat, call: Call, s: Stream)
    requires Run(acts).Some? && Returns(acts, i, call) && Wakes(call, s)
    requires Run(acts[..i]).value.Get(s).enabled && !Run(acts[..i]).value.Get(s).status.Uninitialized?
    requires forall j :: i < j < |acts| ==> !Ends(acts[j]) && !PausesItselfAt(acts, j, s)
    ensures Run(acts).value.Get(s).status.Running?
  {
    PlayRuns(acts, i, call, s);
    AfterAction(acts, i);
    ReturnKeeps(acts, i, call, s);
    hide Run, Ends, PausesItselfAt, Next;
    RunningRun(acts, i + 1, s);
  }

  /** The return of a call changes no stream. */
  lemma ReturnKeeps(acts: seq<Action>, i: nat, call: Call, s: Stream)
    requires Returns(acts, i, call) && Next(Run(acts[..i]).value, acts[i]).Some?
    ensures Next(Run(acts[..i]).value, acts[i]).value.Get(s) == Run(acts[..i]).value.Get(s)
  {
    hide Run;
  }

  /** A stream that runs delivers: its thread, wherever it stands outside the critical
      section, takes a packet to the decoder in at most six steps of its own once the
      mutex is free. */
  lemma DeliversOne(acts: seq<Action>, s: Stream) returns (more: seq<Action>)
    requires Run(acts).Some? && Run(acts).value.mutex.None? && Run(acts).value.running
    requires Run(acts).value.Get(s).status.Running?
    requires var t := Run(acts).value.Get(s).thread; t == Thread(Top) || t == Thread(Dispatch) || t == Thread(WantLock)
    ensures acts <= more && |more| <= |acts| + 6
    ensures forall j :: |acts| <= j < |more| ==> more[j] == WorkerStep(s, Packet)
    ensures Run(more).Some? && Run(more).value.Get(s).status.Running? && Deliveries(more, |acts|, s) == 1
  {
    hide Run, Next, Deliveries;
    NoneYet(acts, s);
    more := acts;
    if Run(more).value.Get(s).thread == Thread(Top) {
      more := Goes(acts, more, s);
    }
    if Run(more).value.Get(s).thread == Thread(Dispatch) {
      more := Goes(acts, more, s);
    }
    more := Goes(acts, more, s);
    more := Goes(acts, more, s);
    more := Goes(acts, more, s);
    more := Goes(acts, more, s);
  }

  lemma NoneYet(acts: seq<Action>, s: Stream)
    ensures Deliveries(acts, |acts|, s) == 0
  {
  }

  /** Where a running thread goes when the reads give packets. */
  function NextPc(pc: ThreadPc): ThreadPc {
    match pc
    case Top => Dispatch
    case Dispatch => WantLock
    case WantLock => Read
    case Read => Release(true)
    case Release(_) => Deliver
    case _ => Top
  }

  lemma PacketStep(st: State, s: Stream)
    requires st.running && st.Get(s).status.Running? && st.Get(s).thread.Thread?
    requires var pc := st.Get(s).thread.pc;
             && (pc.Top? || pc.Dispatch? || pc.WantLock? || pc.Read? || pc == Release(true) || pc.Deliver?)
             && (pc.WantLock? ==> st.mutex.None?)
    ensures Next(st, WorkerStep(s, Packet)).Some?
    ensures var pc, st' := st.Get(s).thread.pc, Next(st, WorkerStep(s, Packet)).value;
            && st'.running && st'.Get(s).status.Running? && st'.Get(s).thread == Thread(NextPc(pc))
            && st'.mutex == if pc.WantLock? then Some(Worker(s)) else if pc.Release? then None else st.mutex
  {
  }

  /** One step more of the thread. */
  lemma Goes(acts: seq<Action>, more: seq<Action>, s: Stream) returns (next: seq<Action>)
    requires acts <= more && Run(more).Some?
    requires var st := Run(more).value; st.running && st.Get(s).status.Running? && st.Get(s).thread.Thread?
    requires var pc := Run(more).value.Get(s).thread.pc;
             && (pc.Top? || pc.Dispatch? || pc.WantLock? || pc.Read? || pc == Release(true) || pc.Deliver?)
             && (pc.WantLock? ==> Run(more).value.mutex.None?)
    ensures next == more + [WorkerStep(s, Packet)] && acts <= next && Run(next).Some?
    ensures var st, st' := Run(more).value, Run(next).value;
            && st'.running && st'.Get(s).status.Running? && st'.Get(s).thread == Thread(NextPc(st.Get(s).thread.pc))
            && st'.mutex == if st.Get(s).thread.pc.WantLock? then Some(Worker(s))
                            else if st.Get(s).thread.pc.Release? then None else st.mutex
    ensures Deliveries(next, |acts|, s) == Deliveries(more, |acts|, s) +
            if Run(more).value.Get(s).thread == Thread(Deliver) then 1 else 0
  {
    next := more + [WorkerStep(s, Packet)];
    assert next[..|more|] == more;
    PacketStep(Run(more).value, s);
    hide Next, NextPc;
  }

  // ----- Rewinding

  /** Action `j` seeks in stream `s` on behalf of the call that is still in progress, or
      was the last. */
  predicate SoughtAt(acts: seq<Action>, j: nat, s: Stream) {
    && j < |acts| && Run(acts[..j]).Some?
    && Calls(Run(acts[..j]).value, acts[j]) == Some((DemuxSeek(s), Control))
    && forall k :: j < k < |acts| ==> !acts[k].Begin?
  }

  ghost predicate Sought(acts: seq<Action>, s: Stream) {
    exists j: nat :: SoughtAt(acts, j, s)
  }

  /** What a stop or a seek has rewound so far, given which streams it has sought. */
  predicate Rewound(st: State, video: bool, audio: bool) {
    match st.control
    case StatusChange(call, s) => call.Stop? && s.Audio? && st.video.enabled ==> video
    case SeekCall(call, s) => call.Stop? && s.Audio? && st.video.enabled ==> video
    case SeekRun(s) => if s.Video? then video else audio
    case Unlocking(call) =>
      && (call.Stop? ==> (st.video.enabled ==> video) && (st.audio.enabled ==> audio))
      && (call.Seek? && Runnable(st.Get(call.s)) ==> if call.s.Video? then video else audio)
    case _ => true
  }

  predicate Runnable(x: StreamState) {
    x.enabled && !x.status.Uninitialized?
  }

  /** A position where nothing is owed. */
  predicate OwesNothing(pc: ControlPc) {
    match pc
    case StatusChange(_, s) => s.Video?
    case SeekCall(call, _) => !call.Stop?
    case SeekRun(_) => false
    case Unlocking(call) => Rebuilds(call)
    case _ => true
  }

  lemma SetupOwes(st: State, ok: bool, v: bool, u: bool)
    ensures OwesNothing(InitNext(st, ok).control) && OwesNothing(ParamNext(st, ok, v, u).control)
    ensures OwesNothing(PipeNext(st, ok).control)
  {
    hide NeedsRemoval, PipeOk;
  }

  lemma StartOwes(st: State, s: Stream, ok: bool)
    ensures OwesNothing(StartNext(st, s, ok).control)
  {
    hide Started;
  }

  lemma RemoveOwes(st: State, call: Call)
    requires Rebuilds(call)
    ensures OwesNothing(RemoveNext(st, call).control)
  {
    hide HasFile, Removed;
  }

  lemma JoinOwes(st: State, call: Call, s: Stream)
    requires JoinNext(st, call, s).Some?
    ensures OwesNothing(JoinNext(st, call, s).value.control)
  {
    AfterJoinIs(call, s);
    hide AfterJoin;
  }

  lemma CallOwes(st: State, call: Call)
    ensures OwesNothing(UnlockNext(st, call).control)
    ensures LockNext(st, call).Some? ==> OwesNothing(LockNext(st, call).value.control)
  {
  }

  lemma SeekRewinds(st: State, call: Call, s: Stream, video: bool, audio: bool)
    requires st.control == SeekCall(call, s) && CallInv(st.control) && Rewound(st, video, audio)
    ensures var sought := DoesSeek(st, call, s);
            Rewound(SeekNext(st, call, s), video || (sought && s.Video?), audio || (sought && s.Audio?))
  {
  }

  lemma StatusRewinds(st: State, call: Call, s: Stream, video: bool, audio: bool)
    requires Rewound(st, video, audio)
    ensures st.control == StatusChange(call, s) && CallInv(st.control) ==>
              Rewound(StatusNext(st, call, s), video, audio)
    ensures st.control == SeekRun(s) ==> Rewound(SeekRunNext(st, s), video, audio)
  {
  }

  lemma ControlRewinds(st: State, ok: bool, v: bool, u: bool, video: bool, audio: bool)
    requires ControlNext(st, ok, v, u).Some? && CallInv(st.control) && Rewound(st, video, audio)
    ensures var call := Calls(st, ControlStep(ok, v, u));
            Rewound(ControlNext(st, ok, v, u).value, video || call == Some((DemuxSeek(Video), Control)),
                    audio || call == Some((DemuxSeek(Audio), Control)))
  {
    hide JoinNext, LockNext, RemoveNext, InitNext, ParamNext, PipeNext, StartNext, StatusNext, SeekNext,
         SeekRunNext, UnlockNext, HasFile, NeedsRemoval, DoesSeek;
    match st.control {
      case Joining(call, s) => JoinOwes(st, call, s);
      case Locking(call) => CallOwes(st, call);
      case Teardown(_) =>
      case Remove(call) => RemoveOwes(st, call);
      case Starting(s) => StartOwes(st, s, ok);
      case StatusChange(call, s) => StatusRewinds(st, call, s, video, audio);
      case SeekCall(call, s) => SeekRewinds(st, call, s, video, audio);
      case SeekRun(s) => StatusRewinds(st, Seek(s), s, video, audio);
      case Unlocking(call) => CallOwes(st, call);
      case _ => SetupOwes(st, ok, v, u);
    }
  }

  lemma WorkerRewinds(st: State, s: Stream, result: ReadResult, video: bool, audio: bool)
    requires WorkerNext(st, s, result).Some? && MutexInv(st) && Rewound(st, video, audio)
    ensures Rewound(WorkerNext(st, s, result).value, video, audio)
  {
    StreamSteps(st.Get(s), s, st.running, st.mutex, result);
    hide StreamNext, Untouched;
  }

  lemma StepRewinds(st: State, a: Action, video: bool, audio: bool)
    requires Next(st, a).Some? && Inv(st) && Rewound(st, video, audio)
    ensures var call, on := Calls(st, a), !a.Begin?;
            Rewound(Next(st, a).value, (video && on) || call == Some((DemuxSeek(Video), Control)),
                    (audio && on) || call == Some((DemuxSeek(Audio), Control)))
  {
    hide ControlNext, WorkerNext, LifeInv, HandleInv, MutexInv, StatusSoFar;
    match a {
      case Begin(_) =>
      case ControlStep(ok, v, u) => ControlRewinds(st, ok, v, u, video, audio);
      case WorkerStep(s, result) => WorkerRewinds(st, s, result, video, audio);
    }
  }

  lemma SoughtStays(init: seq<Action>, a: Action, s: Stream)
    requires Sought(init, s) && !a.Begin?
    ensures Sought(init + [a], s)
  {
    var j: nat :| SoughtAt(init, j, s);
    assert (init + [a])[..j] == init[..j];
    assert SoughtAt(init + [a], j, s);
  }

  lemma SoughtNow(init: seq<Action>, a: Action, s: Stream)
    requires Run(init).Some? && Calls(Run(init).value, a) == Some((DemuxSeek(s), Control))
    ensures Sought(init + [a], s)
  {
    assert (init + [a])[..|init|] == init;
    assert SoughtAt(init + [a], |init|, s);
  }

  lemma RunAppend(init: seq<Action>, a: Action)
    requires Run(init).Some?
    ensures Run(init + [a]) == Next(Run(init).value, a)
  {
    assert (init + [a])[..|init|] == init;
    hide Next;
  }

  lemma SoughtStep(init: seq<Action>, a: Action)
    requires Run(init).Some? && Run(init + [a]).Some? && Inv(Run(init).value)
    requires Rewound(Run(init).value, Sought(init, Video), Sought(init, Audio))
    ensures Rewound(Run(init + [a]).value, Sought(init + [a], Video), Sought(init + [a], Audio))
  {
    hide Run, Next, Sought, Calls, Inv, Rewound;
    RunAppend(init, a);
    var st, on := Run(init).value, !a.Begin?;
    var v := (Sought(init, Video) && on) || Calls(st, a) == Some((DemuxSeek(Video), Control));
    var u := (Sought(init, Audio) && on) || Calls(st, a) == Some((DemuxSeek(Audio), Control));
    StepRewinds(st, a, Sought(init, Video), Sought(init, Audio));
    SoughtKept(init, a, Video);
    SoughtKept(init, a, Audio);
    RewoundMore(Run(init + [a]).value, v, u, Sought(init + [a], Video), Sought(init + [a], Audio));
  }

  lemma {:induction false} SoughtInv(acts: seq<Action>)
    requires Run(acts).Some?
    ensures Rewound(Run(acts).value, Sought(acts, Video), Sought(acts, Audio))
  {
    if acts == [] {
      return;
    }
    var init, a := acts[..|acts| - 1], acts[|acts| - 1];
    assert acts == init + [a];
    hide Next, Sought, Inv, Rewound;
    SoughtInv(init);
    RunInv(init);
    SoughtStep(init, a);
  }

  lemma SoughtKept(init: seq<Action>, a: Action, s: Stream)
    requires Run(init).Some?
    ensures (Sought(init, s) && !a.Begin?) || Calls(Run(init).value, a) == Some((DemuxSeek(s), Control)) ==>
              Sought(init + [a], s)
  {
    hide Run, Sought, Calls;
    if Sought(init, s) && !a.Begin? {
      SoughtStays(init, a, s);
    }
    if Calls(Run(init).value, a) == Some((DemuxSeek(s), Control)) {
      SoughtNow(init, a, s);
    }
  }

  lemma RewoundMore(st: State, v: bool, u: bool, v': bool, u': bool)
    requires Rewound(st, v, u) && (v ==> v') && (u ==> u')
    ensures Rewound(st, v', u')
  {
  }

  /** When a stop has returned, every enabled stream has been rewound by it. */
  lemma StopRewinds(acts: seq<Action>, i: nat, s: Stream)
    requires Run(acts).Some? && Returns(acts, i, Stop) && Run(acts[..i]).value.Get(s).enabled
    ensures Sought(acts[..i], s)
  {
    SoughtInv(acts[..i]);
    hide Sought, Run;
  }

  /** When a seek has returned, the stream has been sought if it is enabled and has a
      status. */
  lemma SeekSeeks(acts: seq<Action>, i: nat, s: Stream)
    requires Run(acts).Some? && Returns(acts, i, Seek(s))
    requires Runnable(Run(acts[..i]).value.Get(s))
    ensures Sought(acts[..i], s)
  {
    SoughtInv(acts[..i]);
    hide Sought, Run;
  }
}
