// The worker pool between a packet source and a sink, as interleaved steps: internal/pipeline/pipeline.go, Runner.
// A step is one call of the source, the processor or the sink, one locked assignment, or one channel operation.
module Runner {
  import opened Options

  datatype Error = EOF | Stopped | Other(code: int)

  /** A packet, numbered in the order the source handed packets out. */
  type Packet = nat

  /** Where a worker goroutine is; `lost` is the packet it gave up on. */
  datatype Worker =
    | Top                                            // at the head of its loop
    | SawDone                                        // found the context cancelled, about to record that
    | Asking                                         // about to ask the source
    | Has(p: Packet)                                 // about to process
    | Judged(p: Packet)                              // about to write
    | Failing(e: Error, lost: Option<Packet>)        // about to record an error
    | Closing(lost: Option<Packet>)                  // about to call stopOnce
    | Exited(closed: bool, lost: Option<Packet>)

  datatype Event = Took(p: Packet) | Processed(p: Packet) | Wrote(p: Packet)

  /** Run itself. */
  datatype Main = Waiting | Joining | Stopping | Returned(result: Option<Error>)

  datatype State = State(
    sink: bool,                    // whether there is one
    workers: seq<Worker>,
    cancelled: bool,
    once: bool,                    // stopOnce has run
    done: bool,                    // the channel is closed
    closes: nat,                   // how often it was closed
    err: Option<Error>,
    main: Main,
    taken: nat,
    log: seq<Event>,               // calls of source, processor and sink that concern a packet
    finished: set<Packet>)         // written without error, or processed when there is no sink

  datatype Step =
    | Check(i: nat)
    | RecordStopped(i: nat)
    | Next(i: nat, fault: Option<Error>)
    | Process(i: nat, fault: Option<Error>)
    | Write(i: nat, fault: Option<Error>)
    | SetErr(i: nat)
    | StopOnce(i: nat)
    | Cancel                       // Stop
    | SeeDone                      // <-r.done
    | Join                         // r.wg.Wait
    | Return                       // r.src.Stop and the result

  predicate Enabled(s: State, st: Step) {
    match st
    case Check(i) => i < |s.workers| && s.workers[i].Top?
    case RecordStopped(i) => i < |s.workers| && s.workers[i].SawDone?
    case Next(i, _) => i < |s.workers| && s.workers[i].Asking?
    case Process(i, _) => i < |s.workers| && s.workers[i].Has?
    case Write(i, fault) => i < |s.workers| && s.workers[i].Judged? && (fault.Some? ==> s.sink)
    case SetErr(i) => i < |s.workers| && s.workers[i].Failing?
    case StopOnce(i) => i < |s.workers| && s.workers[i].Closing?
    case Cancel => true
    case SeeDone => s.main.Waiting? && s.done
    case Join => s.main.Joining? && AllExited(s)
    case Return => s.main.Stopping?
  }

  predicate AllExited(s: State) {
    forall i :: 0 <= i < |s.workers| ==> s.workers[i].Exited?
  }

  function Move(s: State, i: nat, w: Worker): State
    requires i < |s.workers|
  {
    s.(workers := s.workers[i := w])
  }

  /** setErr: only the first error is kept. */
  function Keep(err: Option<Error>, e: Error): Option<Error> {
    if err.None? then Some(e) else err
  }

  function Do(s: State, st: Step): State
    requires Enabled(s, st)
  {
    match st
    case Check(i) => Move(s, i, if s.cancelled then SawDone else Asking)
    case RecordStopped(i) => Move(s, i, Exited(false, None)).(err := Keep(s.err, Stopped))
    case Next(i, fault) =>
      (match fault
       case None => Move(s, i, Has(s.taken)).(taken := s.taken + 1, log := s.log + [Took(s.taken)])
       case Some(e) => Move(s, i, if e == Stopped then Closing(None) else Failing(e, None)))
    case Process(i, fault) =>
      var p := s.workers[i].p;
      (match fault
       case None => Move(s, i, Judged(p)).(log := s.log + [Processed(p)])
       case Some(e) => Move(s, i, Failing(e, Some(p))))
    case Write(i, fault) =>
      var p := s.workers[i].p;
      var log := if s.sink then s.log + [Wrote(p)] else s.log;
      (match fault
       case None => Move(s, i, Top).(log := log, finished := s.finished + {p})
       case Some(e) => Move(s, i, Failing(e, Some(p))).(log := log))
    case SetErr(i) =>
      var w := s.workers[i];
      Move(s, i, Closing(w.lost)).(err := Keep(s.err, w.e))
    case StopOnce(i) =>
      var t := Move(s, i, Exited(true, s.workers[i].lost));
      if s.once then t else t.(once := true, cancelled := true, done := true, closes := s.closes + 1)
    case Cancel => s.(cancelled := true)
    case SeeDone => s.(main := Joining)
    case Join => s.(main := Stopping)
    case Return => s.(main := Returned(if s.err == Some(EOF) then None else s.err))
  }

  ghost predicate Init(s: State) {
    && |s.workers| >= 1 && (forall i :: 0 <= i < |s.workers| ==> s.workers[i].Top?)
    && !s.cancelled && !s.once && !s.done && s.closes == 0 && s.err == None && s.main.Waiting?
    && s.taken == 0 && s.log == [] && s.finished == {}
  }

  ghost predicate IsRun(run: seq<State>, steps: seq<Step>) {
    && |run| == |steps| + 1 && Init(run[0])
    && forall k :: 0 <= k < |steps| ==> Enabled(run[k], steps[k]) && run[k + 1] == Do(run[k], steps[k])
  }

  // ---- Invariants ----

  /** The packet a worker answers for. */
  function Carried(w: Worker): Option<Packet> {
    match w
    case Has(p) => Some(p)
    case Judged(p) => Some(p)
    case Failing(_, lost) => lost
    case Closing(lost) => lost
    case Exited(_, lost) => lost
    case _ => None
  }

  /** Every packet taken is finished or with exactly one worker. */
  ghost predicate Accounted(s: State) {
    && (forall p :: p in s.finished ==> p < s.taken)
    && (forall i :: 0 <= i < |s.workers| && Carried(s.workers[i]).Some? ==>
          Carried(s.workers[i]).value < s.taken && Carried(s.workers[i]).value !in s.finished)
    && (forall i, j :: 0 <= i < j < |s.workers| && Carried(s.workers[i]).Some? ==>
          Carried(s.workers[i]) != Carried(s.workers[j]))
    && (forall p: Packet :: p < s.taken && p !in s.finished ==> CarriedBySome(s, p))
  }

  ghost predicate CarriedBySome(s: State, p: Packet) {
    exists i :: 0 <= i < |s.workers| && Carried(s.workers[i]) == Some(p)
  }

  /** In a log, packets are taken, then processed, then written, each at most once. */
  ghost predicate InOrder(log: seq<Event>) {
    forall k :: 0 <= k < |log| ==>
      && log[k] !in log[..k]
      && (log[k].Processed? ==> Took(log[k].p) in log[..k])
      && (log[k].Wrote? ==> Processed(log[k].p) in log[..k])
  }

  /** What the log holds of the packet a worker is busy with. */
  ghost predicate Logged(log: seq<Event>, w: Worker) {
    match w
    case Has(p) => Took(p) in log && Processed(p) !in log && Wrote(p) !in log
    case Judged(p) => Processed(p) in log && Wrote(p) !in log
    case _ => true
  }

  ghost predicate LogSound(s: State) {
    && InOrder(s.log)
    && (forall i :: 0 <= i < |s.workers| ==> Logged(s.log, s.workers[i]))
    && (forall k :: 0 <= k < |s.log| ==> s.log[k].p < s.taken)
  }

  /** `done` is closed by the first worker through stopOnce; Run goes on only after that, and returns only when every
      worker has exited. */
  ghost predicate ClosedOnce(s: State) {
    && s.once == s.done && s.closes == (if s.done then 1 else 0)
    && (s.done ==> s.cancelled)
    && (s.done <==> exists i :: 0 <= i < |s.workers| && s.workers[i].Exited? && s.workers[i].closed)
    && (!s.main.Waiting? ==> s.done)
    && (s.main.Stopping? || s.main.Returned? ==> AllExited(s))
    && (s.main.Returned? ==> s.main.result == if s.err == Some(EOF) then None else s.err)
  }

  lemma LogMore(log: seq<Event>, e: Event)
    requires InOrder(log) && e !in log
    requires e.Processed? ==> Took(e.p) in log
    requires e.Wrote? ==> Processed(e.p) in log
    ensures InOrder(log + [e])
  {
    var more := log + [e];
    forall k | 0 <= k < |more|
      ensures more[k] !in more[..k]
      ensures more[k].Processed? ==> Took(more[k].p) in more[..k]
      ensures more[k].Wrote? ==> Processed(more[k].p) in more[..k]
    {
      assert more[..k] == log[..k];
      assert log[..|log|] == log;
    }
  }

  /** A worker moved, keeping, taking or finishing a packet. */
  ghost predicate Moved(s: State, t: State, i: nat) {
    && i < |s.workers| == |t.workers|
    && t.workers == s.workers[i := t.workers[i]]
    && var was, now := Carried(s.workers[i]), Carried(t.workers[i]);
       || (now == was && t.taken == s.taken && t.finished == s.finished)
       || (was == None && now == Some(s.taken) && t.taken == s.taken + 1 && t.finished == s.finished)
       || (was.Some? && now == None && t.taken == s.taken && t.finished == s.finished + {was.value})
  }

  /** No worker moved. */
  ghost predicate Rested(s: State, t: State) {
    t.workers == s.workers && t.taken == s.taken && t.finished == s.finished && t.log == s.log
  }

  predicate ByWorker(st: Step) {
    !(st.Cancel? || st.SeeDone? || st.Join? || st.Return?)
  }

  lemma CallMoves(s: State, st: Step)
    requires Enabled(s, st) && (st.Next? || st.Process? || st.Write?)
    ensures Moved(s, Do(s, st), st.i)
  {
  }

  lemma OtherMoves(s: State, st: Step)
    requires Enabled(s, st) && (st.Check? || st.RecordStopped? || st.SetErr? || st.StopOnce?)
    ensures Moved(s, Do(s, st), st.i)
  {
  }

  lemma StepMoves(s: State, st: Step)
    requires Enabled(s, st)
    ensures if ByWorker(st) then Moved(s, Do(s, st), st.i) else Rested(s, Do(s, st))
  {
    hide Moved;
    if st.Next? || st.Process? || st.Write? {
      CallMoves(s, st);
    } else if ByWorker(st) {
      OtherMoves(s, st);
    }
  }

  lemma MovedAccounts(s: State, t: State, i: nat)
    requires Accounted(s) && Moved(s, t, i)
    ensures Accounted(t)
  {
    forall p: Packet | p < t.taken && p !in t.finished
      ensures CarriedBySome(t, p)
    {
      if p < s.taken {
        assert CarriedBySome(s, p);
        var j :| 0 <= j < |s.workers| && Carried(s.workers[j]) == Some(p);
        assert Carried(t.workers[j]) == Some(p);
      } else {
        assert Carried(t.workers[i]) == Some(p);
      }
    }
  }

  lemma AccountedStep(s: State, st: Step)
    requires Accounted(s) && Enabled(s, st)
    ensures Accounted(Do(s, st))
  {
    hide Do, Enabled, Carried;
    StepMoves(s, st);
    if ByWorker(st) {
      hide Accounted, Moved;
      MovedAccounts(s, Do(s, st), st.i);
    } else {
      forall p: Packet | CarriedBySome(s, p)
        ensures CarriedBySome(Do(s, st), p)
      {
      }
    }
  }

  /** What a worker's step adds to the log: nothing, or an event of the packet it then carries or carried. */
  ghost predicate LogMoved(s: State, t: State, i: nat) {
    && i < |s.workers| == |t.workers| && t.workers == s.workers[i := t.workers[i]]
    && var was, now := s.workers[i], t.workers[i];
       || (t.log == s.log && t.taken == s.taken && !now.Has? && !now.Judged?)
       || (now == Has(s.taken) && t.log == s.log + [Took(s.taken)] && t.taken == s.taken + 1)
       || (was.Has? && now == Judged(was.p) && t.log == s.log + [Processed(was.p)] && t.taken == s.taken)
       || (was.Judged? && !now.Has? && !now.Judged? && t.log == s.log + [Wrote(was.p)] && t.taken == s.taken)
  }

  lemma StepLogs(s: State, st: Step)
    requires Enabled(s, st) && ByWorker(st)
    ensures LogMoved(s, Do(s, st), st.i)
  {
  }

  lemma LoggedStill(log: seq<Event>, e: Event, w: Worker)
    requires Logged(log, w) && Carried(w) != Some(e.p)
    ensures Logged(log + [e], w)
  {
  }

  lemma EventNew(s: State, t: State, i: nat)
    requires LogSound(s) && Accounted(s) && LogMoved(s, t, i) && t.log != s.log
    ensures var e := t.log[|s.log|];
            && t.log == s.log + [e] && e !in s.log && e.p < t.taken
            && (e.Processed? ==> Took(e.p) in s.log) && (e.Wrote? ==> Processed(e.p) in s.log)
            && Logged(t.log, t.workers[i])
            && forall j :: 0 <= j < |s.workers| && j != i ==> Carried(s.workers[j]) != Some(e.p)
  {
    hide InOrder, CarriedBySome;
    var e := t.log[|s.log|];
    assert t.log == s.log + [e];
    assert Logged(s.log, s.workers[i]);
    assert forall k :: 0 <= k < |s.log| ==> s.log[k].p < s.taken;
  }

  lemma MovedLogs(s: State, t: State, i: nat)
    requires LogSound(s) && Accounted(s) && LogMoved(s, t, i)
    ensures LogSound(t)
  {
    hide InOrder, Accounted, Logged, Carried;
    if t.log != s.log {
      EventNew(s, t, i);
      var e := t.log[|s.log|];
      LogMore(s.log, e);
      forall j | 0 <= j < |t.workers|
        ensures Logged(t.log, t.workers[j])
      {
        if j != i {
          LoggedStill(s.log, e, s.workers[j]);
        }
      }
    } else {
      forall j | 0 <= j < |t.workers|
        ensures Logged(t.log, t.workers[j])
      {
        if j == i {
          FreeWorker(t.log, t.workers[i]);
        }
      }
    }
  }

  lemma FreeWorker(log: seq<Event>, w: Worker)
    requires !w.Has? && !w.Judged?
    ensures Logged(log, w)
  {
  }

  lemma LogStep(s: State, st: Step)
    requires LogSound(s) && Accounted(s) && Enabled(s, st)
    ensures LogSound(Do(s, st))
  {
    hide Do, Enabled, InOrder, Accounted, Logged;
    if ByWorker(st) {
      hide LogSound, LogMoved;
      StepLogs(s, st);
      MovedLogs(s, Do(s, st), st.i);
    } else {
      StepMoves(s, st);
    }
  }

  lemma ClosedOnceStep(s: State, st: Step)
    requires ClosedOnce(s) && Enabled(s, st)
    ensures ClosedOnce(Do(s, st))
  {
    var t := Do(s, st);
    if s.done {
      var i :| 0 <= i < |s.workers| && s.workers[i].Exited? && s.workers[i].closed;
      assert t.workers[i] == s.workers[i];
    }
    if st.StopOnce? {
      assert t.workers[st.i].closed;
    }
  }

  /** A finished packet went through the sink, if there is one, and through the processor in any case. */
  ghost predicate FinishedLogged(s: State) {
    forall p :: p in s.finished ==> (if s.sink then Wrote(p) else Processed(p)) in s.log
  }

  lemma StepFinishes(s: State, st: Step)
    requires Enabled(s, st)
    ensures var t := Do(s, st);
            && t.sink == s.sink && |t.workers| == |s.workers| && s.log <= t.log
            && (t.finished == s.finished
                || (st.Write? && t.finished == s.finished + {s.workers[st.i].p}
                    && (s.sink ==> t.log == s.log + [Wrote(s.workers[st.i].p)])))
  {
  }

  lemma FinishedLoggedStep(s: State, st: Step)
    requires FinishedLogged(s) && LogSound(s) && Enabled(s, st)
    ensures FinishedLogged(Do(s, st)) && Do(s, st).sink == s.sink && |Do(s, st).workers| == |s.workers|
  {
    hide Do, InOrder;
    StepFinishes(s, st);
    assert forall e :: e in s.log ==> e in Do(s, st).log;
    if st.Write? {
      assert Logged(s.log, s.workers[st.i]);
    }
  }

  ghost predicate Inv(s: State) {
    Accounted(s) && LogSound(s) && ClosedOnce(s) && FinishedLogged(s)
  }

  /** Every state of every run. */
  lemma {:induction false} InvAlways(run: seq<State>, steps: seq<Step>, k: nat)
    requires IsRun(run, steps) && k < |run|
    ensures Inv(run[k]) && |run[k].workers| == |run[0].workers| && run[k].sink == run[0].sink
  {
    hide Accounted, LogSound, ClosedOnce, FinishedLogged, Do, Enabled;
    if k == 0 {
      InvInit(run[0]);
    } else {
      InvAlways(run, steps, k - 1);
      var s, st := run[k - 1], steps[k - 1];
      AccountedStep(s, st);
      LogStep(s, st);
      ClosedOnceStep(s, st);
      FinishedLoggedStep(s, st);
    }
  }

  lemma InvInit(s: State)
    requires Init(s)
    ensures Inv(s)
  {
  }

  lemma InvCloses(s: State)
    requires Inv(s)
    ensures ClosedOnce(s)
  {
  }

  // ---- What every run keeps ----

  function Numbers(n: nat): (ps: set<Packet>)
    ensures |ps| == n
    ensures forall p: Packet :: p in ps <==> p < n
  {
    if n == 0 then {} else Numbers(n - 1) + {n - 1}
  }

  function CarriedPackets(ws: seq<Worker>): (ps: set<Packet>)
    ensures |ps| <= |ws|
    ensures forall i :: 0 <= i < |ws| && Carried(ws[i]).Some? ==> Carried(ws[i]).value in ps
  {
    if ws == [] then {}
    else
      var n := |ws| - 1;
      var rest := CarriedPackets(ws[..n]);
      assert forall i :: 0 <= i < n ==> ws[i] == ws[..n][i];
      if Carried(ws[n]).Some? then rest + {Carried(ws[n]).value} else rest
  }

  /** The packets a sink was handed. */
  ghost function Written(s: State): set<Packet> {
    set p | p in Numbers(s.taken) && Wrote(p) in s.log
  }

  /** Packets taken and not written never outnumber the workers. */
  lemma TakenBound(run: seq<State>, steps: seq<Step>, k: nat)
    requires IsRun(run, steps) && k < |run|
    ensures var s := run[k];
            s.taken <= |s.finished| + |s.workers| && (s.sink ==> s.taken <= |Written(s)| + |s.workers|)
  {
    hide LogSound, ClosedOnce, Carried;
    InvAlways(run, steps, k);
    var s := run[k];
    var all, held := Numbers(s.taken), CarriedPackets(s.workers);
    forall p | p in all
      ensures p in s.finished + held
    {
      if p !in s.finished {
        assert CarriedBySome(s, p);
      }
    }
    Smaller(all, s.finished + held);
    if s.sink {
      Smaller(s.finished, Written(s));
    }
  }

  lemma Smaller(a: set<Packet>, b: set<Packet>)
    requires a <= b
    ensures |a| <= |b|
  {
    assert b == a + (b - a);
  }

  /** Every packet is handed to the sink at most once, after it was processed, and processed once, after it was taken. */
  lemma WrittenOnceAfterProcessing(run: seq<State>, steps: seq<Step>, k: nat, i: nat)
    requires IsRun(run, steps) && k < |run| && i < |run[k].log|
    ensures var log := run[k].log;
            && (forall j :: 0 <= j < |log| && j != i ==> log[j] != log[i])
            && (log[i].Wrote? ==> Processed(log[i].p) in log[..i])
            && (log[i].Processed? ==> Took(log[i].p) in log[..i])
  {
    hide Accounted, ClosedOnce, FinishedLogged;
    InvAlways(run, steps, k);
    var log := run[k].log;
    forall j | 0 <= j < |log| && j != i
      ensures log[j] != log[i]
    {
      if j < i {
        assert log[i] !in log[..i] && log[..i][j] == log[j];
      } else {
        assert log[j] !in log[..j] && log[..j][i] == log[i];
      }
    }
  }

  /** `done` is closed at most once, whatever the workers and Stop do. */
  lemma DoneClosedOnce(run: seq<State>, steps: seq<Step>, k: nat)
    requires IsRun(run, steps) && k < |run|
    ensures run[k].closes <= 1
  {
    hide Accounted, LogSound, FinishedLogged;
    InvAlways(run, steps, k);
  }

  /** The errors recorded by the first `k` steps, in order. */
  ghost function Recorded(run: seq<State>, steps: seq<Step>, k: nat): seq<Error>
    requires IsRun(run, steps) && k <= |steps|
  {
    if k == 0 then []
    else
      Recorded(run, steps, k - 1)
      + if steps[k - 1].RecordStopped? then [Stopped]
        else if steps[k - 1].SetErr? then [run[k - 1].workers[steps[k - 1].i].e]
        else []
  }

  /** The first recorded error is kept; once every worker has exited it is what Run returns, end of file being none. */
  lemma {:induction false} FirstErrorKept(run: seq<State>, steps: seq<Step>, k: nat)
    requires IsRun(run, steps) && k < |run|
    ensures var errs := Recorded(run, steps, k); run[k].err == if errs == [] then None else Some(errs[0])
  {
    hide Do;
    if k > 0 {
      FirstErrorKept(run, steps, k - 1);
      StepErr(run[k - 1], steps[k - 1]);
    }
  }

  lemma StepErr(s: State, st: Step)
    requires Enabled(s, st)
    ensures Do(s, st).err == match st
                             case RecordStopped(_) => Keep(s.err, Stopped)
                             case SetErr(i) => Keep(s.err, s.workers[i].e)
                             case _ => s.err
  {
  }

  lemma ResultIsFirstError(run: seq<State>, steps: seq<Step>, k: nat)
    requires IsRun(run, steps) && k < |run| && run[k].main.Returned?
    ensures var errs := Recorded(run, steps, k);
            run[k].main.result == if errs == [] || errs[0] == EOF then None else Some(errs[0])
  {
    hide Accounted, LogSound, FinishedLogged, Recorded, IsRun;
    InvAlways(run, steps, k);
    FirstErrorKept(run, steps, k);
  }

  // ---- What becomes of a failed call ----

  predicate OwnStep(st: Step, i: nat) {
    ByWorker(st) && st.i == i
  }

  /** A call of source, processor or sink by worker `i` that failed with `e`. */
  predicate Fault(st: Step, i: nat, e: Error) {
    st == Next(i, Some(e)) || st == Process(i, Some(e)) || st == Write(i, Some(e))
  }

  /** Between two steps of its own a worker stays where it is. */
  lemma {:induction false} StaysPut(run: seq<State>, steps: seq<Step>, k: nat, m: nat, i: nat)
    requires IsRun(run, steps) && k < m <= |steps| && i < |run[k + 1].workers|
    requires forall l :: k < l < m ==> !OwnStep(steps[l], i)
    ensures |run[m].workers| == |run[k + 1].workers| && run[m].workers[i] == run[k + 1].workers[i]
    decreases m - k
  {
    hide Do, Enabled, Moved;
    if k + 1 < m {
      StaysPut(run, steps, k, m - 1, i);
      var s, st := run[m - 1], steps[m - 1];
      StepMoves(s, st);
      OthersStay(s, st, i);
    }
  }

  lemma OthersStay(s: State, st: Step, i: nat)
    requires Enabled(s, st) && i < |s.workers| && !OwnStep(st, i)
    requires if ByWorker(st) then Moved(s, Do(s, st), st.i) else Rested(s, Do(s, st))
    ensures |Do(s, st).workers| == |s.workers| && Do(s, st).workers[i] == s.workers[i]
  {
    hide Do, Enabled, Carried;
  }

  /** After a failed call the next thing its worker does is to record that error, except for a source that says it was
      stopped: then, and after recording, it goes straight to stopOnce. */
  lemma FaultRecorded(run: seq<State>, steps: seq<Step>, k: nat, m: nat, i: nat, e: Error)
    requires IsRun(run, steps) && k < m < |steps| && Fault(steps[k], i, e) && OwnStep(steps[m], i)
    requires forall l :: k < l < m ==> !OwnStep(steps[l], i)
    ensures steps[m] == if steps[k] == Next(i, Some(Stopped)) then StopOnce(i) else SetErr(i)
    ensures Recorded(run, steps, m + 1)
            == Recorded(run, steps, m) + if steps[k] == Next(i, Some(Stopped)) then [] else [e]
  {
    hide Recorded, IsRun;
    FaultStep(run, steps, k, i, e);
    StaysPut(run, steps, k, m, i);
    RecordedStep(run, steps, m);
  }

  lemma FaultStep(run: seq<State>, steps: seq<Step>, k: nat, i: nat, e: Error)
    requires IsRun(run, steps) && k < |steps| && Fault(steps[k], i, e)
    ensures i < |run[k + 1].workers|
    ensures var w := run[k + 1].workers[i];
            if steps[k] == Next(i, Some(Stopped)) then w.Closing? else w.Failing? && w.e == e
  {
    assert Enabled(run[k], steps[k]);
  }

  lemma RecordedStep(run: seq<State>, steps: seq<Step>, m: nat)
    requires IsRun(run, steps) && m < |steps|
    ensures Enabled(run[m], steps[m])
    ensures Recorded(run, steps, m + 1) == Recorded(run, steps, m)
            + if steps[m].RecordStopped? then [Stopped]
              else if steps[m].SetErr? then [run[m].workers[steps[m].i].e]
              else []
  {
  }

  /** After recording an error a worker closes the channel, after finding the context cancelled it records that, and after
      either end it does nothing more. */
  lemma WorkerEnds(run: seq<State>, steps: seq<Step>, k: nat, m: nat, i: nat)
    requires IsRun(run, steps) && k < m < |steps| && OwnStep(steps[k], i) && OwnStep(steps[m], i)
    requires forall l :: k < l < m ==> !OwnStep(steps[l], i)
    ensures !steps[k].StopOnce? && !steps[k].RecordStopped?
    ensures steps[k].SetErr? ==> steps[m] == StopOnce(i)
    ensures steps[k].Check? ==> if run[k].cancelled then steps[m] == RecordStopped(i) else steps[m].Next?
    ensures steps[k].Next? && steps[k].fault.None? ==> steps[m].Process?
    ensures steps[k].Process? && steps[k].fault.None? ==> steps[m].Write?
    ensures steps[k].Write? && steps[k].fault.None? ==> steps[m].Check?
  {
    assert i < |run[k + 1].workers| by {
      OwnStepIn(run, steps, k);
    }
    StaysPut(run, steps, k, m, i);
    OwnStepIn(run, steps, k);
    OwnStepIn(run, steps, m);
    hide IsRun;
  }

  lemma OwnStepIn(run: seq<State>, steps: seq<Step>, k: nat)
    requires IsRun(run, steps) && k < |steps| && ByWorker(steps[k])
    ensures Enabled(run[k], steps[k]) && run[k + 1] == Do(run[k], steps[k])
    ensures steps[k].i < |run[k].workers| == |run[k + 1].workers|
  {
  }

  /** Once Run has returned, no source, processor or sink call happens any more, and the result stands. */
  lemma {:induction false} NothingAfterReturn(run: seq<State>, steps: seq<Step>, i: nat, k: nat)
    requires IsRun(run, steps) && i <= k < |run| && run[i].main.Returned?
    ensures run[k].main == run[i].main && run[k].log == run[i].log && run[k].taken == run[i].taken
    ensures forall j :: i <= j < k ==> steps[j].Cancel?
  {
    hide Inv, Do, Enabled;
    if i < k {
      NothingAfterReturn(run, steps, i, k - 1);
      InvAlways(run, steps, k - 1);
      InvCloses(run[k - 1]);
      OnlyCancel(run[k - 1], steps[k - 1]);
    }
  }

  lemma OnlyCancel(s: State, st: Step)
    requires ClosedOnce(s) && s.main.Returned? && Enabled(s, st)
    ensures st.Cancel?
    ensures var t := Do(s, st); t.main == s.main && t.log == s.log && t.taken == s.taken
  {
    assert AllExited(s);
  }

  // ---- When Run returns ----

  ghost predicate Reaches(s: State, steps: seq<Step>, t: State)
    decreases |steps|
  {
    if steps == [] then s == t
    else Enabled(s, steps[0]) && Reaches(Do(s, steps[0]), steps[1..], t)
  }

  /** Some continuation makes Run return. */
  ghost predicate CanReturn(s: State) {
    exists steps, t :: Reaches(s, steps, t) && t.main.Returned?
  }

  /** A worker past the head of its loop that can still leave through stopOnce; without a sink a processed packet only
      leads back to the head. */
  predicate CanClose(s: State, w: Worker) {
    w.Asking? || w.Has? || w.Failing? || w.Closing? || (w.Judged? && s.sink)
  }

  predicate SomeCanClose(s: State) {
    exists i :: 0 <= i < |s.workers| && CanClose(s, s.workers[i])
  }

  /** Before the context is cancelled no worker gives up. */
  ghost predicate AliveUntilCancelled(s: State) {
    && |s.workers| >= 1
    && (!s.cancelled ==> forall i :: 0 <= i < |s.workers| ==> !s.workers[i].SawDone? && !s.workers[i].Exited?)
  }

  lemma AliveStep(s: State, st: Step)
    requires AliveUntilCancelled(s) && ClosedOnce(s) && Enabled(s, st)
    ensures AliveUntilCancelled(Do(s, st))
  {
    var t := Do(s, st);
    if !t.cancelled && ByWorker(st) {
      StepMoves(s, st);
    }
  }

  lemma {:induction false} AliveAlways(run: seq<State>, steps: seq<Step>, k: nat)
    requires IsRun(run, steps) && k < |run|
    ensures AliveUntilCancelled(run[k])
  {
    hide Do, Enabled, Inv, AliveUntilCancelled;
    InvAlways(run, steps, 0);
    if k == 0 {
      AliveInit(run[0]);
    } else {
      AliveAlways(run, steps, k - 1);
      InvAlways(run, steps, k - 1);
      InvCloses(run[k - 1]);
      AliveStep(run[k - 1], steps[k - 1]);
    }
  }

  lemma AliveInit(s: State)
    requires Init(s)
    ensures AliveUntilCancelled(s)
  {
  }

  lemma {:induction false} ReachesOn(s: State, first: seq<Step>, t: State, second: seq<Step>, u: State)
    requires Reaches(s, first, t) && Reaches(t, second, u)
    ensures Reaches(s, first + second, u)
    decreases |first|
  {
    hide Do, Enabled;
    if first == [] {
      assert first + second == second;
    } else {
      ReachesOn(Do(s, first[0]), first[1..], t, second, u);
      assert (first + second)[1..] == first[1..] + second;
    }
  }

  lemma OneStep(s: State, st: Step)
    requires Enabled(s, st)
    ensures Reaches(s, [st], Do(s, st))
  {
    hide Do, Enabled;
    assert Reaches(Do(s, st), [], Do(s, st));
    assert [st][1..] == [];
  }

  // -- Lost for ever --

  /** Cancelled, `done` open, and no worker that could close it. */
  ghost predicate Lost(s: State) {
    s.cancelled && !s.done && s.main.Waiting? && !SomeCanClose(s)
  }

  lemma LostStep(s: State, st: Step)
    requires Lost(s) && Enabled(s, st)
    ensures Lost(Do(s, st))
  {
    var t := Do(s, st);
    forall j | 0 <= j < |t.workers|
      ensures !CanClose(t, t.workers[j])
    {
      assert !CanClose(s, s.workers[j]);
    }
  }

  lemma {:induction false} LostForEver(s: State, steps: seq<Step>, t: State)
    requires Lost(s) && Reaches(s, steps, t)
    ensures Lost(t)
    decreases |steps|
  {
    hide Do, Enabled, Lost;
    if steps != [] {
      LostStep(s, steps[0]);
      LostForEver(Do(s, steps[0]), steps[1..], t);
    }
  }

  // -- A way out --

  /** How many steps a worker is from its exit, when source, processor and sink fail. */
  function Distance(w: Worker): nat {
    match w
    case Exited(_, _) => 0
    case Closing(_) => 1
    case SawDone => 1
    case Asking => 2
    case Failing(_, _) => 2
    case Has(_) => 3
    case Top => 3
    case Judged(_) => 4
  }

  function Onward(s: State, i: nat): Step
    requires i < |s.workers|
  {
    match s.workers[i]
    case Top => Check(i)
    case SawDone => RecordStopped(i)
    case Asking => Next(i, Some(Stopped))
    case Has(_) => Process(i, Some(Other(0)))
    case Judged(_) => Write(i, if s.sink then Some(Other(0)) else None)
    case Failing(_, _) => SetErr(i)
    case Closing(_) => StopOnce(i)
    case Exited(_, _) => Cancel
  }

  /** A worker that closes `done` on its way out. */
  predicate Hopeful(s: State, w: Worker) {
    CanClose(s, w) || (!s.cancelled && !w.SawDone? && !w.Exited?)
  }

  /** One step of a worker on its way out: nobody else moves, and `done` is closed if it passes through stopOnce. */
  lemma OnwardStep(s: State, i: nat)
    requires i < |s.workers| && !s.workers[i].Exited? && (s.once <==> s.done)
    ensures Enabled(s, Onward(s, i))
    ensures var t := Do(s, Onward(s, i));
            && t.workers == s.workers[i := t.workers[i]] && t.main == s.main && t.sink == s.sink
            && (s.done ==> t.done) && (t.once <==> t.done)
            && Distance(t.workers[i]) < Distance(s.workers[i])
            && (Hopeful(s, s.workers[i]) ==> t.done || Hopeful(t, t.workers[i]))
  {
  }

  /** A worker leaves alone; if it is past the loop head, or nothing is cancelled yet, it closes `done` on its way. */
  lemma {:induction false} LeavesAlone(s: State, i: nat) returns (steps: seq<Step>, t: State)
    requires i < |s.workers| && (s.once <==> s.done)
    ensures Reaches(s, steps, t)
    ensures |t.workers| == |s.workers| && t.workers == s.workers[i := t.workers[i]]
    ensures t.workers[i].Exited? && t.main == s.main
    ensures (s.done ==> t.done) && (t.once <==> t.done) && (Hopeful(s, s.workers[i]) ==> t.done)
    decreases Distance(s.workers[i])
  {
    hide Do, Enabled, Onward, Distance;
    if s.workers[i].Exited? {
      steps, t := [], s;
      assert s.workers[i := s.workers[i]] == s.workers;
    } else {
      OnwardStep(s, i);
      var st := Onward(s, i);
      var u := Do(s, st);
      OneStep(s, st);
      steps, t := LeavesAlone(u, i);
      ReachesOn(s, [st], u, steps, t);
      steps := [st] + steps;
      assert s.workers[i := u.workers[i]][i := t.workers[i]] == s.workers[i := t.workers[i]];
    }
  }

  /** One after another, the first `n` workers leave. */
  lemma {:induction false} AllLeave(s: State, n: nat) returns (steps: seq<Step>, t: State)
    requires n <= |s.workers| && (s.once <==> s.done)
    ensures Reaches(s, steps, t) && |t.workers| == |s.workers| && t.main == s.main
    ensures forall j :: 0 <= j < n ==> t.workers[j].Exited?
    ensures (s.done ==> t.done) && (t.once <==> t.done)
    decreases n
  {
    hide Do, Enabled;
    if n == 0 {
      steps, t := [], s;
    } else {
      var u;
      var more;
      steps, u := AllLeave(s, n - 1);
      more, t := LeavesAlone(u, n - 1);
      ReachesOn(s, steps, u, more, t);
      steps := steps + more;
    }
  }

  /** With `done` closed and everybody gone, Run joins and returns. */
  lemma MainReturns(s: State)
    requires s.done && AllExited(s)
    ensures CanReturn(s)
  {
    if s.main.Returned? {
      assert Reaches(s, [], s);
    } else if s.main.Stopping? {
      OneStep(s, Return);
    } else if s.main.Joining? {
      OneStep(s, Join);
      MainOn(s, Join);
    } else {
      OneStep(s, SeeDone);
      MainOn(s, SeeDone);
    }
  }

  lemma MainOn(s: State, st: Step)
    requires s.done && AllExited(s) && Enabled(s, st) && (st == SeeDone || st == Join)
    ensures CanReturn(s)
    decreases if st == SeeDone then 1 else 0
  {
    var t := Do(s, st);
    OneStep(s, st);
    var next := if st == SeeDone then Join else Return;
    OneStep(t, next);
    ReachesOn(s, [st], t, [next], Do(t, next));
    if st == SeeDone {
      var u := Do(t, next);
      OneStep(u, Return);
      ReachesOn(s, [st] + [next], u, [Return], Do(u, Return));
      assert Do(u, Return).main.Returned?;
    } else {
      assert Do(t, next).main.Returned?;
    }
  }

  lemma ReturnsAfter(s: State, steps: seq<Step>, t: State)
    requires Reaches(s, steps, t) && CanReturn(t)
    ensures CanReturn(s)
  {
    hide Reaches;
    var more, u :| Reaches(t, more, u) && u.main.Returned?;
    ReachesOn(s, steps, t, more, u);
  }

  lemma WayOut(s: State)
    requires ClosedOnce(s) && AliveUntilCancelled(s)
    requires s.done || !s.cancelled || SomeCanClose(s)
    ensures CanReturn(s)
  {
    hide Do, Enabled, Reaches, CanReturn;
    var i := 0;
    if SomeCanClose(s) {
      i :| 0 <= i < |s.workers| && CanClose(s, s.workers[i]);
    }
    var first, t := LeavesAlone(s, i);
    var second, u := AllLeave(t, |t.workers|);
    assert u.done;
    MainReturns(u);
    ReturnsAfter(t, second, u);
    ReturnsAfter(s, first, t);
  }

  /** In every reachable state Run can still return exactly when `done` is closed, or the context is not cancelled, or some
      worker is past the head of its loop and can close `done`. After Stop, with every worker at the head or gone through
      it, Run waits for ever. */
  lemma ReturnsIff(run: seq<State>, steps: seq<Step>, k: nat)
    requires IsRun(run, steps) && k < |run|
    ensures var s := run[k]; CanReturn(s) <==> s.done || !s.cancelled || SomeCanClose(s)
  {
    hide Inv, AliveUntilCancelled, CanReturn, SomeCanClose, IsRun;
    InvAlways(run, steps, k);
    AliveAlways(run, steps, k);
    var s := run[k];
    InvCloses(s);
    if s.done || !s.cancelled || SomeCanClose(s) {
      WayOut(s);
    } else {
      NoWayOut(s);
    }
  }

  lemma NoWayOut(s: State)
    requires ClosedOnce(s) && s.cancelled && !s.done && !SomeCanClose(s)
    ensures !CanReturn(s)
  {
    hide Reaches, SomeCanClose;
    assert Lost(s);
    forall steps, t | Reaches(s, steps, t)
      ensures !t.main.Returned?
    {
      LostForEver(s, steps, t);
    }
  }

  /** Stop while the only worker is at the head of its loop: it leaves without closing `done`, and Run waits for ever. */
  lemma StopCanHang() returns (run: seq<State>, steps: seq<Step>)
    ensures IsRun(run, steps)
    ensures var last := run[|run| - 1];
            AllExited(last) && last.main.Waiting? && forall st :: Enabled(last, st) ==> st == Cancel
  {
    var s0 := State(true, [Top], false, false, false, 0, None, Waiting, 0, [], {});
    var s1 := Do(s0, Cancel);
    var s2 := Do(s1, Check(0));
    var s3 := Do(s2, RecordStopped(0));
    run, steps := [s0, s1, s2, s3], [Cancel, Check(0), RecordStopped(0)];
  }
}
