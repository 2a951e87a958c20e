// The asynchronous log pipeline as interleaved steps: internal/logging/logger.go, producers in Submit, the drain
// goroutine with its two loops, and Close.
module LogPipeline {

  type Event = nat

  const BATCH: nat := 512

  /** The queue capacity, at least 1, and the sampling ratio. */
  datatype Config = Config(capacity: nat, ratio: real)

  /** A producer inside Submit. */
  datatype Producer =
    | Idle
    | Checked(e: Event)     // saw `closed` unset
    | Sampled(e: Event)     // survived sampling
    | Sent                  // enqueued, `writers` not yet bumped

  /** The drain goroutine. `Flush` states hold a full or timed-out batch not yet written, `Bump` states one
      already written whose size is not yet in `flushed`. */
  datatype Drain =
    | Running
    | RunFlush
    | RunBump
    | Draining(idle: nat, consumed: bool)
    | Testing(idle: nat)      // found the queue empty, exit test not yet made
    | DrainFlush(idle: nat)
    | DrainBump(idle: nat)
    | FinalFlush
    | FinalBump
    | Done

  datatype Closer = Open | ClosedSet | StopClosed | StorageClosed

  datatype State = State(
    producers: seq<Producer>,
    queue: seq<Event>,
    drain: Drain,
    buf: seq<Event>,
    closer: Closer,
    writers: nat,
    flushed: nat,
    droppedA: nat,
    droppedB: nat,
    // the sink, and history
    batches: seq<seq<Event>>,
    storageCloses: nat,
    accepted: seq<Event>,
    submitted: nat,         // Submits that found the pipeline open
    quiet: bool)            // no Submit was in flight when stop was closed

  datatype Step =
    | Submit(i: nat, e: Event)
    | Sample(i: nat, keep: bool)
    | Send(i: nat)
    | BumpWriters(i: nat)
    | Receive                 // main loop takes an event
    | Timer                   // main loop's timer fires
    | SeeStop                 // main loop takes the stop case
    | DrainReceive            // drainAll takes an event
    | DrainEmpty              // drainAll finds the queue empty and updates its idle count
    | DrainTest               // drainAll compares the counters
    | Write
    | BumpFlushed
    | FinalSkip               // nothing left to flush on exit
    | SetClosed
    | CloseStop
    | CloseStorage

  predicate Enabled(g: Config, s: State, st: Step) {
    match st
    case Submit(i, _) => i < |s.producers| && s.producers[i].Idle?
    case Sample(i, keep) =>
      i < |s.producers| && s.producers[i].Checked? && (if keep then g.ratio > 0.0 else g.ratio < 1.0)
    case Send(i) => i < |s.producers| && s.producers[i].Sampled?
    case BumpWriters(i) => i < |s.producers| && s.producers[i].Sent?
    case Receive => s.drain.Running? && s.queue != []
    case Timer => s.drain.Running?
    case SeeStop => s.drain.Running? && (s.closer.StopClosed? || s.closer.StorageClosed?)
    case DrainReceive => s.drain.Draining? && s.queue != []
    case DrainEmpty => s.drain.Draining? && s.queue == []
    case DrainTest => s.drain.Testing?
    case Write => s.drain.RunFlush? || s.drain.DrainFlush? || (s.drain.FinalFlush? && s.buf != [])
    case BumpFlushed => s.drain.RunBump? || s.drain.DrainBump? || s.drain.FinalBump?
    case FinalSkip => s.drain.FinalFlush? && s.buf == []
    case SetClosed => s.closer.Open?
    case CloseStop => s.closer.ClosedSet?
    case CloseStorage => s.closer.StopClosed? && s.drain.Done?
  }

  /** A Submit past the closed check that can still enqueue. */
  predicate InFlight(g: Config, p: Producer) {
    p.Sampled? || (p.Checked? && g.ratio > 0.0)
  }

  predicate NoneInFlight(g: Config, s: State) {
    forall i :: 0 <= i < |s.producers| ==> !InFlight(g, s.producers[i])
  }

  function Set(s: State, i: nat, p: Producer): State
    requires i < |s.producers|
  {
    s.(producers := s.producers[i := p])
  }

  function Apply(g: Config, s: State, st: Step): State
    requires Enabled(g, s, st)
  {
    match st
    case Submit(i, e) => if s.closer.Open? then Set(s, i, Checked(e)).(submitted := s.submitted + 1) else s
    case Sample(i, keep) =>
      if keep then Set(s, i, Sampled(s.producers[i].e))
      else Set(s, i, Idle).(droppedB := s.droppedB + 1)
    case Send(i) =>
      if |s.queue| < g.capacity then
        var e := s.producers[i].e;
        Set(s, i, Sent).(queue := s.queue + [e], accepted := s.accepted + [e])
      else Set(s, i, Idle).(droppedA := s.droppedA + 1)
    case BumpWriters(i) => Set(s, i, Idle).(writers := s.writers + 1)
    case Receive =>
      var buf := s.buf + [s.queue[0]];
      s.(queue := s.queue[1..], buf := buf, drain := if |buf| >= BATCH then RunFlush else Running)
    case Timer => if |s.buf| > 0 then s.(drain := RunFlush) else s
    case SeeStop => s.(drain := Draining(0, false))
    case DrainReceive =>
      var buf := s.buf + [s.queue[0]];
      s.(queue := s.queue[1..], buf := buf,
         drain := if |buf| >= BATCH then DrainFlush(s.drain.idle) else Draining(s.drain.idle, true))
    case DrainEmpty => s.(drain := Testing(if s.drain.consumed then 0 else s.drain.idle + 1))
    case DrainTest =>
      if s.drain.idle >= 3 && s.flushed + |s.buf| >= s.writers then s.(drain := FinalFlush)
      else s.(drain := Draining(s.drain.idle, false))
    case Write =>
      s.(batches := s.batches + [s.buf],
         drain := match s.drain
                  case RunFlush => RunBump
                  case DrainFlush(idle) => DrainBump(idle)
                  case _ => FinalBump)
    case BumpFlushed =>
      s.(flushed := s.flushed + |s.buf|, buf := [],
         drain := match s.drain
                  case RunBump => Running
                  case DrainBump(idle) => Draining(idle, true)
                  case _ => Done)
    case FinalSkip => s.(drain := Done)
    case SetClosed => s.(closer := ClosedSet)
    case CloseStop =>
      s.(closer := StopClosed, quiet := NoneInFlight(g, s))
    case CloseStorage => s.(closer := StorageClosed, storageCloses := s.storageCloses + 1)
  }

  ghost predicate Init(s: State) {
    && (forall i :: 0 <= i < |s.producers| ==> s.producers[i] == Idle)
    && s.queue == [] && s.drain == Running && s.buf == [] && s.closer == Open
    && s.writers == 0 && s.flushed == 0 && s.droppedA == 0 && s.droppedB == 0
    && s.batches == [] && s.storageCloses == 0 && s.accepted == [] && s.submitted == 0 && !s.quiet
  }

  ghost predicate Next(g: Config, s: State, t: State) {
    exists st :: Enabled(g, s, st) && t == Apply(g, s, st)
  }

  ghost predicate Run(g: Config, run: seq<State>) {
    && run != [] && Init(run[0])
    && forall i :: 0 <= i < |run| - 1 ==> Next(g, run[i], run[i + 1])
  }

  // ---- Invariants ----

  ghost function Concat(bs: seq<seq<Event>>): seq<Event> {
    if bs == [] then [] else Concat(bs[..|bs| - 1]) + bs[|bs| - 1]
  }

  /** What the drain goroutine holds that is not in the sink yet. */
  function Unwritten(s: State): seq<Event> {
    if s.drain.RunBump? || s.drain.DrainBump? || s.drain.FinalBump? then [] else s.buf
  }

  ghost function SentCount(ps: seq<Producer>): nat {
    if ps == [] then 0 else SentCount(ps[..|ps| - 1]) + (if ps[|ps| - 1].Sent? then 1 else 0)
  }

  /** First in, first out, nothing lost inside: sink, then buffer, then queue, in the order of acceptance. */
  ghost predicate Fifo(s: State) {
    s.accepted == Concat(s.batches) + Unwritten(s) + s.queue
  }

  ghost predicate BatchesSized(s: State) {
    && (forall i :: 0 <= i < |s.batches| ==> 1 <= |s.batches[i]| <= BATCH)
    && match s.drain
       case Running => |s.buf| < BATCH
       case Draining(_, _) => |s.buf| < BATCH
       case Testing(_) => |s.buf| < BATCH
       case RunFlush => 1 <= |s.buf| <= BATCH
       case DrainFlush(_) => 1 <= |s.buf| <= BATCH
       case FinalFlush => |s.buf| < BATCH
       case Done => s.buf == []
       case _ => true
  }

  /** The storage is closed at most once, and only when the drain goroutine is through. */
  ghost predicate ClosedLast(s: State) {
    && s.storageCloses == (if s.closer.StorageClosed? then 1 else 0)
    && (s.closer.StorageClosed? ==> s.drain.Done?)
    && (s.drain.Running? || s.drain.RunFlush? || s.drain.RunBump?
        || s.closer.StopClosed? || s.closer.StorageClosed?)
  }

  /** The counters: `writers` trails acceptance by the producers about to bump it, `flushed` trails the sink. */
  ghost predicate Counted(s: State) {
    && |s.accepted| == s.writers + SentCount(s.producers)
    && |Concat(s.batches)| == s.flushed + (|s.buf| - |Unwritten(s)|)
  }

  ghost function DecidingCount(ps: seq<Producer>): nat {
    if ps == [] then 0
    else DecidingCount(ps[..|ps| - 1]) + (if ps[|ps| - 1].Checked? || ps[|ps| - 1].Sampled? then 1 else 0)
  }

  /** Every event submitted is accepted, dropped by sampling, dropped by a full queue, or still on its way; and the queue
      keeps its bound. */
  ghost predicate Tallied(g: Config, s: State) {
    && s.submitted == |s.accepted| + s.droppedA + s.droppedB + DecidingCount(s.producers)
    && |s.queue| <= g.capacity
  }

  /** The ratio's ends: at 1 and above sampling drops nothing, at 0 and below it lets nothing through. */
  ghost predicate RatioKept(g: Config, s: State) {
    && (g.ratio >= 1.0 ==> s.droppedB == 0)
    && (g.ratio <= 0.0 ==> s.accepted == [] && forall i :: 0 <= i < |s.producers| ==> !s.producers[i].Sampled?)
  }

  /** In drainAll, when nobody enqueues any more: the queue stays empty from the test on, and the test is met by the
      third idle round. */
  ghost predicate DrainExact(s: State) {
    && (s.drain.Draining? || s.drain.DrainFlush? || s.drain.DrainBump? ==> s.drain.idle <= 2)
    && (s.drain.Testing? ==> s.drain.idle <= 3)
    && (s.drain.Testing? || s.drain.FinalFlush? || s.drain.FinalBump? || s.drain.Done? ==> s.queue == [])
  }

  /** After a quiet stop no producer enqueues, so the exit test is exact. */
  ghost predicate QuietExact(g: Config, s: State) {
    s.quiet ==>
      (s.closer.StopClosed? || s.closer.StorageClosed?) && NoneInFlight(g, s) && DrainExact(s)
  }

  ghost predicate Inv(g: Config, s: State) {
    Fifo(s) && BatchesSized(s) && ClosedLast(s) && Counted(s) && QuietExact(g, s)
    && Tallied(g, s) && RatioKept(g, s)
  }

  lemma ConcatPush(bs: seq<seq<Event>>, b: seq<Event>)
    ensures Concat(bs + [b]) == Concat(bs) + b
  {
    assert (bs + [b])[..|bs|] == bs;
  }

  lemma {:induction false} SentMove(ps: seq<Producer>, i: nat, p: Producer)
    requires i < |ps|
    ensures SentCount(ps[i := p]) + (if ps[i].Sent? then 1 else 0) == SentCount(ps) + (if p.Sent? then 1 else 0)
  {
    var n := |ps| - 1;
    if i == n {
      assert ps[i := p][..n] == ps[..n];
    } else {
      SentMove(ps[..n], i, p);
      assert ps[i := p][..n] == ps[..n][i := p];
    }
  }

  lemma {:induction false} DecidingMove(ps: seq<Producer>, i: nat, p: Producer)
    requires i < |ps|
    ensures DecidingCount(ps[i := p]) + (if ps[i].Checked? || ps[i].Sampled? then 1 else 0)
            == DecidingCount(ps) + (if p.Checked? || p.Sampled? then 1 else 0)
  {
    var n := |ps| - 1;
    if i == n {
      assert ps[i := p][..n] == ps[..n];
    } else {
      DecidingMove(ps[..n], i, p);
      assert ps[i := p][..n] == ps[..n][i := p];
    }
  }

  lemma {:induction false} NoneSent(ps: seq<Producer>)
    requires forall i :: 0 <= i < |ps| ==> ps[i] == Idle
    ensures SentCount(ps) == 0 && DecidingCount(ps) == 0
  {
    if ps != [] {
      NoneSent(ps[..|ps| - 1]);
    }
  }

  /** How a step moves events: not at all, into the queue, from the queue to the buffer, or from the buffer to the sink. */
  ghost predicate EventsMove(s: State, t: State) {
    var u, v := Unwritten(s), Unwritten(t);
    || (t.accepted == s.accepted && t.batches == s.batches && v == u && t.queue == s.queue)
    || (exists e: Event :: t.accepted == s.accepted + [e] && t.batches == s.batches && v == u && t.queue == s.queue + [e])
    || (s.queue != [] && t.accepted == s.accepted && t.batches == s.batches && v == u + [s.queue[0]]
        && t.queue == s.queue[1..])
    || (t.accepted == s.accepted && t.batches == s.batches + [u] && v == [] && t.queue == s.queue)
  }

  lemma StepMovesEvents(g: Config, s: State, st: Step)
    requires Enabled(g, s, st)
    ensures EventsMove(s, Apply(g, s, st))
  {
  }

  lemma MovedFifo(s: State, t: State)
    requires Fifo(s) && EventsMove(s, t)
    ensures Fifo(t)
  {
    hide Concat, Unwritten;
    ConcatPush(s.batches, Unwritten(s));
    if s.queue != [] {
      assert s.queue == [s.queue[0]] + s.queue[1..];
    }
  }

  lemma FifoStep(g: Config, s: State, st: Step)
    requires Enabled(g, s, st) && Fifo(s)
    ensures Fifo(Apply(g, s, st))
  {
    hide Apply, Enabled, Fifo, EventsMove;
    StepMovesEvents(g, s, st);
    MovedFifo(s, Apply(g, s, st));
  }

  lemma BatchesStep(g: Config, s: State, st: Step)
    requires Enabled(g, s, st) && BatchesSized(s)
    ensures BatchesSized(Apply(g, s, st))
  {
  }

  lemma ClosedStep(g: Config, s: State, st: Step)
    requires Enabled(g, s, st) && ClosedLast(s)
    ensures ClosedLast(Apply(g, s, st))
  {
  }

  lemma CountedStep(g: Config, s: State, st: Step)
    requires Enabled(g, s, st) && Counted(s)
    ensures Counted(Apply(g, s, st))
  {
    hide Concat, SentCount;
    ConcatPush(s.batches, s.buf);
    if st.Submit? || st.Sample? || st.Send? || st.BumpWriters? {
      SentMove(s.producers, st.i, Apply(g, s, st).producers[st.i]);
      assert s.producers[st.i := s.producers[st.i]] == s.producers;
    }
  }

  lemma TalliedStep(g: Config, s: State, st: Step)
    requires Enabled(g, s, st) && Tallied(g, s)
    ensures Tallied(g, Apply(g, s, st))
  {
    hide Concat, DecidingCount;
    if st.Submit? || st.Sample? || st.Send? || st.BumpWriters? {
      DecidingMove(s.producers, st.i, Apply(g, s, st).producers[st.i]);
      assert s.producers[st.i := s.producers[st.i]] == s.producers;
    }
  }

  lemma RatioStep(g: Config, s: State, st: Step)
    requires Enabled(g, s, st) && RatioKept(g, s)
    ensures RatioKept(g, Apply(g, s, st))
  {
  }

  /** A step that enqueues nothing keeps the drain exact. */
  lemma DrainExactStep(g: Config, s: State, st: Step)
    requires Enabled(g, s, st) && Fifo(s) && Counted(s) && DrainExact(s) && !st.Send?
    requires s.closer.StopClosed? || s.closer.StorageClosed?
    ensures DrainExact(Apply(g, s, st))
  {
    hide Concat, SentCount;
  }

  lemma QuietStep(g: Config, s: State, st: Step)
    requires Enabled(g, s, st) && Inv(g, s)
    ensures QuietExact(g, Apply(g, s, st))
  {
    hide Concat, SentCount, BatchesSized, Fifo, Counted;
    if s.quiet {
      DrainExactStep(g, s, st);
    }
  }

  lemma ApplyIsNext(g: Config, s: State, st: Step)
    requires Enabled(g, s, st)
    ensures Next(g, s, Apply(g, s, st))
  {
    hide Apply, Enabled;
  }

  lemma InvStep(g: Config, s: State, t: State)
    requires Inv(g, s) && Next(g, s, t)
    ensures Inv(g, t)
  {
    hide Fifo, BatchesSized, ClosedLast, Counted, QuietExact, Tallied, RatioKept, Apply, Enabled;
    var st :| Enabled(g, s, st) && t == Apply(g, s, st);
    FifoStep(g, s, st);
    BatchesStep(g, s, st);
    ClosedStep(g, s, st);
    CountedStep(g, s, st);
    QuietStep(g, s, st);
    TalliedStep(g, s, st);
    RatioStep(g, s, st);
  }

  lemma {:induction false} InvAlways(g: Config, run: seq<State>)
    requires Run(g, run)
    ensures Inv(g, run[|run| - 1])
  {
    hide Inv, Next;
    var n := |run| - 1;
    if n == 0 {
      InitInv(g, run[0]);
    } else {
      InvAlways(g, run[..n]);
      assert Next(g, run[n - 1], run[n - 1 + 1]);
      InvStep(g, run[n - 1], run[n]);
    }
  }

  lemma InitInv(g: Config, s: State)
    requires Init(s)
    ensures Inv(g, s)
  {
    NoneSent(s.producers);
  }

  // ---- How far drainAll is from its exit ----

  predicate DrainStep(st: Step) {
    st.DrainReceive? || st.DrainEmpty? || st.DrainTest? || st.Write? || st.BumpFlushed? || st.FinalSkip?
  }

  /** Idle rounds still to come, two steps each. */
  function Patience(idle: nat): nat {
    if idle < 4 then 2 * (4 - idle) else 0
  }

  /** Steps the drain goroutine can still take before it exits. */
  function Remaining(s: State): nat {
    match s.drain
    case Draining(idle, consumed) => 1 + 40 * |s.queue| + (if consumed then 16 else 0) + Patience(idle)
    case Testing(idle) => 2 + 40 * |s.queue| + Patience(idle)
    case DrainFlush(idle) => 40 * |s.queue| + 32 + Patience(idle)
    case DrainBump(idle) => 40 * |s.queue| + 31 + Patience(idle)
    case FinalFlush => 2
    case FinalBump => 1
    case _ => 0
  }

  /** Rounds of drainAll that end in an exit test, between `l` and `n`. */
  ghost function Rounds(run: seq<State>, l: nat, n: nat): nat
    requires l <= n < |run|
  {
    if l == n then 0
    else Rounds(run, l, n - 1) + (if run[n - 1].drain.Testing? && !run[n].drain.Testing? then 1 else 0)
  }

  /** How many rounds are still to come, at the least, before drainAll can leave. */
  function RoundsLeft(d: Drain): nat {
    match d
    case Draining(idle, consumed) => if consumed then 4 else if idle < 3 then 3 - idle else 1
    case Testing(idle) => if idle < 3 then 4 - idle else 1
    case DrainFlush(_) => 4
    case DrainBump(_) => 4
    case _ => 0
  }

  lemma RoundsStep(g: Config, s: State, st: Step)
    requires Enabled(g, s, st) && InDrainAll(s)
    ensures var t := Apply(g, s, st);
            && InDrainAll(t)
            && RoundsLeft(s.drain)
               <= RoundsLeft(t.drain) + (if s.drain.Testing? && !t.drain.Testing? then 1 else 0)
  {
  }

  lemma {:induction false} RoundsNeeded(g: Config, run: seq<State>, l: nat, n: nat)
    requires Run(g, run) && l <= n < |run| && InDrainAll(run[l])
    ensures InDrainAll(run[n]) && RoundsLeft(run[l].drain) <= RoundsLeft(run[n].drain) + Rounds(run, l, n)
    decreases n - l
  {
    hide Run, Apply, Enabled, RoundsLeft;
    if l < n {
      RoundsNeeded(g, run, l, n - 1);
      var st := StepAt(g, run, n - 1);
      RoundsStep(g, run[n - 1], st);
    }
  }

  /** Before drainAll leaves it goes through three rounds at least, and through four after any event it takes: three in a row
      must find the queue empty. */
  lemma ThreeIdleRounds(g: Config, run: seq<State>, l: nat, n: nat)
    requires Run(g, run) && l < n < |run| && run[n].drain.FinalFlush?
    ensures Enabled(g, run[l], SeeStop) && run[l + 1] == Apply(g, run[l], SeeStop) ==> Rounds(run, l + 1, n) >= 3
    ensures Enabled(g, run[l], DrainReceive) && run[l + 1] == Apply(g, run[l], DrainReceive) ==> Rounds(run, l + 1, n) >= 4
  {
    hide Run, Rounds;
    if InDrainAll(run[l + 1]) {
      RoundsNeeded(g, run, l + 1, n);
    }
  }

  // ---- What the pipeline promises ----

  /** At every interleaving the sink holds the oldest accepted events in order, in batches of 1 to 512. */
  lemma SinkInOrder(g: Config, run: seq<State>)
    requires Run(g, run)
    ensures var s := run[|run| - 1];
            && s.accepted == Concat(s.batches) + Unwritten(s) + s.queue
            && (forall i :: 0 <= i < |s.batches| ==> 1 <= |s.batches[i]| <= BATCH)
            && s.storageCloses <= 1
            && (s.closer.StorageClosed? ==> !Enabled(g, s, Write))
  {
    InvAlways(g, run);
  }

  /** With no Submit in flight when stop was closed, Close returns with every accepted event written. */
  lemma QuietCloseLosesNothing(g: Config, run: seq<State>)
    requires Run(g, run)
    requires run[|run| - 1].closer.StorageClosed? && run[|run| - 1].quiet
    ensures var s := run[|run| - 1]; Concat(s.batches) == s.accepted && s.flushed == |s.accepted|
  {
    InvAlways(g, run);
    WrittenAtClose(g, run[|run| - 1]);
  }

  lemma WrittenAtClose(g: Config, s: State)
    requires Inv(g, s) && s.drain.Done? && s.queue == []
    ensures Concat(s.batches) == s.accepted && s.flushed == |s.accepted|
  {
    hide Concat, SentCount;
    assert s.accepted == Concat(s.batches) + [] + [];
  }

  /** Every event submitted is accepted, dropped and counted as such, or still with its producer; the queue never exceeds its
      capacity, and the counters trail acceptance and the sink by what is under way. */
  lemma NothingUnaccounted(g: Config, run: seq<State>)
    requires Run(g, run)
    ensures var s := run[|run| - 1];
            && s.submitted == |s.accepted| + s.droppedA + s.droppedB + DecidingCount(s.producers)
            && |s.queue| <= g.capacity
            && (g.ratio >= 1.0 ==> s.droppedB == 0) && (g.ratio <= 0.0 ==> s.accepted == [])
            && s.writers == |s.accepted| - SentCount(s.producers)
            && s.flushed == |Concat(s.batches)| - (|s.buf| - |Unwritten(s)|)
  {
    InvAlways(g, run);
  }

  // ---- The main loop ----

  /** The steps of the drain goroutine in its main loop, stop aside. */
  predicate MainStep(st: Step) {
    st.Receive? || st.Timer? || st.Write? || st.BumpFlushed?
  }

  predicate InMainLoop(s: State) {
    s.drain.Running? || s.drain.RunFlush? || s.drain.RunBump?
  }

  ghost predicate MainNext(g: Config, s: State, t: State) {
    exists st :: MainStep(st) && Enabled(g, s, st) && t == Apply(g, s, st)
  }

  /** From the end of the run the main loop goes on alone. */
  ghost predicate MainPath(g: Config, path: seq<State>) {
    path != [] && forall i :: 0 <= i < |path| - 1 ==> MainNext(g, path[i], path[i + 1])
  }

  function ToWrite(s: State): nat {
    4 * |s.queue| + match s.drain
                    case Running => if s.buf == [] then 0 else 3
                    case RunFlush => 2
                    case _ => 1
  }

  lemma MainGoesOn(g: Config, s: State) returns (d: Step)
    requires InMainLoop(s) && ToWrite(s) > 0
    ensures MainStep(d) && Enabled(g, s, d)
    ensures var t := Apply(g, s, d); InMainLoop(t) && ToWrite(t) < ToWrite(s) && t.accepted == s.accepted
  {
    d := match s.drain
         case Running => if s.queue != [] then Receive else Timer
         case RunFlush => Write
         case _ => BumpFlushed;
  }

  /** From every reachable state with the main loop running, the drain goroutine alone, receiving, taking its timer and
      writing, gets every accepted event into the sink: no stop is needed. */
  lemma {:induction false} MainLoopWritesAll(g: Config, run: seq<State>) returns (path: seq<State>)
    requires Run(g, run) && InMainLoop(run[|run| - 1])
    ensures MainPath(g, path) && path[0] == run[|run| - 1]
    ensures var s, t := path[0], path[|path| - 1];
            t.accepted == s.accepted == Concat(t.batches) && t.drain.Running? && t.queue == [] && t.buf == []
    decreases ToWrite(run[|run| - 1])
  {
    hide Inv, Apply, Enabled, Concat;
    var s := run[|run| - 1];
    if ToWrite(s) == 0 {
      InvAlways(g, run);
      NothingHeld(g, s);
      path := [s];
    } else {
      var d := MainGoesOn(g, s);
      var t := Apply(g, s, d);
      assert MainNext(g, s, t);
      ApplyIsNext(g, s, d);
      var rest := MainLoopWritesAll(g, run + [t]);
      path := [s] + rest;
    }
  }

  lemma NothingHeld(g: Config, s: State)
    requires Inv(g, s) && s.drain.Running? && s.queue == [] && s.buf == []
    ensures s.accepted == Concat(s.batches)
  {
    hide Concat;
    assert s.accepted == Concat(s.batches) + [] + [];
  }

  /** The main loop is busy flushing between `m` and `n`. */
  ghost predicate FlushOver(run: seq<State>, m: nat, n: nat) {
    && m < n < |run| && run[n].drain.Running?
    && forall l :: m < l < n ==> !run[l].drain.Running?
  }

  /** A timer that fires on a non-empty buffer is followed by exactly one write, of that buffer, before the main loop goes on
      with an empty one; on an empty buffer it does nothing. */
  lemma TimerWrites(g: Config, run: seq<State>, m: nat, n: nat)
    requires Run(g, run) && FlushOver(run, m, n) && Enabled(g, run[m], Timer) && run[m + 1] == Apply(g, run[m], Timer)
    ensures run[m].buf != [] ==>
              run[n].batches == run[m].batches + [run[m].buf] && run[n].buf == []
              && run[n].flushed == run[m].flushed + |run[m].buf|
    ensures run[m].buf == [] ==> n == m + 1 && run[n] == run[m]
  {
    hide Run, Inv, Concat;
    if run[m].buf != [] {
      hide Apply, Enabled;
      TimerStarts(g, run[m]);
      FlushWrites(g, run, m + 1, n);
    }
  }

  lemma TimerStarts(g: Config, s: State)
    requires s.drain.Running? && s.buf != []
    ensures Apply(g, s, Timer) == s.(drain := RunFlush)
  {
  }

  /** A flush that has begun at `m` writes its buffer, once, and empties it. */
  lemma {:induction false} FlushWrites(g: Config, run: seq<State>, m: nat, n: nat)
    requires Run(g, run) && 0 < m && FlushOver(run, m - 1, n) && run[m].drain.RunFlush?
    ensures run[n].batches == run[m].batches + [run[m].buf] && run[n].buf == []
    ensures run[n].flushed == run[m].flushed + |run[m].buf|
    decreases n - m
  {
    hide Run, Apply, Enabled;
    var st := StepAt(g, run, m);
    FlushStep(g, run[m], st);
    if run[m + 1].drain.RunFlush? {
      FlushWrites(g, run, m + 1, n);
    } else {
      BumpFollows(g, run, m + 1, n);
    }
  }

  lemma {:induction false} BumpFollows(g: Config, run: seq<State>, m: nat, n: nat)
    requires Run(g, run) && 0 < m && FlushOver(run, m - 1, n) && run[m].drain.RunBump?
    ensures run[n].batches == run[m].batches && run[n].buf == [] && run[n].flushed == run[m].flushed + |run[m].buf|
    decreases n - m
  {
    hide Run, Apply, Enabled;
    var st := StepAt(g, run, m);
    FlushStep(g, run[m], st);
    if run[m + 1].drain.RunBump? {
      BumpFollows(g, run, m + 1, n);
    }
  }

  lemma StepAt(g: Config, run: seq<State>, m: nat) returns (st: Step)
    requires Run(g, run) && m + 1 < |run|
    ensures Enabled(g, run[m], st) && run[m + 1] == Apply(g, run[m], st)
  {
    hide Apply, Enabled;
    assert Next(g, run[m], run[m + 1]);
    st :| Enabled(g, run[m], st) && run[m + 1] == Apply(g, run[m], st);
  }

  lemma FlushStep(g: Config, s: State, st: Step)
    requires Enabled(g, s, st) && (s.drain.RunFlush? || s.drain.RunBump?)
    ensures var t := Apply(g, s, st);
            || (t.drain == s.drain && t.batches == s.batches && t.buf == s.buf && t.flushed == s.flushed)
            || (s.drain.RunFlush? && t.drain.RunBump? && t.batches == s.batches + [s.buf] && t.buf == s.buf
                && t.flushed == s.flushed)
            || (s.drain.RunBump? && t.drain.Running? && t.batches == s.batches && t.buf == []
                && t.flushed == s.flushed + |s.buf|)
  {
  }

  ghost predicate Path(g: Config, path: seq<State>) {
    path != [] && forall i :: 0 <= i < |path| - 1 ==> Next(g, path[i], path[i + 1])
  }

  lemma {:induction false} InvOnPath(g: Config, path: seq<State>)
    requires Path(g, path) && Inv(g, path[0])
    ensures Inv(g, path[|path| - 1])
    ensures path[0].quiet ==> path[|path| - 1].quiet
  {
    hide Inv, Next;
    var n := |path| - 1;
    if n > 0 {
      InvOnPath(g, path[..n]);
      assert Next(g, path[n - 1], path[n - 1 + 1]);
      InvStep(g, path[n - 1], path[n]);
      if path[0].quiet {
        QuietStays(g, path[n - 1], path[n]);
      }
    }
  }

  lemma QuietStays(g: Config, s: State, t: State)
    requires Inv(g, s) && Next(g, s, t) && s.quiet
    ensures t.quiet
  {
  }

  lemma Longer(g: Config, path: seq<State>, t: State) returns (longer: seq<State>)
    requires Path(g, path) && Next(g, path[|path| - 1], t)
    ensures Path(g, longer) && longer[0] == path[0] && longer[|longer| - 1] == t
  {
    hide Next;
    longer := path + [t];
  }

  // ---- At the moment of stop ----

  /** Whatever happens from `s` on, a completed Close leaves every accepted event written. */
  ghost predicate CloseLosesNothing(g: Config, s: State) {
    forall path: seq<State> :: Path(g, path) && path[0] == s && path[|path| - 1].closer.StorageClosed? ==>
      Concat(path[|path| - 1].batches) == path[|path| - 1].accepted
  }

  /** Right after Close has closed `stop`: no accepted event will be lost exactly when no Submit is past the closed check
      and still able to enqueue. Submits that have enqueued do no harm. */
  lemma StopLosesNothingIff(g: Config, run: seq<State>)
    requires g.capacity >= 1 && Run(g, run) && run[|run| - 1].closer.ClosedSet?
    ensures var s := Apply(g, run[|run| - 1], CloseStop);
            CloseLosesNothing(g, s) <==> NoneInFlight(g, s)
  {
    hide Inv, Next, Concat;
    var r := run[|run| - 1];
    var s := Apply(g, r, CloseStop);
    InvAlways(g, run);
    ApplyIsNext(g, r, CloseStop);
    InvStep(g, r, s);
    if NoneInFlight(g, s) {
      forall path: seq<State> | Path(g, path) && path[0] == s && path[|path| - 1].closer.StorageClosed?
        ensures Concat(path[|path| - 1].batches) == path[|path| - 1].accepted
      {
        InvOnPath(g, path);
        QuietAtClose(g, path[|path| - 1]);
      }
    } else {
      NotDraining(g, r);
      var path := OvertakingPath(g, s);
      assert Path(g, path) && path[0] == s;
    }
  }

  lemma QuietAtClose(g: Config, s: State)
    requires Inv(g, s) && s.quiet && s.closer.StorageClosed?
    ensures Concat(s.batches) == s.accepted
  {
    hide Concat, Counted;
    assert s.accepted == Concat(s.batches) + [] + [];
  }

  lemma NotDraining(g: Config, s: State)
    requires Inv(g, s) && s.closer.ClosedSet?
    ensures s.drain.Running? || s.drain.RunFlush? || s.drain.RunBump?
  {
  }

  /** The drain goroutine alone runs to its exit, Close completes, and then the Submit under way enqueues. */
  lemma OvertakingPath(g: Config, s: State) returns (path: seq<State>)
    requires g.capacity >= 1 && Inv(g, s) && s.closer.StopClosed? && !NoneInFlight(g, s)
    requires s.drain.Running? || s.drain.RunFlush? || s.drain.RunBump?
    ensures Path(g, path) && path[0] == s
    ensures var t := path[|path| - 1]; t.closer.StorageClosed? && Concat(t.batches) != t.accepted
  {
    hide Inv, Next, Concat, Apply, Enabled;
    var i :| 0 <= i < |s.producers| && InFlight(g, s.producers[i]);
    path := ToDrainAll(g, s);
    path := DriveToDone(g, path);
    var t := path[|path| - 1];
    var u := StorageCloses(g, t);
    path := Longer(g, path, u);
    InvStep(g, t, u);
    path := LosingPath(g, path, i);
  }

  lemma StorageCloses(g: Config, t: State) returns (u: State)
    requires t.closer.StopClosed? && t.drain.Done?
    ensures Next(g, t, u) && u.closer.StorageClosed? && u.drain.Done?
    ensures u.producers == t.producers && u.queue == t.queue
  {
    assert Enabled(g, t, CloseStorage);
    u := Apply(g, t, CloseStorage);
  }

  /** What the drain goroutine's own steps keep. */
  ghost predicate SameProducers(s: State, t: State) {
    t.producers == s.producers && t.closer == s.closer
  }

  /** From the main loop into drainAll. */
  lemma ToDrainAll(g: Config, s: State) returns (path: seq<State>)
    requires Inv(g, s) && s.closer.StopClosed?
    requires s.drain.Running? || s.drain.RunFlush? || s.drain.RunBump?
    ensures Path(g, path) && path[0] == s
    ensures var t := path[|path| - 1]; Inv(g, t) && SameProducers(s, t) && InDrainAll(t) && DrainExact(t)
  {
    hide Inv, Concat;
    path := [s];
    if s.drain.RunFlush? {
      path := Take(g, path, Write);
    }
    if path[|path| - 1].drain.RunBump? {
      path := Take(g, path, BumpFlushed);
    }
    path := Take(g, path, SeeStop);
  }

  lemma Take(g: Config, path: seq<State>, st: Step) returns (longer: seq<State>)
    requires Path(g, path) && Inv(g, path[|path| - 1]) && Enabled(g, path[|path| - 1], st)
    ensures Path(g, longer) && longer[0] == path[0]
    ensures longer[|longer| - 1] == Apply(g, path[|path| - 1], st) && Inv(g, longer[|longer| - 1])
  {
    hide Inv, Apply, Enabled;
    var s := path[|path| - 1];
    assert Next(g, s, Apply(g, s, st));
    InvStep(g, s, Apply(g, s, st));
    longer := Longer(g, path, Apply(g, s, st));
  }

  predicate InDrainAll(s: State) {
    !s.drain.Running? && !s.drain.RunFlush? && !s.drain.RunBump?
  }

  lemma DriveToDone(g: Config, path: seq<State>) returns (longer: seq<State>)
    requires Path(g, path)
    requires var s := path[|path| - 1]; Inv(g, s) && s.closer.StopClosed? && InDrainAll(s) && DrainExact(s)
    ensures Path(g, longer) && longer[0] == path[0]
    ensures var s, t := path[|path| - 1], longer[|longer| - 1];
            Inv(g, t) && SameProducers(s, t) && t.drain.Done? && t.queue == []
    decreases Remaining(path[|path| - 1])
  {
    hide Inv, Apply, Enabled, Remaining;
    var s := path[|path| - 1];
    if s.drain.Done? {
      longer := path;
    } else {
      var d := DrainGoesOn(g, s);
      longer := Take(g, path, d);
      longer := DriveToDone(g, longer);
    }
  }

  /** drainAll always has a step, which brings it closer to its exit. */
  lemma DrainGoesOn(g: Config, s: State) returns (d: Step)
    requires Inv(g, s) && InDrainAll(s) && DrainExact(s) && !s.drain.Done?
    requires s.closer.StopClosed? || s.closer.StorageClosed?
    ensures DrainStep(d) && Enabled(g, s, d)
    ensures var t := Apply(g, s, d);
            SameProducers(s, t) && InDrainAll(t) && DrainExact(t) && Remaining(t) < Remaining(s)
  {
    hide Concat, SentCount;
    d := match s.drain
         case Draining(_, _) => if s.queue != [] then DrainReceive else DrainEmpty
         case Testing(_) => DrainTest
         case FinalFlush => if s.buf != [] then Write else FinalSkip
         case DrainFlush(_) => Write
         case _ => BumpFlushed;
    DrainStepShrinks(g, s, d);
    DrainExactStep(g, s, d);
  }

  lemma DrainStepShrinks(g: Config, s: State, st: Step)
    requires Inv(g, s) && InDrainAll(s) && DrainExact(s) && Enabled(g, s, st) && DrainStep(st)
    ensures Remaining(Apply(g, s, st)) < Remaining(s)
  {
    hide Concat, SentCount;
  }

  /** The producer goes on to enqueue an event nobody will read. */
  lemma LosingPath(g: Config, path: seq<State>, i: nat) returns (longer: seq<State>)
    requires g.capacity >= 1 && Path(g, path)
    requires var s := path[|path| - 1];
             Inv(g, s) && s.drain.Done? && s.queue == [] && i < |s.producers| && InFlight(g, s.producers[i])
    ensures Path(g, longer) && longer[0] == path[0]
    ensures var t := longer[|longer| - 1];
            t.closer == path[|path| - 1].closer && Concat(t.batches) != t.accepted
  {
    hide Concat, Inv;
    var s := path[|path| - 1];
    longer := path;
    if s.producers[i].Checked? {
      longer := Take(g, longer, Sample(i, true));
    }
    var t := longer[|longer| - 1];
    WrittenAtClose(g, t);
    longer := Take(g, longer, Send(i));
    assert |longer[|longer| - 1].accepted| == |t.accepted| + 1;
  }

  // ---- After the drain goroutine has exited ----

  ghost predicate Settled(g: Config, s: State) {
    s.queue == [] && NoneInFlight(g, s)
  }

  ghost predicate LosesNothing(g: Config, s: State) {
    forall path: seq<State> :: Path(g, path) && path[0] == s ==>
      Concat(path[|path| - 1].batches) == path[|path| - 1].accepted
  }

  /** Once the drain goroutine has exited, no accepted event is ever lost exactly when none is queued and no Submit
      is past the closed check. */
  lemma LosesNothingIff(g: Config, run: seq<State>)
    requires g.capacity >= 1 && Run(g, run) && run[|run| - 1].drain.Done?
    ensures LosesNothing(g, run[|run| - 1]) <==> Settled(g, run[|run| - 1])
  {
    hide Inv, Concat;
    InvAlways(g, run);
    var s := run[|run| - 1];
    var path := [s];
    if Settled(g, s) {
      forall path: seq<State> | Path(g, path) && path[0] == s
        ensures Concat(path[|path| - 1].batches) == path[|path| - 1].accepted
      {
        SettledForever(g, path);
      }
    } else if s.queue != [] {
      QueuedAtExit(g, s);
      assert Path(g, path) && path[0] == s;
    } else {
      var i :| 0 <= i < |s.producers| && InFlight(g, s.producers[i]);
      path := LosingPath(g, path, i);
      assert Path(g, path) && path[0] == s;
    }
  }

  lemma QueuedAtExit(g: Config, s: State)
    requires Inv(g, s) && s.drain.Done? && s.queue != []
    ensures Concat(s.batches) != s.accepted
  {
  }

  lemma {:induction false} SettledForever(g: Config, path: seq<State>)
    requires Path(g, path) && Inv(g, path[0]) && path[0].drain.Done? && Settled(g, path[0])
    ensures var t := path[|path| - 1];
            Inv(g, t) && t.drain.Done? && Settled(g, t) && Concat(t.batches) == t.accepted
  {
    hide Concat, Inv, Next;
    var n := |path| - 1;
    if n > 0 {
      SettledForever(g, path[..n]);
      assert Next(g, path[n - 1], path[n - 1 + 1]);
      InvStep(g, path[n - 1], path[n]);
      SettledStep(g, path[n - 1], path[n]);
    }
    WrittenAtClose(g, path[n]);
  }

  lemma SettledStep(g: Config, s: State, t: State)
    requires Inv(g, s) && s.drain.Done? && Settled(g, s) && Next(g, s, t)
    ensures t.drain.Done? && Settled(g, t)
  {
    hide Fifo, BatchesSized, Counted;
  }

  lemma Extend(g: Config, run: seq<State>, st: Step) returns (longer: seq<State>)
    requires Run(g, run) && Enabled(g, run[|run| - 1], st)
    ensures Run(g, longer) && longer != [] && longer[|longer| - 1] == Apply(g, run[|run| - 1], st)
  {
    hide Apply, Enabled;
    longer := run + [Apply(g, run[|run| - 1], st)];
    assert Next(g, run[|run| - 1], Apply(g, run[|run| - 1], st));
  }

  const Lossy: Config := Config(1024, 1.0)

  /** A Submit of event 7 passes the check and survives sampling. */
  lemma SubmitUnderWay() returns (run: seq<State>)
    ensures Run(Lossy, run)
    ensures run[|run| - 1] == State([Sampled(7)], [], Running, [], Open, 0, 0, 0, 0, [], 0, [], 1, false)
  {
    run := [State([Idle], [], Running, [], Open, 0, 0, 0, 0, [], 0, [], 0, false)];
    assert Run(Lossy, run);
    hide Run;
    run := Extend(Lossy, run, Submit(0, 7));
    assert run[|run| - 1].producers == [Checked(7)];
    run := Extend(Lossy, run, Sample(0, true));
    assert run[|run| - 1].producers == [Sampled(7)];
  }

  /** Then Close sets both flags. */
  lemma SubmitThenClose() returns (run: seq<State>)
    ensures Run(Lossy, run)
    ensures run[|run| - 1] == State([Sampled(7)], [], Running, [], StopClosed, 0, 0, 0, 0, [], 0, [], 1, false)
  {
    hide Run;
    run := SubmitUnderWay();
    run := Extend(Lossy, run, SetClosed);
    assert InFlight(Lossy, run[|run| - 1].producers[0]);
    run := Extend(Lossy, run, CloseStop);
  }

  /** The drain goroutine, seeing no accepted event, exits while that Submit is still under way. */
  lemma CloseOvertakes() returns (run: seq<State>)
    ensures Run(Lossy, run)
    ensures run[|run| - 1] == State([Sampled(7)], [], FinalFlush, [], StopClosed, 0, 0, 0, 0, [], 0, [], 1, false)
  {
    run := SubmitThenClose();
    hide Run;
    run := Extend(Lossy, run, SeeStop);
    run := Extend(Lossy, run, DrainEmpty);
    run := Extend(Lossy, run, DrainTest);
    run := Extend(Lossy, run, DrainEmpty);
    run := Extend(Lossy, run, DrainTest);
    run := Extend(Lossy, run, DrainEmpty);
    run := Extend(Lossy, run, DrainTest);
  }

  /** The comment that Close leaves no accepted event behind fails: a Submit that passed the check before Close can
      enqueue after the drain goroutine exited. */
  lemma AcceptedEventCanBeLost() returns (run: seq<State>)
    ensures Run(Lossy, run)
    ensures var s := run[|run| - 1]; s.closer.StorageClosed? && s.writers == 1 && s.accepted == [7] && s.batches == []
  {
    run := CloseOvertakes();
    hide Run;
    run := Extend(Lossy, run, FinalSkip);
    run := Extend(Lossy, run, CloseStorage);
    run := Extend(Lossy, run, Send(0));
    run := Extend(Lossy, run, BumpWriters(0));
  }

  // ---- The drain after a quiet stop finishes ----

  /** After a quiet stop the goroutine in drainAll always has a step, every one brings it closer to its exit, and no
      step of anybody else delays it. */
  lemma DrainProgress(g: Config, s: State, st: Step)
    requires Inv(g, s) && s.quiet && InDrainAll(s)
    requires Enabled(g, s, st)
    ensures !s.drain.Done? ==> exists d :: DrainStep(d) && Enabled(g, s, d)
    ensures DrainStep(st) ==> Remaining(Apply(g, s, st)) < Remaining(s)
    ensures !DrainStep(st) ==> Remaining(Apply(g, s, st)) == Remaining(s)
  {
    hide Concat, SentCount;
    if !s.drain.Done? {
      var d := DrainGoesOn(g, s);
    }
    if DrainStep(st) {
      DrainStepShrinks(g, s, st);
    }
  }
}
