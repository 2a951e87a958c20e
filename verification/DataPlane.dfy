// The data plane as interleaved steps: internal/gateway/gateway.go, Ingest, the two bounded queues, the workers
// running finish, mode switches and sweeps. A step is one atomic operation of the source: a counter increment,
// a channel operation, a locked table operation or a plain write to a flow no other goroutine can see yet.
module DataPlane {

  type Key = nat
  type Ref = nat  // the identity of a flow object

  datatype Mode = BypassMode | BlockMode | CustomMode

  /** One packet handed to Ingest; `unknown` when neither a domain nor a server name could be extracted. */
  datatype Packet = Packet(key: Key, up: nat, down: nat, unknown: bool)

  datatype Job = Job(p: Packet, f: Ref)

  datatype Class = Allowed | Blocked | Observed | RateLimited | Unknown

  /** metricsDecision: the counter an action belongs to. */
  function ClassOf(action: string): Class {
    if action == "allow" then Allowed
    else if action == "block" || action == "reject" || action == "drop" then Blocked
    else if action == "observe" then Observed
    else if action == "ratelimit" then RateLimited
    else Unknown
  }

  /** How a flow got its action: the packet, and the rules and mode in force when it was decided. */
  datatype Birth = Birth(p: Packet, env: nat, mode: Mode, action: string)

  /** Where the action of a packet comes from when it is accounted: a cached flow, or a value already at hand. */
  datatype Origin = Cached(f: Ref) | Fixed(action: string)

  /** Where a goroutine is. Callers of Ingest and workers share the accounting at the end. */
  datatype Pc =
    | Idle
    | Started(p: Packet)                              // counted in Packets, mode not yet read
    | Looking(p: Packet)                              // not bypassed, table not yet consulted
    | Missed(p: Packet, f: Ref)                       // job built, not yet queued
    | Finishing(p: Packet, f: Ref)                    // worker holds the job
    | Deciding(p: Packet, f: Ref, birth: Birth)       // decision written to the flow, not yet inserted
    | Accounting(p: Packet, o: Origin)                // neither byte counter bumped
    | UpDone(p: Packet, o: Origin)
    | BothDone(p: Packet, o: Origin)

  datatype Counters = Counters(packets: nat, allowed: nat, blocked: nat, observed: nat, rateLimited: nat,
                               unknown: nat, bytesUp: nat, bytesDown: nat)

  /** A packet whose accounting is complete, with its action and the cached flow that supplied it, if any. */
  datatype Completion = Completion(p: Packet, action: string, from: Origin)

  datatype State = State(
    mode: Mode,
    env: nat,                      // the rule set, detector and policy in force
    pcs: seq<Pc>,
    fast: seq<Job>,
    slow: seq<Job>,
    table: map<Key, Ref>,
    actions: map<Ref, string>,     // the Action field of every classified flow object
    nextRef: Ref,
    c: Counters,
    // history
    arrived: seq<Packet>,
    done: seq<Completion>,
    born: map<Ref, Birth>)         // the decision of the finish that inserted the flow

  /** The capacity of each queue, and the decision function of policy, rules and detector. */
  datatype Config = Config(capacity: nat, decide: (nat, Mode, Packet) -> string)

  datatype Step =
    | Start(i: nat, p: Packet)
    | ReadMode(i: nat)
    | Lookup(i: nat)
    | Enqueue(i: nat)
    | TakeFast(i: nat)
    | TakeSlow(i: nat)
    | Decide(i: nat)
    | Insert(i: nat)
    | AddUp(i: nat)
    | AddDown(i: nat)
    | Count(i: nat)
    | Reconfigure(mode: Mode, env: nat)
    | Sweep(keys: set<Key>)

  function Bump(c: Counters, k: Class): Counters {
    match k
    case Allowed => c.(allowed := c.allowed + 1)
    case Blocked => c.(blocked := c.blocked + 1)
    case Observed => c.(observed := c.observed + 1)
    case RateLimited => c.(rateLimited := c.rateLimited + 1)
    case Unknown => c.(unknown := c.unknown + 1)
  }

  function At(s: State, i: nat): Pc {
    if i < |s.pcs| then s.pcs[i] else Idle
  }

  function Goto(s: State, i: nat, pc: Pc): State
    requires i < |s.pcs|
  {
    s.(pcs := s.pcs[i := pc])
  }

  function ActionOf(s: State, o: Origin): string {
    match o
    case Fixed(a) => a
    case Cached(f) => if f in s.actions then s.actions[f] else ""
  }

  /** The effect of a step, or nothing when it is not enabled. */
  function Apply(g: Config, s: State, st: Step): (r: State)
    requires Enabled(g, s, st)
  {
    match st
    case Start(i, p) =>
      Goto(s, i, Started(p)).(c := s.c.(packets := s.c.packets + 1), arrived := s.arrived + [p])
    case ReadMode(i) =>
      var p := s.pcs[i].p;
      Goto(s, i, if s.mode == BypassMode then Accounting(p, Fixed("observe")) else Looking(p))
    case Lookup(i) =>
      var p := s.pcs[i].p;
      if p.key in s.table then Goto(s, i, Accounting(p, Cached(s.table[p.key])))
      else Goto(s, i, Missed(p, s.nextRef)).(nextRef := s.nextRef + 1)
    case Enqueue(i) =>
      var (p, f) := (s.pcs[i].p, s.pcs[i].f);
      if p.unknown then
        if |s.slow| < g.capacity then Goto(s, i, Idle).(slow := s.slow + [Job(p, f)])
        else Goto(s, i, Accounting(p, Fixed("observe")))
      else
        if |s.fast| < g.capacity then Goto(s, i, Idle).(fast := s.fast + [Job(p, f)])
        else Goto(s, i, Accounting(p, Fixed("observe")))
    case TakeFast(i) => Goto(s, i, Finishing(s.fast[0].p, s.fast[0].f)).(fast := s.fast[1..])
    case TakeSlow(i) => Goto(s, i, Finishing(s.slow[0].p, s.slow[0].f)).(slow := s.slow[1..])
    case Decide(i) =>
      var (p, f) := (s.pcs[i].p, s.pcs[i].f);
      var a := g.decide(s.env, s.mode, p);
      Goto(s, i, Deciding(p, f, Birth(p, s.env, s.mode, a))).(actions := s.actions[f := a])
    case Insert(i) =>
      var (p, f, b) := (s.pcs[i].p, s.pcs[i].f, s.pcs[i].birth);
      var t := Goto(s, i, Accounting(p, Fixed(b.action)));
      if p.key in s.table then t else t.(table := s.table[p.key := f], born := s.born[f := b])
    case AddUp(i) =>
      Goto(s, i, UpDone(s.pcs[i].p, s.pcs[i].o)).(c := s.c.(bytesUp := s.c.bytesUp + s.pcs[i].p.up))
    case AddDown(i) =>
      Goto(s, i, BothDone(s.pcs[i].p, s.pcs[i].o)).(c := s.c.(bytesDown := s.c.bytesDown + s.pcs[i].p.down))
    case Count(i) =>
      var a := ActionOf(s, s.pcs[i].o);
      Goto(s, i, Idle).(c := Bump(s.c, ClassOf(a)), done := s.done + [Completion(s.pcs[i].p, a, s.pcs[i].o)])
    case Reconfigure(m, e) => s.(mode := m, env := e)
    case Sweep(keys) => s.(table := s.table - keys)
  }

  predicate Enabled(g: Config, s: State, st: Step) {
    match st
    case Start(i, _) => i < |s.pcs| && s.pcs[i].Idle?
    case ReadMode(i) => i < |s.pcs| && s.pcs[i].Started?
    case Lookup(i) => i < |s.pcs| && s.pcs[i].Looking?
    case Enqueue(i) => i < |s.pcs| && s.pcs[i].Missed?
    case TakeFast(i) => i < |s.pcs| && s.pcs[i].Idle? && s.fast != []
    case TakeSlow(i) => i < |s.pcs| && s.pcs[i].Idle? && s.slow != []
    case Decide(i) => i < |s.pcs| && s.pcs[i].Finishing?
    case Insert(i) => i < |s.pcs| && s.pcs[i].Deciding?
    case AddUp(i) => i < |s.pcs| && s.pcs[i].Accounting?
    case AddDown(i) => i < |s.pcs| && s.pcs[i].UpDone?
    case Count(i) => i < |s.pcs| && s.pcs[i].BothDone?
    case Reconfigure(_, _) => true
    case Sweep(_) => true
  }

  ghost predicate Init(s: State) {
    && (forall i :: 0 <= i < |s.pcs| ==> s.pcs[i] == Idle)
    && s.fast == [] && s.slow == [] && s.table == map[] && s.actions == map[] && s.nextRef == 0
    && s.c == Counters(0, 0, 0, 0, 0, 0, 0, 0)
    && s.arrived == [] && s.done == [] && s.born == map[]
  }

  ghost predicate Next(g: Config, s: State, t: State) {
    exists st :: Enabled(g, s, st) && t == Apply(g, s, st)
  }

  ghost predicate Run(g: Config, run: seq<State>) {
    && run != [] && Init(run[0])
    && forall i :: 0 <= i < |run| - 1 ==> Next(g, run[i], run[i + 1])
  }

  // ---- Tallies ----

  ghost function One(b: bool): nat {
    if b then 1 else 0
  }

  /** How often packet `q` arrived, and how often it is held, queued and completed. */
  ghost function Arrivals(ps: seq<Packet>, q: Packet): nat {
    if ps == [] then 0 else Arrivals(ps[..|ps| - 1], q) + One(ps[|ps| - 1] == q)
  }

  ghost predicate Holds(pc: Pc, q: Packet) {
    !pc.Idle? && pc.p == q
  }

  ghost function Held(pcs: seq<Pc>, q: Packet): nat {
    if pcs == [] then 0 else Held(pcs[..|pcs| - 1], q) + One(Holds(pcs[|pcs| - 1], q))
  }

  ghost function Queued(js: seq<Job>, q: Packet): nat {
    if js == [] then 0 else Queued(js[..|js| - 1], q) + One(js[|js| - 1].p == q)
  }

  ghost function Completions(done: seq<Completion>, q: Packet): nat {
    if done == [] then 0 else Completions(done[..|done| - 1], q) + One(done[|done| - 1].p == q)
  }

  /** Goroutines that hold a packet. */
  ghost function Busy(pcs: seq<Pc>): nat {
    if pcs == [] then 0 else Busy(pcs[..|pcs| - 1]) + One(!pcs[|pcs| - 1].Idle?)
  }

  ghost function CountOf(done: seq<Completion>, k: Class): nat {
    if done == [] then 0
    else CountOf(done[..|done| - 1], k) + One(ClassOf(done[|done| - 1].action) == k)
  }

  ghost function UpOf(done: seq<Completion>): nat {
    if done == [] then 0 else UpOf(done[..|done| - 1]) + done[|done| - 1].p.up
  }

  ghost function DownOf(done: seq<Completion>): nat {
    if done == [] then 0 else DownOf(done[..|done| - 1]) + done[|done| - 1].p.down
  }

  /** Bytes of packets already added although their accounting is not complete. */
  ghost function EarlyUp(pcs: seq<Pc>): nat {
    if pcs == [] then 0
    else
      var pc := pcs[|pcs| - 1];
      EarlyUp(pcs[..|pcs| - 1]) + (if pc.UpDone? || pc.BothDone? then pc.p.up else 0)
  }

  ghost function EarlyDown(pcs: seq<Pc>): nat {
    if pcs == [] then 0
    else
      var pc := pcs[|pcs| - 1];
      EarlyDown(pcs[..|pcs| - 1]) + (if pc.BothDone? then pc.p.down else 0)
  }

  /** Replacing one goroutine's position changes a tally by that goroutine's share. */
  lemma {:induction false} HeldMove(pcs: seq<Pc>, i: nat, pc: Pc, q: Packet)
    requires i < |pcs|
    ensures Held(pcs[i := pc], q) + One(Holds(pcs[i], q)) == Held(pcs, q) + One(Holds(pc, q))
  {
    var n := |pcs| - 1;
    if i == n {
      assert pcs[i := pc][..n] == pcs[..n];
    } else {
      HeldMove(pcs[..n], i, pc, q);
      assert pcs[i := pc][..n] == pcs[..n][i := pc];
    }
  }

  lemma {:induction false} BusyMove(pcs: seq<Pc>, i: nat, pc: Pc)
    requires i < |pcs|
    ensures Busy(pcs[i := pc]) + One(!pcs[i].Idle?) == Busy(pcs) + One(!pc.Idle?)
  {
    var n := |pcs| - 1;
    if i == n {
      assert pcs[i := pc][..n] == pcs[..n];
    } else {
      BusyMove(pcs[..n], i, pc);
      assert pcs[i := pc][..n] == pcs[..n][i := pc];
    }
  }

  lemma {:induction false} EarlyMove(pcs: seq<Pc>, i: nat, pc: Pc)
    requires i < |pcs|
    ensures EarlyUp(pcs[i := pc]) + (if pcs[i].UpDone? || pcs[i].BothDone? then pcs[i].p.up else 0)
            == EarlyUp(pcs) + (if pc.UpDone? || pc.BothDone? then pc.p.up else 0)
    ensures EarlyDown(pcs[i := pc]) + (if pcs[i].BothDone? then pcs[i].p.down else 0)
            == EarlyDown(pcs) + (if pc.BothDone? then pc.p.down else 0)
  {
    var n := |pcs| - 1;
    if i == n {
      assert pcs[i := pc][..n] == pcs[..n];
    } else {
      EarlyMove(pcs[..n], i, pc);
      assert pcs[i := pc][..n] == pcs[..n][i := pc];
    }
  }

  lemma ArrivalsPush(ps: seq<Packet>, p: Packet, q: Packet)
    ensures Arrivals(ps + [p], q) == Arrivals(ps, q) + One(p == q)
  {
    assert (ps + [p])[..|ps|] == ps;
  }

  lemma QueuedPush(js: seq<Job>, j: Job, q: Packet)
    ensures Queued(js + [j], q) == Queued(js, q) + One(j.p == q)
  {
    assert (js + [j])[..|js|] == js;
  }

  lemma {:induction false} QueuedPop(js: seq<Job>, q: Packet)
    requires js != []
    ensures Queued(js, q) == One(js[0].p == q) + Queued(js[1..], q)
  {
    var n := |js| - 1;
    if n > 0 {
      QueuedPop(js[..n], q);
      assert js[1..][..n - 1] == js[..n][1..];
    }
  }

  lemma DonePush(done: seq<Completion>, x: Completion, q: Packet)
    ensures Completions(done + [x], q) == Completions(done, q) + One(x.p == q)
    ensures UpOf(done + [x]) == UpOf(done) + x.p.up && DownOf(done + [x]) == DownOf(done) + x.p.down
    ensures forall k :: CountOf(done + [x], k) == CountOf(done, k) + One(ClassOf(x.action) == k)
  {
    assert (done + [x])[..|done|] == done;
  }

  // ---- Conservation ----

  /** Every occurrence of a packet that arrived is in exactly one place: completed, queued or held. */
  ghost predicate PacketKept(s: State, q: Packet) {
    Arrivals(s.arrived, q) == Completions(s.done, q) + Queued(s.fast, q) + Queued(s.slow, q) + Held(s.pcs, q)
  }

  /** Packets counts the arrivals, each completed, queued or held. */
  ghost predicate SizesTrue(s: State) {
    s.c.packets == |s.arrived| == |s.done| + |s.fast| + |s.slow| + Busy(s.pcs)
  }

  /** Each disposition counter counts the completions of its class. */
  ghost predicate ClassesTrue(s: State) {
    && s.c.allowed == CountOf(s.done, Allowed) && s.c.blocked == CountOf(s.done, Blocked)
    && s.c.observed == CountOf(s.done, Observed) && s.c.rateLimited == CountOf(s.done, RateLimited)
    && s.c.unknown == CountOf(s.done, Unknown)
  }

  /** The byte counters sum the completed packets, and those whose accounting already added them. */
  ghost predicate BytesTrue(s: State) {
    && s.c.bytesUp == UpOf(s.done) + EarlyUp(s.pcs)
    && s.c.bytesDown == DownOf(s.done) + EarlyDown(s.pcs)
  }

  /** Steps that move no packet between goroutine, queue and history. */
  predicate IsLocal(st: Step) {
    !st.Start? && !st.Enqueue? && !st.TakeFast? && !st.TakeSlow? && !st.Count?
  }

  lemma KeptLocally(g: Config, s: State, st: Step, q: Packet)
    requires Enabled(g, s, st) && PacketKept(s, q) && IsLocal(st)
    ensures PacketKept(Apply(g, s, st), q)
  {
    hide Held, Queued, Completions, Arrivals, ActionOf;
    if !st.Reconfigure? && !st.Sweep? {
      HeldMove(s.pcs, st.i, Apply(g, s, st).pcs[st.i], q);
    }
  }

  lemma KeptByQueue(g: Config, s: State, st: Step, q: Packet)
    requires Enabled(g, s, st) && PacketKept(s, q)
    requires st.Enqueue? || st.TakeFast? || st.TakeSlow?
    ensures PacketKept(Apply(g, s, st), q)
  {
    hide Held, Queued, Completions, Arrivals, ActionOf;
    var i := st.i;
    HeldMove(s.pcs, i, Apply(g, s, st).pcs[i], q);
    match st {
      case Enqueue(i) =>
        QueuedPush(s.fast, Job(s.pcs[i].p, s.pcs[i].f), q);
        QueuedPush(s.slow, Job(s.pcs[i].p, s.pcs[i].f), q);
      case TakeFast(i) => QueuedPop(s.fast, q);
      case TakeSlow(i) => QueuedPop(s.slow, q);
    }
  }

  lemma KeptStep(g: Config, s: State, st: Step, q: Packet)
    requires Enabled(g, s, st) && PacketKept(s, q)
    ensures PacketKept(Apply(g, s, st), q)
  {
    hide Held, Queued, Completions, Arrivals, ActionOf;
    if IsLocal(st) {
      KeptLocally(g, s, st, q);
    } else if st.Enqueue? || st.TakeFast? || st.TakeSlow? {
      KeptByQueue(g, s, st, q);
    } else {
      var t := Apply(g, s, st);
      HeldMove(s.pcs, st.i, t.pcs[st.i], q);
      if st.Start? {
        ArrivalsPush(s.arrived, st.p, q);
      } else {
        DonePush(s.done, t.done[|s.done|], q);
      }
    }
  }

  lemma SizesLocally(g: Config, s: State, st: Step)
    requires Enabled(g, s, st) && SizesTrue(s) && IsLocal(st)
    ensures SizesTrue(Apply(g, s, st))
  {
    hide Busy, ActionOf;
    if !st.Reconfigure? && !st.Sweep? {
      BusyMove(s.pcs, st.i, Apply(g, s, st).pcs[st.i]);
    }
  }

  lemma SizesStep(g: Config, s: State, st: Step)
    requires Enabled(g, s, st) && SizesTrue(s)
    ensures SizesTrue(Apply(g, s, st))
  {
    hide Busy, ActionOf, ClassOf;
    if IsLocal(st) {
      hide Apply;
      SizesLocally(g, s, st);
    } else {
      BusyMove(s.pcs, st.i, Apply(g, s, st).pcs[st.i]);
    }
  }

  lemma ClassesStep(g: Config, s: State, st: Step)
    requires Enabled(g, s, st) && ClassesTrue(s)
    ensures ClassesTrue(Apply(g, s, st))
  {
    hide CountOf, ActionOf, ClassOf, Completions;
    if st.Count? {
      DonePush(s.done, Apply(g, s, st).done[|s.done|], Packet(0, 0, 0, false));
    }
  }

  lemma BytesMoved(g: Config, s: State, st: Step)
    requires Enabled(g, s, st) && BytesTrue(s) && !st.Count?
    ensures BytesTrue(Apply(g, s, st))
  {
    hide Held, Busy, EarlyUp, EarlyDown, UpOf, DownOf, ActionOf;
    if !st.Reconfigure? && !st.Sweep? {
      EarlyMove(s.pcs, st.i, Apply(g, s, st).pcs[st.i]);
    }
  }

  lemma BytesStep(g: Config, s: State, st: Step)
    requires Enabled(g, s, st) && BytesTrue(s)
    ensures BytesTrue(Apply(g, s, st))
  {
    hide Held, Busy, EarlyUp, EarlyDown, UpOf, DownOf, ActionOf, Completions, CountOf, ClassOf;
    if st.Count? {
      EarlyMove(s.pcs, st.i, Apply(g, s, st).pcs[st.i]);
      DonePush(s.done, Apply(g, s, st).done[|s.done|], Packet(0, 0, 0, false));
    } else {
      hide Apply;
      BytesMoved(g, s, st);
    }
  }

  // ---- Whole runs ----

  ghost predicate Conserved(s: State) {
    SizesTrue(s) && ClassesTrue(s) && BytesTrue(s) && forall q :: PacketKept(s, q)
  }

  lemma {:induction false} InitTallies(pcs: seq<Pc>, q: Packet)
    requires forall i :: 0 <= i < |pcs| ==> pcs[i] == Idle
    ensures Held(pcs, q) == 0 && Busy(pcs) == 0 && EarlyUp(pcs) == 0 && EarlyDown(pcs) == 0
  {
    if pcs != [] {
      InitTallies(pcs[..|pcs| - 1], q);
    }
  }

  lemma ConservedStep(g: Config, s: State, t: State)
    requires Conserved(s) && Next(g, s, t)
    ensures Conserved(t)
  {
    hide SizesTrue, ClassesTrue, BytesTrue, PacketKept, Apply, Enabled;
    var st :| Enabled(g, s, st) && t == Apply(g, s, st);
    SizesStep(g, s, st);
    ClassesStep(g, s, st);
    BytesStep(g, s, st);
    forall q
      ensures PacketKept(t, q)
    {
      KeptStep(g, s, st, q);
    }
  }

  lemma {:induction false} ConservedAlways(g: Config, run: seq<State>)
    requires Run(g, run)
    ensures Conserved(run[|run| - 1])
  {
    hide Conserved, Next, Init;
    var n := |run| - 1;
    if n == 0 {
      assert Conserved(run[0]) by {
        ConservedInit(run[0]);
      }
    } else {
      ConservedAlways(g, run[..n]);
      ConservedStep(g, run[n - 1], run[n]);
    }
  }

  lemma ConservedInit(s: State)
    requires Init(s)
    ensures Conserved(s)
  {
    forall q
      ensures PacketKept(s, q)
    {
      InitTallies(s.pcs, q);
    }
    InitTallies(s.pcs, Packet(0, 0, 0, false));
  }

  lemma {:induction false} ClassesPartition(done: seq<Completion>)
    ensures |done| == CountOf(done, Allowed) + CountOf(done, Blocked) + CountOf(done, Observed)
                      + CountOf(done, RateLimited) + CountOf(done, Unknown)
  {
    if done != [] {
      ClassesPartition(done[..|done| - 1]);
    }
  }

  /** How many packets were completed with an action. */
  ghost function Acted(done: seq<Completion>, action: string): nat {
    if done == [] then 0 else Acted(done[..|done| - 1], action) + One(done[|done| - 1].action == action)
  }

  /** Which actions each class counts. */
  lemma {:induction false} ClassActions(done: seq<Completion>)
    ensures CountOf(done, Allowed) == Acted(done, "allow")
    ensures CountOf(done, Blocked) == Acted(done, "block") + Acted(done, "reject") + Acted(done, "drop")
    ensures CountOf(done, Observed) == Acted(done, "observe")
    ensures CountOf(done, RateLimited) == Acted(done, "ratelimit")
  {
    if done != [] {
      ClassActions(done[..|done| - 1]);
    }
  }

  /** The conservation law of the data plane, in every reachable state: each counter counts the packets completed with its
      actions, and every packet is completed, queued or held. */
  lemma ConservationLaw(g: Config, run: seq<State>)
    requires Run(g, run)
    ensures var s := run[|run| - 1];
            && s.c.packets == |s.arrived|
            && s.c.packets == s.c.allowed + s.c.blocked + s.c.observed + s.c.rateLimited + s.c.unknown
                              + |s.fast| + |s.slow| + Busy(s.pcs)
            && s.c.allowed == Acted(s.done, "allow")
            && s.c.blocked == Acted(s.done, "block") + Acted(s.done, "reject") + Acted(s.done, "drop")
            && s.c.observed == Acted(s.done, "observe")
            && s.c.rateLimited == Acted(s.done, "ratelimit")
            && s.c.bytesUp == UpOf(s.done) + EarlyUp(s.pcs)
            && s.c.bytesDown == DownOf(s.done) + EarlyDown(s.pcs)
            && forall q :: PacketKept(s, q)
  {
    hide CountOf, Acted, Busy, UpOf, EarlyUp, DownOf, EarlyDown, PacketKept;
    ConservedAlways(g, run);
    var s := run[|run| - 1];
    ClassActions(s.done);
    ClassesPartition(s.done);
  }

  // ---- Cached actions ----

  ghost predicate Owns(pc: Pc, f: Ref) {
    (pc.Missed? || pc.Finishing? || pc.Deciding?) && pc.f == f
  }

  /** How many hands hold the flow object before it is published: goroutines and queued jobs. */
  ghost function Owned(pcs: seq<Pc>, f: Ref): nat {
    if pcs == [] then 0 else Owned(pcs[..|pcs| - 1], f) + One(Owns(pcs[|pcs| - 1], f))
  }

  ghost function Pending(js: seq<Job>, f: Ref): nat {
    if js == [] then 0 else Pending(js[..|js| - 1], f) + One(js[|js| - 1].f == f)
  }

  lemma {:induction false} OwnedMove(pcs: seq<Pc>, i: nat, pc: Pc, f: Ref)
    requires i < |pcs|
    ensures Owned(pcs[i := pc], f) + One(Owns(pcs[i], f)) == Owned(pcs, f) + One(Owns(pc, f))
  {
    var n := |pcs| - 1;
    if i == n {
      assert pcs[i := pc][..n] == pcs[..n];
    } else {
      OwnedMove(pcs[..n], i, pc, f);
      assert pcs[i := pc][..n] == pcs[..n][i := pc];
    }
  }

  lemma {:induction false} OwnedTwice(pcs: seq<Pc>, i: nat, j: nat, f: Ref)
    requires i < j < |pcs| && Owns(pcs[i], f) && Owns(pcs[j], f)
    ensures Owned(pcs, f) >= 2
  {
    var n := |pcs| - 1;
    if j == n {
      OwnedMove(pcs[..n], i, Idle, f);
    } else {
      OwnedTwice(pcs[..n], i, j, f);
    }
  }

  lemma PendingPush(js: seq<Job>, j: Job, f: Ref)
    ensures Pending(js + [j], f) == Pending(js, f) + One(j.f == f)
  {
    assert (js + [j])[..|js|] == js;
  }

  lemma {:induction false} PendingPop(js: seq<Job>, f: Ref)
    requires js != []
    ensures Pending(js, f) == One(js[0].f == f) + Pending(js[1..], f)
  {
    var n := |js| - 1;
    if n > 0 {
      PendingPop(js[..n], f);
      assert js[1..][..n - 1] == js[..n][1..];
    }
  }

  ghost function Hands(s: State, f: Ref): nat {
    Owned(s.pcs, f) + Pending(s.fast, f) + Pending(s.slow, f)
  }

  /** A flow object is in at most one hand, and in none before it exists or after it is published. */
  ghost predicate SoleOwner(s: State, f: Ref) {
    && Hands(s, f) <= 1
    && (f >= s.nextRef || f in s.born ==> Hands(s, f) == 0)
    && (f in s.born ==> f < s.nextRef)
  }

  /** The cached actions are the decisions of the finishes that inserted the flows. */
  ghost predicate Faithful(g: Config, s: State) {
    && (forall f :: f in s.born ==>
          f in s.actions && s.actions[f] == s.born[f].action && Decided(g, s.born[f]))
    && (forall k :: k in s.table ==> s.table[k] in s.born && s.born[s.table[k]].p.key == k)
    && (forall i :: 0 <= i < |s.pcs| ==> PcFaithful(g, s, s.pcs[i]))
    && (forall n :: 0 <= n < |s.done| ==> DoneFaithful(s, s.done[n]))
  }

  /** The action is the one the rules and mode of the birth call for. */
  ghost predicate Decided(g: Config, b: Birth) {
    b.action == g.decide(b.env, b.mode, b.p)
  }

  ghost predicate FromBorn(s: State, p: Packet, o: Origin) {
    o.Cached? ==> o.f in s.born && s.born[o.f].p.key == p.key
  }

  ghost predicate PcFaithful(g: Config, s: State, pc: Pc) {
    match pc
    case Deciding(p, f, b) => b.p == p && Decided(g, b) && f in s.actions && s.actions[f] == b.action
    case Accounting(p, o) => FromBorn(s, p, o)
    case UpDone(p, o) => FromBorn(s, p, o)
    case BothDone(p, o) => FromBorn(s, p, o)
    case _ => true
  }

  /** A packet served from the cache got the action of the flow's birth. */
  ghost predicate DoneFaithful(s: State, x: Completion) {
    x.from.Cached? ==>
      x.from.f in s.born && s.born[x.from.f].p.key == x.p.key && x.action == s.born[x.from.f].action
  }

  lemma OwnerByQueue(g: Config, s: State, st: Step, f: Ref)
    requires Enabled(g, s, st) && SoleOwner(s, f)
    requires st.Enqueue? || st.TakeFast? || st.TakeSlow?
    ensures SoleOwner(Apply(g, s, st), f)
  {
    hide Owned, Pending, ActionOf;
    var i := st.i;
    OwnedMove(s.pcs, i, Apply(g, s, st).pcs[i], f);
    match st {
      case Enqueue(i) =>
        PendingPush(s.fast, Job(s.pcs[i].p, s.pcs[i].f), f);
        PendingPush(s.slow, Job(s.pcs[i].p, s.pcs[i].f), f);
      case TakeFast(i) => PendingPop(s.fast, f);
      case TakeSlow(i) => PendingPop(s.slow, f);
    }
  }

  lemma SoleOwnerStep(g: Config, s: State, st: Step, f: Ref)
    requires Enabled(g, s, st) && SoleOwner(s, f)
    ensures SoleOwner(Apply(g, s, st), f)
  {
    hide Owned, Pending, ActionOf, Bump;
    if st.Enqueue? || st.TakeFast? || st.TakeSlow? {
      OwnerByQueue(g, s, st, f);
    } else if !st.Reconfigure? && !st.Sweep? {
      OwnedMove(s.pcs, st.i, Apply(g, s, st).pcs[st.i], f);
    }
  }

  lemma {:induction false} OwnerCounts(pcs: seq<Pc>, i: nat, f: Ref)
    requires i < |pcs| && Owns(pcs[i], f)
    ensures Owned(pcs, f) >= 1
  {
    OwnedMove(pcs, i, Idle, f);
  }

  /** Deciding writes a flow no other goroutine holds and nobody has published. */
  lemma FaithfulDecide(g: Config, s: State, i: nat)
    requires Enabled(g, s, Decide(i)) && Faithful(g, s) && forall f :: SoleOwner(s, f)
    ensures Faithful(g, Apply(g, s, Decide(i)))
  {
    var f, t := s.pcs[i].f, Apply(g, s, Decide(i));
    assert SoleOwner(s, f);
    OwnerCounts(s.pcs, i, f);
    forall j | 0 <= j < |t.pcs|
      ensures PcFaithful(g, t, t.pcs[j])
    {
      if j != i && s.pcs[j].Deciding? && s.pcs[j].f == f {
        if i < j {
          OwnedTwice(s.pcs, i, j, f);
        } else {
          OwnedTwice(s.pcs, j, i, f);
        }
        assert false;
      }
      assert PcFaithful(g, s, s.pcs[j]);
    }
    forall n | 0 <= n < |t.done|
      ensures DoneFaithful(t, t.done[n])
    {
      assert DoneFaithful(s, s.done[n]);
    }
  }

  /** Publishing a flow records its decision and disturbs no other. */
  lemma FaithfulInsert(g: Config, s: State, i: nat)
    requires Enabled(g, s, Insert(i)) && Faithful(g, s) && forall f :: SoleOwner(s, f)
    ensures Faithful(g, Apply(g, s, Insert(i)))
  {
    var f, t := s.pcs[i].f, Apply(g, s, Insert(i));
    assert SoleOwner(s, f);
    OwnerCounts(s.pcs, i, f);
    assert f !in s.born;
    assert PcFaithful(g, s, s.pcs[i]);
    forall j | 0 <= j < |t.pcs|
      ensures PcFaithful(g, t, t.pcs[j])
    {
      assert PcFaithful(g, s, s.pcs[j]);
    }
    forall n | 0 <= n < |t.done|
      ensures DoneFaithful(t, t.done[n])
    {
      assert DoneFaithful(s, s.done[n]);
    }
  }

  lemma FaithfulStep(g: Config, s: State, st: Step)
    requires Enabled(g, s, st) && Faithful(g, s) && forall f :: SoleOwner(s, f)
    ensures Faithful(g, Apply(g, s, st))
  {
    hide SoleOwner, Decided;
    if st.Decide? {
      FaithfulDecide(g, s, st.i);
    } else if st.Insert? {
      FaithfulInsert(g, s, st.i);
    } else {
      FaithfulElse(g, s, st);
    }
  }

  /** Where no flow is written or published, decisions stand, and the goroutine that moved is as faithful as before. */
  lemma ElseKeeps(g: Config, s: State, st: Step)
    requires Enabled(g, s, st) && !st.Decide? && !st.Insert?
    ensures var t := Apply(g, s, st);
            && t.born == s.born && t.actions == s.actions
            && (forall k :: k in t.table ==> k in s.table && t.table[k] == s.table[k])
  {
    hide Bump, ActionOf, ClassOf;
  }

  lemma DoneGrows(g: Config, s: State, st: Step)
    requires Enabled(g, s, st)
    ensures var done := Apply(g, s, st).done;
            if st.Count? then done == s.done + [Completion(s.pcs[st.i].p, ActionOf(s, s.pcs[st.i].o), s.pcs[st.i].o)]
            else done == s.done
  {
    hide Bump, ActionOf, ClassOf;
  }

  lemma ElseMoves(g: Config, s: State, st: Step)
    requires Enabled(g, s, st) && Faithful(g, s) && !st.Decide? && !st.Insert?
    ensures var t := Apply(g, s, st);
            |t.pcs| == |s.pcs| && forall j :: 0 <= j < |t.pcs| ==> PcFaithful(g, s, t.pcs[j])
  {
    hide Decided, Bump, DoneFaithful;
    assert forall j :: 0 <= j < |s.pcs| ==> PcFaithful(g, s, s.pcs[j]);
  }

  lemma FaithfulElse(g: Config, s: State, st: Step)
    requires Enabled(g, s, st) && Faithful(g, s) && !st.Decide? && !st.Insert?
    ensures Faithful(g, Apply(g, s, st))
  {
    hide Decided, Apply;
    var t := Apply(g, s, st);
    ElseKeeps(g, s, st);
    DoneGrows(g, s, st);
    ElseMoves(g, s, st);
    forall j | 0 <= j < |t.pcs|
      ensures PcFaithful(g, t, t.pcs[j])
    {
      assert PcFaithful(g, s, t.pcs[j]);
    }
    forall n | 0 <= n < |t.done|
      ensures DoneFaithful(t, t.done[n])
    {
      if n < |s.done| {
        assert DoneFaithful(s, s.done[n]);
      } else {
        assert PcFaithful(g, s, s.pcs[st.i]);
      }
    }
  }

  ghost predicate CacheInv(g: Config, s: State) {
    Faithful(g, s) && forall f :: SoleOwner(s, f)
  }

  lemma {:induction false} CacheAlways(g: Config, run: seq<State>)
    requires Run(g, run)
    ensures CacheInv(g, run[|run| - 1])
  {
    hide Faithful, SoleOwner, Apply, Enabled;
    var n := |run| - 1;
    if n == 0 {
      CacheInit(g, run[0]);
    } else {
      CacheAlways(g, run[..n]);
      var s := run[n - 1];
      assert Next(g, run[n - 1], run[n - 1 + 1]);
      var st :| Enabled(g, s, st) && run[n] == Apply(g, s, st);
      FaithfulStep(g, s, st);
      forall f
        ensures SoleOwner(run[n], f)
      {
        SoleOwnerStep(g, s, st, f);
      }
    }
  }

  lemma CacheInit(g: Config, s: State)
    requires Init(s)
    ensures CacheInv(g, s)
  {
    forall f
      ensures SoleOwner(s, f)
    {
      InitOwned(s.pcs, f);
    }
  }

  lemma {:induction false} InitOwned(pcs: seq<Pc>, f: Ref)
    requires forall i :: 0 <= i < |pcs| ==> pcs[i] == Idle
    ensures Owned(pcs, f) == 0
  {
    if pcs != [] {
      InitOwned(pcs[..|pcs| - 1], f);
    }
  }

  /** Every packet served from the cache got the decision of the finish that inserted the flow, for the same 5-tuple. */
  lemma CachedDecision(g: Config, run: seq<State>, n: nat)
    requires Run(g, run) && n < |run[|run| - 1].done| && run[|run| - 1].done[n].from.Cached?
    ensures var s := run[|run| - 1];
            var x := s.done[n];
            && x.from.f in s.born && s.born[x.from.f].p.key == x.p.key
            && x.action == s.born[x.from.f].action
            && x.action == g.decide(s.born[x.from.f].env, s.born[x.from.f].mode, s.born[x.from.f].p)
  {
    hide SoleOwner;
    CacheAlways(g, run);
    var s := run[|run| - 1];
    assert DoneFaithful(s, s.done[n]);
  }

  /** While a flow stays resident its table entry and its birth do not change, whatever the step. */
  lemma ResidenceIsStable(g: Config, run: seq<State>, i: nat, j: nat, k: Key)
    requires Run(g, run) && i <= j < |run|
    requires forall m :: i <= m <= j ==> k in run[m].table
    ensures run[j].table[k] == run[i].table[k]
    ensures run[i].table[k] in run[i].born && run[i].table[k] in run[j].born
    ensures run[j].born[run[j].table[k]] == run[i].born[run[i].table[k]]
    decreases j - i
  {
    hide CacheInv, Apply, Enabled;
    CacheAt(g, run, i);
    if i < j {
      ResidenceIsStable(g, run, i, j - 1, k);
      CacheAt(g, run, j - 1);
      assert Next(g, run[j - 1], run[j - 1 + 1]);
      var st :| Enabled(g, run[j - 1], st) && run[j] == Apply(g, run[j - 1], st);
      ResidentStep(g, run[j - 1], st, k);
    }
  }

  lemma CacheAt(g: Config, run: seq<State>, i: nat)
    requires Run(g, run) && i < |run|
    ensures CacheInv(g, run[i])
    ensures forall k :: k in run[i].table ==> run[i].table[k] in run[i].born
  {
    CacheAlways(g, run[..i + 1]);
  }

  lemma TableStep(g: Config, s: State, st: Step, k: Key)
    requires Enabled(g, s, st) && k in s.table && k in Apply(g, s, st).table
    ensures Apply(g, s, st).table[k] == s.table[k]
  {
    hide Bump, ActionOf;
  }

  /** Births are written once. */
  lemma BornStep(g: Config, s: State, st: Step, f: Ref)
    requires Enabled(g, s, st) && CacheInv(g, s) && f in s.born
    ensures f in Apply(g, s, st).born && Apply(g, s, st).born[f] == s.born[f]
  {
    hide Decided, PcFaithful, DoneFaithful, Bump, ActionOf;
    if st.Insert? {
      assert SoleOwner(s, s.pcs[st.i].f);
      OwnerCounts(s.pcs, st.i, s.pcs[st.i].f);
    }
  }

  lemma ResidentStep(g: Config, s: State, st: Step, k: Key)
    requires Enabled(g, s, st) && CacheInv(g, s)
    requires k in s.table && k in Apply(g, s, st).table
    ensures Apply(g, s, st).table[k] == s.table[k]
    ensures s.table[k] in s.born && s.table[k] in Apply(g, s, st).born
    ensures Apply(g, s, st).born[s.table[k]] == s.born[s.table[k]]
  {
    hide Apply, Enabled, SoleOwner;
    TableStep(g, s, st, k);
    BornStep(g, s, st, s.table[k]);
  }

  // ---- The way of one packet ----

  /** A goroutine that has its action and completes packet `p` with it. */
  predicate Completing(pc: Pc, p: Packet, o: Origin) {
    pc == Accounting(p, o) || pc == UpDone(p, o) || pc == BothDone(p, o)
  }

  lemma StepAt(g: Config, run: seq<State>, m: nat) returns (st: Step)
    requires Run(g, run) && m + 1 < |run|
    ensures Enabled(g, run[m], st) && run[m + 1] == Apply(g, run[m], st)
  {
    hide Apply, Enabled;
    assert Next(g, run[m], run[m + 1]);
    st :| Enabled(g, run[m], st) && run[m + 1] == Apply(g, run[m], st);
  }

  predicate IsOf(st: Step, i: nat) {
    !st.Reconfigure? && !st.Sweep? && st.i == i
  }

  /** A step moves one goroutine at most. */
  lemma MovesOne(g: Config, s: State, st: Step)
    requires Enabled(g, s, st) && !st.Reconfigure? && !st.Sweep?
    ensures st.i < |s.pcs| && |Apply(g, s, st).pcs| == |s.pcs|
    ensures Apply(g, s, st).pcs == s.pcs[st.i := Apply(g, s, st).pcs[st.i]]
  {
    hide Bump, ActionOf, ClassOf;
    match st {
      case Start(_, _) =>
      case ReadMode(_) =>
      case Lookup(_) =>
      case Enqueue(_) =>
      case TakeFast(_) =>
      case TakeSlow(_) =>
      case Decide(_) =>
      case Insert(_) =>
      case _ =>
    }
  }

  /** Only its own steps move a goroutine. */
  lemma OthersStep(g: Config, s: State, st: Step, i: nat)
    requires Enabled(g, s, st) && i < |s.pcs| && !IsOf(st, i)
    ensures |Apply(g, s, st).pcs| == |s.pcs| && Apply(g, s, st).pcs[i] == s.pcs[i]
  {
    if !st.Reconfigure? && !st.Sweep? {
      hide Apply, Enabled;
      MovesOne(g, s, st);
    }
  }

  /** What a completing goroutine does next: it stays completing, or it completes the packet and is free. It reaches neither
      table nor queue. */
  lemma CompletingStep(g: Config, s: State, st: Step, i: nat, p: Packet, o: Origin)
    requires Enabled(g, s, st) && i < |s.pcs| && Completing(s.pcs[i], p, o) && IsOf(st, i)
    ensures var t := Apply(g, s, st);
            && |t.pcs| == |s.pcs| && t.table == s.table && t.fast == s.fast && t.slow == s.slow
            && (t.pcs[i].Idle? || Completing(t.pcs[i], p, o))
            && (t.pcs[i].Idle? ==> t.done == s.done + [Completion(p, ActionOf(s, o), o)])
  {
    hide Bump, ClassOf, ActionOf;
  }

  /** Goroutine `i` is under way from `m` on, and free again at `n`. */
  ghost predicate UnderWay(run: seq<State>, i: nat, m: nat, n: nat) {
    && m < n < |run| && At(run[n], i).Idle?
    && forall l :: m <= l < n ==> !At(run[l], i).Idle?
  }

  /** From the moment it has its action until it is free, a goroutine is completing, and it frees itself by completing the
      packet. */
  lemma CompletesAt(g: Config, run: seq<State>, i: nat, m: nat, n: nat, p: Packet, o: Origin)
    requires Run(g, run) && UnderWay(run, i, m, n) && Completing(At(run[m], i), p, o)
    ensures forall l :: m <= l < n ==> Completing(At(run[l], i), p, o)
    ensures run[n].done == run[n - 1].done + [Completion(p, ActionOf(run[n - 1], o), o)]
  {
    assert m < n < |run| && At(run[n], i).Idle?;
    hide Run, Apply, Enabled, ActionOf, Completing, UnderWay;
    StaysCompleting(g, run, i, m, n - 1, n, p, o);
    forall l | m <= l < n
      ensures Completing(At(run[l], i), p, o)
    {
      StaysCompleting(g, run, i, m, l, n, p, o);
    }
    LastMove(g, run, i, n, p, o);
  }

  lemma LastMove(g: Config, run: seq<State>, i: nat, n: nat, p: Packet, o: Origin)
    requires Run(g, run) && 0 < n < |run| && Completing(At(run[n - 1], i), p, o) && At(run[n], i).Idle?
    ensures run[n].done == run[n - 1].done + [Completion(p, ActionOf(run[n - 1], o), o)]
  {
    hide Run, Apply, Enabled, ActionOf;
    var st := StepAt(g, run, n - 1);
    CompletingMove(g, run[n - 1], st, i, p, o);
  }

  lemma {:induction false} StaysCompleting(g: Config, run: seq<State>, i: nat, m: nat, l: nat, n: nat, p: Packet, o: Origin)
    requires Run(g, run) && UnderWay(run, i, m, n) && Completing(At(run[m], i), p, o) && m <= l < n
    ensures Completing(At(run[l], i), p, o)
    decreases l - m
  {
    hide Run, Apply, Enabled, ActionOf;
    if m < l {
      StaysCompleting(g, run, i, m, l - 1, n, p, o);
      var st := StepAt(g, run, l - 1);
      CompletingMove(g, run[l - 1], st, i, p, o);
    }
  }

  lemma CompletingMove(g: Config, s: State, st: Step, i: nat, p: Packet, o: Origin)
    requires Enabled(g, s, st) && i < |s.pcs| && Completing(s.pcs[i], p, o)
    ensures var t := Apply(g, s, st);
            && |t.pcs| == |s.pcs| && (t.pcs[i].Idle? || Completing(t.pcs[i], p, o))
            && (t.pcs[i].Idle? ==> t.done == s.done + [Completion(p, ActionOf(s, o), o)])
  {
    hide Apply, Enabled, ActionOf;
    if IsOf(st, i) {
      CompletingStep(g, s, st, i, p, o);
    } else {
      OthersStep(g, s, st, i);
    }
  }

  /** What goroutine `i` does when it moves: the step is its own. */
  lemma MoveAt(g: Config, run: seq<State>, i: nat, m: nat) returns (st: Step)
    requires Run(g, run) && m + 1 < |run| && !At(run[m], i).Idle? && At(run[m + 1], i) != At(run[m], i)
    ensures Enabled(g, run[m], st) && run[m + 1] == Apply(g, run[m], st) && IsOf(st, i)
    ensures |run[m + 1].pcs| == |run[m].pcs|
  {
    hide Run, Apply, Enabled;
    st := StepAt(g, run, m);
    if !IsOf(st, i) {
      OthersStep(g, run[m], st, i);
    } else {
      MovesOne(g, run[m], st);
    }
  }

  lemma {:induction false} BornStays(g: Config, run: seq<State>, m: nat, n: nat, f: Ref)
    requires Run(g, run) && m <= n < |run| && f in run[m].born
    ensures f in run[n].born && run[n].born[f] == run[m].born[f]
    decreases n - m
  {
    hide CacheInv, Apply, Enabled;
    if m < n {
      BornStays(g, run, m, n - 1, f);
      CacheAt(g, run, n - 1);
      var st := StepAt(g, run, n - 1);
      BornStep(g, run[n - 1], st, f);
    }
  }

  /** What the own step of a goroutine makes of it, in each place before it has its action. */
  lemma StartedStep(g: Config, s: State, st: Step, i: nat, p: Packet)
    requires Enabled(g, s, st) && IsOf(st, i) && At(s, i) == Started(p)
    ensures At(Apply(g, s, st), i) == if s.mode == BypassMode then Accounting(p, Fixed("observe")) else Looking(p)
  {
  }

  lemma LookingStep(g: Config, s: State, st: Step, i: nat, p: Packet)
    requires Enabled(g, s, st) && IsOf(st, i) && At(s, i) == Looking(p)
    ensures var t := Apply(g, s, st);
            if p.key in s.table then At(t, i) == Accounting(p, Cached(s.table[p.key]))
            else At(t, i) == Missed(p, s.nextRef) && t.nextRef == s.nextRef + 1
  {
  }

  lemma MissedStep(g: Config, s: State, st: Step, i: nat, p: Packet, f: Ref)
    requires Enabled(g, s, st) && IsOf(st, i) && At(s, i) == Missed(p, f)
    ensures var t := Apply(g, s, st);
            var room := |if p.unknown then s.slow else s.fast| < g.capacity;
            && t.slow == (if p.unknown && room then s.slow + [Job(p, f)] else s.slow)
            && t.fast == (if !p.unknown && room then s.fast + [Job(p, f)] else s.fast)
            && At(t, i) == (if room then Idle else Accounting(p, Fixed("observe")))
  {
  }

  lemma FinishingStep(g: Config, s: State, st: Step, i: nat, p: Packet, f: Ref)
    requires Enabled(g, s, st) && IsOf(st, i) && At(s, i) == Finishing(p, f)
    ensures At(Apply(g, s, st), i) == Deciding(p, f, Birth(p, s.env, s.mode, g.decide(s.env, s.mode, p)))
  {
  }

  lemma DecidingStep(g: Config, s: State, st: Step, i: nat, p: Packet, f: Ref, b: Birth)
    requires Enabled(g, s, st) && IsOf(st, i) && At(s, i) == Deciding(p, f, b)
    ensures var t := Apply(g, s, st);
            && At(t, i) == Accounting(p, Fixed(b.action))
            && t.table == (if p.key in s.table then s.table else s.table[p.key := f])
            && t.born == (if p.key in s.table then s.born else s.born[f := b])
  {
  }

  /** A packet that finds its 5-tuple in the table is completed from the cache, with the action the resident flow was born
      with, and goes to no queue. */
  lemma HitServed(g: Config, run: seq<State>, i: nat, m: nat, n: nat, p: Packet)
    requires Run(g, run) && UnderWay(run, i, m, n)
    requires At(run[m], i) == Looking(p) && At(run[m + 1], i) != Looking(p) && p.key in run[m].table
    ensures run[m].table[p.key] in run[m].born
    ensures var f := run[m].table[p.key];
            && (forall l :: m < l < n ==> Completing(At(run[l], i), p, Cached(f)))
            && run[n].done == run[n - 1].done + [Completion(p, run[m].born[f].action, Cached(f))]
  {
    hide Run, Apply, Enabled, Completing, SoleOwner;
    var f := run[m].table[p.key];
    CacheAt(g, run, m);
    var st := MoveAt(g, run, i, m);
    LookingStep(g, run[m], st, i, p);
    CompletesFrom(g, run, i, m + 1, n, p, Cached(f));
    BornStays(g, run, m, n - 1, f);
    CachedAction(g, run, n - 1, f);
  }

  lemma CachedAction(g: Config, run: seq<State>, n: nat, f: Ref)
    requires Run(g, run) && n < |run| && f in run[n].born
    ensures ActionOf(run[n], Cached(f)) == run[n].born[f].action
  {
    hide Run, SoleOwner;
    CacheAt(g, run, n);
  }

  lemma CompletesFrom(g: Config, run: seq<State>, i: nat, m: nat, n: nat, p: Packet, o: Origin)
    requires Run(g, run) && m > 0 && UnderWay(run, i, m - 1, n) && At(run[m], i) == Accounting(p, o)
    ensures m < n && forall l :: m <= l < n ==> Completing(At(run[l], i), p, o)
    ensures run[n].done == run[n - 1].done + [Completion(p, ActionOf(run[n - 1], o), o)]
  {
    hide Run, ActionOf;
    assert UnderWay(run, i, m, n);
    CompletesAt(g, run, i, m, n, p, o);
  }

  /** A packet whose mode read saw bypass is completed with "observe" and reaches neither table nor queue. */
  lemma BypassServed(g: Config, run: seq<State>, i: nat, m: nat, n: nat, p: Packet)
    requires Run(g, run) && UnderWay(run, i, m, n)
    requires At(run[m], i) == Started(p) && At(run[m + 1], i) != Started(p) && run[m].mode == BypassMode
    ensures forall l :: m < l < n ==> Completing(At(run[l], i), p, Fixed("observe"))
    ensures run[n].done == run[n - 1].done + [Completion(p, "observe", Fixed("observe"))]
  {
    hide Run, Apply, Enabled, Completing;
    var st := MoveAt(g, run, i, m);
    StartedStep(g, run[m], st, i, p);
    CompletesFrom(g, run, i, m + 1, n, p, Fixed("observe"));
  }

  /** In the other modes a packet goes on to the table, and from there, when its 5-tuple is not resident, it becomes a new
      flow. */
  lemma MissFound(g: Config, run: seq<State>, i: nat, m: nat, p: Packet)
    requires Run(g, run) && m + 1 < |run| && At(run[m + 1], i) != At(run[m], i)
    ensures At(run[m], i) == Started(p) && run[m].mode != BypassMode ==> At(run[m + 1], i) == Looking(p)
    ensures At(run[m], i) == Looking(p) && p.key !in run[m].table ==>
              At(run[m + 1], i) == Missed(p, run[m].nextRef) && run[m + 1].nextRef == run[m].nextRef + 1
  {
    hide Run, Apply, Enabled;
    if At(run[m], i) == Started(p) {
      var st := MoveAt(g, run, i, m);
      StartedStep(g, run[m], st, i, p);
    } else if At(run[m], i) == Looking(p) {
      var st := MoveAt(g, run, i, m);
      LookingStep(g, run[m], st, i, p);
    }
  }

  /** A new flow goes to the back of its queue, the slow one exactly when it is unknown, and leaves the goroutine free; when
      that queue is full the packet is completed with "observe". */
  lemma MissServed(g: Config, run: seq<State>, i: nat, m: nat, n: nat, p: Packet, f: Ref)
    requires Run(g, run) && UnderWay(run, i, m, n)
    requires At(run[m], i) == Missed(p, f) && At(run[m + 1], i) != Missed(p, f)
    ensures var s, t := run[m], run[m + 1];
            var room := |if p.unknown then s.slow else s.fast| < g.capacity;
            && t.slow == (if p.unknown && room then s.slow + [Job(p, f)] else s.slow)
            && t.fast == (if !p.unknown && room then s.fast + [Job(p, f)] else s.fast)
            && (room <==> n == m + 1)
            && (!room ==> run[n].done == run[n - 1].done + [Completion(p, "observe", Fixed("observe"))])
  {
    hide Run, Apply, Enabled, Completing;
    var st := MoveAt(g, run, i, m);
    MissedStep(g, run[m], st, i, p, f);
    if |if p.unknown then run[m].slow else run[m].fast| >= g.capacity {
      CompletesFrom(g, run, i, m + 1, n, p, Fixed("observe"));
    }
  }

  /** A worker completes its job with what rules and mode call for at the moment it decides. At the moment `k` it publishes
      the flow under its 5-tuple, unless another one is resident by then. */
  lemma JobServed(g: Config, run: seq<State>, i: nat, m: nat, n: nat, p: Packet, f: Ref) returns (k: nat)
    requires Run(g, run) && UnderWay(run, i, m, n)
    requires At(run[m], i) == Finishing(p, f) && At(run[m + 1], i) != Finishing(p, f)
    ensures var b := Birth(p, run[m].env, run[m].mode, g.decide(run[m].env, run[m].mode, p));
            && m < k && k + 1 < n
            && run[k + 1].table == (if p.key in run[k].table then run[k].table else run[k].table[p.key := f])
            && run[k + 1].born == (if p.key in run[k].table then run[k].born else run[k].born[f := b])
            && run[n].done == run[n - 1].done + [Completion(p, b.action, Fixed(b.action))]
  {
    hide Run, Apply, Enabled, Completing;
    var b := Birth(p, run[m].env, run[m].mode, g.decide(run[m].env, run[m].mode, p));
    var st := MoveAt(g, run, i, m);
    FinishingStep(g, run[m], st, i, p, f);
    k := LeavesDeciding(g, run, i, m + 1, n, p, f, b);
    CompletesFrom(g, run, i, k + 1, n, p, Fixed(b.action));
  }

  /** A deciding goroutine publishes its flow and completes. */
  lemma {:induction false} LeavesDeciding(g: Config, run: seq<State>, i: nat, m: nat, n: nat, p: Packet, f: Ref, b: Birth)
    returns (k: nat)
    requires Run(g, run) && m > 0 && UnderWay(run, i, m - 1, n) && At(run[m], i) == Deciding(p, f, b)
    ensures m <= k && k + 1 < n && At(run[k + 1], i) == Accounting(p, Fixed(b.action)) && UnderWay(run, i, k, n)
    ensures run[k + 1].table == (if p.key in run[k].table then run[k].table else run[k].table[p.key := f])
    ensures run[k + 1].born == (if p.key in run[k].table then run[k].born else run[k].born[f := b])
    decreases n - m
  {
    hide Run, Apply, Enabled;
    assert m < n && m + 1 <= n;
    if At(run[m + 1], i) == At(run[m], i) {
      k := LeavesDeciding(g, run, i, m + 1, n, p, f, b);
    } else {
      k := m;
      var st := MoveAt(g, run, i, m);
      DecidingStep(g, run[m], st, i, p, f, b);
    }
  }

  /** The next step of a goroutine that holds a packet, and how many it takes at most until it is free. */
  function NextOf(pc: Pc, i: nat): Step {
    match pc
    case Started(_) => ReadMode(i)
    case Looking(_) => Lookup(i)
    case Missed(_, _) => Enqueue(i)
    case Finishing(_, _) => Decide(i)
    case Deciding(_, _, _) => Insert(i)
    case Accounting(_, _) => AddUp(i)
    case UpDone(_, _) => AddDown(i)
    case _ => Count(i)
  }

  function StepsLeft(pc: Pc): nat {
    match pc
    case Idle => 0
    case Started(_) => 6
    case Looking(_) => 5
    case Missed(_, _) => 4
    case Finishing(_, _) => 5
    case Deciding(_, _, _) => 4
    case Accounting(_, _) => 3
    case UpDone(_, _) => 2
    case BothDone(_, _) => 1
  }

  lemma NextOfHelps(g: Config, s: State, i: nat)
    requires !At(s, i).Idle?
    ensures Enabled(g, s, NextOf(At(s, i), i))
    ensures StepsLeft(At(Apply(g, s, NextOf(At(s, i), i)), i)) < StepsLeft(At(s, i))
  {
    hide Apply;
    var st := NextOf(At(s, i), i);
    match At(s, i) {
      case Started(p) => StartedStep(g, s, st, i, p);
      case Looking(p) => LookingStep(g, s, st, i, p);
      case Missed(p, f) => MissedStep(g, s, st, i, p, f);
      case Finishing(p, f) => FinishingStep(g, s, st, i, p, f);
      case Deciding(p, f, b) => DecidingStep(g, s, st, i, p, f, b);
      case _ => AccountingStep(g, s, st, i);
    }
  }

  lemma AccountingStep(g: Config, s: State, st: Step, i: nat)
    requires Enabled(g, s, st) && IsOf(st, i) && (st.AddUp? || st.AddDown? || st.Count?)
    ensures StepsLeft(At(Apply(g, s, st), i)) < StepsLeft(At(s, i))
  {
    hide Bump, ActionOf, ClassOf;
  }

  /** No goroutine needs another one to get free: from every reachable state it does so by its own steps, at most six. */
  lemma {:induction false} GetsFree(g: Config, run: seq<State>, i: nat) returns (longer: seq<State>)
    requires Run(g, run)
    ensures Run(g, longer) && run <= longer && At(longer[|longer| - 1], i).Idle?
    ensures |longer| <= |run| + StepsLeft(At(run[|run| - 1], i)) <= |run| + 6
    ensures forall l :: |run| - 1 <= l < |longer| - 1 ==> !At(longer[l], i).Idle?
    ensures longer[|longer| - 1].env == run[|run| - 1].env && longer[|longer| - 1].mode == run[|run| - 1].mode
    decreases StepsLeft(At(run[|run| - 1], i))
  {
    hide Apply, Enabled;
    var s := run[|run| - 1];
    longer := run;
    if !At(s, i).Idle? {
      NextOfHelps(g, s, i);
      var t := Apply(g, s, NextOf(At(s, i), i));
      assert Next(g, s, t);
      EnvStays(g, s, NextOf(At(s, i), i));
      longer := GetsFree(g, run + [t], i);
    }
  }

  lemma EnvStays(g: Config, s: State, st: Step)
    requires Enabled(g, s, st) && !st.Reconfigure?
    ensures Apply(g, s, st).env == s.env && Apply(g, s, st).mode == s.mode
  {
  }

  lemma Extend(g: Config, run: seq<State>, st: Step) returns (longer: seq<State>)
    requires Run(g, run) && Enabled(g, run[|run| - 1], st)
    ensures Run(g, longer) && longer == run + [Apply(g, run[|run| - 1], st)]
  {
    hide Apply, Enabled;
    longer := run + [Apply(g, run[|run| - 1], st)];
    assert Next(g, run[|run| - 1], Apply(g, run[|run| - 1], st));
  }

  /** A packet of 5-tuple `p.key` arrives at a free goroutine under a mode other than bypass and comes to the table. */
  lemma Arrives(g: Config, run: seq<State>, i: nat, p: Packet) returns (longer: seq<State>)
    requires Run(g, run)
    requires var s := run[|run| - 1]; i < |s.pcs| && s.pcs[i].Idle? && s.mode != BypassMode
    ensures Run(g, longer) && |longer| == |run| + 2 && run <= longer
    ensures var s, t := run[|run| - 1], longer[|longer| - 1];
            t == s.(pcs := s.pcs[i := Looking(p)], c := s.c.(packets := s.c.packets + 1), arrived := s.arrived + [p])
  {
    hide Run;
    longer := Extend(g, run, Start(i, p));
    longer := Extend(g, longer, ReadMode(i));
  }

  /** A goroutine at the table that finds its key there goes on alone until it is free. */
  lemma HitPath(g: Config, run: seq<State>, i: nat, p: Packet) returns (longer: seq<State>)
    requires Run(g, run) && At(run[|run| - 1], i) == Looking(p) && p.key in run[|run| - 1].table
    ensures Run(g, longer) && run <= longer && |longer| > |run|
    ensures UnderWay(longer, i, |run| - 1, |longer| - 1) && At(longer[|run|], i) != Looking(p)
    ensures longer[|longer| - 1].env == run[|run| - 1].env && longer[|longer| - 1].mode == run[|run| - 1].mode
  {
    var s, st := run[|run| - 1], Lookup(i);
    LookingStep(g, s, st, i, p);
    EnvStays(g, s, st);
    hide Run, Apply;
    longer := Extend(g, run, st);
    assert longer[|run|] == Apply(g, s, st);
    longer := GetsFree(g, longer, i);
  }

  lemma ServedFrom(g: Config, run: seq<State>, i: nat, p: Packet) returns (longer: seq<State>)
    requires Run(g, run) && At(run[|run| - 1], i) == Looking(p) && p.key in run[|run| - 1].table
    ensures Run(g, longer) && run <= longer && run != []
    ensures var s, t := run[|run| - 1], longer[|longer| - 1]; t.mode == s.mode && t.env == s.env
    ensures var s, t := run[|run| - 1], longer[|longer| - 1];
            && s.table[p.key] in s.born && t.done != []
            && t.done[|t.done| - 1] == Completion(p, s.born[s.table[p.key]].action, Cached(s.table[p.key]))
  {
    assert run != [];
    hide Run, UnderWay, At;
    longer := HitPath(g, run, i, p);
    var m := |run| - 1;
    assert longer[m] == run[m];
    ServedLast(g, longer, i, m, p);
  }

  lemma ServedLast(g: Config, run: seq<State>, i: nat, m: nat, p: Packet)
    requires m < |run| - 1 && Run(g, run) && UnderWay(run, i, m, |run| - 1)
    requires At(run[m], i) == Looking(p) && At(run[m + 1], i) != Looking(p) && p.key in run[m].table
    ensures run[m].table[p.key] in run[m].born
    ensures var done, f := run[|run| - 1].done, run[m].table[p.key];
            done != [] && done[|done| - 1] == Completion(p, run[m].born[f].action, Cached(f))
  {
    hide Run, UnderWay, At, Completing, Init, Next, Apply, Enabled, Decided;
    HitServed(g, run, i, m, |run| - 1, p);
  }

  /** New rules and a new mode come into force, and a packet arrives and comes to the table. */
  lemma ArrivesUnder(g: Config, run: seq<State>, i: nat, p: Packet, mode: Mode, env: nat) returns (longer: seq<State>)
    requires Run(g, run) && mode != BypassMode
    requires var s := run[|run| - 1]; i < |s.pcs| && s.pcs[i].Idle?
    ensures Run(g, longer) && run <= longer && run != []
    ensures var s, t := run[|run| - 1], longer[|longer| - 1];
            t.table == s.table && t.born == s.born && t.mode == mode && t.env == env && At(t, i) == Looking(p)
  {
    assert run != [];
    hide Run;
    longer := Extend(g, run, Reconfigure(mode, env));
    longer := Arrives(g, longer, i, p);
  }

  /** Whatever rules and mode other than bypass come into force, a flow that stays resident is still served with the action it
      was born with: from every reachable state there is such a run. */
  lemma StaleServed(g: Config, run: seq<State>, i: nat, p: Packet, mode: Mode, env: nat) returns (longer: seq<State>)
    requires Run(g, run) && mode != BypassMode
    requires var s := run[|run| - 1]; i < |s.pcs| && s.pcs[i].Idle? && p.key in s.table
    ensures Run(g, longer) && run <= longer && run != []
    ensures var s, t := run[|run| - 1], longer[|longer| - 1];
            var f := s.table[p.key];
            && t.mode == mode && t.env == env && f in s.born && t.done != []
            && t.done[|t.done| - 1] == Completion(p, s.born[f].action, Cached(f))
  {
    assert run != [];
    hide Run, At;
    longer := ArrivesUnder(g, run, i, p, mode, env);
    longer := ServedFrom(g, longer, i, p);
  }

  /** Once a sweep has taken the flow, the next packet of its 5-tuple makes a new one. */
  lemma SweptAnew(g: Config, run: seq<State>, i: nat, p: Packet) returns (longer: seq<State>)
    requires Run(g, run)
    requires var s := run[|run| - 1]; i < |s.pcs| && s.pcs[i].Idle? && s.mode != BypassMode
    ensures Run(g, longer) && run <= longer
    ensures At(longer[|longer| - 1], i) == Missed(p, run[|run| - 1].nextRef)
  {
    hide Run;
    longer := Extend(g, run, Sweep({p.key}));
    longer := Arrives(g, longer, i, p);
    longer := Extend(g, longer, Lookup(i));
  }

  // ---- Queue order ----

  /** What a step does to a queue: nothing, one job in at the back, or one out at the front into the hands of a worker. */
  ghost predicate QueueMoves(s: State, t: State, before: seq<Job>, after: seq<Job>) {
    || after == before
    || (|after| == |before| + 1 && after[..|before|] == before)
    || (|before| == |after| + 1 && before[1..] == after
        && exists i: nat :: At(s, i).Idle? && At(t, i) == Finishing(before[0].p, before[0].f))
  }

  /** Both queues are first in, first out, within their capacity, and hold known and unknown flows apart. */
  ghost predicate Sorted(g: Config, s: State) {
    && |s.fast| <= g.capacity && |s.slow| <= g.capacity
    && (forall x :: 0 <= x < |s.fast| ==> !s.fast[x].p.unknown)
    && (forall x :: 0 <= x < |s.slow| ==> s.slow[x].p.unknown)
  }

  lemma QueueStep(g: Config, s: State, st: Step)
    requires Enabled(g, s, st) && Sorted(g, s)
    ensures var t := Apply(g, s, st);
            Sorted(g, t) && QueueMoves(s, t, s.fast, t.fast) && QueueMoves(s, t, s.slow, t.slow)
  {
    hide Bump, ActionOf;
    if st.TakeFast? || st.TakeSlow? {
      var t := Apply(g, s, st);
      assert At(s, st.i).Idle? && At(t, st.i).Finishing?;
    }
  }

  lemma {:induction false} QueuesInOrder(g: Config, run: seq<State>, m: nat)
    requires Run(g, run) && m < |run|
    ensures Sorted(g, run[m])
    ensures m + 1 < |run| ==>
              && QueueMoves(run[m], run[m + 1], run[m].fast, run[m + 1].fast)
              && QueueMoves(run[m], run[m + 1], run[m].slow, run[m + 1].slow)
  {
    hide Apply, Enabled, Sorted, QueueMoves;
    if m > 0 {
      QueuesInOrder(g, run, m - 1);
      var st := StepAt(g, run, m - 1);
      QueueStep(g, run[m - 1], st);
    } else {
      InitSorted(g, run[0]);
    }
    if m + 1 < |run| {
      var st := StepAt(g, run, m);
      QueueStep(g, run[m], st);
    }
  }

  lemma InitSorted(g: Config, s: State)
    requires Init(s)
    ensures Sorted(g, s)
  {
  }
}
