/** The concurrent diff jobs as a step relation: feeder, workers, writer, pager watcher, and the channels between
    them. */
module JobPipeline {
  import opened Lists
  import opened Workers

  /** What became of a write to the output. */
  datatype Written = Fine | Broken | Spoiled

  /** What processing a job comes to: an error, no output, output to write, or cut short by cancellation. */
  datatype Fate = Failed | Silent | Rendered(write: Written) | Interrupted

  /** The jobs, the workers, the permits, and whether a pager is watched. */
  datatype Config = Config(jobs: nat, workers: nat, permits: nat, fate: nat -> Fate, pager: bool)

  datatype Feeder = Taking | Queueing | Announcing | Fed
  datatype Writer = Waiting | Holding(job: nat) | Checking(job: nat) | Releasing(job: nat) | Returned

  /**
    * queue and flight are the two job channels and permits the tokens left in the semaphore; taken, queued, announced
    * and started count what the feeder and the workers have done, consumed what the writer has.
    */
  datatype State = State(
    feeder: Feeder, taken: nat, queued: nat, announced: nat, queue: seq<nat>, flight: seq<nat>, permits: nat,
    workers: seq<Worker>, started: nat, results: map<nat, Fate>,
    writer: Writer, consumed: nat, writes: seq<nat>, rendered: nat, hadErrors: bool,
    cancelled: bool, watching: bool, quit: bool, broken: bool)

  datatype Action =
    | FeederTake | FeederQueue | FeederAnnounce | FeederEnd | FeederQuit
    | WorkerTake(w: nat) | WorkerFinish(w: nat) | WorkerQuit(w: nat)
    | WriterReceive | WriterSeeDone | WriterConsume | WriterRelease | WriterEnd | WriterQuit
    | Teardown | PagerQuit | WatcherEnd

  predicate Sensible(c: Config) {
    0 < c.workers <= c.jobs && 0 < c.permits <= c.jobs && forall j: nat :: j < c.jobs ==> c.fate(j) != Interrupted
  }

  function Start(c: Config): State {
    State(Taking, 0, 0, 0, [], [], c.permits, seq(c.workers, _ => Idle), 0, map[],
          Waiting, 0, [], 0, false, false, c.pager, false, false)
  }

  /** Whether a step can be taken: a receive needs an item, a send needs room, and a cancelled context may always be
      seen. */
  predicate Enabled(c: Config, s: State, a: Action) {
    match a
    case FeederTake => s.feeder == Taking && s.announced < c.jobs && s.permits > 0
    case FeederQueue => s.feeder == Queueing && |s.queue| < c.permits
    case FeederAnnounce => s.feeder == Announcing && |s.flight| < c.permits
    case FeederEnd => s.feeder == Taking && s.announced == c.jobs
    case FeederQuit => s.feeder != Fed && s.cancelled && s.announced < c.jobs
    case WorkerTake(w) => w < |s.workers| && s.workers[w] == Idle && s.queue != []
    case WorkerFinish(w) => w < |s.workers| && s.workers[w].Busy?
    case WorkerQuit(w) => w < |s.workers| && s.workers[w] == Idle && s.cancelled
    case WriterReceive => s.writer == Waiting && s.consumed < c.jobs && s.flight != []
    case WriterSeeDone => s.writer.Holding? && s.writer.job in s.results
    case WriterConsume => s.writer.Checking? && !s.cancelled && s.writer.job in s.results
    case WriterRelease => s.writer.Releasing? && s.permits < c.permits
    case WriterEnd => s.writer == Waiting && s.consumed == c.jobs
    case WriterQuit => s.cancelled
      && ((s.writer == Waiting && s.consumed < c.jobs) || s.writer.Holding? || s.writer.Checking?)
    case Teardown => s.writer == Returned && !s.cancelled
    case PagerQuit => s.watching && !s.cancelled
    case WatcherEnd => s.watching && s.cancelled
  }

  /** What the writer does with a finished job, in the order of its checks. */
  function Consume(s: State, j: nat, fate: Fate): State {
    match fate
    case Failed => s.(hadErrors := true, writer := Releasing(j))
    case Interrupted => s.(hadErrors := true, writer := Releasing(j))
    case Silent => s.(writer := Releasing(j))
    case Rendered(write) =>
      var after := s.(rendered := s.rendered + 1, writes := s.writes + [j]);
      if write == Broken then after.(writer := Returned, broken := true)
      else after.(hadErrors := s.hadErrors || write == Spoiled, writer := Releasing(j))
  }

  function Apply(c: Config, s: State, a: Action): State
    requires Enabled(c, s, a)
  {
    match a
    case FeederTake => s.(feeder := Queueing, permits := s.permits - 1, taken := s.taken + 1)
    case FeederQueue => s.(feeder := Announcing, queue := s.queue + [s.announced], queued := s.queued + 1)
    case FeederAnnounce => s.(feeder := Taking, flight := s.flight + [s.announced], announced := s.announced + 1)
    case FeederEnd => s.(feeder := Fed)
    case FeederQuit => s.(feeder := Fed)
    case WorkerTake(w) => s.(workers := s.workers[w := Busy(s.queue[0])], queue := s.queue[1..],
                             started := s.started + 1)
    case WorkerFinish(w) =>
      var j := s.workers[w].job;
      s.(workers := s.workers[w := Idle], results := s.results[j := if s.cancelled then Interrupted else c.fate(j)])
    case WorkerQuit(w) => s.(workers := s.workers[w := Gone])
    case WriterReceive => s.(writer := Holding(s.flight[0]), flight := s.flight[1..])
    case WriterSeeDone => s.(writer := Checking(s.writer.job))
    case WriterConsume => Consume(s, s.writer.job, s.results[s.writer.job])
    case WriterRelease => s.(writer := Waiting, permits := s.permits + 1, consumed := s.consumed + 1)
    case WriterEnd => s.(writer := Returned)
    case WriterQuit => s.(writer := Returned)
    case Teardown => s.(cancelled := true)
    case PagerQuit => s.(cancelled := true, watching := false, quit := true)
    case WatcherEnd => s.(watching := false)
  }

  /** Everything has stopped, so waiting for the goroutines ends. */
  predicate Stopped(s: State) {
    s.writer == Returned && s.feeder == Fed && !s.watching && forall w :: 0 <= w < |s.workers| ==> s.workers[w] == Gone
  }

  // ---------------------------------------------------------------- the invariant

  /** The jobs before k whose output is written, in job order. */
  function Outputs(c: Config, k: nat): seq<nat> {
    if k == 0 then [] else Outputs(c, k - 1) + if c.fate(k - 1).Rendered? then [k - 1] else []
  }

  /** Whether one of the jobs before k failed, or its output could not be written for a reason other than a closed
      pager. */
  predicate Errors(c: Config, k: nat) {
    k > 0 && (Errors(c, k - 1) || c.fate(k - 1) == Failed || c.fate(k - 1) == Rendered(Spoiled))
  }

  /** The feeder's counters agree with where it stands. */
  ghost predicate FeederOk(c: Config, s: State) {
    && s.announced <= s.queued <= s.taken <= s.announced + 1 && s.announced <= c.jobs
    && (s.feeder == Taking ==> s.taken == s.announced)
    && (s.feeder == Queueing ==> s.taken == s.announced + 1 && s.queued == s.announced < c.jobs)
    && (s.feeder == Announcing ==> s.queued == s.announced + 1 && s.announced < c.jobs)
    && (s.feeder == Fed ==> s.cancelled || s.announced == c.jobs)
    && s.queued <= c.jobs
  }

  /** The job the writer has in hand. */
  function InHand(s: State): nat {
    match s.writer
    case Holding(_) => 1
    case Checking(_) => 1
    case Releasing(_) => 1
    case _ => 0
  }

  /** Permits are never lost or made; the two channels hold consecutive jobs, and the writer takes them in order. */
  ghost predicate FlowOk(c: Config, s: State) {
    && s.permits + s.taken == c.permits + s.consumed
    && s.consumed <= s.started <= s.queued && s.queue == Range(s.started, s.queued)
    && (s.writer != Returned ==>
          s.consumed + InHand(s) <= s.announced && s.flight == Range(s.consumed + InHand(s), s.announced))
    && (s.writer.Holding? ==> s.writer.job == s.consumed)
    && (s.writer.Checking? ==> s.writer.job == s.consumed && s.consumed in s.results)
    && (s.writer.Releasing? ==> s.writer.job == s.consumed && s.consumed in s.results)
  }

  /** Every job that a worker took is in some worker's hands or finished, and workers leave only when cancelled. */
  ghost predicate WorkersOk(c: Config, s: State) {
    && |s.workers| == c.workers
    && (forall j: nat :: j < s.started ==> j in s.results || Busy(j) in s.workers)
    && (forall j :: j in s.results ==> j < s.started)
    && (forall w :: 0 <= w < |s.workers| && s.workers[w].Busy? ==> s.workers[w].job < s.started)
    && (forall w :: 0 <= w < |s.workers| && s.workers[w] == Gone ==> s.cancelled)
    && (forall j :: j in s.results ==> s.results[j] == c.fate(j) || (s.cancelled && s.results[j] == Interrupted))
  }

  /** Writes are attempted in job order, for a prefix of the jobs. */
  ghost predicate WritesOk(c: Config, s: State) {
    && s.writes == Outputs(c, s.consumed + if s.writer.Releasing? || s.broken then 1 else 0)
    && s.rendered == |s.writes|
    && s.hadErrors == Errors(c, s.consumed + if s.writer.Releasing? || s.broken then 1 else 0)
    && (s.broken ==> s.writer == Returned && s.consumed < c.jobs && c.fate(s.consumed) == Rendered(Broken))
    && (s.writer == Returned ==> s.broken || s.cancelled || s.consumed == c.jobs)
    && (s.cancelled ==> s.quit || s.writer == Returned)
    && (s.quit ==> s.cancelled)
    && (s.writer == Returned && !s.quit && !s.broken ==> s.consumed == c.jobs)
    && s.consumed <= c.jobs
  }

  ghost predicate Inv(c: Config, s: State) {
    FeederOk(c, s) && FlowOk(c, s) && WorkersOk(c, s) && WritesOk(c, s)
  }

  lemma StartInv(c: Config)
    requires Sensible(c)
    ensures Inv(c, Start(c))
  {
  }

  // ---------------------------------------------------------------- every step keeps it

  predicate ByFeeder(a: Action) {
    a.FeederTake? || a.FeederQueue? || a.FeederAnnounce? || a.FeederEnd? || a.FeederQuit?
  }

  predicate ByWorker(a: Action) {
    a.WorkerTake? || a.WorkerFinish? || a.WorkerQuit?
  }

  predicate ByWriter(a: Action) {
    a.WriterReceive? || a.WriterSeeDone? || a.WriterConsume? || a.WriterRelease? || a.WriterEnd? || a.WriterQuit?
  }

  lemma QueueFlow(c: Config, s: State)
    requires FeederOk(c, s) && FlowOk(c, s) && Enabled(c, s, FeederQueue)
    ensures FlowOk(c, Apply(c, s, FeederQueue))
  {
    RangePush(s.started, s.queued);
    hide Range;
  }

  lemma AnnounceFlow(c: Config, s: State)
    requires FeederOk(c, s) && FlowOk(c, s) && Enabled(c, s, FeederAnnounce)
    ensures FlowOk(c, Apply(c, s, FeederAnnounce))
  {
    if s.writer != Returned { RangePush(s.consumed + InHand(s), s.announced); }
    hide Range;
  }

  lemma FeederFlow(c: Config, s: State, a: Action)
    requires FeederOk(c, s) && FlowOk(c, s) && Enabled(c, s, a) && ByFeeder(a)
    ensures FlowOk(c, Apply(c, s, a))
  {
    if a == FeederQueue {
      QueueFlow(c, s);
    } else if a == FeederAnnounce {
      AnnounceFlow(c, s);
    } else {
      hide Range;
    }
  }

  lemma FeederRest(c: Config, s: State, a: Action)
    requires Sensible(c) && Inv(c, s) && Enabled(c, s, a) && ByFeeder(a)
    ensures FeederOk(c, Apply(c, s, a)) && WorkersOk(c, Apply(c, s, a)) && WritesOk(c, Apply(c, s, a))
  {
    hide Outputs, Errors, Range;
  }

  lemma FeederStep(c: Config, s: State, a: Action)
    requires Sensible(c) && Inv(c, s) && Enabled(c, s, a) && ByFeeder(a)
    ensures Inv(c, Apply(c, s, a))
  {
    hide FeederOk, FlowOk, WorkersOk, WritesOk, Apply, Enabled, ByFeeder;
    FeederFlow(c, s, a);
    FeederRest(c, s, a);
  }

  lemma WorkerStep(c: Config, s: State, a: Action)
    requires Sensible(c) && Inv(c, s) && Enabled(c, s, a) && ByWorker(a)
    ensures Inv(c, Apply(c, s, a))
  {
    hide Outputs, Errors;
    assert WorkersOk(c, Apply(c, s, a)) by { WorkersKept(c, s, a); }
  }

  lemma WorkersKept(c: Config, s: State, a: Action)
    requires Sensible(c) && FlowOk(c, s) && WorkersOk(c, s) && Enabled(c, s, a) && ByWorker(a)
    ensures WorkersOk(c, Apply(c, s, a))
  {
    var r, w := Apply(c, s, a), a.w;
    forall j: nat | j < r.started ensures j in r.results || Busy(j) in r.workers {
      if j < s.started && j !in s.results {
        var v :| 0 <= v < |s.workers| && s.workers[v] == Busy(j);
        assert v != w ==> r.workers[v] == Busy(j);
      } else {
        assert a.WorkerTake? ==> r.workers[w] == Busy(s.started);
      }
    }
  }

  /** Consuming a job touches nothing but what the writer keeps for itself. */
  lemma ConsumeFrame(s: State, j: nat, fate: Fate)
    ensures var r := Consume(s, j, fate);
            && r.writer in {Releasing(j), Returned}
            && r == s.(writer := r.writer, hadErrors := r.hadErrors, rendered := r.rendered, writes := r.writes,
                       broken := r.broken)
  {
  }

  lemma ConsumeFlow(c: Config, s: State)
    requires FeederOk(c, s) && FlowOk(c, s) && WorkersOk(c, s) && Enabled(c, s, WriterConsume)
    ensures FlowOk(c, Apply(c, s, WriterConsume)) && WorkersOk(c, Apply(c, s, WriterConsume))
    ensures FeederOk(c, Apply(c, s, WriterConsume))
  {
    ConsumeFrame(s, s.writer.job, s.results[s.writer.job]);
    hide Consume, Range;
  }

  lemma ConsumeWrites(c: Config, s: State)
    requires Sensible(c) && Inv(c, s) && Enabled(c, s, WriterConsume)
    ensures WritesOk(c, Apply(c, s, WriterConsume))
  {
    hide Range, Outputs, Errors;
    assert s.results[s.consumed] == c.fate(s.consumed);
    OutputsNext(c, s.consumed);
    hide WorkersOk, FlowOk, FeederOk;
  }

  lemma ReceiveFlow(c: Config, s: State)
    requires FlowOk(c, s) && Enabled(c, s, WriterReceive)
    ensures FlowOk(c, Apply(c, s, WriterReceive))
  {
  }

  lemma WriterFlow(c: Config, s: State, a: Action)
    requires FlowOk(c, s) && WorkersOk(c, s) && Enabled(c, s, a) && ByWriter(a) && a != WriterConsume
    ensures FlowOk(c, Apply(c, s, a))
  {
    hide Consume, Range;
    if a == WriterReceive { ReceiveFlow(c, s); }
  }

  lemma WriterFeeder(c: Config, s: State, a: Action)
    requires FeederOk(c, s) && Enabled(c, s, a) && ByWriter(a) && a != WriterConsume
    ensures FeederOk(c, Apply(c, s, a))
  {
    hide Consume;
  }

  lemma WriterRest(c: Config, s: State, a: Action)
    requires Sensible(c) && Inv(c, s) && Enabled(c, s, a) && ByWriter(a) && a != WriterConsume
    ensures WorkersOk(c, Apply(c, s, a)) && WritesOk(c, Apply(c, s, a))
  {
    hide Outputs, Errors, Range, Consume;
  }

  lemma OutputsNext(c: Config, k: nat)
    ensures Outputs(c, k + 1) == Outputs(c, k) + if c.fate(k).Rendered? then [k] else []
    ensures Errors(c, k + 1) == (Errors(c, k) || c.fate(k) == Failed || c.fate(k) == Rendered(Spoiled))
  {
  }

  lemma WriterStep(c: Config, s: State, a: Action)
    requires Sensible(c) && Inv(c, s) && Enabled(c, s, a) && ByWriter(a)
    ensures Inv(c, Apply(c, s, a))
  {
    hide FeederOk, FlowOk, WorkersOk, WritesOk, Apply, Enabled, ByWriter;
    if a == WriterConsume {
      ConsumeFlow(c, s);
      ConsumeWrites(c, s);
    } else {
      WriterFlow(c, s, a);
      WriterFeeder(c, s, a);
      WriterRest(c, s, a);
    }
  }

  lemma OutsideStep(c: Config, s: State, a: Action)
    requires Sensible(c) && Inv(c, s) && Enabled(c, s, a) && (a == Teardown || a == PagerQuit || a == WatcherEnd)
    ensures Inv(c, Apply(c, s, a))
  {
    hide Outputs, Errors;
  }

  /** Every step keeps the invariant. */
  lemma StepKeeps(c: Config, s: State, a: Action)
    requires Sensible(c) && Inv(c, s) && Enabled(c, s, a)
    ensures Inv(c, Apply(c, s, a))
  {
    hide Inv, Enabled;
    if ByFeeder(a) { FeederStep(c, s, a); }
    else if ByWorker(a) { WorkerStep(c, s, a); }
    else if ByWriter(a) { WriterStep(c, s, a); }
    else { OutsideStep(c, s, a); }
  }

  // ---------------------------------------------------------------- bounds and progress

  /** Never more jobs between permit taken and permit returned than there are permits. */
  lemma BoundedInFlight(c: Config, s: State)
    requires Inv(c, s)
    ensures 0 <= s.taken - s.consumed <= c.permits
    ensures |s.queue| <= c.permits && (s.writer != Returned ==> |s.flight| <= c.permits)
  {
    RangePush(s.started, s.queued);
    if s.writer != Returned { RangePush(s.consumed + InHand(s), s.announced); }
  }

  /** Some step can be taken without waiting for the user to quit the pager. */
  ghost predicate CanMove(c: Config, s: State) {
    exists a :: a != PagerQuit && Enabled(c, s, a)
  }

  /** A worker that is not gone can take the next job or finish the one it has. */
  lemma WorkerMoves(c: Config, s: State, w: nat)
    requires w < |s.workers| && s.workers[w] != Gone && (s.workers[w].Busy? || s.queue != [] || s.cancelled)
    ensures CanMove(c, s)
  {
    if s.workers[w].Busy? {
      assert Enabled(c, s, WorkerFinish(w));
    } else if s.queue != [] {
      assert Enabled(c, s, WorkerTake(w));
    } else {
      assert Enabled(c, s, WorkerQuit(w));
    }
  }

  /** Once cancelled, everything that has not stopped can stop. */
  lemma CancelledMoves(c: Config, s: State)
    requires Sensible(c) && Inv(c, s) && s.cancelled && !Stopped(s)
    ensures CanMove(c, s)
  {
    if s.watching {
      assert Enabled(c, s, WatcherEnd);
    } else if s.feeder != Fed {
      assert Enabled(c, s, FeederQuit) || Enabled(c, s, FeederEnd);
    } else if w: nat :| w < |s.workers| && s.workers[w] != Gone {
      WorkerMoves(c, s, w);
    } else if s.writer.Releasing? {
      assert Enabled(c, s, WriterRelease);
    } else {
      assert Enabled(c, s, WriterQuit) || Enabled(c, s, WriterEnd);
    }
  }

  /** The feeder is never blocked while the writer waits for a job that is still to come. */
  lemma FeederMoves(c: Config, s: State)
    requires Sensible(c) && Inv(c, s) && !s.cancelled && s.writer == Waiting && s.consumed < c.jobs && s.flight == []
    ensures CanMove(c, s)
  {
    RangePush(s.consumed, s.announced);
    RangePush(s.started, s.queued);
    assert s.announced == s.consumed;
    match s.feeder
    case Taking => assert Enabled(c, s, FeederTake);
    case Queueing => assert Enabled(c, s, FeederQueue);
    case Announcing => assert Enabled(c, s, FeederAnnounce);
    case Fed =>
  }

  /** The job in the writer's hands is finished, or a worker can get on with it. */
  lemma HeldMoves(c: Config, s: State)
    requires Sensible(c) && Inv(c, s) && !s.cancelled && s.writer.Holding?
    ensures CanMove(c, s)
  {
    if s.consumed in s.results {
      assert Enabled(c, s, WriterSeeDone);
    } else if s.consumed < s.started {
      var w :| 0 <= w < |s.workers| && s.workers[w] == Busy(s.consumed);
      WorkerMoves(c, s, w);
    } else {
      RangePush(s.started, s.queued);
      WorkerMoves(c, s, 0);
    }
  }

  /** No reachable state is stuck: until everything has stopped, some step can be taken. */
  lemma NeverStuck(c: Config, s: State)
    requires Sensible(c) && Inv(c, s) && !Stopped(s)
    ensures CanMove(c, s)
  {
    if s.cancelled {
      CancelledMoves(c, s);
    } else {
      match s.writer
      case Waiting =>
        if s.consumed == c.jobs { assert Enabled(c, s, WriterEnd); }
        else if s.flight != [] { assert Enabled(c, s, WriterReceive); }
        else { FeederMoves(c, s); }
      case Holding(_) => HeldMoves(c, s);
      case Checking(_) => assert Enabled(c, s, WriterConsume);
      case Releasing(_) => assert Enabled(c, s, WriterRelease);
      case Returned => assert Enabled(c, s, Teardown);
    }
  }

  // ---------------------------------------------------------------- every run ends

  function FeederWork(c: Config, s: State): int {
    match s.feeder
    case Taking => 3 * (c.jobs - s.announced) + 1
    case Queueing => 3 * (c.jobs - s.announced)
    case Announcing => 3 * (c.jobs - s.announced) - 1
    case Fed => 0
  }

  function WriterWork(c: Config, s: State): int {
    match s.writer
    case Waiting => 4 * (c.jobs - s.consumed) + 2
    case Holding(_) => 4 * (c.jobs - s.consumed) + 1
    case Checking(_) => 4 * (c.jobs - s.consumed)
    case Releasing(_) => 4 * (c.jobs - s.consumed) - 1
    case Returned => 0
  }

  /** How many steps there can still be, at most. */
  function Work(c: Config, s: State): int {
    3 * FeederWork(c, s) + 2 * |s.queue| + WorkerWork(s.workers) + WriterWork(c, s)
    + (if s.cancelled then 0 else 1) + (if s.watching then 1 else 0)
  }

  /** Every step leaves less work, and work is never negative: no run goes on forever. */
  lemma StepWorks(c: Config, s: State, a: Action)
    requires Sensible(c) && Inv(c, s) && Enabled(c, s, a)
    ensures 0 <= Work(c, Apply(c, s, a)) < Work(c, s)
  {
    hide FeederOk, FlowOk, WorkersOk, WritesOk, Enabled, Apply, Work;
    StepKeeps(c, s, a);
    WorkPositive(c, Apply(c, s, a));
    if ByFeeder(a) { FeederLess(c, s, a); }
    else if ByWorker(a) { WorkersLess(c, s, a); }
    else if ByWriter(a) { WriterLess(c, s, a); }
    else { OutsideLess(c, s, a); }
  }

  lemma WorkPositive(c: Config, s: State)
    requires Inv(c, s)
    ensures 0 <= Work(c, s)
  {
  }

  lemma FeederLess(c: Config, s: State, a: Action)
    requires FeederOk(c, s) && Enabled(c, s, a) && ByFeeder(a)
    ensures Work(c, Apply(c, s, a)) < Work(c, s)
  {
  }

  lemma WorkersLess(c: Config, s: State, a: Action)
    requires Enabled(c, s, a) && ByWorker(a)
    ensures Work(c, Apply(c, s, a)) < Work(c, s)
  {
    var r := Apply(c, s, a);
    assert FeederWork(c, r) == FeederWork(c, s) && WriterWork(c, r) == WriterWork(c, s);
    assert r.workers == s.workers[a.w := r.workers[a.w]];
    WorkerWorkAt(s.workers, a.w, r.workers[a.w]);
    hide WorkerWork, FeederWork, WriterWork;
  }

  lemma WriterLess(c: Config, s: State, a: Action)
    requires FeederOk(c, s) && WritesOk(c, s) && FlowOk(c, s) && Enabled(c, s, a) && ByWriter(a)
    ensures Work(c, Apply(c, s, a)) < Work(c, s)
  {
    hide WorkerWork, Outputs, Errors, Range;
    if a == WriterConsume {
      ConsumeFrame(s, s.writer.job, s.results[s.writer.job]);
      hide Consume;
      assert FeederWork(c, Apply(c, s, a)) == FeederWork(c, s);
    }
  }

  lemma OutsideLess(c: Config, s: State, a: Action)
    requires Enabled(c, s, a) && (a == Teardown || a == PagerQuit || a == WatcherEnd)
    ensures Work(c, Apply(c, s, a)) < Work(c, s)
  {
    hide WorkerWork;
  }

  // ---------------------------------------------------------------- whole runs

  /** The state after the steps as, taken one after the other. */
  ghost predicate Run(c: Config, s: State, steps: seq<Action>, end: State)
    decreases |steps|
  {
    if steps == [] then end == s else Enabled(c, s, steps[0]) && Run(c, Apply(c, s, steps[0]), steps[1..], end)
  }

  lemma {:induction false} RunKeeps(c: Config, s: State, steps: seq<Action>, end: State)
    requires Sensible(c) && Inv(c, s) && Run(c, s, steps, end)
    ensures Inv(c, end) && |steps| <= Work(c, s) - Work(c, end)
    decreases |steps|
  {
    if steps != [] {
      StepKeeps(c, s, steps[0]);
      StepWorks(c, s, steps[0]);
      RunKeeps(c, Apply(c, s, steps[0]), steps[1..], end);
    }
  }

  /**
    * Over every interleaving: writes are attempted in job order for a prefix of the jobs, at most the permitted number
    * of jobs is in flight, no run is longer than a bound fixed at the start, and a run that cannot go on has stopped
    * everything; unless the pager quit or the output broke, it has then consumed every job exactly once.
    */
  lemma EveryRun(c: Config, steps: seq<Action>, end: State)
    requires Sensible(c) && Run(c, Start(c), steps, end)
    ensures exists k: nat :: k <= c.jobs && end.writes == Outputs(c, k)
    ensures 0 <= end.taken - end.consumed <= c.permits
    ensures |steps| <= Work(c, Start(c))
    ensures !CanMove(c, end) ==> Stopped(end)
    ensures Stopped(end) && !end.quit && !end.broken ==>
      end.consumed == c.jobs && end.writes == Outputs(c, c.jobs) && end.rendered == |Outputs(c, c.jobs)| &&
      end.hadErrors == Errors(c, c.jobs)
  {
    hide FeederOk, FlowOk, WorkersOk, Work, Run, Enabled, Apply, Outputs, Errors;
    StartInv(c);
    RunKeeps(c, Start(c), steps, end);
    WorkPositive(c, end);
    BoundedInFlight(c, end);
    if !Stopped(end) { NeverStuck(c, end); }
    var k: nat := end.consumed + if end.writer.Releasing? || end.broken then 1 else 0;
    assert end.writes == Outputs(c, k);
    ConsumedBound(c, end);
  }

  lemma ConsumedBound(c: Config, s: State)
    requires Inv(c, s)
    ensures s.consumed + (if s.writer.Releasing? || s.broken then 1 else 0) <= c.jobs
  {
  }
}
