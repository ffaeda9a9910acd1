/** The stream's goroutines as a step relation: reader, workers and flusher around two queues and a set of permits. */
module StreamPipeline {
  import opened Lists
  import opened Workers
  import R = StreamReader

  const PERMITS := 16
  const QUEUE_CAP := 256

  /** The items the reader sends, which of them are files to diff, what each comes out as, and how many workers there
      are. */
  datatype Config = Config(items: nat, isDiff: nat -> bool, text: nat -> string, workers: nat)

  /** A reader that has closed its queues may have dropped a file between the two of them. */
  datatype Reader = Sending | Permitted | Handed | Closed | Dropped
  datatype Flusher = Waiting | Holding(item: nat) | Releasing(item: nat) | Finished

  /** sent, handed, started and flushed count the items (the files among them, for the workers) that got that far;
      broken says that the user, the input or the output has ended the run early. */
  datatype State = State(
    reader: Reader, sent: nat, permits: nat, jobs: seq<nat>, queue: seq<nat>,
    workers: seq<Worker>, done: set<nat>, aborted: set<nat>, flusher: Flusher, flushed: nat, output: string,
    cancelled: bool, broken: bool)

  datatype Action =
    | SendRaw | Acquire | HandOver | SendDiff | Close | Abort
    | TakeJob(w: nat) | FinishJob(w: nat) | AbortJob(w: nat) | LeaveWorker(w: nat)
    | Receive | WriteRaw | WriteDiff | Release | LeaveFlusher | TearDown
    | Cancel | FailRead | FailWrite(n: nat)

  predicate Sensible(c: Config) {
    0 < c.workers
  }

  function Start(c: Config): State {
    State(Sending, 0, 0, [], [], seq(c.workers, _ => Idle), {}, {}, Waiting, 0, "", false, false)
  }

  predicate ReaderGone(s: State) {
    s.reader == Closed || s.reader == Dropped
  }

  /** A select that finds the context cancelled and another case ready may take either, so both stay enabled. */
  predicate Enabled(c: Config, s: State, a: Action) {
    match a
    case SendRaw => s.reader == Sending && s.sent < c.items && !c.isDiff(s.sent) && |s.queue| < QUEUE_CAP
    case Acquire => s.reader == Sending && s.sent < c.items && c.isDiff(s.sent) && s.permits < PERMITS
    case HandOver => s.reader == Permitted && |s.jobs| < PERMITS
    case SendDiff => s.reader == Handed && |s.queue| < QUEUE_CAP
    case Close => s.reader == Sending && s.sent == c.items
    case Abort => s.cancelled && !ReaderGone(s)
    case TakeJob(w) => w < |s.workers| && s.workers[w] == Idle && s.jobs != []
    case FinishJob(w) => w < |s.workers| && s.workers[w].Busy?
    case AbortJob(w) => w < |s.workers| && s.workers[w].Busy? && s.cancelled
    case LeaveWorker(w) => w < |s.workers| && s.workers[w] == Idle && (s.cancelled || (s.jobs == [] && ReaderGone(s)))
    case Receive => s.flusher == Waiting && s.queue != []
    case WriteRaw => s.flusher.Holding? && !c.isDiff(s.flusher.item)
    case WriteDiff =>
      s.flusher.Holding? && c.isDiff(s.flusher.item) && s.flusher.item in s.done && s.flusher.item !in s.aborted
    case Release => s.flusher.Releasing?
    case LeaveFlusher =>
      || (s.flusher == Waiting && (s.cancelled || (s.queue == [] && ReaderGone(s))))
      || (s.flusher.Holding? && c.isDiff(s.flusher.item) && s.cancelled)
    case TearDown => s.flusher == Finished && !s.cancelled
    case Cancel => !s.cancelled && s.flusher != Finished
    case FailRead => s.reader == Sending
    case FailWrite(n) =>
      && s.flusher.Holding? && n <= |c.text(s.flusher.item)|
      && (c.isDiff(s.flusher.item) ==> s.flusher.item in s.done && s.flusher.item !in s.aborted)
  }

  function Apply(c: Config, s: State, a: Action): State
    requires Enabled(c, s, a)
  {
    match a
    case SendRaw => s.(queue := s.queue + [s.sent], sent := s.sent + 1)
    case Acquire => s.(reader := Permitted, permits := s.permits + 1)
    case HandOver => s.(reader := Handed, jobs := s.jobs + [s.sent])
    case SendDiff => s.(reader := Sending, queue := s.queue + [s.sent], sent := s.sent + 1)
    case Close => s.(reader := Closed)
    case Abort =>
      // A permit that no queued file stands for is given back.
      s.(reader := if s.reader == Handed then Dropped else Closed,
         permits := if s.reader != Sending && s.permits > 0 then s.permits - 1 else s.permits)
    case TakeJob(w) => s.(workers := s.workers[w := Busy(s.jobs[0])], jobs := s.jobs[1..])
    case FinishJob(w) => s.(workers := s.workers[w := Idle], done := s.done + {s.workers[w].job})
    case AbortJob(w) =>
      s.(workers := s.workers[w := Idle], done := s.done + {s.workers[w].job},
         aborted := s.aborted + {s.workers[w].job})
    case LeaveWorker(w) => s.(workers := s.workers[w := Gone])
    case Receive => s.(flusher := Holding(s.queue[0]), queue := s.queue[1..])
    case WriteRaw => s.(output := s.output + c.text(s.flusher.item), flusher := Waiting, flushed := s.flushed + 1)
    case WriteDiff => s.(output := s.output + c.text(s.flusher.item), flusher := Releasing(s.flusher.item))
    case Release =>
      // The release never blocks: it gives a permit back if one is held.
      s.(permits := if s.permits > 0 then s.permits - 1 else 0, flusher := Waiting, flushed := s.flushed + 1)
    case LeaveFlusher => s.(flusher := Finished)
    case TearDown => s.(cancelled := true)
    case Cancel => s.(cancelled := true, broken := true)
    case FailRead => s.(reader := Closed, cancelled := true, broken := true)
    case FailWrite(n) =>
      s.(output := s.output + c.text(s.flusher.item)[..n], flusher := Finished, cancelled := true, broken := true)
  }

  predicate Stopped(s: State) {
    ReaderGone(s) && s.flusher == Finished && forall w :: 0 <= w < |s.workers| ==> s.workers[w] == Gone
  }

  // ---------------------------------------------------------------- the invariant

  /** The files among the items from lo up to hi. */
  function Diffs(c: Config, lo: nat, hi: nat): nat
    decreases hi - lo
  {
    if lo >= hi then 0 else (if c.isDiff(lo) then 1 else 0) + Diffs(c, lo + 1, hi)
  }

  lemma {:induction false} DiffsPush(c: Config, lo: nat, hi: nat)
    requires lo <= hi
    ensures Diffs(c, lo, hi + 1) == Diffs(c, lo, hi) + if c.isDiff(hi) then 1 else 0
    decreases hi - lo
  {
    if lo < hi { DiffsPush(c, lo + 1, hi); }
  }

  /** What the first k items come out as, in order. */
  function Texts(c: Config, k: nat): string {
    if k == 0 then "" else Texts(c, k - 1) + c.text(k - 1)
  }

  function ReaderHolds(s: State): nat {
    if s.reader == Permitted || s.reader == Handed then 1 else 0
  }

  function InHand(s: State): nat {
    if s.flusher.Holding? || s.flusher.Releasing? then 1 else 0
  }

  /** The queue holds consecutive items; the flusher has the one before them. */
  ghost predicate QueueOk(c: Config, s: State) {
    && s.flushed <= s.sent <= c.items && |s.queue| <= QUEUE_CAP
    && (s.flusher != Finished ==>
          s.flushed + InHand(s) <= s.sent && s.queue == Range(s.flushed + InHand(s), s.sent))
    && (s.flusher.Holding? ==> s.flusher.item == s.flushed)
    && (s.flusher.Releasing? ==> s.flusher.item == s.flushed && c.isDiff(s.flushed))
    && (s.reader == Permitted || s.reader == Handed || s.reader == Dropped ==> s.sent < c.items && c.isDiff(s.sent))
  }

  /** Nothing ends early unless the run is broken off. */
  ghost predicate EndOk(c: Config, s: State) {
    && (s.broken ==> s.cancelled)
    && (s.cancelled && !s.broken ==> s.flusher == Finished)
    && (s.flusher == Finished && !s.broken ==> s.reader == Closed && s.flushed == c.items)
    && (s.reader == Closed && !s.broken ==> s.sent == c.items)
    && (s.reader == Dropped ==> s.broken)
    && (s.aborted != {} ==> s.cancelled)
  }

  /** Permits held are the files queued or in the flusher's hands, and at most one in the reader's. */
  ghost predicate PermitsOk(c: Config, s: State) {
    s.permits == Diffs(c, s.flushed, s.sent) + ReaderHolds(s) && s.permits <= PERMITS
  }

  /** Item k has been handed to the workers. */
  predicate HandedOver(c: Config, s: State, k: nat) {
    c.isDiff(k) && (k < s.sent || (k == s.sent && (s.reader == Handed || s.reader == Dropped)))
  }

  /** Item k waits for a worker, is with one, or is finished. */
  ghost predicate Somewhere(s: State, k: nat) {
    k in s.done || k in s.jobs || Busy(k) in s.workers
  }

  /** Files wait for the workers in order, each once, and only those not yet flushed. */
  ghost predicate JobsOk(c: Config, s: State) {
    && (forall k :: 0 <= k < |s.jobs| ==> HandedOver(c, s, s.jobs[k]) && s.jobs[k] >= s.flushed)
    && (forall k, l :: 0 <= k < l < |s.jobs| ==> s.jobs[k] < s.jobs[l])
    && (forall j, k :: j in s.done && 0 <= k < |s.jobs| ==> j < s.jobs[k])
    && (forall w, k :: 0 <= w < |s.workers| && s.workers[w].Busy? && 0 <= k < |s.jobs| ==> s.workers[w].job < s.jobs[k])
  }

  /** No file gets lost, no item is done that was not handed over, and workers stay until nothing can come. */
  ghost predicate WorkersOk(c: Config, s: State) {
    && |s.workers| == c.workers
    && (forall k: nat :: HandedOver(c, s, k) ==> Somewhere(s, k))
    && (forall k :: k in s.done ==> HandedOver(c, s, k))
    && (forall w :: 0 <= w < |s.workers| && s.workers[w].Busy? ==> HandedOver(c, s, s.workers[w].job))
    && (forall w :: 0 <= w < |s.workers| && s.workers[w] == Gone ==> s.cancelled || (ReaderGone(s) && s.jobs == []))
    && (s.flusher.Releasing? ==> s.flushed in s.done)
  }

  /** What has been written is the text of the items flushed, and, once the flusher has gone, perhaps the front of the
      next one's. */
  ghost predicate OutputOk(c: Config, s: State) {
    if s.flusher != Finished then s.output == Texts(c, s.flushed + if s.flusher.Releasing? then 1 else 0)
    else exists n: nat :: Torn(c, s, n)
  }

  ghost predicate Torn(c: Config, s: State, n: nat) {
    && n <= |c.text(s.flushed)| && (n > 0 ==> s.broken && s.flushed < c.items)
    && s.output == Texts(c, s.flushed) + c.text(s.flushed)[..n]
  }

  ghost predicate Inv(c: Config, s: State) {
    QueueOk(c, s) && EndOk(c, s) && PermitsOk(c, s) && JobsOk(c, s) && WorkersOk(c, s) && OutputOk(c, s)
  }

  lemma StartInv(c: Config)
    ensures Inv(c, Start(c))
  {
  }

  // ---------------------------------------------------------------- every step keeps it

  predicate ByReader(a: Action) {
    a.SendRaw? || a.Acquire? || a.HandOver? || a.SendDiff? || a.Close? || a.Abort? || a.FailRead?
  }

  predicate ByWorker(a: Action) {
    a.TakeJob? || a.FinishJob? || a.AbortJob? || a.LeaveWorker?
  }

  lemma QueueKept(c: Config, s: State, a: Action)
    requires QueueOk(c, s) && Enabled(c, s, a)
    ensures QueueOk(c, Apply(c, s, a))
  {
    if ByReader(a) { ReaderKeepsQueue(c, s, a); } else { OthersKeepQueue(c, s, a); }
  }

  lemma ReaderKeepsQueue(c: Config, s: State, a: Action)
    requires QueueOk(c, s) && Enabled(c, s, a) && ByReader(a)
    ensures QueueOk(c, Apply(c, s, a))
  {
    hide Range;
    if s.flusher != Finished { RangePush(s.flushed + InHand(s), s.sent); }
  }

  lemma OthersKeepQueue(c: Config, s: State, a: Action)
    requires QueueOk(c, s) && Enabled(c, s, a) && !ByReader(a)
    ensures QueueOk(c, Apply(c, s, a))
  {
    if a == Receive {
      RangeFirst(s.flushed, s.sent);
    } else {
      hide Range;
    }
  }

  lemma RangeFirst(lo: nat, hi: nat)
    requires Range(lo, hi) != []
    ensures lo < hi && Range(lo, hi)[0] == lo && Range(lo, hi)[1..] == Range(lo + 1, hi)
  {
  }

  lemma EndKept(c: Config, s: State, a: Action)
    requires QueueOk(c, s) && EndOk(c, s) && Enabled(c, s, a)
    ensures EndOk(c, Apply(c, s, a))
  {
    hide Range;
    if a == LeaveFlusher && !s.cancelled { assert |s.queue| == 0; RangeEmpty(s.flushed, s.sent); }
  }

  lemma RangeEmpty(lo: nat, hi: nat)
    requires Range(lo, hi) == []
    ensures hi <= lo
  {
  }

  lemma PermitsKept(c: Config, s: State, a: Action)
    requires QueueOk(c, s) && PermitsOk(c, s) && Enabled(c, s, a)
    ensures PermitsOk(c, Apply(c, s, a))
  {
    hide Range;
    DiffsPush(c, s.flushed, s.sent);
  }

  lemma OutputKept(c: Config, s: State, a: Action)
    requires QueueOk(c, s) && EndOk(c, s) && OutputOk(c, s) && Enabled(c, s, a)
    ensures OutputOk(c, Apply(c, s, a))
  {
    hide Range;
    var r := Apply(c, s, a);
    if s.flusher == Finished {
      var n: nat :| Torn(c, s, n);
      assert Torn(c, r, n);
    } else if a.FailWrite? {
      assert Torn(c, r, a.n);
    } else if a == LeaveFlusher {
      assert Torn(c, r, 0);
    }
  }

  lemma ReaderKeepsJobs(c: Config, s: State, a: Action)
    requires QueueOk(c, s) && JobsOk(c, s) && WorkersOk(c, s) && Enabled(c, s, a) && ByReader(a)
    ensures JobsOk(c, Apply(c, s, a)) && WorkersOk(c, Apply(c, s, a))
  {
    hide Range;
    var r := Apply(c, s, a);
    forall k: nat | HandedOver(c, r, k) ensures Somewhere(r, k) {
      if a == HandOver && k == s.sent {
        assert r.jobs[|s.jobs|] == k;
      } else {
        assert HandedOver(c, s, k) && Somewhere(s, k);
      }
    }
  }

  lemma WorkerKeepsOrder(c: Config, s: State, a: Action)
    requires JobsOk(c, s) && Enabled(c, s, a) && ByWorker(a)
    ensures JobsOk(c, Apply(c, s, a))
  {
    if a.TakeJob? { TakeKeepsOrder(c, s, a); }
  }

  lemma TakeKeepsOrder(c: Config, s: State, a: Action)
    requires JobsOk(c, s) && Enabled(c, s, a) && a.TakeJob?
    ensures JobsOk(c, Apply(c, s, a))
  {
    assert forall k :: 0 <= k < |s.jobs| - 1 ==> s.jobs[1..][k] == s.jobs[k + 1];
  }

  lemma WorkerKeepsFiles(c: Config, s: State, a: Action, k: nat)
    requires Enabled(c, s, a) && ByWorker(a) && Somewhere(s, k)
    ensures Somewhere(Apply(c, s, a), k)
  {
    var r, w := Apply(c, s, a), a.w;
    if k !in s.done && k !in s.jobs {
      var v :| 0 <= v < |s.workers| && s.workers[v] == Busy(k);
      assert v != w ==> r.workers[v] == Busy(k);
    } else if a.TakeJob? && k == s.jobs[0] {
      assert r.workers[w] == Busy(k);
    } else if k in s.jobs && a.TakeJob? {
      assert s.jobs == [s.jobs[0]] + r.jobs;
    }
  }

  lemma WorkerKeepsJobs(c: Config, s: State, a: Action)
    requires JobsOk(c, s) && WorkersOk(c, s) && Enabled(c, s, a) && ByWorker(a)
    ensures JobsOk(c, Apply(c, s, a)) && WorkersOk(c, Apply(c, s, a))
  {
    var r := Apply(c, s, a);
    assert a.TakeJob? ==> HandedOver(c, s, s.jobs[0]);
    WorkerKeepsOrder(c, s, a);
    forall k: nat | HandedOver(c, r, k) ensures Somewhere(r, k) {
      assert HandedOver(c, s, k);
      WorkerKeepsFiles(c, s, a, k);
    }
    hide JobsOk, Somewhere;
  }

  lemma FlusherKeepsOrder(c: Config, s: State, a: Action)
    requires QueueOk(c, s) && JobsOk(c, s) && WorkersOk(c, s) && Enabled(c, s, a) && !ByReader(a) && !ByWorker(a)
    ensures JobsOk(c, Apply(c, s, a))
  {
    hide Range;
  }

  lemma FlusherKeepsFiles(c: Config, s: State, a: Action)
    requires QueueOk(c, s) && WorkersOk(c, s) && Enabled(c, s, a) && !ByReader(a) && !ByWorker(a)
    ensures WorkersOk(c, Apply(c, s, a))
  {
    hide Range;
    var r := Apply(c, s, a);
    forall k: nat | HandedOver(c, r, k) ensures Somewhere(r, k) {
      assert HandedOver(c, s, k) && Somewhere(s, k);
    }
  }

  lemma FlusherKeepsJobs(c: Config, s: State, a: Action)
    requires QueueOk(c, s) && JobsOk(c, s) && WorkersOk(c, s) && Enabled(c, s, a) && !ByReader(a) && !ByWorker(a)
    ensures JobsOk(c, Apply(c, s, a)) && WorkersOk(c, Apply(c, s, a))
  {
    FlusherKeepsOrder(c, s, a);
    FlusherKeepsFiles(c, s, a);
    hide QueueOk, JobsOk, WorkersOk, Enabled, Apply;
  }

  /** Every step keeps the invariant. */
  lemma StepKeeps(c: Config, s: State, a: Action)
    requires Inv(c, s) && Enabled(c, s, a)
    ensures Inv(c, Apply(c, s, a))
  {
    hide QueueOk, EndOk, PermitsOk, JobsOk, WorkersOk, OutputOk, Enabled, Apply;
    QueueKept(c, s, a);
    EndKept(c, s, a);
    PermitsKept(c, s, a);
    OutputKept(c, s, a);
    if ByReader(a) { ReaderKeepsJobs(c, s, a); }
    else if ByWorker(a) { WorkerKeepsJobs(c, s, a); }
    else { FlusherKeepsJobs(c, s, a); }
  }

  // ---------------------------------------------------------------- progress

  /** Steps that wait for nobody outside: the user, the input and the output may also break the run off. */
  predicate FromOutside(a: Action) {
    a.Cancel? || a.FailRead? || a.FailWrite?
  }

  ghost predicate CanMove(c: Config, s: State) {
    exists a :: Enabled(c, s, a) && !FromOutside(a)
  }

  lemma {:induction false} DiffsShrink(c: Config, lo: nat, m: nat, hi: nat)
    requires lo <= m
    ensures Diffs(c, m, hi) <= Diffs(c, lo, hi)
    decreases m - lo
  {
    if lo < m { DiffsShrink(c, lo + 1, m, hi); }
  }

  /** Increasing files between lo and hi are no more than there are. */
  lemma {:induction false} FewJobs(c: Config, jobs: seq<nat>, lo: nat, hi: nat)
    requires forall k :: 0 <= k < |jobs| ==> lo <= jobs[k] < hi && c.isDiff(jobs[k])
    requires forall k, l :: 0 <= k < l < |jobs| ==> jobs[k] < jobs[l]
    ensures |jobs| <= Diffs(c, lo, hi)
    decreases |jobs|
  {
    if jobs != [] {
      FewJobs(c, jobs[1..], jobs[0] + 1, hi);
      DiffsShrink(c, lo, jobs[0], hi);
    }
  }

  /** Handing over never blocks: the permit keeps a place in the job queue. */
  lemma RoomForJob(c: Config, s: State)
    requires Inv(c, s) && s.reader == Permitted
    ensures Enabled(c, s, HandOver)
  {
    FewJobs(c, s.jobs, s.flushed, s.sent);
  }

  /** A file that was handed over is finished, or a worker can get on with it. */
  lemma JobMoves(c: Config, s: State, k: nat)
    requires Sensible(c) && Inv(c, s) && !s.cancelled && HandedOver(c, s, k) && k !in s.done
    ensures CanMove(c, s)
  {
    assert Somewhere(s, k);
    if k in s.jobs {
      if s.workers[0].Busy? { assert Enabled(c, s, FinishJob(0)); } else { assert Enabled(c, s, TakeJob(0)); }
    } else {
      var w :| 0 <= w < |s.workers| && s.workers[w] == Busy(k);
      assert Enabled(c, s, FinishJob(w));
    }
  }

  lemma FlusherMoves(c: Config, s: State)
    requires Sensible(c) && Inv(c, s) && (s.cancelled || s.queue != [] || s.flusher.Holding? || s.flusher.Releasing?)
    requires s.flusher != Finished
    ensures CanMove(c, s)
  {
    match s.flusher
    case Waiting => if s.cancelled { assert Enabled(c, s, LeaveFlusher); } else { assert Enabled(c, s, Receive); }
    case Releasing(_) => assert Enabled(c, s, Release);
    case Holding(k) =>
      if !c.isDiff(k) { assert Enabled(c, s, WriteRaw); }
      else if s.cancelled { assert Enabled(c, s, LeaveFlusher); }
      else if k in s.done { assert Enabled(c, s, WriteDiff); }
      else { JobMoves(c, s, k); }
  }

  /** With the queue empty and the flusher idle, the reader can go on: all permits it does not hold are free. */
  lemma ReaderMoves(c: Config, s: State)
    requires Inv(c, s) && s.queue == [] && s.flusher == Waiting && !ReaderGone(s)
    ensures CanMove(c, s)
  {
    RangePush(s.flushed, s.sent);
    match s.reader
    case Permitted =>
      RoomForJob(c, s);
      assert Enabled(c, s, HandOver);
    case Handed => assert Enabled(c, s, SendDiff);
    case Sending =>
      if s.sent == c.items { assert Enabled(c, s, Close); }
      else if c.isDiff(s.sent) { assert Enabled(c, s, Acquire); }
      else { assert Enabled(c, s, SendRaw); }
  }

  /** No reachable state is stuck before everything has stopped. */
  lemma NeverStuck(c: Config, s: State)
    requires Sensible(c) && Inv(c, s) && !Stopped(s)
    ensures CanMove(c, s)
  {
    if s.flusher == Finished {
      if !s.cancelled {
        assert Enabled(c, s, TearDown);
      } else if !ReaderGone(s) {
        assert Enabled(c, s, Abort);
      } else {
        var w: nat :| w < |s.workers| && s.workers[w] != Gone;
        WorkerEnds(c, s, w);
      }
    } else if s.cancelled || s.queue != [] || s.flusher.Holding? || s.flusher.Releasing? {
      FlusherMoves(c, s);
    } else if ReaderGone(s) {
      assert Enabled(c, s, LeaveFlusher);
    } else {
      ReaderMoves(c, s);
    }
  }

  lemma WorkerEnds(c: Config, s: State, w: nat)
    requires w < |s.workers| && s.workers[w] != Gone && s.cancelled
    ensures CanMove(c, s)
  {
    if s.workers[w].Busy? { assert Enabled(c, s, FinishJob(w)); } else { assert Enabled(c, s, LeaveWorker(w)); }
  }

  // ---------------------------------------------------------------- every run ends

  function ReaderWork(c: Config, s: State): int {
    match s.reader
    case Sending => 12 * (c.items - s.sent) + 1
    case Permitted => 12 * (c.items - s.sent)
    case Handed => 12 * (c.items - s.sent) - 4
    case Closed => 0
    case Dropped => 0
  }

  function FlusherWork(f: Flusher): nat {
    match f
    case Waiting => 1
    case Holding(_) => 3
    case Releasing(_) => 2
    case Finished => 0
  }

  /** How many steps there can still be, at most. */
  function Work(c: Config, s: State): int {
    ReaderWork(c, s) + 2 * |s.jobs| + 4 * |s.queue| + WorkerWork(s.workers) + FlusherWork(s.flusher)
    + if s.cancelled then 0 else 1
  }

  /** Every step leaves less work, and work is never negative: no run goes on forever. */
  lemma StepWorks(c: Config, s: State, a: Action)
    requires Inv(c, s) && Enabled(c, s, a)
    ensures 0 <= Work(c, Apply(c, s, a)) < Work(c, s)
  {
    StepKeeps(c, s, a);
    WorkPositive(c, Apply(c, s, a));
    hide EndOk, PermitsOk, JobsOk, WorkersOk, OutputOk, WorkerWork, Range;
    if ByReader(a) { ReaderWorks(c, s, a); } else if ByWorker(a) { WorkerWorks(c, s, a); }
  }

  lemma ReaderWorks(c: Config, s: State, a: Action)
    requires QueueOk(c, s) && Enabled(c, s, a) && ByReader(a)
    ensures Work(c, Apply(c, s, a)) < Work(c, s)
  {
    hide WorkerWork, Range;
  }

  lemma WorkerWorks(c: Config, s: State, a: Action)
    requires Enabled(c, s, a) && ByWorker(a)
    ensures Work(c, Apply(c, s, a)) < Work(c, s)
  {
    hide WorkerWork;
    assert Apply(c, s, a).workers == s.workers[a.w := Apply(c, s, a).workers[a.w]];
    WorkerWorkAt(s.workers, a.w, Apply(c, s, a).workers[a.w]);
  }

  lemma WorkPositive(c: Config, s: State)
    requires QueueOk(c, s)
    ensures 0 <= Work(c, s)
  {
    hide WorkerWork, Range;
  }

  // ---------------------------------------------------------------- whole runs

  /** The state after the steps, taken one after the other. */
  ghost predicate Run(c: Config, s: State, steps: seq<Action>, end: State)
    decreases |steps|
  {
    if steps == [] then end == s else Enabled(c, s, steps[0]) && Run(c, Apply(c, s, steps[0]), steps[1..], end)
  }

  lemma {:induction false} RunKeeps(c: Config, s: State, steps: seq<Action>, end: State)
    requires Inv(c, s) && Run(c, s, steps, end)
    ensures Inv(c, end) && |steps| <= Work(c, s) - Work(c, end)
    decreases |steps|
  {
    if steps != [] {
      StepKeeps(c, s, steps[0]);
      StepWorks(c, s, steps[0]);
      hide Inv, Work, Enabled, Apply;
      RunKeeps(c, Apply(c, s, steps[0]), steps[1..], end);
    }
  }

  lemma {:induction false} TextsGrow(c: Config, k: nat, m: nat)
    requires k <= m
    ensures Texts(c, k) <= Texts(c, m)
    decreases m - k
  {
    if k < m { TextsGrow(c, k, m - 1); }
  }

  /**
    * Over every interleaving, with the user, the input or the output breaking the run off at any point: the output is
    * the front of the items' texts in their order; the permits held are the files queued or at the flusher and at most
    * one at the reader, never more than sixteen; no run is longer than a bound fixed at the start; a run that cannot go
    * on by itself has stopped everything; and unless it was broken off it has then written every item.
    */
  lemma EveryRun(c: Config, steps: seq<Action>, end: State)
    requires Sensible(c) && Run(c, Start(c), steps, end)
    ensures end.output <= Texts(c, c.items)
    ensures end.permits == Diffs(c, end.flushed, end.sent) + ReaderHolds(end) <= PERMITS && ReaderHolds(end) <= 1
    ensures |steps| <= Work(c, Start(c))
    ensures !CanMove(c, end) ==> Stopped(end)
    ensures Stopped(end) && !end.broken ==> end.output == Texts(c, c.items) && end.permits == 0
  {
    hide Inv, Work, Run, Enabled, Apply, Texts, Range, Diffs;
    StartInv(c);
    RunKeeps(c, Start(c), steps, end);
    if !Stopped(end) { NeverStuck(c, end); }
    EndFacts(c, end);
  }

  lemma EndFacts(c: Config, s: State)
    requires Inv(c, s)
    ensures s.output <= Texts(c, c.items)
    ensures s.permits == Diffs(c, s.flushed, s.sent) + ReaderHolds(s) <= PERMITS
    ensures Stopped(s) && !s.broken ==> s.output == Texts(c, c.items) && s.permits == 0
    ensures 0 <= Work(c, s)
  {
    hide JobsOk, WorkersOk, Range;
    WorkPositive(c, s);
    var k := s.flushed + if s.flusher.Releasing? then 1 else 0;
    TextsGrow(c, k, c.items);
    if s.flusher == Finished {
      var n: nat :| Torn(c, s, n);
      if n > 0 { TextsGrow(c, s.flushed + 1, c.items); }
    }
  }

  /** What the flusher writes for the items of a reader when every file is passed on as its own raw lines. */
  function Unchanged(queue: seq<R.Item>, workers: nat): Config {
    Config(|queue|, (k: nat) => k < |queue| && queue[k].Diff?,
           (k: nat) => if k < |queue| then R.Expand(queue[k]) else "", workers)
  }

  lemma {:induction false} TextsExpand(queue: seq<R.Item>, workers: nat, k: nat)
    requires k <= |queue|
    ensures Texts(Unchanged(queue, workers), k) == R.ExpandAll(queue[..k])
  {
    if k > 0 {
      TextsExpand(queue, workers, k - 1);
      R.ExpandPush(queue[..k - 1], queue[k - 1]);
      assert queue[..k] == queue[..k - 1] + [queue[k - 1]];
    }
  }

  /** The run from the start by these steps ends in end with nothing left to do, and was not broken off. */
  ghost predicate RunsOut(c: Config, steps: seq<Action>, end: State) {
    Run(c, Start(c), steps, end) && Stopped(end) && !end.broken
  }

  /** With nothing rendered, a run that has stopped has written the items, byte for byte, whatever the workers did. */
  lemma UnchangedIsInput(queue: seq<R.Item>, workers: nat, steps: seq<Action>, end: State)
    requires 0 < workers && RunsOut(Unchanged(queue, workers), steps, end)
    ensures end.output == R.ExpandAll(queue)
  {
    EveryRun(Unchanged(queue, workers), steps, end);
    TextsExpand(queue, workers, |queue|);
    assert queue[..|queue|] == queue;
  }

  /** From the lines of the input to the output: read, and then run in any order with any number of workers. */
  method Stream(reader: R.Reader, lines: seq<string>)
    requires reader.buf == "" && reader.queue == [] && reader.current == None && reader.asked == 0
    modifies reader
    ensures forall workers: nat, steps, end :: 0 < workers && RunsOut(Unchanged(reader.queue, workers), steps, end) ==>
              end.output == R.Concat(lines)
  {
    reader.Read(lines);
    forall workers: nat, steps, end | 0 < workers && RunsOut(Unchanged(reader.queue, workers), steps, end)
      ensures end.output == R.Concat(lines)
    {
      UnchangedIsInput(reader.queue, workers, steps, end);
    }
  }
}
