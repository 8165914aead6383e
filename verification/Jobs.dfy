/** server/job.go: rows of the three job tables, and the queue operations run one at a
    time. JobProtocol.dfy interleaves the same steps. */
module Jobs {
  import opened Bytes
  import opened Flake
  import opened Keys
  import opened Messages
  import opened Storage

  // ---------------------------------------------------------------- rows

  function FeedAt(id: Id): seq<byte> {
    FlakeKey(TABLE_JOB_FEED, id).Bytes()
  }

  function RunAt(id: Id): seq<byte> {
    FlakeKey(TABLE_JOB_RUNNING, id).Bytes()
  }

  function HistoryAt(target: text): seq<byte> {
    MetaKey(TABLE_JOB_HISTORY, target).Bytes()
  }

  function FeedName(id: Id): text {
    FlakeKey(TABLE_JOB_FEED, id).String()
  }

  function RunName(id: Id): text {
    FlakeKey(TABLE_JOB_RUNNING, id).String()
  }

  /** What every delete trusts: the row a job's key field names. */
  function Named(job: FeedJob): seq<byte> {
    DecodeHex(job.key).bytes
  }

  predicate InFeed(k: seq<byte>) {
    Table(TABLE_JOB_FEED).Bytes() <= k
  }

  predicate InRunning(k: seq<byte>) {
    Table(TABLE_JOB_RUNNING).Bytes() <= k
  }

  predicate InHistory(k: seq<byte>) {
    Table(TABLE_JOB_HISTORY).Bytes() <= k
  }

  lemma FeedKeyFacts(a: Id)
    ensures InFeed(FeedAt(a)) && !InRunning(FeedAt(a)) && !InHistory(FeedAt(a))
    ensures DecodeHex(FeedName(a)).bytes == FeedAt(a)
  {
    var k := FlakeKey(TABLE_JOB_FEED, a);
    TablePrefix(TABLE_JOB_FEED, k);
    TablePrefix(TABLE_JOB_RUNNING, k);
    TablePrefix(TABLE_JOB_HISTORY, k);
    StringDecodes(k);
  }

  lemma {:induction false} RunKeyFacts(a: Id)
    ensures !InFeed(RunAt(a)) && InRunning(RunAt(a)) && !InHistory(RunAt(a))
    ensures DecodeHex(RunName(a)).bytes == RunAt(a)
  {
    var k := FlakeKey(TABLE_JOB_RUNNING, a);
    TablePrefix(TABLE_JOB_FEED, k);
    TablePrefix(TABLE_JOB_RUNNING, k);
    TablePrefix(TABLE_JOB_HISTORY, k);
    StringDecodes(k);
  }

  lemma HistoryKeyFacts(t: text)
    ensures !InFeed(HistoryAt(t)) && !InRunning(HistoryAt(t)) && InHistory(HistoryAt(t))
  {
    var k := MetaKey(TABLE_JOB_HISTORY, t);
    TablePrefix(TABLE_JOB_FEED, k);
    TablePrefix(TABLE_JOB_RUNNING, k);
    TablePrefix(TABLE_JOB_HISTORY, k);
  }

  /** A key lies in one table only. */
  lemma OneTableEach(k: seq<byte>)
    ensures InFeed(k) ==> !InHistory(k) && !InRunning(k)
    ensures InRunning(k) ==> !InHistory(k)
  {
    TableBytes(TABLE_JOB_FEED, TABLE_JOB_HISTORY);
    TableBytes(TABLE_JOB_FEED, TABLE_JOB_RUNNING);
    TableBytes(TABLE_JOB_RUNNING, TABLE_JOB_HISTORY);
  }

  lemma FeedAtOrder(a: Id, b: Id)
    ensures FeedAt(a) == FeedAt(b) <==> a == b
    ensures LexLess(FeedAt(a), FeedAt(b)) <==> LexLess(a, b)
  {
    if FeedAt(a) == FeedAt(b) {
      BytesInjective(FlakeKey(TABLE_JOB_FEED, a), FlakeKey(TABLE_JOB_FEED, b));
    }
    FlakeKeyOrder(TABLE_JOB_FEED, a, b);
  }

  lemma RunAtInjective(a: Id, b: Id)
    ensures RunAt(a) == RunAt(b) <==> a == b
  {
    if RunAt(a) == RunAt(b) {
      BytesInjective(FlakeKey(TABLE_JOB_RUNNING, a), FlakeKey(TABLE_JOB_RUNNING, b));
    }
  }

  // ------------------------------------------------------------- messages

  function Enqueued(job: FeedJob, id: Id, now: int): FeedJob {
    job.(key := FeedName(id), created := now, updated := now)
  }

  function Started(job: FeedJob, worker: text, id: Id, now: int): FeedJob {
    job.(key := RunName(id), worker := worker, created := now, updated := now)
  }

  function Finished(job: FeedJob, now: int): FeedJob {
    job.(key := MetaKey(TABLE_JOB_HISTORY, job.targetId).String(), status := Lit("done"), updated := now)
  }

  const EMPTY_JOB := FeedJob([], [], [], [], [], [], 0, 0, 0, [])

  /** The rows after FinishJob: it deletes whatever row the job names and marks its target as
      archived. */
  function FinishRows(rows: Rows, job: FeedJob, now: int): Rows {
    (rows - {Named(job)})[HistoryAt(job.targetId) := JobRow(Finished(job, now))]
  }

  lemma HistoryAtInjective(s: text, t: text)
    ensures HistoryAt(s) == HistoryAt(t) <==> s == t
  {
    if HistoryAt(s) == HistoryAt(t) {
      BytesInjective(MetaKey(TABLE_JOB_HISTORY, s), MetaKey(TABLE_JOB_HISTORY, t));
    }
  }

  /** Finishing a job as FinishJob returned it names the history row of the target whose
      name is the decoded hex of its own: its own only when it has no name. */
  lemma ReturnedJobNames(job: FeedJob, now: int)
    ensures Named(Finished(job, now)) == HistoryAt(DecodeHex(job.targetId).bytes)
    ensures Named(Finished(job, now)) == HistoryAt(job.targetId) <==> job.targetId == []
  {
    StringDecodes(MetaKey(TABLE_JOB_HISTORY, job.targetId));
  }

  /** Finishing a job a second time, as the first call returned it: another target is no
      longer marked as archived exactly when its name is the decoded hex of the job's target;
      the job's own target stays marked. */
  lemma FinishingAgainLoses(rows: Rows, job: FeedJob, now: int, now': int, other: text)
    requires other != job.targetId && HistoryAt(other) in FinishRows(rows, job, now)
    ensures var again := FinishRows(FinishRows(rows, job, now), Finished(job, now), now');
            && HistoryAt(job.targetId) in again
            && (HistoryAt(other) !in again <==> other == DecodeHex(job.targetId).bytes)
  {
    hide HistoryAt, DecodeHex;
    ReturnedJobNames(job, now);
    HistoryAtInjective(other, job.targetId);
    HistoryAtInjective(other, DecodeHex(job.targetId).bytes);
  }

  /** Such targets exist: "6162" is the hex of "ab". */
  lemma FinishingAgainLosesAb(rows: Rows, job: FeedJob, now: int, now': int)
    requires job.targetId == Lit("6162") && HistoryAt(Lit("ab")) in FinishRows(rows, job, now)
    ensures HistoryAt(Lit("ab")) !in FinishRows(FinishRows(rows, job, now), Finished(job, now), now')
  {
    hide HistoryAt, FinishRows, Finished;
    assert EncodeHex([97, 98]) == Lit("6162") && Lit("ab") == [97, 98];
    HexRoundTrip([97, 98]);
    FinishingAgainLoses(rows, job, now, now', Lit("ab"));
  }

  // ---------------------------------------------------------------- clock

  /** NextId's retrying ends: some reading is not behind the generator. */
  predicate Returns(g: GenState, clock: seq<Time>) {
    Retry(g, clock).1.Some?
  }

  /** It ends with an id larger than the last one. */
  predicate Answers(g: GenState, clock: seq<Time>)
    decreases clock
  {
    clock != [] && if Accepts(g, clock[0]) then CanIssue(g, clock[0]) else Answers(g, clock[1..])
  }

  lemma {:induction false} AnswersNewId(g: GenState, clock: seq<Time>)
    requires Answers(g, clock)
    ensures var (h, id) := Retry(g, clock);
            && id.Some? && Used(h, id.value)
            && forall x: Id :: Used(g, x) ==> Used(h, x) && LexLess(x, id.value)
    decreases clock
  {
    hide LexLess, Used, LastId;
    if Accepts(g, clock[0]) {
      NewId(g, clock[0]);
    } else {
      AnswersNewId(g, clock[1..]);
    }
  }

  // ------------------------------------------------------------ the queue

  /** Every pending row holds a job that names its own row. */
  ghost predicate WellNamed(rows: Rows) {
    forall k :: k in rows && InFeed(k) ==> rows[k].JobRow? && Named(rows[k].job) == k
  }

  /** The keys of the pending table, in scan order. */
  function PendingKeys(rows: Rows): (ks: seq<seq<byte>>)
    ensures forall k :: k in ks <==> k in rows && InFeed(k)
  {
    KeysUnder(rows, Table(TABLE_JOB_FEED).Bytes())
  }

  function JobAt(rows: Rows, k: seq<byte>): FeedJob {
    if k in rows && rows[k].JobRow? then rows[k].job else EMPTY_JOB
  }

  function JobsAt(rows: Rows, ks: seq<seq<byte>>): (jobs: seq<FeedJob>)
    ensures |jobs| == |ks|
  {
    seq(|ks|, i requires 0 <= i < |ks| => JobAt(rows, ks[i]))
  }

  /** The pending jobs, oldest id first. */
  function QueueOf(rows: Rows): (queue: seq<FeedJob>)
    ensures |queue| == |PendingKeys(rows)|
  {
    JobsAt(rows, PendingKeys(rows))
  }

  /** Every key of the table was made with an id up to the generator's last one. */
  ghost predicate IssuedIn(table: PrefixTable, g: GenState, rows: Rows) {
    forall k :: k in rows && Table(table).Bytes() <= k ==> IsIssued(table, g, k)
  }

  ghost predicate IsIssued(table: PrefixTable, g: GenState, k: seq<byte>) {
    exists id: Id :: k == FlakeKey(table, id).Bytes() && Used(g, id)
  }

  /** Every pending key sorts before the key. */
  ghost predicate AllBefore(rows: Rows, k: seq<byte>) {
    forall x :: x in rows && InFeed(x) ==> LexLess(x, k)
  }

  /** dequeJob's callback: keep the first row and stop. */
  function TakeFirst(): Callback<Option<FeedJob>> {
    (i: nat, k: seq<byte>, v: Value, job: Option<FeedJob>) =>
      match v
      case JobRow(j) => (Some(j), Stop)
      case _ => (Some(EMPTY_JOB), Fail(Lit("unmarshal")))
  }

  /** The store may hold rows of an earlier process, whose ids came from another generator. */
  class JobServer {
    const mdb: Store

    ghost predicate Valid()
      reads mdb
    {
      WellNamed(mdb.rows)
    }

    ghost function Queue(): seq<FeedJob>
      reads mdb
    {
      QueueOf(mdb.rows)
    }

    constructor (mdb: Store)
      requires WellNamed(mdb.rows)
      ensures Valid() && this.mdb == mdb
    {
      this.mdb := mdb;
    }

    /** Stores the job under a new key, which puts it last exactly when that key sorts
        behind all pending ones, as it does for an id larger than theirs. */
    method EnqJob(job: FeedJob, clock: seq<Time>, now: int) returns (r: FeedJob)
      requires Valid() && Returns(mdb.idGen.State(), clock)
      modifies mdb, mdb.idGen
      ensures Valid()
      ensures var (h, id) := Retry(old(mdb.idGen.State()), clock);
              && mdb.idGen.State() == h && r == Enqueued(job, id.value, now)
              && r.key == FlakeKey(TABLE_JOB_FEED, id.value).String() && Named(r) == FeedAt(id.value)
      ensures r == job.(key := r.key, created := now, updated := now)
      ensures mdb.rows == old(mdb.rows)[Named(r) := JobRow(r)]
      ensures Queue() == old(Queue()) + [r] <==> AllBefore(old(mdb.rows), Named(r))
      ensures var g := old(mdb.idGen.State());
              Answers(g, clock) && IssuedIn(TABLE_JOB_FEED, g, old(mdb.rows)) ==>
                && AllBefore(old(mdb.rows), Named(r)) && Named(r) !in old(mdb.rows)
                && IssuedIn(TABLE_JOB_FEED, mdb.idGen.State(), mdb.rows)
    {
      hide WellNamed, QueueOf, IssuedIn, AllBefore, Answers, DecodeHex, InFeed, Key.Bytes;
      ghost var g := mdb.idGen.State();
      var id := mdb.NextId(clock);
      var key := FlakeKey(TABLE_JOB_FEED, id.value);
      r := job.(key := key.String(), created := now, updated := now);
      FeedKeyFacts(id.value);
      assert key.String() == FeedName(id.value) && key.Bytes() == FeedAt(id.value);
      QueuePut(mdb.rows, key.Bytes(), r);
      if Answers(g, clock) && IssuedIn(TABLE_JOB_FEED, g, mdb.rows) {
        AnswersNewId(g, clock);
        NewKeyIsLast(mdb.rows, g, mdb.idGen.State(), id.value);
        IssuedPut(TABLE_JOB_FEED, mdb.rows, g, mdb.idGen.State(), id.value, JobRow(r));
      }
      mdb.Put(key.Bytes(), JobRow(r));
    }

    /** Runs under the server lock. The id taken before the scan is thrown away. */
    method DequeJob(clock: seq<Time>) returns (r: Option<FeedJob>)
      requires Valid() && Returns(mdb.idGen.State(), clock)
      modifies mdb, mdb.idGen
      ensures Valid()
      ensures mdb.idGen.State() == Retry(old(mdb.idGen.State()), clock).0
      ensures old(Queue()) == [] ==> r == None && mdb.rows == old(mdb.rows)
      ensures old(Queue()) != [] ==> && r == Some(old(Queue())[0]) && Queue() == old(Queue())[1..]
                                     && Named(r.value) in old(mdb.rows) && InFeed(Named(r.value))
                                     && mdb.rows == old(mdb.rows) - {Named(r.value)}
    {
      hide WellNamed, QueueOf, DecodeHex, InFeed, Key.Bytes, Retry;
      var id := mdb.NextId(clock);
      var key := FlakeKey(TABLE_JOB_FEED, id.value);
      var n, err, job := ForwardTableScan(mdb, key.Prefix(), TakeFirst(), None);
      QueueHead(mdb.rows);
      if job == None {
        return None;
      }
      mdb.Delete(DecodeHex(job.value.key).bytes);
      return job;
    }

    /** Moves the oldest job to the running table, where it overwrites no row unless the
        generator repeats an id. */
    method GetFeedJob(worker: text, clock: seq<Time>, clock': seq<Time>, now: int) returns (r: Option<FeedJob>)
      requires Valid() && Returns(mdb.idGen.State(), clock) && Returns(Retry(mdb.idGen.State(), clock).0, clock')
      modifies mdb, mdb.idGen
      ensures Valid()
      ensures old(Queue()) == [] ==> r == None && mdb.rows == old(mdb.rows)
      ensures old(Queue()) != [] ==>
                var head := old(Queue())[0];
                var (h, id) := Retry(Retry(old(mdb.idGen.State()), clock).0, clock');
                && Queue() == old(Queue())[1..]
                && mdb.idGen.State() == h
                && r == Some(Started(head, worker, id.value, now))
                && r.value.key == FlakeKey(TABLE_JOB_RUNNING, id.value).String()
                && r.value == head.(key := r.value.key, worker := worker, created := now, updated := now)
                && InRunning(Named(r.value)) && Named(r.value) == RunAt(id.value)
                && mdb.rows == (old(mdb.rows) - {Named(head)})[Named(r.value) := JobRow(r.value)]
      ensures var g := old(mdb.idGen.State());
              && r.Some? && Answers(g, clock) && Answers(Retry(g, clock).0, clock')
              && IssuedIn(TABLE_JOB_RUNNING, g, old(mdb.rows)) ==>
                Named(r.value) !in old(mdb.rows) && IssuedIn(TABLE_JOB_RUNNING, mdb.idGen.State(), mdb.rows)
    {
      hide WellNamed, QueueOf, IssuedIn, Answers, DecodeHex, InFeed, InRunning, Key.Bytes, Retry;
      ghost var g := mdb.idGen.State();
      var job := DequeJob(clock);
      if job == None {
        return None;
      }
      ghost var g' := mdb.idGen.State();
      var id := mdb.NextId(clock');
      var key := FlakeKey(TABLE_JOB_RUNNING, id.value);
      var started := job.value.(key := key.String(), worker := worker, created := now, updated := now);
      RunKeyFacts(id.value);
      assert key.String() == RunName(id.value) && key.Bytes() == RunAt(id.value);
      QueueElsewhere(mdb.rows, key.Bytes(), JobRow(started));
      if Answers(g, clock) && Answers(g', clock') && IssuedIn(TABLE_JOB_RUNNING, g, old(mdb.rows)) {
        AnswersNewId(g, clock);
        AnswersNewId(g', clock');
        NewKeyIsNew(TABLE_JOB_RUNNING, old(mdb.rows), g, id.value);
        IssuedWithout(TABLE_JOB_RUNNING, old(mdb.rows), Named(job.value), g);
        IssuedPut(TABLE_JOB_RUNNING, mdb.rows, g, mdb.idGen.State(), id.value, JobRow(started));
      }
      mdb.Put(key.Bytes(), JobRow(started));
      return Some(started);
    }

    /** Deletes whatever row the job names and records its target as archived. A job as
        handed out names no pending row; one that does name a pending row takes that job,
        and only that one, out of the queue. */
    method FinishJob(job: FeedJob, now: int) returns (r: FeedJob)
      requires Valid()
      modifies mdb
      ensures Valid()
      ensures r.key == MetaKey(TABLE_JOB_HISTORY, job.targetId).String()
      ensures r == job.(key := r.key, status := Lit("done"), updated := now)
      ensures mdb.rows == (old(mdb.rows) - {Named(job)})[HistoryAt(job.targetId) := JobRow(r)]
      ensures r == Finished(job, now) && mdb.rows == FinishRows(old(mdb.rows), job, now)
      ensures var queue := old(Queue());
              && ((forall i :: 0 <= i < |queue| ==> Named(queue[i]) != Named(job)) ==> Queue() == queue)
              && (forall i :: 0 <= i < |queue| && Named(queue[i]) == Named(job) ==>
                    Queue() == queue[..i] + queue[i + 1..])
    {
      hide WellNamed, QueueOf, DecodeHex, InFeed;
      var kb := DecodeHex(job.key).bytes;
      mdb.Delete(kb);
      QueueDelete(old(mdb.rows), kb);
      var key := MetaKey(TABLE_JOB_HISTORY, job.targetId);
      r := job.(key := key.String(), status := Lit("done"), updated := now);
      HistoryKeyFacts(job.targetId);
      QueueElsewhere(mdb.rows, key.Bytes(), JobRow(r));
      mdb.Put(key.Bytes(), JobRow(r));
    }
  }

  lemma QueueAt(rows: Rows, i: nat)
    requires WellNamed(rows) && i < |QueueOf(rows)|
    ensures PendingKeys(rows)[i] in rows && Named(QueueOf(rows)[i]) == PendingKeys(rows)[i]
    ensures rows[PendingKeys(rows)[i]] == JobRow(QueueOf(rows)[i])
  {
    hide DecodeHex, InFeed, PendingKeys;
    assert PendingKeys(rows)[i] in PendingKeys(rows);
  }

  /** The queue is sorted by the keys its jobs name. */
  lemma QueueSorted(rows: Rows, i: nat, j: nat)
    requires WellNamed(rows) && i < j < |QueueOf(rows)|
    ensures LexLess(Named(QueueOf(rows)[i]), Named(QueueOf(rows)[j]))
  {
    hide DecodeHex, WellNamed, LexLess, QueueOf;
    QueueAt(rows, i);
    QueueAt(rows, j);
    KeysUnderSorted(rows, Table(TABLE_JOB_FEED).Bytes());
  }

  /** Storing a job that names its key appends it exactly when its key sorts last. */
  lemma {:induction false} QueuePut(rows: Rows, k: seq<byte>, job: FeedJob)
    requires WellNamed(rows) && InFeed(k) && Named(job) == k
    ensures WellNamed(rows[k := JobRow(job)])
    ensures QueueOf(rows[k := JobRow(job)]) == QueueOf(rows) + [job] <==> AllBefore(rows, k)
  {
    hide DecodeHex, LexLess, QueueOf, PendingKeys;
    if AllBefore(rows, k) {
      QueueAppend(rows, k, job);
    }
    var rows', n := rows[k := JobRow(job)], |QueueOf(rows)|;
    if QueueOf(rows') == QueueOf(rows) + [job] {
      forall x | x in rows && InFeed(x) ensures LexLess(x, k) {
        var i :| 0 <= i < n && PendingKeys(rows)[i] == x;
        QueueAt(rows, i);
        QueueSorted(rows', i, n);
      }
    }
  }

  lemma {:induction false} QueueAppend(rows: Rows, k: seq<byte>, job: FeedJob)
    requires InFeed(k) && AllBefore(rows, k)
    ensures QueueOf(rows[k := JobRow(job)]) == QueueOf(rows) + [job]
  {
    hide LexLess, JobAt, KeysUnder;
    var ks, rows' := PendingKeys(rows), rows[k := JobRow(job)];
    LexTrichotomy(k, k);
    KeysUnderAppend(rows, Table(TABLE_JOB_FEED).Bytes(), k, JobRow(job));
    JobsAtSame(rows, rows', ks);
    JobPut(rows, k, job);
  }

  lemma JobsAtSame(rows: Rows, rows': Rows, ks: seq<seq<byte>>)
    requires forall k :: k in ks ==> (k in rows <==> k in rows') && (k in rows ==> rows[k] == rows'[k])
    ensures JobsAt(rows, ks) == JobsAt(rows', ks)
  {
    assert forall i :: 0 <= i < |ks| ==> ks[i] in ks;
  }

  lemma JobPut(rows: Rows, k: seq<byte>, job: FeedJob)
    ensures JobAt(rows[k := JobRow(job)], k) == job
  {
  }

  lemma {:induction false} QueueElsewhere(rows: Rows, k: seq<byte>, v: Value)
    requires !InFeed(k)
    ensures QueueOf(rows[k := v]) == QueueOf(rows)
    ensures WellNamed(rows) ==> WellNamed(rows[k := v])
  {
    hide DecodeHex, JobsAt;
    KeysUnderSame(rows, rows[k := v], Table(TABLE_JOB_FEED).Bytes());
    JobsAtSame(rows, rows[k := v], PendingKeys(rows));
  }

  lemma {:induction false} QueueRemoveAt(rows: Rows, i: nat)
    requires WellNamed(rows) && i < |QueueOf(rows)|
    ensures QueueOf(rows - {Named(QueueOf(rows)[i])}) == QueueOf(rows)[..i] + QueueOf(rows)[i + 1..]
  {
    hide DecodeHex, WellNamed, KeysUnder, JobAt;
    var ks := PendingKeys(rows);
    QueueAt(rows, i);
    KeysUnderRemove(rows, Table(TABLE_JOB_FEED).Bytes(), i);
    JobsAtSame(rows, rows - {ks[i]}, PendingKeys(rows - {ks[i]}));
  }

  /** Deleting a row takes the job that names it, if one does, out of the queue. */
  lemma {:induction false} QueueDelete(rows: Rows, k: seq<byte>)
    requires WellNamed(rows)
    ensures WellNamed(rows - {k})
    ensures var queue := QueueOf(rows);
            && ((forall i :: 0 <= i < |queue| ==> Named(queue[i]) != k) ==> QueueOf(rows - {k}) == queue)
            && (forall i :: 0 <= i < |queue| && Named(queue[i]) == k ==>
                  QueueOf(rows - {k}) == queue[..i] + queue[i + 1..])
  {
    hide DecodeHex, QueueOf, InFeed;
    var queue := QueueOf(rows);
    if forall i :: 0 <= i < |queue| ==> Named(queue[i]) != k {
      QueueWithout(rows, k);
    }
    forall i | 0 <= i < |queue| && Named(queue[i]) == k ensures QueueOf(rows - {k}) == queue[..i] + queue[i + 1..] {
      QueueRemoveAt(rows, i);
    }
  }

  lemma {:induction false} QueueWithout(rows: Rows, k: seq<byte>)
    requires WellNamed(rows) && forall i :: 0 <= i < |QueueOf(rows)| ==> Named(QueueOf(rows)[i]) != k
    ensures QueueOf(rows - {k}) == QueueOf(rows)
  {
    hide DecodeHex, WellNamed, KeysUnder, JobsAt, InFeed;
    var ks := PendingKeys(rows);
    forall i | 0 <= i < |ks| ensures ks[i] != k {
      QueueAt(rows, i);
    }
    assert k !in ks;
    SameWithout(rows, k);
    JobsAtSame(rows, rows - {k}, ks);
  }

  lemma SameWithout(rows: Rows, k: seq<byte>)
    requires k !in PendingKeys(rows)
    ensures PendingKeys(rows - {k}) == PendingKeys(rows)
  {
    KeysUnderSame(rows, rows - {k}, Table(TABLE_JOB_FEED).Bytes());
  }

  /** The scan yields the head of the queue; deleting its row leaves the tail. */
  lemma {:induction false} QueueHead(rows: Rows)
    requires WellNamed(rows)
    ensures var queue := QueueOf(rows);
            var r := Fold(TakeFirst(), rows, KeysUnder(rows, Table(TABLE_JOB_FEED).Bytes()), 0, None);
            && r.state == (if queue == [] then None else Some(queue[0]))
            && (queue != [] ==> && Named(queue[0]) in rows && InFeed(Named(queue[0]))
                                && WellNamed(rows - {Named(queue[0])})
                                && QueueOf(rows - {Named(queue[0])}) == queue[1..])
  {
    hide DecodeHex, KeysUnder;
    var queue := QueueOf(rows);
    if queue != [] {
      QueueAt(rows, 0);
      QueueRemoveAt(rows, 0);
      assert PendingKeys(rows)[0] in PendingKeys(rows);
    }
  }

  // ---------------------------------------------- ids and stored rows

  lemma {:induction false} NewKeyIsLast(rows: Rows, g: GenState, h: GenState, id: Id)
    requires IssuedIn(TABLE_JOB_FEED, g, rows) && forall x: Id :: Used(g, x) ==> LexLess(x, id)
    ensures AllBefore(rows, FeedAt(id)) && FeedAt(id) !in rows
  {
    hide LexLess, Used, Key.Bytes;
    FeedKeyFacts(id);
    LexTrichotomy(FeedAt(id), FeedAt(id));
    forall k | k in rows && InFeed(k) ensures LexLess(k, FeedAt(id)) {
      assert IsIssued(TABLE_JOB_FEED, g, k);
      var x: Id :| k == FlakeKey(TABLE_JOB_FEED, x).Bytes() && Used(g, x);
      assert k == FeedAt(x);
      FeedAtOrder(x, id);
    }
  }

  lemma {:induction false} NewKeyIsNew(table: PrefixTable, rows: Rows, g: GenState, id: Id)
    requires IssuedIn(table, g, rows) && forall x: Id :: Used(g, x) ==> LexLess(x, id)
    ensures FlakeKey(table, id).Bytes() !in rows
  {
    hide LexLess, Used;
    var k := FlakeKey(table, id).Bytes();
    TablePrefix(table, FlakeKey(table, id));
    if k in rows {
      assert IsIssued(table, g, k);
      var x: Id :| k == FlakeKey(table, x).Bytes() && Used(g, x);
      BytesInjective(FlakeKey(table, x), FlakeKey(table, id));
      LexTrichotomy(id, id);
    }
  }

  lemma IssuedWithout(table: PrefixTable, rows: Rows, k: seq<byte>, g: GenState)
    requires IssuedIn(table, g, rows)
    ensures IssuedIn(table, g, rows - {k})
  {
    hide IsIssued;
  }

  lemma {:induction false} IssuedPut(table: PrefixTable, rows: Rows, g: GenState, h: GenState, id: Id, v: Value)
    requires IssuedIn(table, g, rows) && Used(h, id) && forall x: Id :: Used(g, x) ==> Used(h, x)
    ensures IssuedIn(table, h, rows[FlakeKey(table, id).Bytes() := v])
  {
    hide Used, Key.Bytes;
    var rows' := rows[FlakeKey(table, id).Bytes() := v];
    forall k | k in rows' && Table(table).Bytes() <= k ensures IsIssued(table, h, k) {
      if k != FlakeKey(table, id).Bytes() {
        assert IsIssued(table, g, k);
      }
    }
  }

  // -------------------------------------------------- a new process

  /** The rows after enqueueing the jobs one after the other under the ids. */
  function EnqueueAll(rows: Rows, ids: seq<Id>, jobs: seq<FeedJob>, now: int): Rows
    requires |ids| == |jobs|
  {
    if ids == [] then rows
    else
      var n := |ids| - 1;
      EnqueueAll(rows, ids[..n], jobs[..n], now)[FeedAt(ids[n]) := JobRow(Enqueued(jobs[n], ids[n], now))]
  }

  function EnqueuedJobs(ids: seq<Id>, jobs: seq<FeedJob>, now: int): seq<FeedJob>
    requires |ids| == |jobs|
  {
    seq(|ids|, i requires 0 <= i < |ids| => Enqueued(jobs[i], ids[i], now))
  }

  /** The first new id sorts behind every pending one. */
  ghost predicate StartsAfter(rows: Rows, ids: seq<Id>) {
    ids != [] ==> AllBefore(rows, FeedAt(ids[0]))
  }

  /** Over rows already stored, jobs are queued behind the old ones, in order and each on its
      own row, exactly when the ids increase and the first one is larger than all stored. */
  lemma {:induction false} EnqueueAllKeepsOrder(rows: Rows, ids: seq<Id>, jobs: seq<FeedJob>, now: int)
    requires WellNamed(rows) && |ids| == |jobs|
    ensures WellNamed(EnqueueAll(rows, ids, jobs, now))
    ensures QueueOf(EnqueueAll(rows, ids, jobs, now)) == QueueOf(rows) + EnqueuedJobs(ids, jobs, now)
       <==> Increasing(ids) && StartsAfter(rows, ids)
  {
    hide FeedAt, DecodeHex, LexLess, QueueOf, FeedName;
    EnqueuesWellNamed(rows, ids, jobs, now);
    if Increasing(ids) && StartsAfter(rows, ids) {
      EnqueuesAppend(rows, ids, jobs, now);
    }
    if QueueOf(EnqueueAll(rows, ids, jobs, now)) == QueueOf(rows) + EnqueuedJobs(ids, jobs, now) {
      AppendedIncreases(rows, ids, jobs, now);
    }
  }

  lemma {:induction false} EnqueuesWellNamed(rows: Rows, ids: seq<Id>, jobs: seq<FeedJob>, now: int)
    requires WellNamed(rows) && |ids| == |jobs|
    ensures WellNamed(EnqueueAll(rows, ids, jobs, now))
  {
    hide FeedAt, DecodeHex, FeedName, InFeed;
    if ids != [] {
      var n := |ids| - 1;
      EnqueuesWellNamed(rows, ids[..n], jobs[..n], now);
      FeedKeyFacts(ids[n]);
    }
  }

  /** The pending keys afterwards are the old ones and those of the ids. */
  lemma {:induction false} EnqueuedKeys(rows: Rows, ids: seq<Id>, jobs: seq<FeedJob>, now: int, k: seq<byte>)
    requires |ids| == |jobs|
    ensures k in EnqueueAll(rows, ids, jobs, now) ==> k in rows || exists i :: 0 <= i < |ids| && k == FeedAt(ids[i])
  {
    hide FeedAt, FeedName;
    if ids != [] {
      var n := |ids| - 1;
      EnqueuedKeys(rows, ids[..n], jobs[..n], now, k);
      if i :| 0 <= i < |ids[..n]| && k == FeedAt(ids[..n][i]) {
        assert k == FeedAt(ids[i]);
      }
    }
  }

  lemma {:induction false} EnqueuesAppend(rows: Rows, ids: seq<Id>, jobs: seq<FeedJob>, now: int)
    requires WellNamed(rows) && |ids| == |jobs| && Increasing(ids) && StartsAfter(rows, ids)
    ensures QueueOf(EnqueueAll(rows, ids, jobs, now)) == QueueOf(rows) + EnqueuedJobs(ids, jobs, now)
  {
    hide FeedAt, Named, Enqueued, InFeed, QueueOf, WellNamed, Increasing, StartsAfter, AllBefore, EnqueuedJobs,
         EnqueueAll;
    NothingEnqueued(rows, jobs, now);
    if ids == [] {
      assert QueueOf(rows) + [] == QueueOf(rows);
    } else {
      var n := |ids| - 1;
      var before, job := EnqueueAll(rows, ids[..n], jobs[..n], now), Enqueued(jobs[n], ids[n], now);
      FrontIncreases(rows, ids);
      EnqueuesAppend(rows, ids[..n], jobs[..n], now);
      EnqueuesWellNamed(rows, ids[..n], jobs[..n], now);
      EnqueuesBefore(rows, ids, jobs, now);
      EnqueuedNames(jobs[n], ids[n], now);
      QueuePut(before, FeedAt(ids[n]), job);
      EnqueuedJobsSnoc(rows, ids, jobs, now);
    }
  }

  lemma NothingEnqueued(rows: Rows, jobs: seq<FeedJob>, now: int)
    ensures jobs == [] ==> EnqueuedJobs([], jobs, now) == [] && EnqueueAll(rows, [], jobs, now) == rows
  {
  }

  lemma EnqueuedJobsSnoc(rows: Rows, ids: seq<Id>, jobs: seq<FeedJob>, now: int)
    requires ids != [] && |ids| == |jobs|
    ensures var n := |ids| - 1;
            var job := Enqueued(jobs[n], ids[n], now);
            && EnqueuedJobs(ids, jobs, now) == EnqueuedJobs(ids[..n], jobs[..n], now) + [job]
            && EnqueueAll(rows, ids, jobs, now)
               == EnqueueAll(rows, ids[..n], jobs[..n], now)[FeedAt(ids[n]) := JobRow(job)]
  {
    hide Enqueued, FeedAt;
  }

  lemma EnqueuedNames(job: FeedJob, id: Id, now: int)
    ensures Named(Enqueued(job, id, now)) == FeedAt(id) && InFeed(FeedAt(id))
  {
    hide DecodeHex, FeedAt, FeedName, InFeed;
    FeedKeyFacts(id);
  }

  lemma EnqueuesBefore(rows: Rows, ids: seq<Id>, jobs: seq<FeedJob>, now: int)
    requires ids != [] && |ids| == |jobs| && Increasing(ids) && StartsAfter(rows, ids)
    ensures var n := |ids| - 1; AllBefore(EnqueueAll(rows, ids[..n], jobs[..n], now), FeedAt(ids[n]))
  {
    hide FeedAt, InFeed, LexLess, Increasing, StartsAfter, EnqueueAll;
    var n := |ids| - 1;
    forall k | k in EnqueueAll(rows, ids[..n], jobs[..n], now) && InFeed(k) ensures LexLess(k, FeedAt(ids[n])) {
      EnqueuedKeys(rows, ids[..n], jobs[..n], now, k);
      BeforeLast(rows, ids, k);
    }
  }

  lemma FrontIncreases(rows: Rows, ids: seq<Id>)
    requires ids != [] && Increasing(ids) && StartsAfter(rows, ids)
    ensures Increasing(ids[..|ids| - 1]) && StartsAfter(rows, ids[..|ids| - 1])
  {
    hide LexLess, FeedAt, AllBefore;
  }

  lemma {:induction false} BeforeLast(rows: Rows, ids: seq<Id>, k: seq<byte>)
    requires ids != [] && Increasing(ids) && StartsAfter(rows, ids) && InFeed(k)
    requires var front := ids[..|ids| - 1]; k in rows || exists i :: 0 <= i < |front| && k == FeedAt(front[i])
    ensures LexLess(k, FeedAt(ids[|ids| - 1]))
  {
    hide FeedAt, InFeed, LexLess;
    var n := |ids| - 1;
    if k in rows {
      if n > 0 {
        FeedAtOrder(ids[0], ids[n]);
        LexTransitive(k, FeedAt(ids[0]), FeedAt(ids[n]));
      }
    } else {
      var i :| 0 <= i < |ids[..n]| && k == FeedAt(ids[..n][i]);
      FeedAtOrder(ids[i], ids[n]);
    }
  }

  lemma {:induction false} AppendedIncreases(rows: Rows, ids: seq<Id>, jobs: seq<FeedJob>, now: int)
    requires WellNamed(rows) && |ids| == |jobs|
    requires QueueOf(EnqueueAll(rows, ids, jobs, now)) == QueueOf(rows) + EnqueuedJobs(ids, jobs, now)
    ensures Increasing(ids) && StartsAfter(rows, ids)
  {
    hide FeedAt, DecodeHex, FeedName, InFeed, LexLess, QueueOf, PendingKeys;
    EnqueuesWellNamed(rows, ids, jobs, now);
    var after, m := EnqueueAll(rows, ids, jobs, now), |QueueOf(rows)|;
    forall i | 0 <= i < |ids| ensures Named(QueueOf(after)[m + i]) == FeedAt(ids[i]) {
      FeedKeyFacts(ids[i]);
    }
    forall i, j | 0 <= i < j < |ids| ensures LexLess(ids[i], ids[j]) {
      QueueSorted(after, m + i, m + j);
      FeedAtOrder(ids[i], ids[j]);
    }
    if ids != [] {
      forall k | k in rows && InFeed(k) ensures LexLess(k, FeedAt(ids[0])) {
        var i :| 0 <= i < m && PendingKeys(rows)[i] == k;
        QueueAt(rows, i);
        QueueSorted(after, i, m);
      }
    }
  }

  /** A new process over an old store: its fresh generator queues jobs behind the stored ones,
      in order, exactly when no millisecond yields more than 65536 ids and the first id is
      larger than every pending one. */
  lemma NewProcessKeepsOrder(w: WorkerId, readings: seq<Time>, rows: Rows, jobs: seq<FeedJob>, now: int)
    requires WellNamed(rows) && ZERO_TIME !in readings && |jobs| == |Issue(Fresh(w), readings)|
    ensures var ids := Issue(Fresh(w), readings);
            QueueOf(EnqueueAll(rows, ids, jobs, now)) == QueueOf(rows) + EnqueuedJobs(ids, jobs, now)
            <==> AtMost65536PerStamp(ids) && StartsAfter(rows, ids)
  {
    hide FeedAt, QueueOf, Increasing, AtMost65536PerStamp, StartsAfter, EnqueueAll, EnqueuedJobs;
    IncreasingIffFitsSequence(w, readings);
    EnqueueAllKeepsOrder(rows, Issue(Fresh(w), readings), jobs, now);
  }

  /** It is larger than all ids of earlier milliseconds, whichever worker made them. */
  lemma {:induction false} LaterMillisecondSortsAfter(id: Id, w: WorkerId, ts: Time)
    requires Stamp(id) < Millis(ts)
    ensures LexLess(FeedAt(id), FeedAt(LastId(After(Fresh(w), ts))))
  {
    hide FeedAt, Millis, LexLess, Stamp;
    var h := After(Fresh(w), ts);
    MakeIdStamp(Millis(h.currentTime), w, h.sequence);
    StampDecides(id, LastId(h));
    FeedAtOrder(id, LastId(h));
  }

  // ----------------------------------------------------- queue commands

  /** On the rows of the two job tables the callback deletes the selected ones and goes on. */
  ghost predicate Deletes(fn: Callback<Rows>, sel: Value -> bool, rows: Rows) {
    forall i: nat, k, l: Rows :: k in rows && (InFeed(k) || InRunning(k)) ==>
      fn(i, k, rows[k], l) == (if sel(rows[k]) then l - {k} else l, Continue)
  }

  /** It deletes selected rows only, and may stop with an error. */
  ghost predicate DropsOnly(fn: Callback<Rows>, sel: Value -> bool) {
    forall i: nat, k, v, l: Rows :: fn(i, k, v, l).0 == l || (sel(v) && fn(i, k, v, l).0 == l - {k})
  }

  ghost function Matching(rows: Rows, sel: Value -> bool): set<seq<byte>> {
    set k | k in rows && (InFeed(k) || InRunning(k)) && sel(rows[k])
  }

  /** `rows'` is `rows` without some of the matching rows of the job tables. */
  ghost predicate Thinned(rows: Rows, rows': Rows, sel: Value -> bool) {
    && rows'.Keys <= rows.Keys
    && (forall k :: k in rows' ==> rows'[k] == rows[k])
    && rows.Keys - Matching(rows, sel) <= rows'.Keys
  }

  lemma {:induction false} FoldThins(fn: Callback<Rows>, sel: Value -> bool, all: Rows, rows: Rows,
                                     ks: seq<seq<byte>>, n: nat, live: Rows)
    requires DropsOnly(fn, sel) && Thinned(all, rows, sel) && Thinned(all, live, sel)
    requires n <= |ks| && forall k :: k in ks ==> k in rows && (InFeed(k) || InRunning(k))
    ensures Thinned(all, Fold(fn, rows, ks, n, live).state, sel)
    decreases |ks| - n
  {
    hide InFeed, InRunning;
    if n < |ks| {
      var live' := fn(n, ks[n], rows[ks[n]], live).0;
      assert ks[n] in ks;
      assert live' == live || (sel(rows[ks[n]]) && live' == live - {ks[n]});
      FoldThins(fn, sel, all, rows, ks, n + 1, live');
    }
  }

  lemma BothScans(fn: Callback<Rows>, sel: Value -> bool, rows: Rows, mid: Rows)
    requires Deletes(fn, sel, rows)
    requires mid == rows - Chosen(sel, rows, KeysUnder(rows, Table(TABLE_JOB_FEED).Bytes()))
    ensures var ks := KeysUnder(mid, Table(TABLE_JOB_RUNNING).Bytes());
            Fold(fn, mid, ks, 0, mid) == ScanResult(|ks|, None, rows - Matching(rows, sel))
  {
    hide KeysUnder;
    var ks := KeysUnder(mid, Table(TABLE_JOB_RUNNING).Bytes());
    FoldDeletes(fn, sel, mid, ks, 0, mid);
    assert ks[0..] == ks;
    assert mid - Chosen(sel, mid, ks) == rows - Matching(rows, sel);
  }

  /** Scans the pending and then the running table with a callback that deletes. */
  method DeleteInBoth(mdb: Store, fn: Callback<Rows>, ghost sel: Value -> bool) returns (err: Option<text>)
    requires DropsOnly(fn, sel)
    modifies mdb
    ensures Thinned(old(mdb.rows), mdb.rows, sel)
    ensures Deletes(fn, sel, old(mdb.rows)) ==> err == None && mdb.rows == old(mdb.rows) - Matching(old(mdb.rows), sel)
  {
    hide KeysUnder, Thinned, Matching, DropsOnly;
    ghost var rows := mdb.rows;
    var feed, running := Table(TABLE_JOB_FEED), Table(TABLE_JOB_RUNNING);
    ghost var ks := KeysUnder(rows, feed.Bytes());
    ThinnedReflexive(rows, sel);
    FoldThins(fn, sel, rows, rows, ks, 0, rows);
    if Deletes(fn, sel, rows) {
      FoldDeletes(fn, sel, rows, ks, 0, rows);
      assert ks[0..] == ks;
    }
    var n, e, live := ForwardTableScan(mdb, feed, fn, mdb.rows);
    mdb.rows := live;
    if e.Some? {
      return e;
    }
    FoldThins(fn, sel, rows, live, KeysUnder(live, running.Bytes()), 0, live);
    if Deletes(fn, sel, rows) {
      BothScans(fn, sel, rows, live);
    }
    n, e, live := ForwardTableScan(mdb, running, fn, mdb.rows);
    mdb.rows := live;
    return e;
  }

  lemma ThinnedReflexive(rows: Rows, sel: Value -> bool)
    ensures Thinned(rows, rows, sel)
  {
  }

  /** Deletes every pending and running row and touches no other table. */
  method PurgeJobs(mdb: Store) returns (err: Option<text>)
    modifies mdb
    ensures err == None
    ensures mdb.rows == old(mdb.rows) - (set k | k in old(mdb.rows) && (InFeed(k) || InRunning(k)))
  {
    ghost var rows := mdb.rows;
    ghost var sel := (v: Value) => true;
    err := DeleteInBoth(mdb, (i: nat, k: seq<byte>, v: Value, live: Rows) => (live - {k}, Continue), sel);
    assert Matching(rows, sel) == set k | k in rows && (InFeed(k) || InRunning(k));
  }

  /** Unmarshals the row and deletes it if the job is selected. */
  function DeleteJobs(sel: FeedJob -> bool): Callback<Rows> {
    (i: nat, k: seq<byte>, v: Value, live: Rows) =>
      match v
      case JobRow(job) => (if sel(job) then live - {k} else live, Continue)
      case _ => (live, Fail(Lit("unmarshal")))
  }

  ghost function Selected(rows: Rows, sel: FeedJob -> bool): set<seq<byte>> {
    Matching(rows, (v: Value) => v.JobRow? && sel(v.job))
  }

  predicate AllJobs(rows: Rows) {
    forall k :: k in rows && (InFeed(k) || InRunning(k)) ==> rows[k].JobRow?
  }

  method DeleteSelected(mdb: Store, sel: FeedJob -> bool) returns (err: Option<text>)
    modifies mdb
    ensures Thinned(old(mdb.rows), mdb.rows, (v: Value) => v.JobRow? && sel(v.job))
    ensures AllJobs(old(mdb.rows)) ==> err == None && mdb.rows == old(mdb.rows) - Selected(old(mdb.rows), sel)
  {
    hide Matching, InFeed, InRunning;
    err := DeleteInBoth(mdb, DeleteJobs(sel), (v: Value) => v.JobRow? && sel(v.job));
  }

  /** Deletes the jobs without a remote key. */
  method FixJobs(mdb: Store) returns (err: Option<text>)
    modifies mdb
    ensures Thinned(old(mdb.rows), mdb.rows, (v: Value) => v.JobRow? && v.job.remoteKey == [])
    ensures AllJobs(old(mdb.rows)) ==>
              err == None && mdb.rows == old(mdb.rows) - Selected(old(mdb.rows), (job: FeedJob) => job.remoteKey == [])
  {
    err := DeleteSelected(mdb, (job: FeedJob) => job.remoteKey == []);
  }

  /** Deletes the periodic jobs, which carry a limit of 99. */
  method FixTooMuchJobs(mdb: Store) returns (err: Option<text>)
    modifies mdb
    ensures Thinned(old(mdb.rows), mdb.rows, (v: Value) => v.JobRow? && v.job.maxLimit == 99)
    ensures AllJobs(old(mdb.rows)) ==>
              err == None && mdb.rows == old(mdb.rows) - Selected(old(mdb.rows), (job: FeedJob) => job.maxLimit == 99)
  {
    err := DeleteSelected(mdb, (job: FeedJob) => job.maxLimit == 99);
  }
}
