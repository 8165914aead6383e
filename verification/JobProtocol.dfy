/** The job queue as many clients drive it: EnqueJob, GetFeedJob and FinishJob of
    server/job.go cut into their database steps and interleaved in any order, with the process
    stopping and starting over the same store at any moment. Only GetFeedJob holds the server
    lock; ids come from the one generator of the meta store, a fresh one in each process. */
module JobProtocol {
  import opened Bytes
  import opened Flake
  import opened Messages
  import opened Storage
  import opened Jobs

  /** A job message, and which EnqueJob call it stems from; no step reads `serial`. */
  datatype Tracked = Tracked(job: FeedJob, serial: nat)

  /** A row about to be put. */
  datatype Pair = Pair(key: seq<byte>, t: Tracked)

  /** The GetFeedJob call that holds the lock, by how far it has come. */
  datatype Getter =
    | NoGetter
    | Locked(worker: text)
    | Scanned(worker: text, t: Tracked)
    | Deleted(worker: text, t: Tracked)
    | Restamped(key: seq<byte>, t: Tracked)

  /** Where an enqueued job is; `handout` is its position among the jobs handed out. A job is
      lost when the process stops before its row is put, and dropped when it stops after
      FinishJob deleted its running row. */
  datatype Place =
    | Arriving(call: nat)
    | Pending
    | Held
    | Running(handout: nat)
    | Finishing(handout: nat, call: nat)
    | Done(handout: nat)
    | Dropped(handout: nat)
    | Lost

  datatype State = State(
    gen: GenState,
    rows: map<seq<byte>, Tracked>,  // the three job tables
    enqs: map<nat, Pair>,           // EnqueJob calls that have an id and no row yet
    getter: Getter,
    handed: seq<Tracked>,           // what GetFeedJob returned, oldest first
    fins: map<nat, nat>,            // FinishJob calls between delete and put: which handout they finish
    // bookkeeping per EnqueJob call; no step reads it to choose what it does
    ids: seq<Id>,                   // the id it was given
    place: seq<Place>,
    run: map<nat, Id>)              // the id its job was restamped with

  datatype Step =
    | EnqAlloc(call: nat, job: FeedJob, ts: Time, now: int)
    | EnqPut(call: nat)
    | GetLock(worker: text, ts: Time)
    | GetScan
    | GetDelete
    | GetRestamp(ts: Time, now: int)
    | GetPut
    | FinDelete(call: nat, handout: nat)
    | FinPut(call: nat, now: int)
    | Restart(w: WorkerId)

  function Init(w: WorkerId): State {
    State(Fresh(w), map[], map[], NoGetter, [], map[], [], [], map[])
  }

  function PendingRows(s: State): set<seq<byte>> {
    set k | k in s.rows && InFeed(k)
  }

  /** NextId answers, with an id no job was given before; larger ones need not be, unless the
      order of jobs is at stake. */
  predicate GivesNewId(s: State, ts: Time) {
    && Accepts(s.gen, ts)
    && var id := LastId(After(s.gen, ts));
    id !in s.ids && id !in s.run.Values
  }

  predicate Enabled(s: State, step: Step) {
    match step
    case EnqAlloc(call, _, ts, _) => call !in s.enqs && GivesNewId(s, ts)
    case EnqPut(call) => call in s.enqs
    case GetLock(_, ts) => s.getter.NoGetter? && Accepts(s.gen, ts)
    case GetScan => s.getter.Locked?
    case GetDelete => s.getter.Scanned?
    case GetRestamp(ts, _) => s.getter.Deleted? && GivesNewId(s, ts)
    case GetPut => s.getter.Restamped?
    case FinDelete(call, i) => call !in s.fins && i < |s.handed|
    case FinPut(call, _) => call in s.fins && s.fins[call] < |s.handed|
    case Restart(_) => true
  }

  function Apply(s: State, step: Step): State
    requires Enabled(s, step)
  {
    match step
    case EnqAlloc(call, job, ts, now) => ApplyEnqAlloc(s, call, job, ts, now)
    case EnqPut(call) => ApplyEnqPut(s, call)
    case GetLock(worker, ts) => s.(gen := After(s.gen, ts), getter := Locked(worker))
    case GetScan => ApplyGetScan(s)
    case GetDelete => ApplyGetDelete(s)
    case GetRestamp(ts, now) => ApplyGetRestamp(s, ts, now)
    case GetPut => ApplyGetPut(s)
    case FinDelete(call, i) => ApplyFinDelete(s, call, i)
    case FinPut(call, now) => ApplyFinPut(s, call, now)
    case Restart(w) => ApplyRestart(s, w)
  }

  function Moved(place: seq<Place>, n: nat, p: Place): seq<Place> {
    if n < |place| then place[n := p] else place
  }

  function ApplyEnqAlloc(s: State, call: nat, job: FeedJob, ts: Time, now: int): State
    requires Accepts(s.gen, ts)
  {
    var gen := After(s.gen, ts);
    var t := Tracked(Enqueued(job, LastId(gen), now), |s.ids|);
    s.(gen := gen, enqs := s.enqs[call := Pair(FeedAt(LastId(gen)), t)],
       ids := s.ids + [LastId(gen)], place := s.place + [Arriving(call)])
  }

  function ApplyEnqPut(s: State, call: nat): State
    requires call in s.enqs
  {
    var t := s.enqs[call].t;
    s.(rows := s.rows[s.enqs[call].key := t], enqs := s.enqs - {call}, place := Moved(s.place, t.serial, Pending))
  }

  /** dequeJob's scan: the first row of the pending table, or give up. */
  function ApplyGetScan(s: State): State
    requires s.getter.Locked?
  {
    if PendingRows(s) == {} then s.(getter := NoGetter)
    else s.(getter := Scanned(s.getter.worker, s.rows[Least(PendingRows(s))]))
  }

  function ApplyGetDelete(s: State): State
    requires s.getter.Scanned?
  {
    var t := s.getter.t;
    s.(rows := s.rows - {Named(t.job)}, getter := Deleted(s.getter.worker, t), place := Moved(s.place, t.serial, Held))
  }

  function ApplyGetRestamp(s: State, ts: Time, now: int): State
    requires s.getter.Deleted? && Accepts(s.gen, ts)
  {
    var gen, t := After(s.gen, ts), s.getter.t;
    s.(gen := gen,
       getter := Restamped(RunAt(LastId(gen)), t.(job := Started(t.job, s.getter.worker, LastId(gen), now))),
       run := s.run[t.serial := LastId(gen)])
  }

  function ApplyGetPut(s: State): State
    requires s.getter.Restamped?
  {
    var t := s.getter.t;
    s.(rows := s.rows[s.getter.key := t], getter := NoGetter, handed := s.handed + [t],
       place := Moved(s.place, t.serial, Running(|s.handed|)))
  }

  /** FinishJob is called with a job as it was handed out, any number of times. */
  function ApplyFinDelete(s: State, call: nat, i: nat): State
    requires i < |s.handed|
  {
    var t := s.handed[i];
    s.(rows := s.rows - {Named(t.job)}, fins := s.fins[call := i],
       place := if t.serial < |s.place| && Unattended(s.place[t.serial]) then s.place[t.serial := Finishing(i, call)]
                else s.place)
  }

  function ApplyFinPut(s: State, call: nat, now: int): State
    requires call in s.fins && s.fins[call] < |s.handed|
  {
    var t := s.handed[s.fins[call]];
    s.(rows := s.rows[HistoryAt(t.job.targetId) := t.(job := Finished(t.job, now))],
       fins := s.fins - {call}, place := Moved(s.place, t.serial, Done(s.fins[call])))
  }

  /** Handed out, and no FinishJob call has it. */
  predicate Unattended(p: Place) {
    p.Running? || p.Dropped?
  }

  /** What the end of a process leaves of a job: calls under way are gone, rows stay. */
  function AfterStop(p: Place): Place {
    match p
    case Arriving(_) => Lost
    case Held => Lost
    case Finishing(i, _) => Dropped(i)
    case _ => p
  }

  /** A new process over the same store; workers keep the jobs they were handed. */
  function ApplyRestart(s: State, w: WorkerId): State {
    s.(gen := Fresh(w), enqs := map[], getter := NoGetter, fins := map[],
       place := seq(|s.place|, n requires 0 <= n < |s.place| => AfterStop(s.place[n])))
  }

  // ----------------------------------------------------------- invariant

  ghost predicate IdsInv(ids: seq<Id>, run: map<nat, Id>) {
    && (forall i, j :: 0 <= i < j < |ids| ==> ids[i] != ids[j])
    && (forall m, n :: m in run && n in run && run[m] == run[n] ==> m == n)
  }

  ghost predicate EnqInv(enqs: map<nat, Pair>, place: seq<Place>, ids: seq<Id>) {
    && |ids| == |place|
    && (forall c :: c in enqs ==>
          var t := enqs[c].t;
          && t.serial < |place| && place[t.serial] == Arriving(c)
          && t.job.key == FeedName(ids[t.serial]) && enqs[c].key == FeedAt(ids[t.serial]))
    && (forall n :: 0 <= n < |place| && place[n].Arriving? ==>
          place[n].call in enqs && enqs[place[n].call].t.serial == n)
  }

  /** Each pending row's key field is the hex of the key it is stored under. */
  ghost predicate FeedInv(rows: map<seq<byte>, Tracked>, place: seq<Place>, ids: seq<Id>) {
    && |ids| == |place|
    && (forall k :: k in rows && InFeed(k) ==>
          var t := rows[k];
          && t.serial < |place| && place[t.serial] == Pending
          && t.job.key == FeedName(ids[t.serial]) && k == FeedAt(ids[t.serial]))
    && (forall n :: 0 <= n < |place| && place[n] == Pending ==>
          FeedAt(ids[n]) in rows && rows[FeedAt(ids[n])].serial == n)
  }

  /** So is each running row's. */
  ghost predicate RunInv(rows: map<seq<byte>, Tracked>, place: seq<Place>, run: map<nat, Id>) {
    && (forall k :: k in rows && InRunning(k) ==>
          var t := rows[k];
          && t.serial < |place| && place[t.serial].Running? && t.serial in run
          && t.job.key == RunName(run[t.serial]) && k == RunAt(run[t.serial]))
    && (forall n :: 0 <= n < |place| && place[n].Running? ==>
          n in run && RunAt(run[n]) in rows && rows[RunAt(run[n])].serial == n)
  }

  predicate InGetter(g: Getter, n: nat) {
    (g.Deleted? || g.Restamped?) && g.t.serial == n
  }

  ghost predicate GetterInv(g: Getter, place: seq<Place>, ids: seq<Id>, run: map<nat, Id>) {
    && |ids| == |place|
    && (g.Scanned? ==> g.t.serial < |place| && place[g.t.serial] == Pending && g.t.job.key == FeedName(ids[g.t.serial]))
    && (g.Deleted? || g.Restamped? ==> g.t.serial < |place| && place[g.t.serial] == Held)
    && (g.Restamped? ==>
          && g.t.serial in run
          && g.t.job.key == RunName(run[g.t.serial]) && g.key == RunAt(run[g.t.serial]))
    && (forall n :: 0 <= n < |place| && place[n] == Held ==> InGetter(g, n))
  }

  predicate HandedOver(p: Place) {
    p.Running? || p.Finishing? || p.Done? || p.Dropped?
  }

  ghost predicate HandedInv(handed: seq<Tracked>, place: seq<Place>, run: map<nat, Id>) {
    && (forall i :: 0 <= i < |handed| ==>
          var t := handed[i];
          && t.serial < |place| && HandedOver(place[t.serial]) && place[t.serial].handout == i
          && t.serial in run && t.job.key == RunName(run[t.serial]))
    && (forall n :: 0 <= n < |place| && HandedOver(place[n]) ==>
          place[n].handout < |handed| && handed[place[n].handout].serial == n)
  }

  ghost predicate FinInv(fins: map<nat, nat>, place: seq<Place>, handouts: nat) {
    && (forall c :: c in fins ==> fins[c] < handouts)
    && (forall n, c :: 0 <= n < |place| && Unattended(place[n]) && c in fins ==> fins[c] != place[n].handout)
    && (forall n :: 0 <= n < |place| && place[n].Finishing? ==>
          place[n].call in fins && fins[place[n].call] == place[n].handout)
  }

  /** A finished job's target has a history row. */
  ghost predicate HistoryInv(rows: map<seq<byte>, Tracked>, place: seq<Place>, handed: seq<Tracked>) {
    forall n :: 0 <= n < |place| && place[n].Done? ==>
      place[n].handout < |handed| && HistoryAt(handed[place[n].handout].job.targetId) in rows
  }

  ghost predicate Inv(s: State) {
    && IdsInv(s.ids, s.run)
    && EnqInv(s.enqs, s.place, s.ids)
    && FeedInv(s.rows, s.place, s.ids)
    && RunInv(s.rows, s.place, s.run)
    && GetterInv(s.getter, s.place, s.ids, s.run)
    && HandedInv(s.handed, s.place, s.run)
    && FinInv(s.fins, s.place, |s.handed|)
    && HistoryInv(s.rows, s.place, s.handed)
  }

  lemma InitInv(w: WorkerId)
    ensures Inv(Init(w))
  {
  }

  // ------------------------------------------- parts a step does not touch

  /** The rows of one table are the same in both stores. */
  ghost predicate SameFeed(rows: map<seq<byte>, Tracked>, rows': map<seq<byte>, Tracked>) {
    forall k :: InFeed(k) ==> (k in rows <==> k in rows') && (k in rows ==> rows[k] == rows'[k])
  }

  ghost predicate SameRunning(rows: map<seq<byte>, Tracked>, rows': map<seq<byte>, Tracked>) {
    forall k :: InRunning(k) ==> (k in rows <==> k in rows') && (k in rows ==> rows[k] == rows'[k])
  }

  lemma EnqKept(enqs: map<nat, Pair>, place: seq<Place>, place': seq<Place>, ids: seq<Id>)
    requires EnqInv(enqs, place, ids) && |place| == |place'|
    requires forall n :: 0 <= n < |place| && (place[n].Arriving? || place'[n].Arriving?) ==> place'[n] == place[n]
    ensures EnqInv(enqs, place', ids)
  {
    hide FeedName;
  }

  lemma FeedKept(rows: map<seq<byte>, Tracked>, rows': map<seq<byte>, Tracked>, place: seq<Place>, place': seq<Place>,
                 ids: seq<Id>, ids': seq<Id>)
    requires FeedInv(rows, place, ids) && SameFeed(rows, rows')
    requires ids <= ids' && |ids'| == |place'|
    requires forall n :: 0 <= n < |place'| ==> (place'[n] == Pending <==> n < |place| && place[n] == Pending)
    ensures FeedInv(rows', place', ids')
  {
    hide FeedName, FeedAt, InFeed;
    forall n | 0 <= n < |place'| && place'[n] == Pending
      ensures FeedAt(ids'[n]) in rows' && rows'[FeedAt(ids'[n])].serial == n
    {
      FeedKeyFacts(ids[n]);
    }
  }

  lemma RunKept(rows: map<seq<byte>, Tracked>, rows': map<seq<byte>, Tracked>, place: seq<Place>, place': seq<Place>,
                run: map<nat, Id>)
    requires RunInv(rows, place, run) && SameRunning(rows, rows') && |place| <= |place'|
    requires forall n :: 0 <= n < |place'| ==> (place'[n].Running? <==> n < |place| && place[n].Running?)
    ensures RunInv(rows', place', run)
  {
    hide RunName, RunAt, InRunning;
    forall n | 0 <= n < |place'| && place'[n].Running?
      ensures n in run && RunAt(run[n]) in rows' && rows'[RunAt(run[n])].serial == n
    {
      RunKeyFacts(run[n]);
    }
  }

  lemma GetterKept(g: Getter, place: seq<Place>, place': seq<Place>, ids: seq<Id>, ids': seq<Id>, run: map<nat, Id>)
    requires GetterInv(g, place, ids, run) && ids <= ids' && |ids'| == |place'|
    requires forall n :: 0 <= n < |place'| ==> (place'[n] == Held <==> n < |place| && place[n] == Held)
    requires forall n :: 0 <= n < |place| && place[n] == Pending ==> place'[n] == Pending
    ensures GetterInv(g, place', ids', run)
  {
    hide FeedName, RunName;
  }

  /** Handing over is final, and a job keeps its place among those handed out. */
  lemma HandedKept(handed: seq<Tracked>, place: seq<Place>, place': seq<Place>, run: map<nat, Id>)
    requires HandedInv(handed, place, run) && |place| <= |place'|
    requires forall n :: 0 <= n < |place'| ==> (HandedOver(place'[n]) <==> n < |place| && HandedOver(place[n]))
    requires forall n :: 0 <= n < |place| && HandedOver(place[n]) && HandedOver(place'[n]) ==>
               place'[n].handout == place[n].handout
    ensures HandedInv(handed, place', run)
  {
    hide RunName;
  }

  lemma FinKept(fins: map<nat, nat>, place: seq<Place>, place': seq<Place>, handouts: nat)
    requires FinInv(fins, place, handouts)
    requires forall n :: 0 <= n < |place'| && (Unattended(place'[n]) || place'[n].Finishing?) ==>
               n < |place| && place[n] == place'[n]
    ensures FinInv(fins, place', handouts)
  {
  }

  lemma HistoryKept(rows: map<seq<byte>, Tracked>, rows': map<seq<byte>, Tracked>, place: seq<Place>,
                    place': seq<Place>,
                    handed: seq<Tracked>, handed': seq<Tracked>)
    requires HistoryInv(rows, place, handed) && handed <= handed'
    requires forall n :: 0 <= n < |place'| && place'[n].Done? ==> n < |place| && place'[n] == place[n]
    requires forall k :: k in rows && InHistory(k) ==> k in rows'
    ensures HistoryInv(rows', place', handed')
  {
    hide HistoryAt, InHistory;
    forall n | 0 <= n < |place'| && place'[n].Done?
      ensures HistoryAt(handed'[place[n].handout].job.targetId) in rows'
    {
      HistoryKeyFacts(handed[place[n].handout].job.targetId);
    }
  }

  // ----------------------------------------------------- parts it changes

  lemma {:induction false} IdsIssue(ids: seq<Id>, run: map<nat, Id>, n: nat, id: Id)
    requires IdsInv(ids, run) && id !in ids && id !in run.Values
    ensures IdsInv(ids + [id], run) && IdsInv(ids, run[n := id])
  {
  }

  lemma EnqAdded(enqs: map<nat, Pair>, place: seq<Place>, ids: seq<Id>, call: nat, t: Tracked, id: Id)
    requires EnqInv(enqs, place, ids) && call !in enqs
    requires t.serial == |place| && t.job.key == FeedName(id)
    ensures EnqInv(enqs[call := Pair(FeedAt(id), t)], place + [Arriving(call)], ids + [id])
  {
    hide FeedName, FeedAt;
  }

  lemma {:induction false} EnqRemoved(enqs: map<nat, Pair>, place: seq<Place>, ids: seq<Id>, call: nat)
    requires EnqInv(enqs, place, ids) && call in enqs
    ensures EnqInv(enqs - {call}, place[enqs[call].t.serial := Pending], ids)
  {
    hide FeedName, FeedAt;
  }

  lemma FeedAdded(rows: map<seq<byte>, Tracked>, place: seq<Place>, ids: seq<Id>, t: Tracked)
    requires FeedInv(rows, place, ids) && t.serial < |place| && t.job.key == FeedName(ids[t.serial])
    requires forall i, j :: 0 <= i < j < |ids| ==> ids[i] != ids[j]
    requires place[t.serial] != Pending
    ensures FeedInv(rows[FeedAt(ids[t.serial]) := t], place[t.serial := Pending], ids)
  {
    hide FeedName, FeedAt, InFeed, LexLess;
    var k := FeedAt(ids[t.serial]);
    forall n | 0 <= n < |place| && n != t.serial ensures FeedAt(ids[n]) != k {
      FeedAtOrder(ids[n], ids[t.serial]);
    }
  }

  lemma FeedRemoved(rows: map<seq<byte>, Tracked>, place: seq<Place>, ids: seq<Id>, n: nat)
    requires FeedInv(rows, place, ids) && n < |place| && place[n] == Pending
    ensures FeedInv(rows - {FeedAt(ids[n])}, place[n := Held], ids)
  {
    hide FeedName, FeedAt, InFeed;
  }

  lemma RunAdded(rows: map<seq<byte>, Tracked>, place: seq<Place>, run: map<nat, Id>, t: Tracked, i: nat)
    requires RunInv(rows, place, run) && t.serial < |place| && t.serial in run && t.job.key == RunName(run[t.serial])
    requires forall m, n :: m in run && n in run && run[m] == run[n] ==> m == n
    requires !place[t.serial].Running?
    ensures RunInv(rows[RunAt(run[t.serial]) := t], place[t.serial := Running(i)], run)
  {
    hide RunName, RunAt, InRunning;
    forall n | n in run && n != t.serial ensures RunAt(run[n]) != RunAt(run[t.serial]) {
      RunAtInjective(run[n], run[t.serial]);
    }
  }

  lemma RunRestamped(rows: map<seq<byte>, Tracked>, place: seq<Place>, run: map<nat, Id>, n: nat, id: Id)
    requires RunInv(rows, place, run) && n < |place| && !place[n].Running?
    ensures RunInv(rows, place, run[n := id])
  {
    hide RunName, RunAt, InRunning;
  }

  lemma HandedRestamped(handed: seq<Tracked>, place: seq<Place>, run: map<nat, Id>, n: nat, id: Id)
    requires HandedInv(handed, place, run) && n < |place| && !HandedOver(place[n])
    ensures HandedInv(handed, place, run[n := id])
  {
    hide RunName;
  }

  /** Deleting the row a handed-out job names removes that job's running row if it is
      still there, and nothing else. */
  lemma RunRemoved(rows: map<seq<byte>, Tracked>, place: seq<Place>, run: map<nat, Id>, n: nat, p: Place)
    requires RunInv(rows, place, run) && n < |place| && n in run && !p.Running?
    requires forall a, b :: a in run && b in run && run[a] == run[b] ==> a == b
    ensures RunInv(rows - {RunAt(run[n])}, place[n := p], run)
  {
    hide RunName, RunAt, InRunning;
    forall m | m in run && m != n ensures RunAt(run[m]) != RunAt(run[n]) {
      RunAtInjective(run[m], run[n]);
    }
  }

  lemma HandedAdded(handed: seq<Tracked>, place: seq<Place>, run: map<nat, Id>, t: Tracked)
    requires HandedInv(handed, place, run) && t.serial < |place| && place[t.serial] == Held
    requires t.serial in run && t.job.key == RunName(run[t.serial])
    ensures HandedInv(handed + [t], place[t.serial := Running(|handed|)], run)
  {
    hide RunName;
  }

  lemma FinHandedOut(fins: map<nat, nat>, place: seq<Place>, handouts: nat, n: nat)
    requires FinInv(fins, place, handouts) && n < |place|
    ensures FinInv(fins, place[n := Running(handouts)], handouts + 1)
  {
  }

  lemma FinStarted(fins: map<nat, nat>, place: seq<Place>, handed: seq<Tracked>, run: map<nat, Id>, call: nat, i: nat)
    requires FinInv(fins, place, |handed|) && HandedInv(handed, place, run) && call !in fins && i < |handed|
    ensures var n := handed[i].serial;
            FinInv(fins[call := i], if Unattended(place[n]) then place[n := Finishing(i, call)] else place, |handed|)
  {
    hide RunName;
  }

  lemma FinEnded(fins: map<nat, nat>, place: seq<Place>, handed: seq<Tracked>, run: map<nat, Id>, call: nat)
    requires FinInv(fins, place, |handed|) && HandedInv(handed, place, run) && call in fins
    ensures var n := handed[fins[call]].serial;
            FinInv(fins - {call}, place[n := Done(fins[call])], |handed|)
  {
    hide RunName;
  }

  lemma HistoryAdded(rows: map<seq<byte>, Tracked>, place: seq<Place>, handed: seq<Tracked>, i: nat, t: Tracked)
    requires HistoryInv(rows, place, handed) && i < |handed| && handed[i].serial < |place|
    ensures HistoryInv(rows[HistoryAt(handed[i].job.targetId) := t], place[handed[i].serial := Done(i)], handed)
  {
    hide HistoryAt;
  }

  lemma RowTables(rows: map<seq<byte>, Tracked>, k: seq<byte>, t: Tracked)
    ensures !InFeed(k) ==> SameFeed(rows, rows[k := t]) && SameFeed(rows, rows - {k})
    ensures !InRunning(k) ==> SameRunning(rows, rows[k := t]) && SameRunning(rows, rows - {k})
  {
    hide InFeed, InRunning;
  }

  // ------------------------------------------------- every step keeps Inv

  lemma {:induction false} StepInv(s: State, step: Step)
    requires Inv(s) && Enabled(s, step)
    ensures Inv(Apply(s, step))
  {
    hide IdsInv, EnqInv, FeedInv, RunInv, GetterInv, HandedInv, FinInv, HistoryInv;
    match step
    case EnqAlloc(call, job, ts, now) => EnqAllocInv(s, call, job, ts, now);
    case EnqPut(call) => EnqPutInv(s, call);
    case GetLock(worker, ts) => GetLockInv(s, worker, ts);
    case GetScan => GetScanInv(s);
    case GetDelete => GetDeleteInv(s);
    case GetRestamp(ts, now) => GetRestampInv(s, ts, now);
    case GetPut => GetPutInv(s);
    case FinDelete(call, i) => FinDeleteInv(s, call, i);
    case FinPut(call, now) => FinPutInv(s, call, now);
    case Restart(w) => RestartInv(s, w);
  }

  lemma {:induction false} EnqAllocInv(s: State, call: nat, job: FeedJob, ts: Time, now: int)
    requires Inv(s) && call !in s.enqs && GivesNewId(s, ts)
    ensures Inv(ApplyEnqAlloc(s, call, job, ts, now))
  {
    hide RunInv, IdsInv, FeedInv, HandedInv, FinInv, HistoryInv, GetterInv;
    hide FeedName, InFeed, InRunning, InHistory, LexLess, LastId, After;
    var s' := ApplyEnqAlloc(s, call, job, ts, now);
    IdsIssue(s.ids, s.run, 0, s'.ids[|s.ids|]);
    EnqAdded(s.enqs, s.place, s.ids, call, s'.enqs[call].t, s'.ids[|s.ids|]);
    FeedKept(s.rows, s.rows, s.place, s'.place, s.ids, s'.ids);
    RunKept(s.rows, s.rows, s.place, s'.place, s.run);
    GetterKept(s.getter, s.place, s'.place, s.ids, s'.ids, s.run);
    HandedKept(s.handed, s.place, s'.place, s.run);
    FinKept(s.fins, s.place, s'.place, |s.handed|);
    HistoryKept(s.rows, s.rows, s.place, s'.place, s.handed, s.handed);
  }

  lemma {:induction false} EnqPutInv(s: State, call: nat)
    requires Inv(s) && call in s.enqs
    ensures Inv(ApplyEnqPut(s, call))
  {
    hide RunInv, FeedInv, HandedInv, FinInv, HistoryInv, GetterInv;
    hide FeedName, FeedAt, InFeed, InRunning, InHistory, LexLess, Used, DecodeHex;
    var s' := ApplyEnqPut(s, call);
    var t := s.enqs[call].t;
    var k := FeedAt(s.ids[t.serial]);
    FeedKeyFacts(s.ids[t.serial]);
    assert s.enqs[call].key == k && s.place[t.serial] == Arriving(call);
    RowTables(s.rows, k, t);
    EnqRemoved(s.enqs, s.place, s.ids, call);
    FeedAdded(s.rows, s.place, s.ids, t);
    RunKept(s.rows, s'.rows, s.place, s'.place, s.run);
    GetterKept(s.getter, s.place, s'.place, s.ids, s.ids, s.run);
    HandedKept(s.handed, s.place, s'.place, s.run);
    FinKept(s.fins, s.place, s'.place, |s.handed|);
    HistoryKept(s.rows, s'.rows, s.place, s'.place, s.handed, s.handed);
  }

  lemma {:induction false} GetLockInv(s: State, worker: text, ts: Time)
    requires Inv(s) && s.getter.NoGetter? && Accepts(s.gen, ts)
    ensures Inv(s.(gen := After(s.gen, ts), getter := Locked(worker)))
  {
    hide IdsInv, EnqInv, RunInv, FeedInv, HandedInv, FinInv, HistoryInv;
    hide FeedName, RunName;
  }

  lemma GetScanInv(s: State)
    requires Inv(s) && s.getter.Locked?
    ensures Inv(ApplyGetScan(s))
  {
    hide IdsInv, EnqInv, RunInv, HandedInv, FinInv, HistoryInv;
    hide FeedName, RunName, FeedAt, InFeed, Least;
  }

  lemma {:induction false} GetDeleteInv(s: State)
    requires Inv(s) && s.getter.Scanned?
    ensures Inv(ApplyGetDelete(s))
  {
    hide IdsInv, EnqInv, RunInv, FeedInv, HandedInv, FinInv, HistoryInv;
    hide FeedName, FeedAt, InFeed, InRunning, InHistory, DecodeHex, RunName;
    var s' := ApplyGetDelete(s);
    var t := s.getter.t;
    var k := FeedAt(s.ids[t.serial]);
    FeedKeyFacts(s.ids[t.serial]);
    assert Named(t.job) == k;
    RowTables(s.rows, k, t);
    EnqKept(s.enqs, s.place, s'.place, s.ids);
    FeedRemoved(s.rows, s.place, s.ids, t.serial);
    RunKept(s.rows, s'.rows, s.place, s'.place, s.run);
    HandedKept(s.handed, s.place, s'.place, s.run);
    FinKept(s.fins, s.place, s'.place, |s.handed|);
    HistoryKept(s.rows, s'.rows, s.place, s'.place, s.handed, s.handed);
  }

  lemma {:induction false} GetRestampInv(s: State, ts: Time, now: int)
    requires Inv(s) && s.getter.Deleted? && GivesNewId(s, ts)
    ensures Inv(ApplyGetRestamp(s, ts, now))
  {
    hide IdsInv, EnqInv, RunInv, FeedInv, HandedInv, FinInv, HistoryInv;
    hide FeedName, RunName, LastId, After;
    var n := s.getter.t.serial;
    var id := ApplyGetRestamp(s, ts, now).run[n];
    IdsIssue(s.ids, s.run, n, id);
    RunRestamped(s.rows, s.place, s.run, n, id);
    HandedRestamped(s.handed, s.place, s.run, n, id);
  }

  lemma {:induction false} GetPutInv(s: State)
    requires Inv(s) && s.getter.Restamped?
    ensures Inv(ApplyGetPut(s))
  {
    hide EnqInv, RunInv, FeedInv, HandedInv, FinInv, HistoryInv;
    hide RunName, RunAt, InFeed, InRunning, InHistory, DecodeHex, FeedName, LexLess, Used;
    var s' := ApplyGetPut(s);
    var t := s.getter.t;
    var k := RunAt(s.run[t.serial]);
    RunKeyFacts(s.run[t.serial]);
    assert s.getter.key == k;
    RowTables(s.rows, k, t);
    EnqKept(s.enqs, s.place, s'.place, s.ids);
    FeedKept(s.rows, s'.rows, s.place, s'.place, s.ids, s.ids);
    RunAdded(s.rows, s.place, s.run, t, |s.handed|);
    HandedAdded(s.handed, s.place, s.run, t);
    FinHandedOut(s.fins, s.place, |s.handed|, t.serial);
    HistoryKept(s.rows, s'.rows, s.place, s'.place, s.handed, s'.handed);
  }

  lemma {:induction false} FinDeleteInv(s: State, call: nat, i: nat)
    requires Inv(s) && call !in s.fins && i < |s.handed|
    ensures Inv(ApplyFinDelete(s, call, i))
  {
    hide EnqInv, RunInv, FeedInv, GetterInv, FinInv, HistoryInv;
    hide RunName, RunAt, InFeed, InRunning, InHistory, DecodeHex, LexLess, Used;
    var s' := ApplyFinDelete(s, call, i);
    var t := s.handed[i];
    var k := RunAt(s.run[t.serial]);
    RunKeyFacts(s.run[t.serial]);
    assert Named(t.job) == k && HandedOver(s.place[t.serial]) && s.place[t.serial].handout == i;
    RowTables(s.rows, k, t);
    assert s'.place == s.place[t.serial := s'.place[t.serial]];
    IdsBounds(s);
    EnqKept(s.enqs, s.place, s'.place, s.ids);
    FeedKept(s.rows, s'.rows, s.place, s'.place, s.ids, s.ids);
    RunRemoved(s.rows, s.place, s.run, t.serial, s'.place[t.serial]);
    GetterKept(s.getter, s.place, s'.place, s.ids, s.ids, s.run);
    HandedKept(s.handed, s.place, s'.place, s.run);
    FinStarted(s.fins, s.place, s.handed, s.run, call, i);
    HistoryKept(s.rows, s'.rows, s.place, s'.place, s.handed, s.handed);
  }

  lemma {:induction false} FinPutInv(s: State, call: nat, now: int)
    requires Inv(s) && call in s.fins && s.fins[call] < |s.handed|
    ensures Inv(ApplyFinPut(s, call, now))
  {
    hide IdsInv, EnqInv, RunInv, FeedInv, GetterInv, HistoryInv;
    hide RunName, HistoryAt, InFeed, InRunning, InHistory, DecodeHex;
    var s' := ApplyFinPut(s, call, now);
    var i := s.fins[call];
    var t := s.handed[i];
    var k := HistoryAt(t.job.targetId);
    HistoryKeyFacts(t.job.targetId);
    assert HandedOver(s.place[t.serial]) && s.place[t.serial].handout == i && !s.place[t.serial].Running?;
    RowTables(s.rows, k, s'.rows[k]);
    IdsBounds(s);
    EnqKept(s.enqs, s.place, s'.place, s.ids);
    FeedKept(s.rows, s'.rows, s.place, s'.place, s.ids, s.ids);
    RunKept(s.rows, s'.rows, s.place, s'.place, s.run);
    GetterKept(s.getter, s.place, s'.place, s.ids, s.ids, s.run);
    HandedKept(s.handed, s.place, s'.place, s.run);
    FinEnded(s.fins, s.place, s.handed, s.run, call);
    HistoryAdded(s.rows, s.place, s.handed, i, s'.rows[k]);
  }

  lemma {:induction false} RestartInv(s: State, w: WorkerId)
    requires Inv(s)
    ensures Inv(ApplyRestart(s, w))
  {
    hide IdsInv, EnqInv, RunInv, FeedInv, GetterInv, HandedInv, FinInv, HistoryInv;
    var place' := ApplyRestart(s, w).place;
    IdsBounds(s);
    NoCallsLeft(place', s.ids, s.run, |s.handed|);
    FeedKept(s.rows, s.rows, s.place, place', s.ids, s.ids);
    RunKept(s.rows, s.rows, s.place, place', s.run);
    HandedKept(s.handed, s.place, place', s.run);
    HistoryKept(s.rows, s.rows, s.place, place', s.handed, s.handed);
  }

  lemma NoCallsLeft(place: seq<Place>, ids: seq<Id>, run: map<nat, Id>, handouts: nat)
    requires |ids| == |place|
    requires forall n :: 0 <= n < |place| ==> !place[n].Arriving? && place[n] != Held && !place[n].Finishing?
    ensures EnqInv(map[], place, ids) && GetterInv(NoGetter, place, ids, run) && FinInv(map[], place, handouts)
  {
  }

  lemma IdsBounds(s: State)
    requires Inv(s)
    ensures |s.ids| == |s.place|
  {
  }

  // ------------------------------------------------------ runs and safety

  /** The states of a run and the steps between them. */
  ghost predicate IsRun(w: WorkerId, ss: seq<State>, steps: seq<Step>) {
    && |ss| == |steps| + 1
    && ss[0] == Init(w)
    && forall i :: 0 <= i < |steps| ==> Enabled(ss[i], steps[i]) && ss[i + 1] == Apply(ss[i], steps[i])
  }

  lemma {:induction false} RunKeepsInv(w: WorkerId, ss: seq<State>, steps: seq<Step>, i: nat)
    requires IsRun(w, ss, steps) && i < |ss|
    ensures Inv(ss[i])
  {
    hide Inv, Apply, Enabled;
    if i == 0 {
      InitInv(w);
    } else {
      RunKeepsInv(w, ss, steps, i - 1);
      assert Enabled(ss[i - 1], steps[i - 1]) && ss[i - 1 + 1] == Apply(ss[i - 1], steps[i - 1]);
      StepInv(ss[i - 1], steps[i - 1]);
    }
  }

  ghost predicate IsArriving(s: State, n: nat) {
    exists c :: c in s.enqs && s.enqs[c].t.serial == n
  }

  ghost predicate IsPending(s: State, n: nat) {
    exists k :: k in s.rows && InFeed(k) && s.rows[k].serial == n
  }

  ghost predicate IsRunning(s: State, n: nat) {
    exists k :: k in s.rows && InRunning(k) && s.rows[k].serial == n
  }

  /** Some FinishJob call on the job has written its history row. */
  predicate IsFinished(s: State, n: nat) {
    n < |s.place| && s.place[n].Done?
  }

  /** Its running row was deleted by a FinishJob call that never wrote the history row. */
  predicate IsDropped(s: State, n: nat) {
    n < |s.place| && s.place[n].Dropped?
  }

  /** It has no row, no call has it, and it was never handed out. */
  predicate IsLost(s: State, n: nat) {
    n < |s.place| && s.place[n] == Lost
  }

  /** Its running row is deleted and a FinishJob call still has to write the history row. */
  ghost predicate IsFinishing(s: State, n: nat) {
    !IsFinished(s, n) && exists c :: c in s.fins && s.fins[c] < |s.handed| && s.handed[s.fins[c]].serial == n
  }

  function Count(b: bool): nat {
    if b then 1 else 0
  }

  /** Job n has at most one pending and at most one running row. */
  ghost predicate OneRowPerTable(s: State, n: nat) {
    forall k, l | k in s.rows && l in s.rows && s.rows[k].serial == n && s.rows[l].serial == n ::
      (InFeed(k) && InFeed(l)) || (InRunning(k) && InRunning(l)) ==> k == l
  }

  lemma PlaceIsReal(s: State, n: nat)
    requires Inv(s) && n < |s.place|
    ensures IsArriving(s, n) <==> s.place[n].Arriving?
    ensures IsPending(s, n) <==> s.place[n] == Pending
    ensures InGetter(s.getter, n) <==> s.place[n] == Held
    ensures IsRunning(s, n) <==> s.place[n].Running?
    ensures IsFinishing(s, n) <==> s.place[n].Finishing?
    ensures OneRowPerTable(s, n)
  {
    hide IdsInv, HistoryInv, FeedName, RunName, InFeed, InRunning, FeedAt, RunAt;
    FeedKeyFacts(s.ids[n]);
    if n in s.run {
      RunKeyFacts(s.run[n]);
    }
    if IsFinishing(s, n) {
      var c :| c in s.fins && s.fins[c] < |s.handed| && s.handed[s.fins[c]].serial == n;
      assert HandedOver(s.place[n]) && s.place[n].handout == s.fins[c];
    }
  }

  /** Conservation: in every reachable state each enqueued job is in exactly one place: on
      its way in, pending, in the hands of GetFeedJob, running, in the hands of FinishJob,
      finished, or dropped or lost with a process; and it has one row per table at most. */
  lemma {:induction false} ExactlyOnePlace(w: WorkerId, ss: seq<State>, steps: seq<Step>, i: nat, n: nat)
    requires IsRun(w, ss, steps) && i < |ss| && n < |ss[i].ids|
    ensures var s := ss[i];
            && Count(IsArriving(s, n)) + Count(IsPending(s, n)) + Count(InGetter(s.getter, n)) + Count(IsRunning(s, n))
               + Count(IsFinishing(s, n)) + Count(IsFinished(s, n)) + Count(IsDropped(s, n)) + Count(IsLost(s, n)) == 1
            && OneRowPerTable(s, n)
  {
    hide InFeed, InRunning, Inv, IsArriving, IsPending, IsRunning, IsFinishing, OneRowPerTable;
    RunKeepsInv(w, ss, steps, i);
    IdsBounds(ss[i]);
    PlaceIsReal(ss[i], n);
  }

  /** No job goes to two workers, and every pending or running row is stored under the key
      its own job names. */
  lemma HandedOutOnce(w: WorkerId, ss: seq<State>, steps: seq<Step>, i: nat)
    requires IsRun(w, ss, steps) && i < |ss|
    ensures var s := ss[i];
            && (forall a, b :: 0 <= a < b < |s.handed| ==> s.handed[a].serial != s.handed[b].serial)
            && (forall k :: k in s.rows && (InFeed(k) || InRunning(k)) ==> Named(s.rows[k].job) == k)
  {
    hide InFeed, InRunning, FeedName, RunName, DecodeHex, FeedAt, RunAt;
    RunKeepsInv(w, ss, steps, i);
    var s := ss[i];
    forall k | k in s.rows && (InFeed(k) || InRunning(k)) ensures Named(s.rows[k].job) == k {
      var n := s.rows[k].serial;
      if InFeed(k) {
        FeedKeyFacts(s.ids[n]);
      } else {
        RunKeyFacts(s.run[n]);
      }
    }
  }

  /** Left alone, the steps of one GetFeedJob call move the first pending row to the running
      table, which is what JobServer.GetFeedJob promises of the whole call. */
  lemma {:induction false} GetRunsAlone(s: State, worker: text, ts: Time, ts': Time, now: int)
    requires Inv(s) && s.getter.NoGetter? && PendingRows(s) != {}
    requires Accepts(s.gen, ts) && Accepts(After(s.gen, ts), ts')
    ensures var k := Least(PendingRows(s));
            var s1 := ApplyGetScan(s.(gen := After(s.gen, ts), getter := Locked(worker)));
            var s2 := ApplyGetDelete(s1);
            var s3 := ApplyGetPut(ApplyGetRestamp(s2, ts', now));
            var before := s.rows[k];
            && |s3.handed| == |s.handed| + 1 && s3.handed[..|s.handed|] == s.handed && s3.getter == NoGetter
            && var t := s3.handed[|s.handed|];
            && t.serial == before.serial
            && t.job == before.job.(key := t.job.key, worker := worker, created := now, updated := now)
            && Named(t.job) == RunAt(LastId(s3.gen))
            && s3.rows == (s.rows - {k})[Named(t.job) := t]
  {
    hide IdsInv, EnqInv, RunInv, GetterInv, HandedInv, FinInv, HistoryInv;
    hide FeedName, FeedAt, RunName, RunAt, InFeed, DecodeHex, LastId;
    var k := Least(PendingRows(s));
    FeedKeyFacts(s.ids[s.rows[k].serial]);
    RunKeyFacts(LastId(After(After(s.gen, ts), ts')));
  }

  // --------------------------------------------------------------- order

  /** Where the job is that the step works on. */
  lemma SubjectPlace(s: State, step: Step)
    requires Inv(s) && Enabled(s, step)
    ensures step.EnqPut? ==> var n := s.enqs[step.call].t.serial; n < |s.place| && s.place[n].Arriving?
    ensures step.GetDelete? ==> var n := s.getter.t.serial; n < |s.place| && s.place[n] == Pending
    ensures step.GetPut? ==> var n := s.getter.t.serial; n < |s.place| && s.place[n] == Held
    ensures step.FinDelete? ==>
              var n := s.handed[step.handout].serial;
              n < |s.place| && HandedOver(s.place[n]) && s.place[n].handout == step.handout
    ensures step.FinPut? ==>
              var i := s.fins[step.call];
              var n := s.handed[i].serial;
              n < |s.place| && HandedOver(s.place[n]) && s.place[n].handout == i
  {
    hide IdsInv, FeedInv, RunInv, HistoryInv, FeedName, RunName, GivesNewId, FinInv;
  }

  /** How one step can move one job. */
  lemma {:induction false} PlaceStep(s: State, step: Step, n: nat)
    requires Inv(s) && Enabled(s, step) && n < |s.place|
    ensures var s' := Apply(s, step);
            && |s.place| <= |s'.place|
            && s.ids <= s'.ids && s.handed <= s'.handed
            && var p, q := s.place[n], s'.place[n];
               || q == p
               || (p.Arriving? && q == Pending)
               || (p == Pending && q == Held && s.getter.Scanned? && s.getter.t.serial == n && step == GetDelete)
               || (p == Held && q == Running(|s.handed|) && step == GetPut
                   && s.getter.Restamped? && s'.handed == s.handed + [s.getter.t])
               || (HandedOver(p) && HandedOver(q) && q.handout == p.handout && (p.Done? ==> q.Done?))
               || (step.Restart? && q == AfterStop(p))
  {
    hide Inv, Named, FeedName, HistoryAt, LastId, After, GivesNewId, PendingRows, Started, Finished, Enqueued;
    SubjectPlace(s, step);
  }

  lemma {:induction false} FinishedStays(w: WorkerId, ss: seq<State>, steps: seq<Step>, i: nat, j: nat, n: nat)
    requires IsRun(w, ss, steps) && i <= j < |ss| && IsFinished(ss[i], n)
    ensures IsFinished(ss[j], n)
    decreases j
  {
    hide Inv, Apply, Enabled;
    if i < j {
      FinishedStays(w, ss, steps, i, j - 1, n);
      RunKeepsInv(w, ss, steps, j - 1);
      assert Enabled(ss[j - 1], steps[j - 1]) && ss[j - 1 + 1] == Apply(ss[j - 1], steps[j - 1]);
      PlaceStep(ss[j - 1], steps[j - 1], n);
    }
  }

  /** A finished job stays finished and its target marked as archived, in every later state and
      whatever other calls do, repeated finishes of the same job included. */
  lemma FinishedForGood(w: WorkerId, ss: seq<State>, steps: seq<Step>, i: nat, j: nat, n: nat)
    requires IsRun(w, ss, steps) && i <= j < |ss| && IsFinished(ss[i], n)
    ensures IsFinished(ss[j], n)
    ensures exists h :: && 0 <= h < |ss[j].handed| && ss[j].handed[h].serial == n
                        && HistoryAt(ss[j].handed[h].job.targetId) in ss[j].rows
  {
    hide IdsInv, EnqInv, FeedInv, RunInv, GetterInv, FinInv, HistoryAt, RunName, Apply, Enabled;
    FinishedStays(w, ss, steps, i, j, n);
    RunKeepsInv(w, ss, steps, j);
    var h := ss[j].place[n].handout;
    assert ss[j].handed[h].serial == n;
  }

  /** GetFeedJob's scan takes the job with the least id of those pending. */
  lemma {:induction false} ScanTakesOldest(s: State)
    requires Inv(s) && s.getter.Locked?
    ensures var s' := ApplyGetScan(s);
            && |s.ids| == |s.place|
            && (forall n :: 0 <= n < |s.place| ==> s.place[n] != Held)
            && if s'.getter.NoGetter? then forall n :: 0 <= n < |s.place| ==> s.place[n] != Pending
               else && s'.getter.Scanned? && s'.getter.t.serial < |s.place| && s.place[s'.getter.t.serial] == Pending
                    && forall n :: 0 <= n < |s.place| && s.place[n] == Pending && n != s'.getter.t.serial ==>
                         !LexLess(s.ids[n], s.ids[s'.getter.t.serial])
  {
    hide RunInv, HandedInv, FinInv, EnqInv, HistoryInv, FeedName, RunName, InFeed, FeedAt, LexLess;
    var pending := PendingRows(s);
    forall n | 0 <= n < |s.place| && s.place[n] == Pending ensures FeedAt(s.ids[n]) in pending {
      FeedKeyFacts(s.ids[n]);
    }
    if pending != {} {
      var k := Least(pending);
      var m := s.rows[k].serial;
      forall n | 0 <= n < |s.place| && s.place[n] == Pending && n != m ensures !LexLess(s.ids[n], s.ids[m]) {
        assert IsLeast(k, pending);
        FeedAtOrder(s.ids[m], s.ids[n]);
        LexTrichotomy(s.ids[m], s.ids[n]);
      }
    }
  }

  /** Handed out, or lost with a process. */
  predicate Passed(p: Place) {
    HandedOver(p) || p == Lost
  }

  /** What holds of two EnqueJob calls of which the first had put its row before the second
      began, with the smaller id: the second is not taken before the first is handed out, unless
      the first is lost. */
  ghost predicate InOrder(s: State, a: nat, b: nat) {
    && a < b && a < |s.place| && !s.place[a].Arriving?
    && (s.getter.Scanned? && s.getter.t.serial == b ==> Passed(s.place[a]))
    && (b < |s.place| && s.place[b] == Held ==> Passed(s.place[a]))
    && (b < |s.place| && HandedOver(s.place[b]) ==>
          Passed(s.place[a]) && (HandedOver(s.place[a]) ==> s.place[a].handout < s.place[b].handout))
  }

  ghost predicate SmallerId(s: State, a: nat, b: nat) {
    a < b < |s.ids| ==> LexLess(s.ids[a], s.ids[b])
  }

  lemma {:induction false} InOrderStep(s: State, step: Step, a: nat, b: nat)
    requires Inv(s) && Enabled(s, step) && InOrder(s, a, b) && SmallerId(s, a, b)
    ensures InOrder(Apply(s, step), a, b)
  {
    hide Inv, Apply, Enabled, LexLess, ApplyGetScan, AfterStop;
    PlaceStep(s, step, a);
    if b < |s.place| {
      PlaceStep(s, step, b);
    }
    GetterStep(s, step);
    PlaceCount(s, step);
    StopKeepsPassed(s.place[a]);
    if b < |s.place| {
      StopKeepsPassed(s.place[b]);
    }
    PlaceBounds(s, step, a);
    if step == GetScan {
      ScanIsApply(s, step);
      ScanTakesOldest(s);
      ScanKeepsPlaces(s);
    }
  }

  lemma PlaceCount(s: State, step: Step)
    requires Enabled(s, step)
    ensures if step.EnqAlloc? then Apply(s, step).place == s.place + [Arriving(step.call)]
            else |Apply(s, step).place| == |s.place|
  {
    hide Named, FeedName, HistoryAt, LastId, After, GivesNewId, PendingRows, Started, Finished, Enqueued;
  }

  lemma PlaceBounds(s: State, step: Step, a: nat)
    requires Inv(s) && Enabled(s, step) && a < |s.place|
    ensures |s.ids| == |s.place|
    ensures HandedOver(s.place[a]) ==> s.place[a].handout < |s.handed|
    ensures step.GetScan? ==> s.getter.Locked?
  {
    hide IdsInv, FeedInv, RunInv, HistoryInv, FinInv, FeedName, RunName, GivesNewId;
  }

  lemma ScanIsApply(s: State, step: Step)
    requires step == GetScan && Enabled(s, step)
    ensures s.getter.Locked? && Apply(s, step) == ApplyGetScan(s)
  {
  }

  lemma StopKeepsPassed(p: Place)
    ensures Passed(p) ==> Passed(AfterStop(p))
    ensures !p.Arriving? ==> !AfterStop(p).Arriving?
    ensures AfterStop(p) != Held && (AfterStop(p) == Pending <==> p == Pending)
    ensures HandedOver(AfterStop(p)) <==> HandedOver(p)
    ensures HandedOver(p) ==> AfterStop(p).handout == p.handout
  {
  }

  /** What a step does to the GetFeedJob call. */
  lemma GetterStep(s: State, step: Step)
    requires Inv(s) && Enabled(s, step)
    ensures var s' := Apply(s, step);
            && (s'.getter.Scanned? ==> step == GetScan || s'.getter == s.getter)
            && (step == GetPut ==> !s'.getter.Scanned?)
  {
    hide Inv, Named, FeedName, HistoryAt, LastId, After, GivesNewId, PendingRows, Started, Finished, Enqueued;
  }

  lemma ScanKeepsPlaces(s: State)
    requires s.getter.Locked?
    ensures ApplyGetScan(s).place == s.place && ApplyGetScan(s).handed == s.handed && ApplyGetScan(s).ids == s.ids
  {
  }

  lemma IdsStay(s: State, step: Step)
    requires Enabled(s, step)
    ensures s.ids <= Apply(s, step).ids
  {
  }

  lemma {:induction false} InOrderRun(w: WorkerId, ss: seq<State>, steps: seq<Step>, i: nat, j: nat, a: nat, b: nat)
    requires IsRun(w, ss, steps) && i <= j < |ss| && SmallerId(ss[j], a, b)
    requires a < |ss[i].place| <= b && !ss[i].place[a].Arriving?
    ensures InOrder(ss[j], a, b)
    decreases j
  {
    hide Inv, Apply, Enabled, LexLess;
    RunKeepsInv(w, ss, steps, j);
    if i == j {
      NotBornNotTaken(ss[i], b);
    } else {
      RunKeepsInv(w, ss, steps, j - 1);
      assert Enabled(ss[j - 1], steps[j - 1]) && ss[j - 1 + 1] == Apply(ss[j - 1], steps[j - 1]);
      IdsStay(ss[j - 1], steps[j - 1]);
      InOrderRun(w, ss, steps, i, j - 1, a, b);
      InOrderStep(ss[j - 1], steps[j - 1], a, b);
    }
  }

  lemma NotBornNotTaken(s: State, b: nat)
    requires Inv(s) && |s.place| <= b
    ensures s.getter.Scanned? ==> s.getter.t.serial != b
  {
  }

  /** First in, first out, under any interleaving and over any number of processes: when one
      EnqueJob call has returned before another begins, and its id is the smaller one, its job is
      handed out earlier, unless it is lost. */
  lemma FirstInFirstOut(w: WorkerId, ss: seq<State>, steps: seq<Step>, i: nat, j: nat, a: nat, b: nat)
    requires IsRun(w, ss, steps) && i <= j < |ss|
    requires a < |ss[i].ids| && !IsArriving(ss[i], a)  // a has returned
    requires |ss[i].ids| <= b                          // b has not begun
    requires SmallerId(ss[j], a, b)
    requires exists q :: 0 <= q < |ss[j].handed| && ss[j].handed[q].serial == b
    ensures || IsLost(ss[j], a)
            || exists p, q :: && 0 <= p < q < |ss[j].handed|
                              && ss[j].handed[p].serial == a && ss[j].handed[q].serial == b
  {
    hide IdsInv, EnqInv, FeedInv, RunInv, GetterInv, FinInv, HistoryInv, IsArriving, RunName, SmallerId;
    RunKeepsInv(w, ss, steps, i);
    IdsBounds(ss[i]);
    PlaceIsReal(ss[i], a);
    if !ss[i].place[a].Arriving? {
      InOrderRun(w, ss, steps, i, j, a, b);
      RunKeepsInv(w, ss, steps, j);
      var s := ss[j];
      var q :| 0 <= q < |s.handed| && s.handed[q].serial == b;
      if !IsLost(s, a) {
        var p := s.place[a].handout;
        assert s.handed[p].serial == a && p < q;
      }
    }
  }

  // ---------------------------------------------------- ids in order

  /** The clock reading a step takes an id with. */
  function Reading(step: Step): Option<Time> {
    match step
    case EnqAlloc(_, _, ts, _) => Some(ts)
    case GetLock(_, ts) => Some(ts)
    case GetRestamp(ts, _) => Some(ts)
    case _ => None
  }

  /** One process, whose every id is larger than its last: what Flake.NextIdIncreases asks. */
  ghost predicate ClockAdvances(ss: seq<State>, steps: seq<Step>)
    requires |ss| == |steps| + 1
  {
    forall i :: 0 <= i < |steps| ==>
      !steps[i].Restart? && (Reading(steps[i]).Some? ==> CanIssue(ss[i].gen, Reading(steps[i]).value))
  }

  ghost predicate IdsBehind(g: GenState, ids: seq<Id>) {
    Increasing(ids) && forall i :: 0 <= i < |ids| ==> Used(g, ids[i])
  }

  lemma {:induction false} IdsBehindStep(s: State, step: Step)
    requires Enabled(s, step) && IdsBehind(s.gen, s.ids) && !step.Restart?
    requires Reading(step).Some? ==> CanIssue(s.gen, Reading(step).value)
    ensures IdsBehind(Apply(s, step).gen, Apply(s, step).ids)
  {
    hide Used, LexLess, LastId, After, CanIssue;
    if Reading(step).Some? {
      NewId(s.gen, Reading(step).value);
    }
  }

  /** Then the ids increase, and all jobs are handed out in the order of their enqueues. */
  lemma {:induction false} ClockKeepsOrder(w: WorkerId, ss: seq<State>, steps: seq<Step>, i: nat)
    requires IsRun(w, ss, steps) && ClockAdvances(ss, steps) && i < |ss|
    ensures IdsBehind(ss[i].gen, ss[i].ids)
  {
    hide Apply, Enabled, Used, LexLess, CanIssue, Reading;
    if i > 0 {
      ClockKeepsOrder(w, ss, steps, i - 1);
      assert Enabled(ss[i - 1], steps[i - 1]) && ss[i - 1 + 1] == Apply(ss[i - 1], steps[i - 1]);
      IdsBehindStep(ss[i - 1], steps[i - 1]);
    }
  }

  // -------------------------------------------------- what a stop costs

  /** A job is lost exactly when a process stopped while the job's EnqueJob had an id for it and no
      row yet, or while GetFeedJob had deleted its pending row and not yet put its running row. */
  lemma {:induction false} LostIff(w: WorkerId, ss: seq<State>, steps: seq<Step>, i: nat, n: nat)
    requires IsRun(w, ss, steps) && i < |ss|
    ensures n < |ss[i].place| ==>
              (IsLost(ss[i], n)
               <==> exists j :: 0 <= j < i && steps[j].Restart? && (IsArriving(ss[j], n) || InGetter(ss[j].getter, n)))
  {
    hide Inv, Apply, Enabled, IsArriving, InGetter;
    if i > 0 {
      var s, step := ss[i - 1], steps[i - 1];
      LostIff(w, ss, steps, i - 1, n);
      RunKeepsInv(w, ss, steps, i - 1);
      assert Enabled(s, step) && ss[i - 1 + 1] == Apply(s, step);
      if n < |s.place| {
        PlaceStep(s, step, n);
        PlaceIsReal(s, n);
        RestartPlaces(s, step, n);
      } else {
        NotYetBorn(w, ss, steps, i, n);
      }
    }
  }

  lemma RestartPlaces(s: State, step: Step, n: nat)
    requires n < |s.place| && Enabled(s, step)
    ensures step.Restart? ==> n < |Apply(s, step).place| && Apply(s, step).place[n] == AfterStop(s.place[n])
  {
  }

  /** A job not enqueued yet was not lost before, and its enqueue does not lose it. */
  lemma {:induction false} NotYetBorn(w: WorkerId, ss: seq<State>, steps: seq<Step>, i: nat, n: nat)
    requires IsRun(w, ss, steps) && 0 < i < |ss| && |ss[i - 1].place| <= n
    ensures n < |ss[i].place| ==> !IsLost(ss[i], n)
    ensures forall j :: 0 <= j < i ==> !IsArriving(ss[j], n) && !InGetter(ss[j].getter, n)
  {
    hide Inv, IsArriving, InGetter, Apply, Enabled;
    assert Enabled(ss[i - 1], steps[i - 1]) && ss[i - 1 + 1] == Apply(ss[i - 1], steps[i - 1]);
    PlaceCount(ss[i - 1], steps[i - 1]);
    forall j | 0 <= j < i ensures !IsArriving(ss[j], n) && !InGetter(ss[j].getter, n) {
      PlacesGrow(w, ss, steps, j, i - 1);
      RunKeepsInv(w, ss, steps, j);
      NotBornNotThere(ss[j], n);
    }
  }

  lemma NotBornNotThere(s: State, n: nat)
    requires Inv(s) && |s.place| <= n
    ensures !IsArriving(s, n) && !InGetter(s.getter, n)
  {
  }

  lemma {:induction false} PlacesGrow(w: WorkerId, ss: seq<State>, steps: seq<Step>, i: nat, j: nat)
    requires IsRun(w, ss, steps) && i <= j < |ss|
    ensures |ss[i].place| <= |ss[j].place|
    decreases j
  {
    hide Apply, Enabled;
    if i < j {
      PlacesGrow(w, ss, steps, i, j - 1);
      assert Enabled(ss[j - 1], steps[j - 1]) && ss[j - 1 + 1] == Apply(ss[j - 1], steps[j - 1]);
      PlaceCount(ss[j - 1], steps[j - 1]);
    }
  }

  /** Within one process whose clock advances the ids are always in order and nothing is lost. */
  lemma FirstInFirstOutInOneProcess(w: WorkerId, ss: seq<State>, steps: seq<Step>, i: nat, j: nat, a: nat, b: nat)
    requires IsRun(w, ss, steps) && ClockAdvances(ss, steps) && i <= j < |ss|
    requires a < |ss[i].ids| && !IsArriving(ss[i], a)
    requires |ss[i].ids| <= b
    requires exists q :: 0 <= q < |ss[j].handed| && ss[j].handed[q].serial == b
    ensures exists p, q :: && 0 <= p < q < |ss[j].handed|
                           && ss[j].handed[p].serial == a && ss[j].handed[q].serial == b
  {
    hide Apply, Enabled, LexLess, Used, CanIssue, IsLost, IsArriving, InGetter, Inv;
    ClockKeepsOrder(w, ss, steps, j);
    FirstInFirstOut(w, ss, steps, i, j, a, b);
    RunKeepsInv(w, ss, steps, i);
    IdsBounds(ss[i]);
    PlacesGrow(w, ss, steps, i, j);
    LostIff(w, ss, steps, j, a);
  }

  // ------------------------------------- enqueues that do not overlap

  ghost predicate NoOverlap(ss: seq<State>, steps: seq<Step>)
    requires |ss| == |steps| + 1
  {
    forall i :: 0 <= i < |steps| && steps[i].EnqAlloc? ==> ss[i].enqs == map[]
  }

  /** At most the last job is on its way in, and all others are in order with later ones. */
  ghost predicate QueueInv(s: State) {
    && (forall n :: 0 <= n < |s.place| && s.place[n].Arriving? ==> n == |s.place| - 1)
    && (forall a: nat, b: nat :: a < b && a < |s.place| && !s.place[a].Arriving? ==> InOrder(s, a, b))
  }

  lemma {:induction false} QueueStep(s: State, step: Step)
    requires Inv(s) && Enabled(s, step) && QueueInv(s) && Increasing(s.ids)
    requires step.EnqAlloc? ==> s.enqs == map[]
    requires Inv(Apply(s, step))
    ensures QueueInv(Apply(s, step))
  {
    hide Apply, Enabled, Inv, InOrder, LexLess;
    var s' := Apply(s, step);
    PlaceCount(s, step);
    NobodyArrives(s, step);
    forall n: nat | n < |s.place| ensures s'.place[n].Arriving? ==> s.place[n].Arriving? {
      PlaceStep(s, step, n);
    }
    forall a: nat, b: nat | a < b && a < |s'.place| && !s'.place[a].Arriving? ensures InOrder(s', a, b) {
      if a < |s.place| && !s.place[a].Arriving? {
        InOrderStep(s, step, a, b);
      } else {
        UnbornInOrder(s', a, b);
      }
    }
  }

  lemma NobodyArrives(s: State, step: Step)
    requires Inv(s) && (step.EnqAlloc? ==> s.enqs == map[])
    ensures step.EnqAlloc? ==> forall n :: 0 <= n < |s.place| ==> !s.place[n].Arriving?
  {
    hide FeedInv, RunInv, IdsInv, GetterInv, HandedInv, FinInv, HistoryInv, FeedName, FeedAt;
  }

  lemma UnbornInOrder(s: State, a: nat, b: nat)
    requires Inv(s) && a < |s.place| <= b && !s.place[a].Arriving?
    ensures InOrder(s, a, b)
  {
    NotBornNotTaken(s, b);
  }

  lemma {:induction false} QueueRun(w: WorkerId, ss: seq<State>, steps: seq<Step>, i: nat)
    requires IsRun(w, ss, steps) && NoOverlap(ss, steps) && i < |ss| && Increasing(ss[i].ids)
    ensures QueueInv(ss[i])
  {
    hide Inv, Apply, Enabled, LexLess;
    RunKeepsInv(w, ss, steps, i);
    if i > 0 {
      RunKeepsInv(w, ss, steps, i - 1);
      assert Enabled(ss[i - 1], steps[i - 1]) && ss[i - 1 + 1] == Apply(ss[i - 1], steps[i - 1]);
      IdsStay(ss[i - 1], steps[i - 1]);
      QueueRun(w, ss, steps, i - 1);
      QueueStep(ss[i - 1], steps[i - 1]);
    }
  }

  ghost predicate HandedBefore(handed: seq<Tracked>, a: nat, q: nat)
    requires q <= |handed|
  {
    exists p :: 0 <= p < q && handed[p].serial == a
  }

  /** When enqueues do not overlap and ids increase, as they do in one process whose clock
      advances (ClockKeepsOrder), jobs are handed out in the order they were enqueued, and none is
      passed over but those lost with a process. */
  lemma {:induction false} HandedOutInOrder(w: WorkerId, ss: seq<State>, steps: seq<Step>, i: nat)
    requires IsRun(w, ss, steps) && NoOverlap(ss, steps) && i < |ss| && Increasing(ss[i].ids)
    ensures var handed := ss[i].handed;
            && (forall p, q :: 0 <= p < q < |handed| ==> handed[p].serial < handed[q].serial)
            && (forall a: nat, q :: 0 <= q < |handed| && a < handed[q].serial ==>
                  IsLost(ss[i], a) || HandedBefore(handed, a, q))
  {
    hide Apply, Enabled, LexLess, IsRun;
    QueueRun(w, ss, steps, i);
    RunKeepsInv(w, ss, steps, i);
    HandedFollows(ss[i]);
  }

  lemma {:induction false} HandedFollows(s: State)
    requires Inv(s) && QueueInv(s)
    ensures var handed := s.handed;
            && (forall p, q :: 0 <= p < q < |handed| ==> handed[p].serial < handed[q].serial)
            && (forall a: nat, q :: 0 <= q < |handed| && a < handed[q].serial ==>
                  IsLost(s, a) || HandedBefore(handed, a, q))
  {
    hide IdsInv, EnqInv, FeedInv, RunInv, GetterInv, FinInv, HistoryInv, RunName;
    forall a: nat, q | 0 <= q < |s.handed| && a < s.handed[q].serial
      ensures IsLost(s, a) || HandedBefore(s.handed, a, q)
    {
      assert InOrder(s, a, s.handed[q].serial);
      if !IsLost(s, a) {
        assert s.handed[s.place[a].handout].serial == a;
      }
    }
    forall p, q | 0 <= p < q < |s.handed| ensures s.handed[p].serial < s.handed[q].serial {
      var m, n := s.handed[p].serial, s.handed[q].serial;
      assert n < m ==> InOrder(s, n, m);
    }
  }

  /** Within one process nothing is lost, so they are a prefix of the jobs enqueued. */
  lemma {:induction false} HandedOutIsPrefix(w: WorkerId, ss: seq<State>, steps: seq<Step>, i: nat)
    requires IsRun(w, ss, steps) && NoOverlap(ss, steps) && ClockAdvances(ss, steps) && i < |ss|
    ensures |ss[i].handed| <= |ss[i].ids|
    ensures forall p :: 0 <= p < |ss[i].handed| ==> ss[i].handed[p].serial == p
  {
    hide Apply, Enabled, LexLess, Used, CanIssue, IsLost, IsArriving, InGetter, HandedBefore, Inv;
    ClockKeepsOrder(w, ss, steps, i);
    HandedOutInOrder(w, ss, steps, i);
    RunKeepsInv(w, ss, steps, i);
    HandedBounds(ss[i]);
    forall a: nat | a < |ss[i].place| ensures !IsLost(ss[i], a) {
      LostIff(w, ss, steps, i, a);
    }
    PrefixOfAll(ss[i].handed, |ss[i].handed|);
    if |ss[i].handed| > 0 {
      assert ss[i].handed[|ss[i].handed| - 1].serial == |ss[i].handed| - 1;
    }
  }

  lemma HandedBounds(s: State)
    requires Inv(s)
    ensures |s.ids| == |s.place| && forall p :: 0 <= p < |s.handed| ==> s.handed[p].serial < |s.place|
  {
    hide IdsInv, FeedInv, RunInv, GetterInv, FinInv, HistoryInv, RunName, FeedName;
  }

  lemma {:induction false} PrefixOfAll(handed: seq<Tracked>, n: nat)
    requires n <= |handed|
    requires forall p, q :: 0 <= p < q < |handed| ==> handed[p].serial < handed[q].serial
    requires forall a: nat, q: nat :: q < |handed| && a < handed[q].serial ==>
               HandedBefore(handed, a, q)
    ensures forall p :: 0 <= p < n ==> handed[p].serial == p
  {
    if n > 0 {
      PrefixOfAll(handed, n - 1);
      var m := n - 1;
      assert m > 0 ==> handed[m - 1].serial < handed[m].serial;
      assert m < handed[m].serial ==> HandedBefore(handed, m, m);
    }
  }

  // ------------------------------------------- what the messages carry

  /** The queue changes a message's key, worker and times only. */
  predicate SameWork(given: FeedJob, job: FeedJob) {
    job == given.(key := job.key, worker := job.worker, created := job.created, updated := job.updated)
  }

  /** FinishJob also its status. */
  predicate SameWorkDone(given: FeedJob, job: FeedJob) {
    SameWork(given.(status := Lit("done")), job)
  }

  /** Wherever job n is met, it is the work given; under a history key it is marked done. */
  ghost predicate Carries(s: State, n: nat, given: FeedJob) {
    RowsCarry(s, n, given) && CallsCarry(s, n, given) && HandedCarry(s, n, given)
  }

  ghost predicate RowsCarry(s: State, n: nat, given: FeedJob) {
    forall k :: k in s.rows && s.rows[k].serial == n ==>
      if InHistory(k) then SameWorkDone(given, s.rows[k].job) else SameWork(given, s.rows[k].job)
  }

  ghost predicate CallsCarry(s: State, n: nat, given: FeedJob) {
    && (forall c :: c in s.enqs && s.enqs[c].t.serial == n ==> SameWork(given, s.enqs[c].t.job))
    && ((s.getter.Scanned? || s.getter.Deleted? || s.getter.Restamped?) && s.getter.t.serial == n ==>
          SameWork(given, s.getter.t.job))
  }

  ghost predicate HandedCarry(s: State, n: nat, given: FeedJob) {
    forall i :: 0 <= i < |s.handed| && s.handed[i].serial == n ==> SameWork(given, s.handed[i].job)
  }

  /** No message of a job that is not enqueued yet. */
  ghost predicate AllBorn(s: State) {
    && (forall k :: k in s.rows ==> s.rows[k].serial < |s.ids|)
    && (forall c :: c in s.enqs ==> s.enqs[c].t.serial < |s.ids|)
    && (s.getter.Scanned? || s.getter.Deleted? || s.getter.Restamped? ==> s.getter.t.serial < |s.ids|)
    && (forall i :: 0 <= i < |s.handed| ==> s.handed[i].serial < |s.ids|)
  }

  lemma {:induction false} BornStep(s: State, step: Step)
    requires Inv(s) && AllBorn(s) && Enabled(s, step)
    ensures AllBorn(Apply(s, step))
  {
    hide Inv, Named, FeedName, RunName, FeedAt, RunAt, HistoryAt, LastId, After, GivesNewId, Started, Finished,
         Enqueued, InFeed, InRunning, Least;
    IdsBounds(s);
  }

  /** The keys that rows are put under, by table. */
  lemma PutKeys(s: State)
    requires Inv(s)
    ensures forall c :: c in s.enqs ==> !InHistory(s.enqs[c].key)
    ensures s.getter.Restamped? ==> !InHistory(s.getter.key)
    ensures forall i :: 0 <= i < |s.handed| ==> InHistory(HistoryAt(s.handed[i].job.targetId))
  {
    hide IdsInv, FeedInv, RunInv, FinInv, HistoryInv, HandedInv, InHistory, FeedAt, RunAt, HistoryAt, FeedName, RunName;
    forall c | c in s.enqs ensures !InHistory(s.enqs[c].key) {
      FeedKeyFacts(s.ids[s.enqs[c].t.serial]);
    }
    if s.getter.Restamped? {
      RunKeyFacts(s.run[s.getter.t.serial]);
    }
    forall i | 0 <= i < |s.handed| ensures InHistory(HistoryAt(s.handed[i].job.targetId)) {
      HistoryKeyFacts(s.handed[i].job.targetId);
    }
  }

  lemma {:induction false} CarriesStep(s: State, step: Step, n: nat, given: FeedJob)
    requires Inv(s) && Enabled(s, step) && n < |s.ids| && Carries(s, n, given)
    ensures Carries(Apply(s, step), n, given)
  {
    hide Inv, Apply, Enabled, RowsCarry, CallsCarry, HandedCarry;
    RowsCarryStep(s, step, n, given);
    CallsCarryStep(s, step, n, given);
    HandedCarryStep(s, step, n, given);
  }

  lemma {:induction false} RowsCarryStep(s: State, step: Step, n: nat, given: FeedJob)
    requires Inv(s) && Enabled(s, step) && Carries(s, n, given)
    ensures RowsCarry(Apply(s, step), n, given)
  {
    hide Inv, Named, FeedName, RunName, FeedAt, RunAt, HistoryAt, LastId, After, GivesNewId, InFeed, InRunning,
         InHistory, Least, PendingRows, Enqueued, Started;
    PutKeys(s);
  }

  lemma {:induction false} CallsCarryStep(s: State, step: Step, n: nat, given: FeedJob)
    requires Inv(s) && Enabled(s, step) && n < |s.ids| && Carries(s, n, given)
    ensures CallsCarry(Apply(s, step), n, given)
  {
    hide Inv, Named, FeedName, RunName, FeedAt, RunAt, HistoryAt, LastId, After, GivesNewId, InFeed, InRunning,
         InHistory, Least, Finished, HandedCarry;
    IdsBounds(s);
    if step == GetScan && PendingRows(s) != {} {
      OneTableEach(Least(PendingRows(s)));
    }
  }

  lemma {:induction false} HandedCarryStep(s: State, step: Step, n: nat, given: FeedJob)
    requires Enabled(s, step) && Carries(s, n, given)
    ensures HandedCarry(Apply(s, step), n, given)
  {
    hide Named, FeedName, RunName, FeedAt, RunAt, HistoryAt, LastId, After, GivesNewId, PendingRows, InHistory, Least,
         Finished, Started, Enqueued, RowsCarry;
  }

  lemma {:induction false} CarriesFirst(s: State, step: Step)
    requires Inv(s) && AllBorn(s) && Enabled(s, step) && step.EnqAlloc?
    ensures |Apply(s, step).ids| == |s.ids| + 1 && Carries(Apply(s, step), |s.ids|, step.job)
  {
    hide Inv, Named, FeedName, FeedAt, LastId, After, GivesNewId, InHistory;
  }

  lemma {:induction false} BornRun(w: WorkerId, ss: seq<State>, steps: seq<Step>, i: nat)
    requires IsRun(w, ss, steps) && i < |ss|
    ensures AllBorn(ss[i])
  {
    hide Inv, Apply, Enabled;
    if i > 0 {
      BornRun(w, ss, steps, i - 1);
      RunKeepsInv(w, ss, steps, i - 1);
      assert Enabled(ss[i - 1], steps[i - 1]) && ss[i - 1 + 1] == Apply(ss[i - 1], steps[i - 1]);
      BornStep(ss[i - 1], steps[i - 1]);
    }
  }

  /** From its enqueue on, over any interleaving and any number of processes, every message about a
      job, stored, under way or handed out, carries the work given to EnqueJob. */
  lemma {:induction false} WorkIsCarried(w: WorkerId, ss: seq<State>, steps: seq<Step>, j: nat, i: nat)
    requires IsRun(w, ss, steps) && j < i < |ss| && steps[j].EnqAlloc?
    ensures |ss[j].ids| < |ss[i].ids| && Carries(ss[i], |ss[j].ids|, steps[j].job)
    decreases i
  {
    hide Inv, Apply, Enabled, Carries, AllBorn;
    RunKeepsInv(w, ss, steps, i - 1);
    assert Enabled(ss[i - 1], steps[i - 1]) && ss[i - 1 + 1] == Apply(ss[i - 1], steps[i - 1]);
    if i == j + 1 {
      BornRun(w, ss, steps, j);
      CarriesFirst(ss[j], steps[j]);
    } else {
      WorkIsCarried(w, ss, steps, j, i - 1);
      IdsStay(ss[i - 1], steps[i - 1]);
      CarriesStep(ss[i - 1], steps[i - 1], |ss[j].ids|, steps[j].job);
    }
  }

  /** The EnqueJob call that job n stems from. */
  lemma {:induction false} EnqueueOf(w: WorkerId, ss: seq<State>, steps: seq<Step>, i: nat, n: nat) returns (j: nat)
    requires IsRun(w, ss, steps) && i < |ss| && n < |ss[i].ids|
    ensures j < i && steps[j].EnqAlloc? && |ss[j].ids| == n
  {
    hide Inv, Apply, Enabled;
    assert Enabled(ss[i - 1], steps[i - 1]) && ss[i - 1 + 1] == Apply(ss[i - 1], steps[i - 1]);
    IdCount(ss[i - 1], steps[i - 1]);
    if n < |ss[i - 1].ids| {
      j := EnqueueOf(w, ss, steps, i - 1, n);
    } else {
      j := i - 1;
    }
  }

  lemma IdCount(s: State, step: Step)
    requires Enabled(s, step)
    ensures |Apply(s, step).ids| == |s.ids| + if step.EnqAlloc? then 1 else 0
  {
  }

  /** What GetFeedJob hands out is the work given to the EnqueJob call it stems from, in every field
      but key, worker and times. */
  lemma HandedOutAsGiven(w: WorkerId, ss: seq<State>, steps: seq<Step>, i: nat, h: nat) returns (j: nat)
    requires IsRun(w, ss, steps) && i < |ss| && h < |ss[i].handed|
    ensures j < i && steps[j].EnqAlloc? && |ss[j].ids| == ss[i].handed[h].serial
    ensures var given, job := steps[j].job, ss[i].handed[h].job;
            && job.id == given.id && job.remoteKey == given.remoteKey && job.targetId == given.targetId
            && job.status == given.status && job.maxLimit == given.maxLimit && job.payload == given.payload
  {
    hide Inv, Apply, Enabled;
    BornRun(w, ss, steps, i);
    j := EnqueueOf(w, ss, steps, i, ss[i].handed[h].serial);
    WorkIsCarried(w, ss, steps, j, i);
  }

  /** So the target marked as archived when a job is finished is the one it was enqueued for. */
  lemma FinishedAsGiven(w: WorkerId, ss: seq<State>, steps: seq<Step>, i: nat, n: nat) returns (j: nat)
    requires IsRun(w, ss, steps) && i < |ss| && IsFinished(ss[i], n)
    ensures j < i && steps[j].EnqAlloc? && |ss[j].ids| == n && HistoryAt(steps[j].job.targetId) in ss[i].rows
  {
    hide Inv, Apply, Enabled, HistoryAt, IsFinished;
    FinishedForGood(w, ss, steps, i, i, n);
    var h :| && 0 <= h < |ss[i].handed| && ss[i].handed[h].serial == n
             && HistoryAt(ss[i].handed[h].job.targetId) in ss[i].rows;
    j := HandedOutAsGiven(w, ss, steps, i, h);
  }
}
