/** The public index as many callers drive it: Push and rebuild of server/index.go cut into
    their steps and interleaved in any order. Both hold the index's lock, except that rebuild
    looks at `dirty` before it takes it. */
module IndexProtocol {
  import opened Bytes
  import opened PublicIndex

  /** How far a rebuild has come: the buffer it replaces, the keys it has read (bookkeeping),
      and the slot counter and key set of its loops. */
  datatype Fill = Fill(oldbuf: seq<text>, seen: seq<text>, i: nat, index: set<text>)

  /** Who holds the lock, by what the call has done. */
  datatype Holder =
    | Free
    | PushLocked(key: text)
    | PushAdded
    | PushMarked
    | ReadingQueue(call: nat, fill: Fill, j: nat)
    | Draining(call: nat, fill: Fill)
    | ReadingOld(call: nat, fill: Fill, j: nat)
    | Filled(call: nat)
    | Cleared(call: nat)
  {
    predicate Rebuilding() {
      ReadingQueue? || Draining? || ReadingOld?
    }

    predicate InRebuild() {
      Rebuilding() || Filled? || Cleared?
    }
  }

  datatype State = State(
    holder: Holder,
    iq: seq<text>,
    dirty: bool,
    bufq: seq<text>,
    waiting: set<nat>,     // rebuild calls that saw dirty and want the lock
    // bookkeeping; no step reads it to choose what it does
    pushed: seq<text>,     // the keys added, oldest first
    returned: nat,         // how many pushes have released the lock
    applied: nat,          // how many of them the buffer has taken in
    began: map<nat, nat>,  // rebuild calls, and how many pushes had returned when each looked
    done: set<nat>)        // rebuild calls that have returned

  datatype Step =
    | PushLock(key: text)
    | PushAdd
    | PushMark
    | PushUnlock
    | Look(call: nat)
    | RebuildLock(call: nat)
    | ReadQueue
    | Drain
    | ReadOld
    | ClearDirty
    | RebuildUnlock

  /** A buffer as loaded or new, nothing pushed yet. */
  function Init(buf: seq<text>): State {
    State(Free, [], false, buf, {}, [], 0, 0, map[], {})
  }

  predicate Enabled(s: State, step: Step) {
    match step
    case PushLock(_) => s.holder.Free?
    case PushAdd => s.holder.PushLocked?
    case PushMark => s.holder.PushAdded?
    case PushUnlock => s.holder.PushMarked?
    case Look(call) => call !in s.began
    case RebuildLock(call) => s.holder.Free? && call in s.waiting
    case ReadQueue => s.holder.ReadingQueue? && s.holder.j <= |s.iq|
    case Drain => s.holder.Draining?
    case ReadOld => s.holder.ReadingOld? && (s.holder.fill.i < MIN_QUEUE ==> s.holder.j < |s.holder.fill.oldbuf|)
    case ClearDirty => s.holder.Filled?
    case RebuildUnlock => s.holder.Cleared?
  }

  function Apply(s: State, step: Step): State
    requires Enabled(s, step)
  {
    match step
    case PushLock(key) => s.(holder := PushLocked(key))
    case PushAdd => s.(holder := PushAdded, iq := s.iq + [s.holder.key], pushed := s.pushed + [s.holder.key])
    case PushMark => s.(holder := PushMarked, dirty := true)
    case PushUnlock => s.(holder := Free, returned := s.returned + 1)
    case Look(call) => ApplyLook(s, call)
    case RebuildLock(call) => ApplyRebuildLock(s, call)
    case ReadQueue => ApplyReadQueue(s)
    case Drain => ApplyDrain(s)
    case ReadOld => ApplyReadOld(s)
    case ClearDirty => s.(holder := Cleared(s.holder.call), dirty := false)
    case RebuildUnlock => s.(holder := Free, done := s.done + {s.holder.call})
  }

  /** The unlocked read of dirty: go on to the lock, or return at once. */
  function ApplyLook(s: State, call: nat): State {
    var s' := s.(began := s.began[call := s.returned]);
    if s.dirty then s'.(waiting := s.waiting + {call}) else s'.(done := s.done + {call})
  }

  function ApplyRebuildLock(s: State, call: nat): State {
    s.(holder := ReadingQueue(call, Fill(s.bufq, [], 0, {}), 0), bufq := Pad([]), waiting := s.waiting - {call})
  }

  /** The item goes into the next slot unless it is there already. */
  function AddItem(f: Fill, item: text): Fill {
    var f' := f.(seen := f.seen + [item]);
    if item in f.index then f' else f'.(i := f.i + 1, index := f.index + {item})
  }

  function PutItem(buf: seq<text>, f: Fill, item: text): seq<text> {
    if item in f.index || f.i >= |buf| then buf else buf[f.i := item]
  }

  /** One turn of the first loop, or its end. */
  function ApplyReadQueue(s: State): State
    requires s.holder.ReadingQueue? && s.holder.j <= |s.iq|
  {
    var ReadingQueue(call, f, j) := s.holder;
    if j == |s.iq| || f.i >= MIN_QUEUE then s.(holder := Draining(call, f))
    else
      var item := s.iq[|s.iq| - j - 1];
      s.(holder := ReadingQueue(call, AddItem(f, item), j + 1), bufq := PutItem(s.bufq, f, item))
  }

  function ApplyDrain(s: State): State
    requires s.holder.Draining?
  {
    if s.iq == [] then s.(holder := ReadingOld(s.holder.call, s.holder.fill, 0)) else s.(iq := s.iq[1..])
  }

  /** One turn of the second loop, or its end. */
  function ApplyReadOld(s: State): State
    requires s.holder.ReadingOld? && (s.holder.fill.i < MIN_QUEUE ==> s.holder.j < |s.holder.fill.oldbuf|)
  {
    var ReadingOld(call, f, j) := s.holder;
    if f.i >= MIN_QUEUE || f.oldbuf[j] == BLANK then s.(holder := Filled(call), applied := |s.pushed|)
    else s.(holder := ReadingOld(call, AddItem(f, f.oldbuf[j]), j + 1), bufq := PutItem(s.bufq, f, f.oldbuf[j]))
  }

  // ----------------------------------------------------------- invariant

  /** The buffer holds the newest of the keys and of what was loaded, and rebuilding it again
      stays inside its array. */
  ghost predicate Agrees(loaded: seq<text>, buf: seq<text>, keys: seq<text>) {
    && |buf| == MIN_QUEUE
    && (BLANK in buf || Distinct(buf))
    && (BLANK !in keys ==> buf == Pad(Recent(Reverse(keys) + loaded)))
  }

  ghost predicate CallsInv(s: State) {
    && (forall c :: c in s.done ==> c in s.began && s.began[c] <= s.applied)
    && (forall c :: c in s.waiting ==> c in s.began && s.began[c] <= s.returned)
    && (s.holder.InRebuild() ==> s.holder.call in s.began && s.began[s.holder.call] <= s.returned)
  }

  /** What dirty says, by who holds the lock. */
  predicate FlagInv(s: State) {
    && s.applied <= s.returned
    && |s.pushed| == s.returned + (if s.holder.PushAdded? || s.holder.PushMarked? then 1 else 0)
    && match s.holder
       case PushMarked => s.dirty
       case Filled(_) => s.applied == s.returned
       case Cleared(_) => s.applied == s.returned && !s.dirty
       case _ => s.dirty <==> s.applied < s.returned
  }

  function Queue(s: State): seq<text>
    requires s.applied <= |s.pushed|
  {
    s.pushed[s.applied..]
  }

  /** How far the loops have read `all`, which is the queue, newest first, and the old keys. */
  ghost predicate ReadInv(h: Holder, iq: seq<text>, queue: seq<text>)
    requires h.Rebuilding()
  {
    var pushed, stored := Reverse(queue), UntilBlank(h.fill.oldbuf);
    && h.fill.seen <= pushed + stored
    && match h
       case ReadingQueue(_, f, j) => iq == queue && j <= |queue| && f.seen == pushed[..j]
       case Draining(_, f) => f.i < MIN_QUEUE ==> f.seen == pushed
       case ReadingOld(_, f, j) => iq == [] && (f.i < MIN_QUEUE ==> j <= |stored| && f.seen == pushed + stored[..j])
  }

  ghost predicate BufferInv(loaded: seq<text>, s: State)
    requires s.applied <= |s.pushed|
  {
    if s.holder.Rebuilding() then
      var f := s.holder.fill;
      && Agrees(loaded, f.oldbuf, s.pushed[..s.applied])
      && Progress(f.seen, f.i, f.index, s.bufq)
      && ReadInv(s.holder, s.iq, Queue(s))
    else
      s.iq == Queue(s) && Agrees(loaded, s.bufq, s.pushed[..s.applied])
  }

  ghost predicate Inv(loaded: seq<text>, s: State) {
    CallsInv(s) && FlagInv(s) && BufferInv(loaded, s)
  }

  lemma InitInv(buf: seq<text>)
    requires WellFormed(buf)
    ensures Inv(UntilBlank(buf), Init(buf))
  {
    hide Dedup, Pad, Reverse, UntilBlank, WellFormed;
    LoadedIsRecent(buf);
    assert Queue(Init(buf)) == [];
  }

  // ------------------------------------------------- every step keeps it

  lemma {:induction false} StepInv(loaded: seq<text>, s: State, step: Step)
    requires BLANK !in loaded && Inv(loaded, s) && Enabled(s, step)
    ensures Inv(loaded, Apply(s, step))
  {
    hide BufferInv, FlagInv, CallsInv, Apply;
    StepFlag(s, step);
    ApplyIs(s, step);
    StepCalls(s, step);
    match step
    case ReadQueue => ReadQueueKeepsBuffer(loaded, s);
    case Drain => DrainKeepsBuffer(loaded, s);
    case ReadOld => ReadOldKeepsBuffer(loaded, s);
    case RebuildLock(call) => LockKeepsBuffer(loaded, s, call);
    case _ => OthersKeepBuffer(loaded, s, step);
  }

  lemma StepFlag(s: State, step: Step)
    requires FlagInv(s) && Enabled(s, step)
    ensures FlagInv(Apply(s, step))
    ensures s.applied <= Apply(s, step).applied && s.returned <= Apply(s, step).returned
    ensures s.pushed <= Apply(s, step).pushed
  {
    hide AddItem, PutItem, Pad;
  }

  lemma StepCalls(s: State, step: Step)
    requires FlagInv(s) && CallsInv(s) && Enabled(s, step)
    ensures CallsInv(Apply(s, step))
    ensures forall c :: c in s.began ==> c in Apply(s, step).began && Apply(s, step).began[c] == s.began[c]
  {
    hide AddItem, PutItem, Pad;
  }

  lemma ApplyIs(s: State, step: Step)
    requires Enabled(s, step)
    ensures step.ReadQueue? ==> Apply(s, step) == ApplyReadQueue(s)
    ensures step.Drain? ==> Apply(s, step) == ApplyDrain(s)
    ensures step.ReadOld? ==> Apply(s, step) == ApplyReadOld(s)
    ensures step.RebuildLock? ==> Apply(s, step) == ApplyRebuildLock(s, step.call)
  {
    hide AddItem, PutItem, Pad;
  }

  lemma OthersKeepBuffer(loaded: seq<text>, s: State, step: Step)
    requires FlagInv(s) && BufferInv(loaded, s) && Enabled(s, step)
    requires !(step.ReadQueue? || step.Drain? || step.ReadOld? || step.RebuildLock?)
    ensures Apply(s, step).applied <= |Apply(s, step).pushed| && BufferInv(loaded, Apply(s, step))
  {
    hide Agrees, Progress, ReadInv;
    if step == PushAdd {
      assert Apply(s, step).pushed[..s.applied] == s.pushed[..s.applied];
    }
  }

  lemma LockKeepsBuffer(loaded: seq<text>, s: State, call: nat)
    requires FlagInv(s) && BufferInv(loaded, s) && s.holder.Free?
    ensures BufferInv(loaded, ApplyRebuildLock(s, call))
  {
    hide Agrees, Dedup, UntilBlank;
    NothingSeen(Pad([]));
    assert Reverse(Queue(s))[..0] == [];
  }

  lemma ReadQueueKeepsBuffer(loaded: seq<text>, s: State)
    requires FlagInv(s) && BufferInv(loaded, s) && s.holder.ReadingQueue? && s.holder.j <= |s.iq|
    ensures BufferInv(loaded, ApplyReadQueue(s))
  {
    hide Agrees, Progress, UntilBlank, Reverse;
    var ReadingQueue(call, f, j) := s.holder;
    var pushed := Reverse(Queue(s));
    assert pushed[..|pushed|] == pushed;
    ProgressBounds(f, s.bufq);
    if j < |s.iq| && f.i < MIN_QUEUE {
      var item := s.iq[|s.iq| - j - 1];
      TurnKeepsProgress(f, s.bufq, item);
      assert pushed[..j + 1] == pushed[..j] + [item];
    }
  }

  lemma DrainKeepsBuffer(loaded: seq<text>, s: State)
    requires FlagInv(s) && BufferInv(loaded, s) && s.holder.Draining?
    ensures BufferInv(loaded, ApplyDrain(s))
  {
    hide Agrees, Progress, UntilBlank, Reverse;
    var stored := UntilBlank(s.holder.fill.oldbuf);
    assert Reverse(Queue(s)) + stored[..0] == Reverse(Queue(s));
  }

  lemma ReadOldKeepsBuffer(loaded: seq<text>, s: State)
    requires BLANK !in loaded && FlagInv(s) && BufferInv(loaded, s) && Enabled(s, ReadOld)
    ensures BufferInv(loaded, ApplyReadOld(s))
  {
    hide Progress, UntilBlank, Reverse, Agrees, AddItem, PutItem, Rebuilt;
    var ReadingOld(call, f, j) := s.holder;
    var pushed := Reverse(Queue(s));
    if f.i >= MIN_QUEUE || f.oldbuf[j] == BLANK {
      AllRead(f, j, pushed);
      FillDone(loaded, s, pushed + UntilBlank(f.oldbuf));
      assert s.pushed[..|s.pushed|] == s.pushed && s.pushed[|s.pushed|..] == [];
    } else {
      TurnKeepsProgress(f, s.bufq, f.oldbuf[j]);
      OldTurnReads(f, j, pushed);
    }
  }

  lemma OldTurnReads(f: Fill, j: nat, pushed: seq<text>)
    requires j < |f.oldbuf| && f.oldbuf[j] != BLANK
    requires j <= |UntilBlank(f.oldbuf)| && f.seen == pushed + UntilBlank(f.oldbuf)[..j]
    ensures var stored, f' := UntilBlank(f.oldbuf), AddItem(f, f.oldbuf[j]);
            j + 1 <= |stored| && f'.oldbuf == f.oldbuf && f'.seen == pushed + stored[..j + 1] <= pushed + stored
  {
    hide UntilBlank;
    StoredAt(f.oldbuf, j);
    var stored := UntilBlank(f.oldbuf);
    assert stored[..j + 1] == stored[..j] + [stored[j]];
    assert pushed + stored == pushed + stored[..j + 1] + stored[j + 1..];
  }

  lemma ProgressBounds(f: Fill, buf: seq<text>)
    requires Progress(f.seen, f.i, f.index, buf)
    ensures f.i <= MIN_QUEUE && |buf| == MIN_QUEUE
  {
  }

  lemma StoredAt(oldbuf: seq<text>, j: nat)
    requires j < |oldbuf| && j <= |UntilBlank(oldbuf)| && oldbuf[j] != BLANK
    ensures j < |UntilBlank(oldbuf)| && UntilBlank(oldbuf)[j] == oldbuf[j]
  {
  }

  lemma TurnKeepsProgress(f: Fill, buf: seq<text>, item: text)
    requires Progress(f.seen, f.i, f.index, buf) && f.i < MIN_QUEUE
    ensures var f' := AddItem(f, item); Progress(f'.seen, f'.i, f'.index, PutItem(buf, f, item))
  {
    hide Progress;
    ProgressBounds(f, buf);
    ProgressStep(f.seen, f.i, f.index, buf, item);
  }

  /** When the second loop ends, all is read, or 500 keys are found. */
  lemma AllRead(f: Fill, j: nat, pushed: seq<text>)
    requires f.i >= MIN_QUEUE || (j < |f.oldbuf| && f.oldbuf[j] == BLANK)
    requires f.i < MIN_QUEUE ==> j <= |UntilBlank(f.oldbuf)| && f.seen == pushed + UntilBlank(f.oldbuf)[..j]
    ensures f.i >= MIN_QUEUE || f.seen == pushed + UntilBlank(f.oldbuf)
  {
    var stored := UntilBlank(f.oldbuf);
    assert j < |stored| ==> stored[j] == f.oldbuf[j] && stored[j] in stored;
    assert stored[..|stored|] == stored;
  }

  /** The buffer then agrees with all pushes. */
  lemma {:induction false} FillDone(loaded: seq<text>, s: State, all: seq<text>)
    requires BLANK !in loaded && s.holder.Rebuilding() && s.applied <= |s.pushed|
    requires var f := s.holder.fill;
             && Agrees(loaded, f.oldbuf, s.pushed[..s.applied]) && Progress(f.seen, f.i, f.index, s.bufq)
             && all == Reverse(Queue(s)) + UntilBlank(f.oldbuf) && f.seen <= all
             && (f.i >= MIN_QUEUE || f.seen == all)
    ensures s.bufq == Pad(Rebuilt(Queue(s), s.holder.fill.oldbuf)) && Agrees(loaded, s.bufq, s.pushed)
  {
    hide Dedup, Pad, UntilBlank, Reverse, Recent, Progress;
    var f := s.holder.fill;
    ProgressBounds(f, s.bufq);
    assert all == f.seen + all[|f.seen|..];
    ProgressDone(f.seen, all[|f.seen|..], f.i, f.index, s.bufq);
    RebuiltAgrees(loaded, f.oldbuf, s.pushed[..s.applied], Queue(s));
    assert s.pushed[..s.applied] + Queue(s) == s.pushed;
  }

  lemma RebuiltAgrees(loaded: seq<text>, oldbuf: seq<text>, applied: seq<text>, queue: seq<text>)
    requires BLANK !in loaded && Agrees(loaded, oldbuf, applied)
    ensures Agrees(loaded, Pad(Rebuilt(queue, oldbuf)), applied + queue)
  {
    hide Dedup, Pad, UntilBlank, Reverse, Recent, Rebuilt;
    RebuildSafeAgain(queue, oldbuf);
    if BLANK !in applied + queue {
      assert forall k :: k in applied ==> k in applied + queue;
      assert forall k :: k in queue ==> k in applied + queue;
      RebuiltFromHistory(applied, queue, loaded);
    }
  }

  // ------------------------------------------------------ runs and safety

  /** The states of a run from a buffer and the steps between them. */
  ghost predicate IsRun(buf: seq<text>, ss: seq<State>, steps: seq<Step>) {
    && WellFormed(buf)
    && |ss| == |steps| + 1
    && ss[0] == Init(buf)
    && forall i :: 0 <= i < |steps| ==> Enabled(ss[i], steps[i]) && ss[i + 1] == Apply(ss[i], steps[i])
  }

  lemma {:induction false} RunKeepsInv(buf: seq<text>, ss: seq<State>, steps: seq<Step>, i: nat)
    requires IsRun(buf, ss, steps) && i < |ss|
    ensures Inv(UntilBlank(buf), ss[i])
  {
    hide Inv, Apply, Enabled, UntilBlank, WellFormed;
    if i == 0 {
      InitInv(buf);
    } else {
      RunKeepsInv(buf, ss, steps, i - 1);
      assert Enabled(ss[i - 1], steps[i - 1]) && ss[i - 1 + 1] == Apply(ss[i - 1], steps[i - 1]);
      StepInv(UntilBlank(buf), ss[i - 1], steps[i - 1]);
    }
  }

  /** A look at dirty without the lock that answers false, at any moment of any run: every key
      whose Push has released the lock is in what the buffer was made from. */
  lemma LookMissesNothing(buf: seq<text>, ss: seq<State>, steps: seq<Step>, i: nat)
    requires IsRun(buf, ss, steps) && i < |steps| && steps[i].Look? && !ss[i].dirty
    ensures ss[i].applied == ss[i].returned
  {
    hide CallsInv, BufferInv, Apply, Enabled;
    RunKeepsInv(buf, ss, steps, i);
  }

  /** Whenever the lock is free the buffer is the newest 500 of the keys applied and loaded,
      the others are queued, and dirty says whether there are any. */
  lemma FreeIsRecent(buf: seq<text>, ss: seq<State>, steps: seq<Step>, i: nat)
    requires IsRun(buf, ss, steps) && i < |ss| && ss[i].holder.Free?
    ensures var s := ss[i];
            && s.applied <= s.returned == |s.pushed|
            && s.iq == s.pushed[s.applied..] && (s.dirty <==> s.iq != [])
            && (BLANK !in s.pushed ==> s.bufq == Pad(Recent(Reverse(s.pushed[..s.applied]) + UntilBlank(buf))))
  {
    hide CallsInv, Apply, Enabled, Dedup, Pad, Reverse, UntilBlank, Recent;
    RunKeepsInv(buf, ss, steps, i);
  }

  /** Neither loop of rebuild ever leaves its arrays, so none of its steps gets stuck. */
  lemma {:induction false} RebuildNeverStuck(buf: seq<text>, ss: seq<State>, steps: seq<Step>, i: nat)
    requires IsRun(buf, ss, steps) && i < |ss| && ss[i].holder.InRebuild()
    ensures var s := ss[i];
            && (s.holder.ReadingQueue? ==> Enabled(s, ReadQueue)) && (s.holder.Draining? ==> Enabled(s, Drain))
            && (s.holder.ReadingOld? ==> Enabled(s, ReadOld))
            && (s.holder.Rebuilding() ==> s.holder.fill.i <= |s.bufq|)
  {
    hide CallsInv, Apply, Dedup, Pad, Reverse, UntilBlank, Recent, Progress, InBounds;
    RunKeepsInv(buf, ss, steps, i);
    var s := ss[i];
    if s.holder.Rebuilding() {
      ProgressBounds(s.holder.fill, s.bufq);
    }
    if s.holder.ReadingOld? && s.holder.fill.i < MIN_QUEUE {
      var f, stored := s.holder.fill, UntilBlank(s.holder.fill.oldbuf);
      SafeBuffer(Queue(s), f.oldbuf);
      assert f.seen + stored[s.holder.j..] == Reverse(Queue(s)) + stored;
      BoundHolds(Queue(s), f.oldbuf, s.holder.j, f.seen, f.i, f.index, s.bufq);
    }
  }

  // ------------------------------------------------- what a rebuild covers

  lemma {:induction false} BeganStays(buf: seq<text>, ss: seq<State>, steps: seq<Step>, i: nat, j: nat, c: nat)
    requires IsRun(buf, ss, steps) && i <= j < |ss| && c in ss[i].began
    ensures c in ss[j].began && ss[j].began[c] == ss[i].began[c]
    decreases j
  {
    hide Apply, Enabled, FlagInv, CallsInv, BufferInv;
    if i < j {
      BeganStays(buf, ss, steps, i, j - 1, c);
      RunKeepsInv(buf, ss, steps, j - 1);
      assert Enabled(ss[j - 1], steps[j - 1]) && ss[j - 1 + 1] == Apply(ss[j - 1], steps[j - 1]);
      StepCalls(ss[j - 1], steps[j - 1]);
    }
  }

  /** When a rebuild call returns, having found nothing to do or having rebuilt the buffer,
      every key whose Push had released the lock before the call began is applied. */
  lemma RebuildCoversEarlierPushes(buf: seq<text>, ss: seq<State>, steps: seq<Step>, i: nat, j: nat, c: nat)
    requires IsRun(buf, ss, steps) && i < |steps| && steps[i] == Look(c)
    requires i < j < |ss| && c in ss[j].done
    ensures ss[i].returned <= ss[j].applied
  {
    hide FlagInv, BufferInv, UntilBlank, WellFormed;
    assert ss[i + 1] == Apply(ss[i], steps[i]);
    BeganStays(buf, ss, steps, i + 1, j, c);
    RunKeepsInv(buf, ss, steps, j);
  }

  /** Rebuilds that lock with nothing queued, as those that raced past the look do, leave the
      buffer as it was, however many run. */
  lemma RacedRebuildsChangeNothing(buf: seq<text>, ss: seq<State>, steps: seq<Step>, i: nat, j: nat)
    requires IsRun(buf, ss, steps) && i <= j < |ss| && ss[i].holder.Free? && ss[j].holder.Free?
    requires ss[i].iq == [] && ss[j].pushed == ss[i].pushed && BLANK !in ss[i].pushed
    ensures ss[j].bufq == ss[i].bufq && ss[j].iq == []
  {
    hide Apply, Enabled, Dedup, Pad, Reverse, UntilBlank, Recent, WellFormed;
    FreeIsRecent(buf, ss, steps, i);
    FreeIsRecent(buf, ss, steps, j);
    AppliedGrows(buf, ss, steps, i, j);
    assert ss[i].applied == |ss[i].pushed| == ss[j].applied;
  }

  lemma {:induction false} AppliedGrows(buf: seq<text>, ss: seq<State>, steps: seq<Step>, i: nat, j: nat)
    requires IsRun(buf, ss, steps) && i <= j < |ss|
    ensures ss[i].applied <= ss[j].applied && ss[i].pushed <= ss[j].pushed
    decreases j
  {
    hide Apply, Enabled, FlagInv, CallsInv, BufferInv;
    if i < j {
      AppliedGrows(buf, ss, steps, i, j - 1);
      RunKeepsInv(buf, ss, steps, j - 1);
      assert Enabled(ss[j - 1], steps[j - 1]) && ss[j - 1 + 1] == Apply(ss[j - 1], steps[j - 1]);
      StepFlag(ss[j - 1], steps[j - 1]);
    }
  }

  // ------------------------------------------------- the whole call

  /** A rebuild that found the queue and the buffer so: what it works on, or has made of them. */
  ghost predicate Remakes(s: State, queue: seq<text>, before: seq<text>) {
    && s.applied <= |s.pushed|
    && if s.holder.Rebuilding() then s.holder.fill.oldbuf == before && Queue(s) == queue
       else s.bufq == Pad(Rebuilt(queue, before))
  }

  /** One step of the call that holds the lock, between its lock and its unlock. */
  lemma {:induction false} HeldStep(loaded: seq<text>, s: State, step: Step, queue: seq<text>, before: seq<text>)
    requires BLANK !in loaded && Inv(loaded, s) && Enabled(s, step)
    requires s.holder.InRebuild() && Apply(s, step).holder.InRebuild() && Remakes(s, queue, before)
    ensures Remakes(Apply(s, step), queue, before)
  {
    hide Dedup, Pad, Reverse, UntilBlank, Recent, Rebuilt, Progress, Agrees, CallsInv, PutItem;
    StepFlag(s, step);
    if step == ReadOld {
      var ReadingOld(call, f, j) := s.holder;
      if f.i >= MIN_QUEUE || f.oldbuf[j] == BLANK {
        AllRead(f, j, Reverse(queue));
        FillDone(loaded, s, Reverse(queue) + UntilBlank(f.oldbuf));
      }
    }
  }

  lemma JustLocked(loaded: seq<text>, s: State, call: nat)
    requires Inv(loaded, s) && Enabled(s, RebuildLock(call))
    ensures Remakes(Apply(s, RebuildLock(call)), s.iq, s.bufq)
  {
    hide Agrees, Pad, CallsInv;
  }

  lemma {:induction false} RemakesRun(buf: seq<text>, ss: seq<State>, steps: seq<Step>, i: nat, j: nat)
    requires IsRun(buf, ss, steps) && i < j < |ss| && steps[i].RebuildLock?
    requires forall k :: i < k <= j ==> ss[k].holder.InRebuild()
    ensures Remakes(ss[j], ss[i].iq, ss[i].bufq)
    decreases j
  {
    hide Apply, Enabled, UntilBlank, Inv, WellFormed, Remakes;
    RunKeepsInv(buf, ss, steps, j - 1);
    assert Enabled(ss[j - 1], steps[j - 1]) && ss[j - 1 + 1] == Apply(ss[j - 1], steps[j - 1]);
    if j == i + 1 {
      JustLocked(UntilBlank(buf), ss[i], steps[i].call);
    } else {
      RemakesRun(buf, ss, steps, i, j - 1);
      HeldStep(UntilBlank(buf), ss[j - 1], steps[j - 1], ss[i].iq, ss[i].bufq);
    }
  }

  /** The steps of one rebuild, whatever looks come between them, do to the buffer what
      FeedIndex.RebuildLocked promises of the whole call. */
  lemma RebuildMatchesCall(buf: seq<text>, ss: seq<State>, steps: seq<Step>, i: nat, j: nat)
    requires IsRun(buf, ss, steps) && i < j < |ss| && steps[i].RebuildLock? && ss[j].holder.Cleared?
    requires forall k :: i < k <= j ==> ss[k].holder.InRebuild()
    ensures ss[j].bufq == Pad(Rebuilt(ss[i].iq, ss[i].bufq)) && ss[j].iq == [] && !ss[j].dirty
  {
    hide IsRun, Pad, Rebuilt, UntilBlank, CallsInv;
    RemakesRun(buf, ss, steps, i, j);
    RunKeepsInv(buf, ss, steps, j);
    NothingQueued(UntilBlank(buf), ss[j]);
  }

  lemma NothingQueued(loaded: seq<text>, s: State)
    requires Inv(loaded, s)
    ensures s.holder.Filled? || s.holder.Cleared? ==> s.iq == []
  {
    hide Agrees, CallsInv;
  }

  // ------------------------------------------------ reading without the lock

  /** What a reader without the lock can see: outside a rebuild's loops the newest 500 keys
      applied and loaded; inside them the first keys of the buffer being made, and all of them
      exactly when the loops have filled as many slots as there will be. */
  lemma {:induction false} UnlockedReadSeesPrefix(buf: seq<text>, ss: seq<State>, steps: seq<Step>, i: nat)
    requires IsRun(buf, ss, steps) && i < |ss| && BLANK !in ss[i].pushed
    ensures ss[i].applied <= |ss[i].pushed|
    ensures var s, loaded := ss[i], UntilBlank(buf);
            && WellFormed(s.bufq)
            && if s.holder.Rebuilding() then
                 var whole := Recent(Reverse(s.pushed) + loaded);
                 && UntilBlank(s.bufq) <= whole
                 && (UntilBlank(s.bufq) == whole <==> s.holder.fill.i == |whole|)
               else UntilBlank(s.bufq) == Recent(Reverse(s.pushed[..s.applied]) + loaded)
  {
    hide CallsInv, Apply, Enabled, Dedup, Pad, Reverse, UntilBlank, Recent, Progress, WellFormed;
    RunKeepsInv(buf, ss, steps, i);
    var s, loaded := ss[i], UntilBlank(buf);
    var applied := s.pushed[..s.applied];
    assert BLANK !in applied && BLANK !in loaded;
    if s.holder.Rebuilding() {
      var f := s.holder.fill;
      PartialFill(f, s.bufq, Reverse(Queue(s)) + UntilBlank(f.oldbuf));
      RebuiltFromHistory(applied, Queue(s), loaded);
      assert applied + Queue(s) == s.pushed;
      ReverseKeepsBlankOut(Queue(s));
      NoBlankRead(f.seen, Reverse(Queue(s)), UntilBlank(f.oldbuf));
      PartialIsWellFormed(f, s.bufq);
    } else {
      ReverseKeepsBlankOut(applied);
      RecentIsWellFormed(Reverse(applied) + loaded);
    }
  }

  /** A reader can meet no key at all, however many there are: here right after a rebuild of a
      buffer that holds keys has taken the lock. */
  lemma UnlockedReadCanBeEmpty(buf: seq<text>, key: text) returns (ss: seq<State>, steps: seq<Step>)
    requires WellFormed(buf) && buf[0] != BLANK && key != BLANK
    ensures IsRun(buf, ss, steps) && UntilBlank(ss[|steps|].bufq) == []
    ensures UntilBlank(buf) != [] && ss[|steps|].pushed == [key]
  {
    hide UntilBlank;
    steps := [PushLock(key), PushAdd, PushMark, PushUnlock, Look(0), RebuildLock(0)];
    var s1 := Apply(Init(buf), PushLock(key));
    var s2 := Apply(s1, PushAdd);
    var s3 := Apply(s2, PushMark);
    var s4 := Apply(s3, PushUnlock);
    var s5 := Apply(s4, Look(0));
    ss := [Init(buf), s1, s2, s3, s4, s5, Apply(s5, RebuildLock(0))];
    PadKeepsKeys([]);
  }

  /** So every slot a reader meets, in whatever order and over however many steps, is blank or
      holds a key that was pushed or loaded. */
  lemma UnlockedSlotIsKnown(buf: seq<text>, ss: seq<State>, steps: seq<Step>, i: nat, k: text)
    requires IsRun(buf, ss, steps) && i < |ss| && BLANK !in ss[i].pushed && k in ss[i].bufq
    ensures k == BLANK || k in ss[i].pushed || k in UntilBlank(buf)
  {
    hide IsRun, Dedup, Reverse, UntilBlank;
    UnlockedReadSeesPrefix(buf, ss, steps, i);
    var s, loaded := ss[i], UntilBlank(buf);
    var all, some := Reverse(s.pushed) + loaded, Reverse(s.pushed[..s.applied]) + loaded;
    RecentMeaning(all);
    RecentMeaning(some);
    if k != BLANK {
      var n :| 0 <= n < |s.bufq| && s.bufq[n] == k;
      assert n < |UntilBlank(s.bufq)| && UntilBlank(s.bufq)[n] == k;
      assert UntilBlank(s.bufq)[n] in UntilBlank(s.bufq);
      assert k in all || k in some;
    }
  }

  lemma NoBlankRead(seen: seq<text>, a: seq<text>, b: seq<text>)
    requires seen <= a + b && BLANK !in a && BLANK !in b
    ensures BLANK !in seen
  {
  }

  lemma PartialFill(f: Fill, buf: seq<text>, all: seq<text>)
    requires Progress(f.seen, f.i, f.index, buf) && f.seen <= all
    ensures f.i == |Dedup(f.seen)| <= MIN_QUEUE && buf == Pad(Dedup(f.seen)) && Dedup(f.seen) <= Recent(all)
  {
    hide Dedup;
    assert all == f.seen + all[|f.seen|..];
    DedupPrefix(f.seen, all[|f.seen|..]);
  }

  lemma PartialIsWellFormed(f: Fill, buf: seq<text>)
    requires Progress(f.seen, f.i, f.index, buf) && BLANK !in f.seen
    ensures |Dedup(f.seen)| <= MIN_QUEUE && WellFormed(buf) && UntilBlank(buf) == Dedup(f.seen)
  {
    hide UntilBlank, Dedup;
    DedupDistinct(f.seen);
    PadKeepsKeys(Dedup(f.seen));
  }
}
