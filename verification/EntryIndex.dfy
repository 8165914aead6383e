/** The reverse index over whole runs of PutEntry (storage/table.go:45-92): when entries
    and index rows correspond, and in which order a user's scan meets them. */
module EntryIndex {
  import opened Bytes
  import opened Flake
  import opened Keys
  import opened Messages
  import opened Storage
  import opened Table

  datatype Call = Call(entry: Entry, update: bool, worker: WorkerId)

  /** The store after the calls, from an empty one. */
  function PutAll(env: Env, calls: seq<Call>): Rows {
    if calls == [] then map[]
    else
      var c := calls[|calls| - 1];
      Put(env, PutAll(env, calls[..|calls| - 1]), c.entry, c.update, c.worker).rows
  }

  /** A call that found no row for its entry: the entry's key, and user, date and worker of
      the index row it owes; no date when the date does not parse. */
  datatype Insertion = Insertion(entryKey: seq<byte>, user: Uuid, date: Option<Time>, worker: WorkerId)

  function Index(ins: Insertion): seq<byte>
    requires ins.date.Some?
  {
    IndexAt(ins.user, ins.date.value, ins.worker)
  }

  function Inserts(env: Env, rows: Rows, c: Call): Option<Insertion> {
    var user := env.parseUuid(c.entry.profileUuid);
    var e := TrimId(c.entry);
    var id := env.parseUuid(e.id);
    if user.ok && id.ok && EntryAt(id.value) !in rows
    then Some(Insertion(EntryAt(id.value), user.value, env.parseDate(e.date), c.worker))
    else None
  }

  /** The first insertions of a run, in order. */
  function Log(env: Env, calls: seq<Call>): seq<Insertion> {
    if calls == [] then []
    else
      var before := calls[..|calls| - 1];
      match Inserts(env, PutAll(env, before), calls[|calls| - 1])
      case Some(ins) => Log(env, before) + [ins]
      case None => Log(env, before)
  }

  // -------------------------------------------- what the log says of the store

  /** The index rows a log leaves: the last insertion to claim a row has it. */
  function IndexRows(log: seq<Insertion>): map<seq<byte>, seq<byte>> {
    if log == [] then map[]
    else
      var last := log[|log| - 1];
      var before := IndexRows(log[..|log| - 1]);
      if last.date.Some? then before[Index(last) := last.entryKey] else before
  }

  lemma IndexRowsSnoc(log: seq<Insertion>, ins: Insertion)
    ensures IndexRows(log + [ins])
         == if ins.date.Some? then IndexRows(log)[Index(ins) := ins.entryKey] else IndexRows(log)
  {
    assert (log + [ins])[..|log|] == log;
  }

  /** No entry is first inserted twice. */
  ghost predicate InsertedOnce(log: seq<Insertion>) {
    forall i, j :: 0 <= i < j < |log| ==> log[i].entryKey != log[j].entryKey
  }

  /** The entries of the store are the keys inserted. */
  ghost predicate EntriesReflect(log: seq<Insertion>, rows: Rows) {
    && (forall i :: 0 <= i < |log| ==> log[i].entryKey in rows && InEntries(log[i].entryKey))
    && (forall k :: k in rows && InEntries(k) ==> exists i :: 0 <= i < |log| && log[i].entryKey == k)
  }

  /** The index rows of the store are those the log leaves. */
  ghost predicate IndexReflects(index: map<seq<byte>, seq<byte>>, rows: Rows) {
    && (forall k :: k in index ==> InIndex(k))
    && (forall k :: InIndex(k) ==> (k in rows <==> k in index))
    && (forall k :: k in index && k in rows ==> rows[k] == EntryKeyRow(index[k]))
  }

  ghost predicate Reflects(log: seq<Insertion>, rows: Rows) {
    InsertedOnce(log) && EntriesReflect(log, rows) && IndexReflects(IndexRows(log), rows)
  }

  lemma {:induction false} LogReflects(env: Env, calls: seq<Call>)
    ensures Reflects(Log(env, calls), PutAll(env, calls))
  {
    if calls != [] {
      var n := |calls| - 1;
      LogReflects(env, calls[..n]);
      ReflectsStep(env, Log(env, calls[..n]), PutAll(env, calls[..n]), calls[n]);
    }
  }

  lemma ReflectsStep(env: Env, log: seq<Insertion>, rows: Rows, c: Call)
    requires Reflects(log, rows)
    ensures var rows' := Put(env, rows, c.entry, c.update, c.worker).rows;
            match Inserts(env, rows, c)
            case Some(ins) => Reflects(log + [ins], rows')
            case None => Reflects(log, rows')
  {
    hide EntryAt, InEntries, InIndex, IndexAt, TrimId, Reflects;
    TrimKeepsRest(c.entry);
    var id := env.parseUuid(TrimId(c.entry).id);
    EntryKeyFacts(id.value);
    match Inserts(env, rows, c)
    case Some(ins) => ReflectsInsert(log, rows, ins, TrimId(c.entry));
    case None => ReflectsUpdate(log, rows, EntryAt(id.value), TrimId(c.entry));
  }

  lemma ReflectsUpdate(log: seq<Insertion>, rows: Rows, k: seq<byte>, e: Entry)
    requires Reflects(log, rows) && InEntries(k) && !InIndex(k)
    ensures k in rows ==> Reflects(log, rows[k := EntryRow(e)])
  {
    hide InEntries, InIndex, Index;
  }

  lemma {:induction false} ReflectsInsert(log: seq<Insertion>, rows: Rows, ins: Insertion, e: Entry)
    requires Reflects(log, rows)
    requires ins.entryKey !in rows && InEntries(ins.entryKey) && !InIndex(ins.entryKey)
    ensures var rows' := rows[ins.entryKey := EntryRow(e)];
            && (ins.date == None ==> Reflects(log + [ins], rows'))
            && (ins.date.Some? ==> Reflects(log + [ins], rows'[Index(ins) := EntryKeyRow(ins.entryKey)]))
  {
    hide InEntries, InIndex, IndexAt, IndexRows, InsertedOnce, EntriesReflect, IndexReflects;
    var rows' := rows[ins.entryKey := EntryRow(e)];
    IndexRowsSnoc(log, ins);
    InsertedOnceSnoc(log, rows, ins);
    EntriesReflectSnoc(log, rows, ins, e);
    IndexIgnoresEntry(IndexRows(log), rows, ins.entryKey, e);
    if ins.date.Some? {
      IndexKeyFacts(ins.user, ins.date.value, ins.worker);
      IndexReflectsUpdate(IndexRows(log), rows', Index(ins), ins.entryKey);
      EntriesIgnoreIndex(log + [ins], rows', Index(ins), ins.entryKey);
    }
  }

  lemma InsertedOnceSnoc(log: seq<Insertion>, rows: Rows, ins: Insertion)
    requires InsertedOnce(log) && EntriesReflect(log, rows) && ins.entryKey !in rows
    ensures InsertedOnce(log + [ins])
  {
    hide InEntries;
  }

  lemma EntriesReflectSnoc(log: seq<Insertion>, rows: Rows, ins: Insertion, e: Entry)
    requires EntriesReflect(log, rows) && InEntries(ins.entryKey)
    ensures EntriesReflect(log + [ins], rows[ins.entryKey := EntryRow(e)])
  {
    hide InEntries;
    var log', rows' := log + [ins], rows[ins.entryKey := EntryRow(e)];
    forall k | k in rows' && InEntries(k) ensures exists i :: 0 <= i < |log'| && log'[i].entryKey == k {
      if k == ins.entryKey {
        assert log'[|log|].entryKey == k;
      } else {
        var i :| 0 <= i < |log| && log[i].entryKey == k;
        assert log'[i].entryKey == k;
      }
    }
  }

  lemma IndexIgnoresEntry(index: map<seq<byte>, seq<byte>>, rows: Rows, k: seq<byte>, e: Entry)
    requires IndexReflects(index, rows) && !InIndex(k)
    ensures IndexReflects(index, rows[k := EntryRow(e)])
  {
    hide InIndex;
  }

  lemma IndexReflectsUpdate(index: map<seq<byte>, seq<byte>>, rows: Rows, k: seq<byte>, to: seq<byte>)
    requires IndexReflects(index, rows) && InIndex(k)
    ensures IndexReflects(index[k := to], rows[k := EntryKeyRow(to)])
  {
    hide InIndex;
  }

  lemma EntriesIgnoreIndex(log: seq<Insertion>, rows: Rows, k: seq<byte>, to: seq<byte>)
    requires EntriesReflect(log, rows) && !InEntries(k)
    ensures EntriesReflect(log, rows[k := EntryKeyRow(to)])
  {
    hide InEntries;
  }

  // ------------------------------------------------------------ bijection

  predicate Claims(log: seq<Insertion>, i: nat, k: seq<byte>) {
    i < |log| && log[i].date.Some? && Index(log[i]) == k
  }

  /** An index row holds an insertion that claimed it, after which none did. */
  lemma {:induction false} LastClaimHolds(log: seq<Insertion>, k: seq<byte>)
    ensures k in IndexRows(log) <==> exists i: nat :: Claims(log, i, k)
    ensures k in IndexRows(log) ==> exists i: nat :: Claims(log, i, k) && IndexRows(log)[k] == log[i].entryKey
                                                     && forall j: nat :: i < j ==> !Claims(log, j, k)
  {
    hide IndexAt;
    if log != [] {
      var n := |log| - 1;
      var before := log[..n];
      LastClaimHolds(before, k);
      assert forall i: nat :: i < n ==> (Claims(log, i, k) <==> Claims(before, i, k));
      if !Claims(log, n, k) && k in IndexRows(before) {
        var i: nat :| && Claims(before, i, k) && IndexRows(before)[k] == before[i].entryKey
                      && forall j: nat :: i < j ==> !Claims(before, j, k);
        assert Claims(log, i, k);
      }
    }
  }

  /** Following index rows to entries is one-to-one and onto. */
  ghost predicate Bijection(rows: Rows) {
    && (forall k :: k in rows && InIndex(k) ==> rows[k].EntryKeyRow? && rows[k].key in rows && InEntries(rows[k].key))
    && (forall k, l :: k in rows && l in rows && InIndex(k) && InIndex(l) && rows[k] == rows[l] ==> k == l)
    && (forall e :: e in rows && InEntries(e) ==> exists k :: k in rows && InIndex(k) && rows[k] == EntryKeyRow(e))
  }

  /** Every first insertion has a date, and no two claim one index row. */
  ghost predicate ClaimsDistinct(log: seq<Insertion>) {
    && (forall i :: 0 <= i < |log| ==> log[i].date.Some?)
    && (forall i, j :: 0 <= i < j < |log| ==> Index(log[i]) != Index(log[j]))
  }

  /** Over any run of PutEntry, entries and index rows correspond one to one exactly when
      every first insertion's date parsed and no two claimed the same row. */
  lemma {:induction false} BijectionIff(env: Env, calls: seq<Call>)
    ensures Bijection(PutAll(env, calls)) <==> ClaimsDistinct(Log(env, calls))
  {
    LogReflects(env, calls);
    if ClaimsDistinct(Log(env, calls)) {
      DistinctGivesBijection(Log(env, calls), PutAll(env, calls));
    }
    if Bijection(PutAll(env, calls)) {
      BijectionGivesDistinct(Log(env, calls), PutAll(env, calls));
    }
  }

  lemma {:induction false} IndexRowOf(log: seq<Insertion>, rows: Rows, k: seq<byte>) returns (i: nat)
    requires Reflects(log, rows) && k in rows && InIndex(k)
    ensures Claims(log, i, k) && rows[k] == EntryKeyRow(log[i].entryKey)
    ensures forall j: nat :: i < j ==> !Claims(log, j, k)
  {
    hide InEntries, InIndex, IndexAt;
    LastClaimHolds(log, k);
    i :| Claims(log, i, k) && IndexRows(log)[k] == log[i].entryKey && forall j: nat :: i < j ==> !Claims(log, j, k);
  }

  lemma {:induction false} DistinctGivesBijection(log: seq<Insertion>, rows: Rows)
    requires Reflects(log, rows) && ClaimsDistinct(log)
    ensures Bijection(rows)
  {
    hide InEntries, InIndex, IndexAt, IndexRows;
    forall k | k in rows && InIndex(k) ensures rows[k].EntryKeyRow? && rows[k].key in rows && InEntries(rows[k].key) {
      var i := IndexRowOf(log, rows, k);
    }
    forall k, l | k in rows && l in rows && InIndex(k) && InIndex(l) && rows[k] == rows[l] ensures k == l {
      var i := IndexRowOf(log, rows, k);
      var j := IndexRowOf(log, rows, l);
      assert i == j;
    }
    forall e | e in rows && InEntries(e) ensures exists k :: k in rows && InIndex(k) && rows[k] == EntryKeyRow(e) {
      var i: nat :| i < |log| && log[i].entryKey == e;
      var k := Index(log[i]);
      assert Claims(log, i, k);
      LastClaimHolds(log, k);
      var j := IndexRowOf(log, rows, k);
      assert i == j;
    }
  }

  lemma {:induction false} BijectionGivesDistinct(log: seq<Insertion>, rows: Rows)
    requires Reflects(log, rows) && Bijection(rows)
    ensures ClaimsDistinct(log)
  {
    hide InEntries, InIndex, IndexAt, IndexRows;
    forall i | 0 <= i < |log|
      ensures log[i].date.Some?
      ensures forall j :: i < j < |log| && log[j].date.Some? ==> Index(log[i]) != Index(log[j])
    {
      var k :| k in rows && InIndex(k) && rows[k] == EntryKeyRow(log[i].entryKey);
      var m := IndexRowOf(log, rows, k);
      assert m == i;
      forall j | i < j < |log| && log[j].date.Some? ensures Index(log[i]) != Index(log[j]) {
        assert !Claims(log, j, k);
      }
    }
  }

  // ---------------------------------------------------- dates and scan order

  /** Whole seconds from the epoch to MAX_TIME, where reverse ids order strictly. */
  predicate Ordinary(date: Time) {
    date % SECOND == 0 && 0 <= date <= MAX_TIME
  }

  /** All first insertions of a user carry ordinary dates, no two the same. */
  ghost predicate DatesDistinct(log: seq<Insertion>, user: Uuid) {
    && (forall i :: 0 <= i < |log| && log[i].user == user ==> log[i].date.Some? && Ordinary(log[i].date.value))
    && (forall i, j :: 0 <= i < j < |log| && log[i].user == user && log[j].user == user ==> log[i].date != log[j].date)
  }

  lemma {:induction false} ReverseIdOrder(d1: Time, w1: WorkerId, d2: Time, w2: WorkerId)
    requires Ordinary(d1) && Ordinary(d2)
    ensures d1 < d2 ==> LexLess(ReverseId(d2, w2), ReverseId(d1, w1))
    ensures d1 != d2 ==> ReverseId(d1, w1) != ReverseId(d2, w2)
  {
    hide ReverseId, LexLess;
    var s1, s2 := d1 / SECOND, d2 / SECOND;
    assert d1 == s1 * SECOND && d2 == s2 * SECOND;
    if s1 < s2 {
      ReverseOrderInRange(s1, w1, s2, w2);
    } else if s2 < s1 {
      ReverseOrderInRange(s2, w2, s1, w1);
    }
    LexTrichotomy(ReverseId(d1, w1), ReverseId(d2, w2));
  }

  /** Distinct ordinary dates per user make the claims distinct, whatever worker ids the
      index keys carry. */
  lemma {:induction false} DatesGiveBijection(env: Env, calls: seq<Call>)
    requires forall user: Uuid :: DatesDistinct(Log(env, calls), user)
    ensures Bijection(PutAll(env, calls))
  {
    hide ReverseId;
    var log := Log(env, calls);
    forall i | 0 <= i < |log| ensures log[i].date.Some? {
      assert DatesDistinct(log, log[i].user);
    }
    forall i, j | 0 <= i < j < |log| ensures Index(log[i]) != Index(log[j]) {
      var a, b := log[i], log[j];
      assert DatesDistinct(log, a.user);
      if Index(a) == Index(b) {
        IndexAtInjective(a.user, a.date.value, a.worker, b.user, b.date.value, b.worker);
        ReverseIdOrder(a.date.value, a.worker, b.date.value, b.worker);
      }
    }
    BijectionIff(env, calls);
  }

  /** When all first insertions carry ordinary dates and one worker id, as those of one server
      do, that is exactly what it takes: no user has two of them in one second. */
  lemma {:induction false} BijectionIffDatesDistinct(env: Env, calls: seq<Call>, w: WorkerId)
    requires forall i :: 0 <= i < |Log(env, calls)| ==>
               var ins := Log(env, calls)[i]; ins.worker == w && (ins.date.Some? ==> Ordinary(ins.date.value))
    ensures var log := Log(env, calls); Bijection(PutAll(env, calls)) <==> forall user: Uuid :: DatesDistinct(log, user)
  {
    hide Bijection, ClaimsDistinct, DatesDistinct, Put, Inserts;
    var log := Log(env, calls);
    BijectionIff(env, calls);
    if ClaimsDistinct(log) {
      forall user: Uuid ensures DatesDistinct(log, user) {
        ClaimsGiveDates(log, user, w);
      }
    }
    if forall user: Uuid :: DatesDistinct(log, user) {
      DatesGiveBijection(env, calls);
    }
  }

  lemma ClaimsGiveDates(log: seq<Insertion>, user: Uuid, w: WorkerId)
    requires ClaimsDistinct(log)
    requires forall i :: 0 <= i < |log| ==> log[i].worker == w && (log[i].date.Some? ==> Ordinary(log[i].date.value))
    ensures DatesDistinct(log, user)
  {
    hide IndexAt;
    forall i, j | 0 <= i < j < |log| && log[i].user == user && log[j].user == user
      ensures log[i].date != log[j].date
    {
      assert Index(log[i]) != Index(log[j]);
    }
  }

  /** The index keys a user's scan meets. */
  function UserKeys(rows: Rows, user: Uuid): seq<seq<byte>> {
    KeysUnder(rows, UUIDKey(TABLE_REVERSE_ENTRY_INDEX, user).Bytes())
  }

  lemma UserKeysAreIndex(user: Uuid, k: seq<byte>)
    requires UUIDKey(TABLE_REVERSE_ENTRY_INDEX, user).Bytes() <= k
    ensures InIndex(k)
  {
    TablePrefix(TABLE_REVERSE_ENTRY_INDEX, UUIDKey(TABLE_REVERSE_ENTRY_INDEX, user));
  }

  /** The insertion behind a row of a user's scan. */
  lemma {:induction false} UserRow(log: seq<Insertion>, rows: Rows, user: Uuid, k: seq<byte>) returns (i: nat)
    requires Reflects(log, rows) && k in UserKeys(rows, user)
    ensures Claims(log, i, k) && log[i].user == user && rows[k] == EntryKeyRow(log[i].entryKey)
  {
    hide InIndex, InEntries, ReverseId;
    UserKeysAreIndex(user, k);
    i := IndexRowOf(log, rows, k);
    UserPrefix(TABLE_REVERSE_ENTRY_INDEX, user,
      UUIDFlakeKey(TABLE_REVERSE_ENTRY_INDEX, log[i].user, ReverseId(log[i].date.value, log[i].worker)));
  }

  /** Of two rows of a user's scan the first was inserted with the later date. */
  lemma {:induction false} RowsInOrder(log: seq<Insertion>, rows: Rows, user: Uuid, k: seq<byte>,
                                       l: seq<byte>) returns (i: nat, j: nat)
    requires Reflects(log, rows) && DatesDistinct(log, user)
    requires k in UserKeys(rows, user) && l in UserKeys(rows, user) && LexLess(k, l)
    ensures i < |log| && j < |log| && log[i].user == log[j].user == user
    ensures rows[k] == EntryKeyRow(log[i].entryKey) && rows[l] == EntryKeyRow(log[j].entryKey)
    ensures log[i].date.Some? && log[j].date.Some? && log[i].date.value > log[j].date.value
  {
    hide InIndex, InEntries, IndexAt, LexLess, KeysUnder, Reflects;
    i := UserRow(log, rows, user, k);
    j := UserRow(log, rows, user, l);
    LexTrichotomy(k, l);
    IndexAtOrder(user, log[i].date.value, log[i].worker, log[j].date.value, log[j].worker);
  }

  /** Index keys of one user order ordinary dates newest first. */
  lemma {:induction false} IndexAtOrder(user: Uuid, d1: Time, w1: WorkerId, d2: Time, w2: WorkerId)
    requires Ordinary(d1) && Ordinary(d2) && d1 != d2
    requires LexLess(IndexAt(user, d1, w1), IndexAt(user, d2, w2))
    ensures d1 > d2
  {
    hide ReverseId, LexLess, Key.Bytes;
    var r1, r2 := ReverseId(d1, w1), ReverseId(d2, w2);
    UUIDFlakeKeyOrder(TABLE_REVERSE_ENTRY_INDEX, user, r1, r2);
    LexTrichotomy(r1, r2);
    ReverseIdOrder(d1, w1, d2, w2);
  }

  /** Both index rows lead to first insertions by the user, and the first row's has the
      later date. */
  ghost predicate Newer(log: seq<Insertion>, rows: Rows, user: Uuid, k: seq<byte>, l: seq<byte>) {
    k in rows && l in rows
    && exists i, j :: && 0 <= i < |log| && 0 <= j < |log| && log[i].user == user && log[j].user == user
                      && rows[k] == EntryKeyRow(log[i].entryKey) && rows[l] == EntryKeyRow(log[j].entryKey)
                      && log[i].date.Some? && log[j].date.Some? && log[i].date.value > log[j].date.value
  }

  ghost predicate NewestFirst(log: seq<Insertion>, rows: Rows, user: Uuid, ks: seq<seq<byte>>) {
    forall p, q :: 0 <= p < q < |ks| ==> Newer(log, rows, user, ks[p], ks[q])
  }

  lemma {:induction false} RowsNewestFirst(log: seq<Insertion>, rows: Rows, user: Uuid)
    requires Reflects(log, rows) && DatesDistinct(log, user)
    ensures NewestFirst(log, rows, user, UserKeys(rows, user))
  {
    hide LexLess, KeysUnder, Reflects, DatesDistinct;
    var ks := UserKeys(rows, user);
    KeysUnderSorted(rows, UUIDKey(TABLE_REVERSE_ENTRY_INDEX, user).Bytes());
    forall p, q | 0 <= p < q < |ks| ensures Newer(log, rows, user, ks[p], ks[q]) {
      assert ks[p] in ks && ks[q] in ks;
      var i, j := RowsInOrder(log, rows, user, ks[p], ks[q]);
    }
  }

  /** A user's scan yields that user's entries only, strictly newest first. */
  lemma {:induction false} ScanNewestFirst(env: Env, calls: seq<Call>, user: Uuid)
    requires DatesDistinct(Log(env, calls), user)
    ensures NewestFirst(Log(env, calls), PutAll(env, calls), user, UserKeys(PutAll(env, calls), user))
  {
    hide KeysUnder, Reflects, DatesDistinct, NewestFirst, Put, Inserts;
    LogReflects(env, calls);
    RowsNewestFirst(Log(env, calls), PutAll(env, calls), user);
  }

  /** All dates of a user's first insertions that parse lie between the epoch and MAX_TIME. */
  ghost predicate DatesInRange(log: seq<Insertion>, user: Uuid) {
    forall i :: 0 <= i < |log| && log[i].user == user && log[i].date.Some? ==> 0 <= log[i].date.value <= MAX_TIME
  }

  /** Both index rows lead to first insertions by the user, and the second row's date, mirrored,
      is no earlier: it is less than a second newer, if at all. */
  ghost predicate NotMuchNewer(log: seq<Insertion>, rows: Rows, user: Uuid, k: seq<byte>, l: seq<byte>) {
    k in rows && l in rows
    && exists i, j :: && 0 <= i < |log| && 0 <= j < |log| && log[i].user == user && log[j].user == user
                      && rows[k] == EntryKeyRow(log[i].entryKey) && rows[l] == EntryKeyRow(log[j].entryKey)
                      && log[i].date.Some? && log[j].date.Some?
                      && ReverseTime(log[i].date.value) <= ReverseTime(log[j].date.value)
                      && log[j].date.value < log[i].date.value + SECOND
  }

  ghost predicate NearlyNewestFirst(log: seq<Insertion>, rows: Rows, user: Uuid, ks: seq<seq<byte>>) {
    forall p, q :: 0 <= p < q < |ks| ==> NotMuchNewer(log, rows, user, ks[p], ks[q])
  }

  /** Index keys of one user order any dates in range by their mirrored second. */
  lemma {:induction false} IndexAtOrderWeak(user: Uuid, d1: Time, w1: WorkerId, d2: Time, w2: WorkerId)
    requires 0 <= d1 <= MAX_TIME && 0 <= d2 <= MAX_TIME
    requires LexLess(IndexAt(user, d1, w1), IndexAt(user, d2, w2))
    ensures ReverseTime(d1) <= ReverseTime(d2) && d2 < d1 + SECOND
  {
    hide ReverseId, ReverseTime, LexLess, Key.Bytes;
    var r1, r2 := ReverseId(d1, w1), ReverseId(d2, w2);
    UUIDFlakeKeyOrder(TABLE_REVERSE_ENTRY_INDEX, user, r1, r2);
    ReverseIdFollowsTime(d2, w2, d1, w1);
    LexTrichotomy(r1, r2);
    if d1 + SECOND <= d2 {
      ReverseTimeSecondLater(d1, d2);
    }
  }

  lemma {:induction false} RowsNearlyInOrder(log: seq<Insertion>, rows: Rows, user: Uuid, k: seq<byte>, l: seq<byte>)
    requires Reflects(log, rows) && DatesInRange(log, user)
    requires k in UserKeys(rows, user) && l in UserKeys(rows, user) && LexLess(k, l)
    ensures NotMuchNewer(log, rows, user, k, l)
  {
    hide InIndex, InEntries, IndexAt, LexLess, KeysUnder, Reflects, ReverseTime;
    var i := UserRow(log, rows, user, k);
    var j := UserRow(log, rows, user, l);
    IndexAtOrderWeak(user, log[i].date.value, log[i].worker, log[j].date.value, log[j].worker);
  }

  lemma {:induction false} RowsNearlyNewestFirst(log: seq<Insertion>, rows: Rows, user: Uuid)
    requires Reflects(log, rows) && DatesInRange(log, user)
    ensures NearlyNewestFirst(log, rows, user, UserKeys(rows, user))
  {
    hide LexLess, KeysUnder, Reflects, DatesInRange, NotMuchNewer;
    var ks := UserKeys(rows, user);
    KeysUnderSorted(rows, UUIDKey(TABLE_REVERSE_ENTRY_INDEX, user).Bytes());
    forall p, q | 0 <= p < q < |ks| ensures NotMuchNewer(log, rows, user, ks[p], ks[q]) {
      assert ks[p] in ks && ks[q] in ks;
      RowsNearlyInOrder(log, rows, user, ks[p], ks[q]);
    }
  }

  /** For any dates in range, fractions of seconds and repeated ones included, no entry of a
      user's scan is followed by one a second or more newer. */
  lemma {:induction false} ScanNearlyNewestFirst(env: Env, calls: seq<Call>, user: Uuid)
    requires DatesInRange(Log(env, calls), user)
    ensures var rows := PutAll(env, calls); NearlyNewestFirst(Log(env, calls), rows, user, UserKeys(rows, user))
  {
    hide KeysUnder, Reflects, DatesInRange, NearlyNewestFirst, Put, Inserts;
    LogReflects(env, calls);
    RowsNearlyNewestFirst(Log(env, calls), PutAll(env, calls), user);
  }

  lemma {:induction false} UserRowExists(log: seq<Insertion>, rows: Rows, user: Uuid, i: nat)
    requires Reflects(log, rows) && DatesDistinct(log, user) && i < |log| && log[i].user == user
    ensures log[i].date.Some? && Index(log[i]) in UserKeys(rows, user)
    ensures rows[Index(log[i])] == EntryKeyRow(log[i].entryKey)
  {
    hide InIndex, InEntries, ReverseId, KeysUnder;
    var a := log[i];
    var k := Index(a);
    UserPrefix(TABLE_REVERSE_ENTRY_INDEX, user,
               UUIDFlakeKey(TABLE_REVERSE_ENTRY_INDEX, user, ReverseId(a.date.value, a.worker)));
    UserKeysAreIndex(user, k);
    assert Claims(log, i, k);
    LastClaimHolds(log, k);
    var j := UserRow(log, rows, user, k);
    var b := log[j];
    IndexAtInjective(a.user, a.date.value, a.worker, b.user, b.date.value, b.worker);
    ReverseIdOrder(a.date.value, a.worker, b.date.value, b.worker);
  }

  lemma {:induction false} UserRowFound(log: seq<Insertion>, rows: Rows, user: Uuid, i: nat) returns (p: nat)
    requires Reflects(log, rows) && DatesDistinct(log, user) && i < |log| && log[i].user == user
    ensures var ks := UserKeys(rows, user); p < |ks| && rows[ks[p]] == EntryKeyRow(log[i].entryKey)
  {
    hide Reflects, DatesDistinct, KeysUnder, IndexAt;
    UserRowExists(log, rows, user, i);
    var ks := UserKeys(rows, user);
    p :| 0 <= p < |ks| && ks[p] == Index(log[i]);
  }

  /** And none of them is missing from it. */
  lemma {:induction false} ScanComplete(env: Env, calls: seq<Call>, user: Uuid, i: nat)
    requires DatesDistinct(Log(env, calls), user)
    requires i < |Log(env, calls)| && Log(env, calls)[i].user == user
    ensures var rows, ks := PutAll(env, calls), UserKeys(PutAll(env, calls), user);
            exists p :: 0 <= p < |ks| && rows[ks[p]] == EntryKeyRow(Log(env, calls)[i].entryKey)
  {
    hide Reflects, DatesDistinct, KeysUnder, Put, Inserts;
    LogReflects(env, calls);
    var p := UserRowFound(Log(env, calls), PutAll(env, calls), user, i);
    assert PutAll(env, calls)[UserKeys(PutAll(env, calls), user)[p]] == EntryKeyRow(Log(env, calls)[i].entryKey);
  }

  /** An index row leads to an inserted entry exactly when its date parsed and no later first
      insertion claimed the same row. */
  lemma {:induction false} EntryReachedIff(log: seq<Insertion>, rows: Rows, i: nat)
    requires Reflects(log, rows) && i < |log|
    ensures (exists k :: k in rows && InIndex(k) && rows[k] == EntryKeyRow(log[i].entryKey))
       <==> log[i].date.Some? && forall j :: i < j < |log| && log[j].date.Some? ==> Index(log[j]) != Index(log[i])
  {
    hide InEntries, InIndex, IndexAt, IndexRows;
    if k :| k in rows && InIndex(k) && rows[k] == EntryKeyRow(log[i].entryKey) {
      var m := IndexRowOf(log, rows, k);
      assert m == i;
      forall j | i < j < |log| && log[j].date.Some? ensures Index(log[j]) != Index(log[i]) {
        assert !Claims(log, j, k);
      }
    }
    if log[i].date.Some? && forall j :: i < j < |log| && log[j].date.Some? ==> Index(log[j]) != Index(log[i]) {
      var k := Index(log[i]);
      assert Claims(log, i, k);
      LastClaimHolds(log, k);
      var m := IndexRowOf(log, rows, k);
      assert m == i;
    }
  }

  /** Two first insertions that claim one row, as two of one user in one second do: the
      earlier entry is reachable through no index row any more. */
  lemma {:induction false} LaterClaimHidesEntry(log: seq<Insertion>, rows: Rows, i: nat, j: nat, k: seq<byte>)
    requires Reflects(log, rows) && i < j < |log|
    requires log[i].date.Some? && log[j].date.Some?
    requires log[i].user == log[j].user && log[i].worker == log[j].worker
    requires ReverseTime(log[i].date.value) == ReverseTime(log[j].date.value)
    ensures k in rows && InIndex(k) ==> rows[k] != EntryKeyRow(log[i].entryKey)
  {
    hide InIndex, InEntries, ReverseTime;
    assert Index(log[i]) == Index(log[j]);
    assert Claims(log, i, k) <==> Claims(log, j, k);
    if k in rows && InIndex(k) {
      var m := IndexRowOf(log, rows, k);
    }
  }
}
