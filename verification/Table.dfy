/** storage/table.go: entries, their per-user reverse index, and the likes and comments
    kept inside them. */
module Table {
  import opened Bytes
  import opened Flake
  import opened Keys
  import opened Messages
  import opened Storage

  /** uuid.FromString: on malformed text it still returns some value. */
  datatype UuidParse = UuidParse(value: Uuid, ok: bool)

  /** Code outside the repository: UUID and RFC 3339 parsing, as arbitrary functions. */
  datatype Env = Env(parseUuid: text -> UuidParse, parseDate: text -> Option<Time>)

  datatype PutError = BadUuid | BadDate | ExistItem

  /** The store afterwards, what PutEntry returns, and the entry it was given, whose id it
      trims in place. */
  datatype PutResult = PutResult(rows: Rows, key: Option<Key>, err: Option<PutError>, entry: Entry)

  const ENTRY_PREFIX := Lit("e/")

  function TrimId(e: Entry): (t: Entry)
    ensures t == e.(id := t.id)
    ensures if ENTRY_PREFIX <= e.id then e.id == ENTRY_PREFIX + t.id else t.id == e.id
  {
    if ENTRY_PREFIX <= e.id then e.(id := e.id[|ENTRY_PREFIX|..]) else e
  }

  function EntryAt(u: Uuid): seq<byte> {
    UUIDKey(TABLE_ENTRY, u).Bytes()
  }

  function IndexAt(user: Uuid, date: Time, w: WorkerId): seq<byte> {
    UUIDFlakeKey(TABLE_REVERSE_ENTRY_INDEX, user, ReverseId(date, w)).Bytes()
  }

  predicate InEntries(k: seq<byte>) {
    Keys.Table(TABLE_ENTRY).Bytes() <= k
  }

  predicate InIndex(k: seq<byte>) {
    Keys.Table(TABLE_REVERSE_ENTRY_INDEX).Bytes() <= k
  }

  lemma EntryKeyFacts(u: Uuid)
    ensures InEntries(EntryAt(u)) && !InIndex(EntryAt(u))
  {
    TablePrefix(TABLE_ENTRY, UUIDKey(TABLE_ENTRY, u));
    TablePrefix(TABLE_REVERSE_ENTRY_INDEX, UUIDKey(TABLE_ENTRY, u));
  }

  lemma {:induction false} IndexKeyFacts(u: Uuid, date: Time, w: WorkerId)
    ensures !InEntries(IndexAt(u, date, w)) && InIndex(IndexAt(u, date, w))
  {
    var k := UUIDFlakeKey(TABLE_REVERSE_ENTRY_INDEX, u, ReverseId(date, w));
    TablePrefix(TABLE_ENTRY, k);
    TablePrefix(TABLE_REVERSE_ENTRY_INDEX, k);
  }

  lemma {:induction false} IndexAtInjective(u1: Uuid, d1: Time, w1: WorkerId, u2: Uuid, d2: Time, w2: WorkerId)
    requires IndexAt(u1, d1, w1) == IndexAt(u2, d2, w2)
    ensures u1 == u2 && ReverseId(d1, w1) == ReverseId(d2, w2)
  {
    BytesInjective(UUIDFlakeKey(TABLE_REVERSE_ENTRY_INDEX, u1, ReverseId(d1, w1)),
                   UUIDFlakeKey(TABLE_REVERSE_ENTRY_INDEX, u2, ReverseId(d2, w2)));
  }

  // ------------------------------------------------------------ PutEntry

  function Put(env: Env, rows: Rows, entry: Entry, update: bool, w: WorkerId): PutResult {
    var user := env.parseUuid(entry.profileUuid);
    var e := TrimId(entry);
    var id := env.parseUuid(e.id);
    if !user.ok then PutResult(rows, None, Some(BadUuid), entry)
    else if !id.ok then PutResult(rows, None, Some(BadUuid), e)
    else
      var key := UUIDKey(TABLE_ENTRY, id.value);
      var kb := EntryAt(id.value);
      if kb in rows then
        if update then PutResult(rows[kb := EntryRow(e)], Some(key), None, e)
        else PutResult(rows, Some(key), Some(ExistItem), e)
      else
        match env.parseDate(e.date)
        case None => PutResult(rows[kb := EntryRow(e)], None, Some(BadDate), e)
        case Some(date) =>
          PutResult(rows[kb := EntryRow(e)][IndexAt(user.value, date, w) := EntryKeyRow(kb)], Some(key), None, e)
  }

  /** Entry rows are stored under their own id; index rows point to entries that exist. */
  ghost predicate TableInv(env: Env, rows: Rows) {
    && (forall k :: k in rows && InEntries(k) ==>
          && rows[k].EntryRow?
          && env.parseUuid(rows[k].entry.profileUuid).ok && env.parseUuid(rows[k].entry.id).ok
          && k == EntryAt(env.parseUuid(rows[k].entry.id).value))
    && (forall k :: k in rows && InIndex(k) ==>
          rows[k].EntryKeyRow? && rows[k].key in rows && InEntries(rows[k].key))
  }

  /** What a call on such rows keeps: no row is ever lost; a call on an existing entry leaves
      the index as it is; success means the entry is stored under the key returned; an error
      other than a bad date changes nothing. */
  ghost predicate KeepsTable(env: Env, rows: Rows, r: PutResult) {
    && TableInv(env, r.rows)
    && (forall k :: k in rows ==> k in r.rows)
    && (r.err == None ==>
          && r.key.Some? && r.key.value.UUIDKey?
          && r.key.value.Bytes() in r.rows && InEntries(r.key.value.Bytes()))
    && (r.key.Some? && r.key.value.Bytes() in rows ==>
          forall k :: InIndex(k) ==> (k in rows <==> k in r.rows) && (k in rows ==> rows[k] == r.rows[k]))
    && (r.err.Some? && r.err != Some(BadDate) ==> r.rows == rows)
  }

  lemma PutKeepsTable(env: Env, rows: Rows, entry: Entry, update: bool, w: WorkerId)
    requires TableInv(env, rows)
    ensures KeepsTable(env, rows, Put(env, rows, entry, update, w))
  {
    hide EntryAt, InEntries, InIndex, IndexAt, TrimId, TableInv;
    var user := env.parseUuid(entry.profileUuid);
    var e := TrimId(entry);
    var id := env.parseUuid(e.id);
    TrimKeepsRest(entry);
    if user.ok && id.ok {
      EntryKeyFacts(id.value);
      EntryAtIsBytes(id.value);
      EntryRowKeeps(env, rows, e);
      match env.parseDate(e.date)
      case Some(date) =>
        IndexKeyFacts(user.value, date, w);
        IndexRowKeeps(env, rows[EntryAt(id.value) := EntryRow(e)], IndexAt(user.value, date, w), EntryAt(id.value));
      case None =>
    }
  }

  /** Storing an entry under its own id keeps the table. */
  lemma EntryRowKeeps(env: Env, rows: Rows, e: Entry)
    requires TableInv(env, rows) && env.parseUuid(e.profileUuid).ok && env.parseUuid(e.id).ok
    ensures TableInv(env, rows[EntryAt(env.parseUuid(e.id).value) := EntryRow(e)])
  {
    hide EntryAt, InEntries, InIndex;
    EntryKeyFacts(env.parseUuid(e.id).value);
  }

  lemma IndexRowKeeps(env: Env, rows: Rows, k: seq<byte>, to: seq<byte>)
    requires TableInv(env, rows) && InIndex(k) && !InEntries(k) && to in rows && InEntries(to)
    ensures TableInv(env, rows[k := EntryKeyRow(to)])
  {
    hide EntryAt, InEntries, InIndex;
  }

  lemma EntryAtIsBytes(u: Uuid)
    ensures EntryAt(u) == UUIDKey(TABLE_ENTRY, u).Bytes()
  {
  }

  lemma TrimKeepsRest(e: Entry)
    ensures TrimId(e) == e.(id := TrimId(e).id)
  {
  }

  /** What a call answers and leaves. Malformed uuids are refused; a stored entry is replaced when
      updating and left otherwise; a new one is stored, and indexed under its user and date
      unless the date is malformed. The entry comes back without the prefix of its id. */
  ghost predicate PutOutcome(env: Env, rows: Rows, entry: Entry, update: bool, w: WorkerId, r: PutResult) {
    var user, id := env.parseUuid(entry.profileUuid), env.parseUuid(TrimId(entry).id);
    var key, date, e := UUIDKey(TABLE_ENTRY, id.value), env.parseDate(entry.date), TrimId(entry);
    var k := key.Bytes();
    if !user.ok then r == PutResult(rows, None, Some(BadUuid), entry)
    else if !id.ok then r == PutResult(rows, None, Some(BadUuid), e)
    else
      && r.entry == e
      && (k in rows && update ==> r.rows == rows[k := EntryRow(e)] && r.key == Some(key) && r.err == None)
      && (k in rows && !update ==> r.rows == rows && r.key == Some(key) && r.err == Some(ExistItem))
      && (k !in rows && date == None ==> r.rows == rows[k := EntryRow(e)] && r.key == None && r.err == Some(BadDate))
      && (k !in rows && date.Some? ==>
            && r.rows == rows[k := EntryRow(e)][IndexAt(user.value, date.value, w) := EntryKeyRow(k)]
            && r.key == Some(key) && r.err == None)
  }

  lemma PutMeaning(env: Env, rows: Rows, entry: Entry, update: bool, w: WorkerId)
    ensures PutOutcome(env, rows, entry, update, w, Put(env, rows, entry, update, w))
  {
    hide IndexAt, Key.Bytes, TrimId;
  }

  method PutEntry(env: Env, rdb: Store, entry: Entry, update: bool, w: WorkerId)
    returns (key: Option<Key>, err: Option<PutError>, e: Entry)
    modifies rdb
    ensures PutResult(rdb.rows, key, err, e) == Put(env, old(rdb.rows), entry, update, w)
    ensures TableInv(env, old(rdb.rows)) ==> KeepsTable(env, old(rdb.rows), PutResult(rdb.rows, key, err, e))
    ensures PutOutcome(env, old(rdb.rows), entry, update, w, PutResult(rdb.rows, key, err, e))
    ensures e == if env.parseUuid(entry.profileUuid).ok then TrimId(entry) else entry
  {
    hide TableInv, KeepsTable, PutOutcome;
    PutMeaning(env, rdb.rows, entry, update, w);
    if TableInv(env, rdb.rows) {
      PutKeepsTable(env, rdb.rows, entry, update, w);
    }
    e := entry;
    var uuid1 := env.parseUuid(e.profileUuid);
    if !uuid1.ok {
      return None, Some(BadUuid), e;
    }
    e := TrimId(e);
    var uuid2 := env.parseUuid(e.id);
    if !uuid2.ok {
      return None, Some(BadUuid), e;
    }
    var k := UUIDKey(TABLE_ENTRY, uuid2.value);
    var kb1 := k.Bytes();
    if rdb.Get(kb1) != None {
      if update {
        rdb.Put(kb1, EntryRow(e));
        return Some(k), None, e;
      }
      return Some(k), Some(ExistItem), e;
    }
    rdb.Put(kb1, EntryRow(e));
    var oldtime := env.parseDate(e.date);
    if oldtime == None {
      return None, Some(BadDate), e;
    }
    var flakeid := TimeTravelReverseId(oldtime.value, w);
    var key3 := UUIDFlakeKey(TABLE_REVERSE_ENTRY_INDEX, uuid1.value, flakeid);
    rdb.Put(key3.Bytes(), EntryKeyRow(kb1));
    return Some(k), None, e;
  }
}
