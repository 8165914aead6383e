/** server/server.go: the operations that post, like, comment, archive and page entries,
    over the entry store, the meta store and the public index together. */
module Server {
  import opened Bytes
  import opened Flake
  import opened Keys
  import opened Messages
  import opened Storage
  import opened Table
  import opened Reactions
  import opened PublicIndex
  import opened Feeds
  import opened EntryIndex

  datatype Result<+T> = Ok(value: T) | Err(msg: text)

  const MISSING := Lit("entry data missing")
  const FAILED := Lit("error")

  /** What the UUID library guarantees of malformed text. */
  ghost predicate EnvOk(env: Env) {
    && !env.parseUuid([]).ok
    && forall t: text :: ENTRY_PREFIX <= t ==> !env.parseUuid(t).ok
  }

  /** The text decodes to the key of a stored entry. */
  predicate NamesEntry(rows: Rows, key: text) {
    var k := DecodeHex(key).bytes;
    k in rows && InEntries(k)
  }

  ghost predicate AllName(rows: Rows, keys: seq<text>) {
    forall key :: key in keys ==> NamesEntry(rows, key)
  }

  lemma BlankNamesNothing(rows: Rows)
    ensures !NamesEntry(rows, BLANK)
  {
  }

  /** GetEntry: a missing row unmarshals to an empty entry without an error. */
  function StoredEntry(env: Env, rdb: Rows, uuid: text): Option<Entry> {
    var u := env.parseUuid(uuid);
    if !u.ok then None
    else if EntryAt(u.value) !in rdb then Some(EMPTY_ENTRY)
    else match rdb[EntryAt(u.value)] case EntryRow(e) => Some(e) case _ => None
  }

  /** Writing back an entry that was read, with new likes or comments, replaces its row and
      nothing else; writing back the empty entry fails and changes nothing. */
  lemma PutBack(env: Env, rows: Rows, uuid: text, e: Entry, w: WorkerId)
    requires EnvOk(env) && TableInv(env, rows) && StoredEntry(env, rows, uuid).Some?
    requires var read := StoredEntry(env, rows, uuid).value; e.id == read.id && e.profileUuid == read.profileUuid
    ensures var k := EntryAt(env.parseUuid(uuid).value);
            var r := Put(env, rows, e, true, w);
            if k in rows
            then r == PutResult(rows[k := EntryRow(e)], Some(UUIDKey(TABLE_ENTRY, env.parseUuid(uuid).value)), None, e)
            else r.rows == rows && r.key == None && r.err == Some(BadUuid)
  {
    hide InEntries, InIndex, IndexAt;
    var u := env.parseUuid(uuid).value;
    EntryKeyFacts(u);
    if EntryAt(u) in rows {
      var id := env.parseUuid(rows[EntryAt(u)].entry.id);
      BytesInjective(UUIDKey(TABLE_ENTRY, u), UUIDKey(TABLE_ENTRY, id.value));
      assert !(ENTRY_PREFIX <= e.id);
    }
  }

  /** What one PutEntry call adds to the log of first insertions. */
  function Inserted(env: Env, rows: Rows, e: Entry, update: bool, w: WorkerId): seq<Insertion> {
    match Inserts(env, rows, Call(e, update, w))
    case Some(ins) => [ins]
    case None => []
  }

  lemma PutKeepsLog(env: Env, log: seq<Insertion>, rows: Rows, e: Entry, update: bool, w: WorkerId)
    requires Reflects(log, rows)
    ensures Reflects(log + Inserted(env, rows, e, update, w), Put(env, rows, e, update, w).rows)
  {
    hide Put, Inserts, Reflects;
    assert log + [] == log;
    ReflectsStep(env, log, rows, Call(e, update, w));
  }

  /** Writing back an entry that was read inserts nothing. */
  lemma PutBackKeepsLog(env: Env, log: seq<Insertion>, rows: Rows, uuid: text, e: Entry, w: WorkerId)
    requires EnvOk(env) && TableInv(env, rows) && Reflects(log, rows) && StoredEntry(env, rows, uuid).Some?
    requires var read := StoredEntry(env, rows, uuid).value; e.id == read.id && e.profileUuid == read.profileUuid
    ensures Reflects(log, Put(env, rows, e, true, w).rows)
  {
    hide InEntries, InIndex, IndexAt, Reflects, TableInv;
    PutBack(env, rows, uuid, e, w);
    if EntryAt(env.parseUuid(uuid).value) in rows {
      EntryKeyFacts(env.parseUuid(uuid).value);
      ReflectsUpdate(log, rows, EntryAt(env.parseUuid(uuid).value), e);
    }
  }

  /** The row and the public-index entry an update of a stored entry leaves. */
  lemma PutBackKeepsNames(env: Env, rows: Rows, uuid: text, e: Entry, w: WorkerId, names: seq<text>)
    requires EnvOk(env) && TableInv(env, rows) && StoredEntry(env, rows, uuid).Some? && AllName(rows, names)
    requires var read := StoredEntry(env, rows, uuid).value; e.id == read.id && e.profileUuid == read.profileUuid
    ensures var k := EntryAt(env.parseUuid(uuid).value);
            var r := Put(env, rows, e, true, w);
            && TableInv(env, r.rows) && AllName(r.rows, names)
            && (r.key.Some? ==> AllName(r.rows, names + [r.key.value.String()]))
  {
    hide InEntries, InIndex, IndexAt, TableInv, Put;
    PutKeepsTable(env, rows, e, true, w);
    PutBack(env, rows, uuid, e, w);
    if Put(env, rows, e, true, w).key.Some? {
      StringDecodes(Put(env, rows, e, true, w).key.value);
    }
  }

  /** A successful PutEntry yields a key whose string names an entry; names never go stale. */
  lemma PutKeepsNames(env: Env, rows: Rows, e: Entry, update: bool, w: WorkerId, names: seq<text>)
    requires TableInv(env, rows) && AllName(rows, names)
    ensures var r := Put(env, rows, e, update, w);
            && TableInv(env, r.rows) && AllName(r.rows, names)
            && (r.err == None ==> r.key.Some? && AllName(r.rows, names + [r.key.value.String()]))
  {
    hide InEntries, InIndex, IndexAt, TableInv, Put;
    PutKeepsTable(env, rows, e, update, w);
    var r := Put(env, rows, e, update, w);
    if r.err == None {
      StringDecodes(r.key.value);
    }
  }

  lemma PutKeepsAllNames(env: Env, rows: Rows, e: Entry, update: bool, w: WorkerId, names: seq<text>, more: seq<text>)
    requires TableInv(env, rows) && AllName(rows, names) && AllName(rows, more)
    ensures var r := Put(env, rows, e, update, w);
            && TableInv(env, r.rows) && AllName(r.rows, names) && AllName(r.rows, more)
            && (r.err == None ==> r.key.Some? && AllName(r.rows, names + [r.key.value.String()]))
  {
    hide TableInv, Put, NamesEntry;
    PutKeepsNames(env, rows, e, update, w, names);
    PutKeepsNames(env, rows, e, update, w, more);
  }

  // ---------------------------------------------------------------- effects

  /** The rows a request leaves, the keys it pushes and the entries it inserts. */
  datatype Effect = Effect(rows: Rows, pushes: seq<text>, inserted: seq<Insertion>)

  function Then(a: Effect, b: Effect): Effect {
    Effect(b.rows, a.pushes + b.pushes, a.inserted + b.inserted)
  }

  /** One PutEntry whose key is pushed when there is no error. */
  function Putting(env: Env, rows: Rows, e: Entry, update: bool, w: WorkerId): Effect {
    var r := Put(env, rows, e, update, w);
    Effect(r.rows,
           if r.err == None && r.key.Some? then [r.key.value.String()] else [],
           Inserted(env, rows, e, update, w))
  }

  /** The entries of a stream, one after the other. */
  function Archive(env: Env, rows: Rows, stream: seq<Entry>, update: bool, w: WorkerId): Effect {
    if stream == [] then Effect(rows, [], [])
    else
      var n := |stream| - 1;
      var before := Archive(env, rows, stream[..n], update, w);
      Then(before, Putting(env, before.rows, stream[n], update, w))
  }

  lemma EmptyArchive(env: Env, rows: Rows, update: bool, w: WorkerId)
    ensures Archive(env, rows, [], update, w) == Effect(rows, [], []) && Feeds.ToInt32(0) == 0
  {
  }

  lemma ArchiveSnoc(env: Env, rows: Rows, stream: seq<Entry>, update: bool, w: WorkerId, i: nat)
    requires i < |stream|
    ensures var before := Archive(env, rows, stream[..i], update, w);
            Archive(env, rows, stream[..i + 1], update, w)
            == Then(before, Putting(env, before.rows, stream[i], update, w))
  {
    hide Putting, Then;
    assert stream[..i + 1][..i] == stream[..i];
  }

  /** Both uuids of the entry parse. */
  predicate Named(env: Env, e: Entry) {
    env.parseUuid(e.profileUuid).ok && env.parseUuid(TrimId(e).id).ok
  }

  function EntryUuid(env: Env, e: Entry): (u: Uuid)
    ensures u == env.parseUuid(TrimId(e).id).value
  {
    env.parseUuid(TrimId(e).id).value
  }

  /** An entry under the same uuid is stored when the i-th entry of the stream arrives: it was there
      before, or came earlier in the stream. */
  ghost predicate StoredWhen(env: Env, rows: Rows, stream: seq<Entry>, i: nat)
    requires i < |stream|
  {
    var u := EntryUuid(env, stream[i]);
    || UUIDKey(TABLE_ENTRY, u).Bytes() in rows
    || exists j :: 0 <= j < i && Named(env, stream[j]) && EntryUuid(env, stream[j]) == u
  }

  /** The i-th entry of the stream is taken: over a stored one when forced, else as a new one with
      a date. */
  ghost predicate Taken(env: Env, rows: Rows, stream: seq<Entry>, force: bool, i: nat)
    requires i < |stream|
  {
    && Named(env, stream[i])
    && if StoredWhen(env, rows, stream, i) then force else env.parseDate(stream[i].date).Some?
  }

  /** The positions are those of the entries taken, in stream order. */
  ghost predicate AllTaken(env: Env, rows: Rows, stream: seq<Entry>, force: bool, taken: seq<nat>) {
    && (forall m :: 0 <= m < |taken| ==> taken[m] < |stream|)
    && (forall m, n :: 0 <= m < n < |taken| ==> taken[m] < taken[n])
    && (forall i: nat :: i < |stream| ==> (i in taken <==> Taken(env, rows, stream, force, i)))
  }

  /** The texts are the hex keys of the entries at the positions. */
  ghost predicate AreKeysOf(env: Env, stream: seq<Entry>, taken: seq<nat>, pushes: seq<text>) {
    && |pushes| == |taken|
    && forall m :: 0 <= m < |taken| ==>
         taken[m] < |stream| && pushes[m] == UUIDKey(TABLE_ENTRY, EntryUuid(env, stream[taken[m]])).String()
  }

  /** Which entries a PutEntry stores, and what it pushes, apart from how. */
  lemma {:induction false} PuttingMeaning(env: Env, rows: Rows, e: Entry, update: bool, w: WorkerId, u: Uuid)
    ensures var a, k, v := Putting(env, rows, e, update, w), UUIDKey(TABLE_ENTRY, EntryUuid(env, e)), EntryUuid(env, e);
            && (UUIDKey(TABLE_ENTRY, u).Bytes() in a.rows
                <==> UUIDKey(TABLE_ENTRY, u).Bytes() in rows || (Named(env, e) && v == u))
            && a.pushes == if Named(env, e) && (if k.Bytes() in rows then update else env.parseDate(e.date).Some?)
                           then [k.String()] else []
  {
    hide InEntries, InIndex, IndexAt, TrimId, Inserted, Key.Bytes, Key.String;
    var v, k := EntryUuid(env, e), UUIDKey(TABLE_ENTRY, EntryUuid(env, e));
    if k.Bytes() == UUIDKey(TABLE_ENTRY, u).Bytes() {
      BytesInjective(k, UUIDKey(TABLE_ENTRY, u));
    }
    EntryKeyFacts(u);
    if env.parseDate(e.date).Some? {
      IndexKeyFacts(env.parseUuid(e.profileUuid).value, env.parseDate(e.date).value, w);
    }
  }

  /** An archived stream stores what was there and every entry of it that is named. */
  lemma {:induction false} ArchiveStores(env: Env, rows: Rows, stream: seq<Entry>, force: bool, w: WorkerId, u: Uuid)
    ensures UUIDKey(TABLE_ENTRY, u).Bytes() in Archive(env, rows, stream, force, w).rows
       <==> || UUIDKey(TABLE_ENTRY, u).Bytes() in rows
            || exists j :: 0 <= j < |stream| && Named(env, stream[j]) && EntryUuid(env, stream[j]) == u
  {
    hide Putting, Key.Bytes, EntryUuid, Named;
    if stream != [] {
      var n := |stream| - 1;
      ArchiveStores(env, rows, stream[..n], force, w, u);
      PuttingMeaning(env, Archive(env, rows, stream[..n], force, w).rows, stream[n], force, w, u);
      assert forall j :: 0 <= j < n ==> stream[..n][j] == stream[j];
      if j :| 0 <= j < |stream[..n]| && Named(env, stream[..n][j]) && EntryUuid(env, stream[..n][j]) == u {
        assert Named(env, stream[j]);
      }
    }
  }

  lemma TakenInFront(env: Env, rows: Rows, stream: seq<Entry>, force: bool, i: nat)
    requires i < |stream| - 1
    ensures Taken(env, rows, stream[..|stream| - 1], force, i) <==> Taken(env, rows, stream, force, i)
  {
    hide Key.Bytes, EntryUuid, Named;
    var front := stream[..|stream| - 1];
    assert forall j :: 0 <= j <= i ==> front[j] == stream[j];
    if StoredWhen(env, rows, stream, i) && UUIDKey(TABLE_ENTRY, EntryUuid(env, stream[i])).Bytes() !in rows {
      var j :| 0 <= j < i && Named(env, stream[j]) && EntryUuid(env, stream[j]) == EntryUuid(env, stream[i]);
      assert Named(env, front[j]);
    }
  }

  /** What an archived stream pushes: the keys of exactly the entries taken, in stream order. */
  lemma {:induction false} ArchivePushes(env: Env, rows: Rows, stream: seq<Entry>, force: bool, w: WorkerId)
    returns (taken: seq<nat>)
    ensures AllTaken(env, rows, stream, force, taken)
    ensures AreKeysOf(env, stream, taken, Archive(env, rows, stream, force, w).pushes)
  {
    hide Putting, Taken, EntryUuid, Key.Bytes, Key.String, AllTaken, AreKeysOf, Named, StoredWhen;
    if stream == [] {
      taken := [];
      NothingTaken(env, rows, force);
    } else {
      var n := |stream| - 1;
      var before := ArchivePushes(env, rows, stream[..n], force, w);
      var a := Archive(env, rows, stream[..n], force, w);
      var u := EntryUuid(env, stream[n]);
      ArchiveStores(env, rows, stream[..n], force, w, u);
      LastTaken(env, rows, stream, force, UUIDKey(TABLE_ENTRY, u).Bytes() in a.rows);
      PuttingMeaning(env, a.rows, stream[n], force, w, u);
      taken := if Taken(env, rows, stream, force, n) then before + [n] else before;
      TakenSnoc(env, rows, stream, force, before, taken);
      KeysSnoc(env, stream, before, a.pushes);
    }
  }

  lemma NothingTaken(env: Env, rows: Rows, force: bool)
    ensures AllTaken(env, rows, [], force, []) && AreKeysOf(env, [], [], [])
  {
  }

  lemma KeysSnoc(env: Env, stream: seq<Entry>, before: seq<nat>, pushes: seq<text>)
    requires stream != [] && AreKeysOf(env, stream[..|stream| - 1], before, pushes)
    ensures AreKeysOf(env, stream, before, pushes) && AreKeysOf(env, stream, before, pushes + [])
    ensures var n := |stream| - 1;
            AreKeysOf(env, stream, before + [n], pushes + [UUIDKey(TABLE_ENTRY, EntryUuid(env, stream[n])).String()])
  {
    hide EntryUuid, Key.String;
    assert pushes + [] == pushes;
    assert forall m :: 0 <= m < |before| ==> stream[..|stream| - 1][before[m]] == stream[before[m]];
  }

  lemma LastTaken(env: Env, rows: Rows, stream: seq<Entry>, force: bool, stored: bool)
    requires stream != []
    requires var n := |stream| - 1;
             var u := EntryUuid(env, stream[n]);
             stored <==> || UUIDKey(TABLE_ENTRY, u).Bytes() in rows
                         || exists j :: 0 <= j < |stream[..n]| && Named(env, stream[..n][j])
                                        && EntryUuid(env, stream[..n][j]) == u
    ensures var n := |stream| - 1;
            Taken(env, rows, stream, force, n)
            <==> Named(env, stream[n]) && if stored then force else env.parseDate(stream[n].date).Some?
  {
    hide Named, EntryUuid, Key.Bytes;
    var n := |stream| - 1;
    var u := EntryUuid(env, stream[n]);
    if j :| 0 <= j < |stream[..n]| && Named(env, stream[..n][j]) && EntryUuid(env, stream[..n][j]) == u {
      assert Named(env, stream[j]);
    }
    if j :| 0 <= j < n && Named(env, stream[j]) && EntryUuid(env, stream[j]) == u {
      assert Named(env, stream[..n][j]);
    }
  }

  lemma TakenSnoc(env: Env, rows: Rows, stream: seq<Entry>, force: bool, before: seq<nat>, taken: seq<nat>)
    requires stream != [] && AllTaken(env, rows, stream[..|stream| - 1], force, before)
    requires var n := |stream| - 1; taken == if Taken(env, rows, stream, force, n) then before + [n] else before
    ensures AllTaken(env, rows, stream, force, taken)
  {
    hide Taken;
    var n := |stream| - 1;
    forall i: nat | i < n ensures i in before <==> Taken(env, rows, stream, force, i) {
      TakenInFront(env, rows, stream, force, i);
    }
    assert n !in before;
  }

  /** The stored entry as a like or unlike leaves it; none when the request fails. */
  function LikedEntry(env: Env, mdb: Rows, rdb: Rows, entryId: text, user: text, like: bool, now: text): Option<Entry> {
    var e, u := StoredEntry(env, rdb, entryId), env.parseUuid(user);
    if e == None || EntryAt(env.parseUuid(entryId).value) !in rdb || !u.ok then None
    else match ProfileFromUuid(mdb, u.value)
      case None => None
      case Some(p) => Some(e.value.(likes := ApplyLike(e.value.likes, LikeRequest(NewLike(p, now), like))))
  }

  /** The same for a comment; none also when the comment is someone else's. */
  function CommentedEntry(env: Env, mdb: Rows, rdb: Rows, entryId: text, comment: Comment): Option<Entry> {
    var e := StoredEntry(env, rdb, entryId);
    if e == None || EntryAt(env.parseUuid(entryId).value) !in rdb || ProfileOf(mdb, comment.from.id) == None then None
    else match SetComment(e.value.comments, comment)
      case None => None
      case Some(comments) => Some(e.value.(comments := comments))
  }

  function UncommentedEntry(env: Env, mdb: Rows, rdb: Rows, entryId: text, user: text, commentId: text): Option<Entry> {
    var e := StoredEntry(env, rdb, entryId);
    if e == None || EntryAt(env.parseUuid(entryId).value) !in rdb || ProfileOf(mdb, user) == None then None
    else Some(e.value.(comments := RemoveComment(e.value.comments, commentId)))
  }

  /** Position i holds the first like by the user. */
  predicate FirstLike(likes: seq<Like>, id: text, i: nat) {
    i < |likes| && likes[i].from.id == id && forall j :: 0 <= j < i ==> likes[j].from.id != id
  }

  /** Position i holds the first comment with the id. */
  predicate FirstComment(comments: seq<Comment>, id: text, i: nat) {
    i < |comments| && comments[i].id == id && forall j :: 0 <= j < i ==> comments[j].id != id
  }

  /** A stored entry is read back as it is stored. */
  lemma StoredIsRow(env: Env, rdb: Rows, entryId: text)
    requires TableInv(env, rdb)
    ensures var id := env.parseUuid(entryId);
            var k := UUIDKey(TABLE_ENTRY, id.value).Bytes();
            && k == EntryAt(id.value)
            && (!id.ok ==> StoredEntry(env, rdb, entryId) == None)
            && (id.ok && k !in rdb ==> StoredEntry(env, rdb, entryId) == Some(EMPTY_ENTRY))
            && (id.ok && k in rdb ==> rdb[k].EntryRow? && StoredEntry(env, rdb, entryId) == Some(rdb[k].entry))
  {
    hide InIndex, InEntries;
    EntryKeyFacts(env.parseUuid(entryId).value);
  }

  /** The like of a user whose profile is p: on an entry without one it goes last, an unlike takes
      the first one out; without a profile, or on malformed text, the request fails. */
  lemma {:induction false} LikeMeaning(env: Env, mdb: Rows, rdb: Rows, entryId: text, user: text, like: bool, now: text)
    requires TableInv(env, rdb)
    ensures var id, u := env.parseUuid(entryId), env.parseUuid(user);
            var k := UUIDKey(TABLE_ENTRY, id.value).Bytes();
            var after := LikedEntry(env, mdb, rdb, entryId, user, like, now);
            && (!id.ok || !u.ok || (forall p :: !IsProfile(mdb, u.value, p)) ==> after == None)
            && (id.ok && u.ok && k in rdb ==>
                  && rdb[k].EntryRow?
                  && forall p :: IsProfile(mdb, u.value, p) ==>
                       var e := rdb[k].entry;
                       && after.Some?
                       && (like && (forall i :: 0 <= i < |e.likes| ==> e.likes[i].from.id != p.id) ==>
                             after.value == e.(likes := e.likes
                               + [Messages.Like.Like(now, Feed(p.id, p.name, p.kind, []))]))
                       && (!like ==> forall i: nat :: FirstLike(e.likes, p.id, i) ==>
                             after.value == e.(likes := e.likes[..i] + e.likes[i + 1..]))
                       && (like == (exists i :: 0 <= i < |e.likes| && e.likes[i].from.id == p.id) ==>
                             after.value == e))
            && (k !in rdb ==> after == None)
  {
    hide TableInv, StoredEntry, EntryAt, Key.Bytes, ProfileFromUuid, IsProfile, RemoveLike;
    StoredIsRow(env, rdb, entryId);
    var id, u := env.parseUuid(entryId), env.parseUuid(user);
    var k := UUIDKey(TABLE_ENTRY, id.value).Bytes();
    NoProfileFromUuid(mdb, u.value);
    forall p | IsProfile(mdb, u.value, p) ensures ProfileFromUuid(mdb, u.value) == Some(p) {
      ProfileFromUuidIff(mdb, u.value, p);
    }
    if id.ok && k in rdb {
      forall p: Profile, i: nat | FirstLike(rdb[k].entry.likes, p.id, i)
        ensures RemoveLike(rdb[k].entry.likes, p.id) == rdb[k].entry.likes[..i] + rdb[k].entry.likes[i + 1..]
      {
        RemoveLikeAt(rdb[k].entry.likes, p.id, i);
      }
      forall p: Profile | !Liked(rdb[k].entry.likes, p.id)
        ensures RemoveLike(rdb[k].entry.likes, p.id) == rdb[k].entry.likes
      {
        RemoveLikeAbsent(rdb[k].entry.likes, p.id);
      }
    }
  }

  lemma {:induction false} CommentMeaning(env: Env, mdb: Rows, rdb: Rows, entryId: text, c: Comment)
    requires TableInv(env, rdb)
    ensures var id := env.parseUuid(entryId);
            var k := UUIDKey(TABLE_ENTRY, id.value).Bytes();
            var after := CommentedEntry(env, mdb, rdb, entryId, c);
            && (!id.ok || k !in rdb || (forall p :: !IsProfileOf(mdb, c.from.id, p)) ==> after == None)
            && (id.ok && k in rdb ==>
                  && rdb[k].EntryRow?
                  && var e := rdb[k].entry;
                  && ((exists p :: IsProfileOf(mdb, c.from.id, p)) ==>
                        (forall i :: 0 <= i < |e.comments| ==> e.comments[i].id != c.id) ==>
                          after == Some(e.(comments := e.comments + [c])))
                  && ((exists p :: IsProfileOf(mdb, c.from.id, p)) ==>
                        forall i: nat :: FirstComment(e.comments, c.id, i) ==>
                          after == if e.comments[i].from.id == c.from.id
                                   then Some(e.(comments := e.comments[i := c])) else None))
  {
    hide TableInv, StoredEntry, EntryAt, Key.Bytes, ProfileOf, IsProfileOf, SetComment;
    StoredIsRow(env, rdb, entryId);
    NoProfileOf(mdb, c.from.id);
    var id := env.parseUuid(entryId);
    var k := UUIDKey(TABLE_ENTRY, id.value).Bytes();
    if id.ok && k in rdb {
      var comments := rdb[k].entry.comments;
      forall i: nat | FirstComment(comments, c.id, i)
        ensures SetComment(comments, c)
             == if comments[i].from.id == c.from.id then Some(comments[i := c]) else None
      {
        SetCommentAt(comments, c, i);
      }
      if forall i :: 0 <= i < |comments| ==> comments[i].id != c.id {
        SetCommentAt(comments, c, |comments|);
      }
    }
  }

  lemma {:induction false} UncommentMeaning(env: Env, mdb: Rows, rdb: Rows, entryId: text, user: text, commentId: text)
    requires TableInv(env, rdb)
    ensures var id := env.parseUuid(entryId);
            var k := UUIDKey(TABLE_ENTRY, id.value).Bytes();
            var after := UncommentedEntry(env, mdb, rdb, entryId, user, commentId);
            && (!id.ok || (forall p :: !IsProfileOf(mdb, user, p)) ==> after == None)
            && (id.ok && k in rdb ==>
                  && rdb[k].EntryRow?
                  && var e := rdb[k].entry;
                  && ((exists p :: IsProfileOf(mdb, user, p)) ==>
                        (forall i :: 0 <= i < |e.comments| ==> e.comments[i].id != commentId) ==> after == Some(e))
                  && ((exists p :: IsProfileOf(mdb, user, p)) ==>
                        forall i: nat :: FirstComment(e.comments, commentId, i) ==>
                          after == Some(e.(comments := e.comments[..i] + e.comments[i + 1..]))))
  {
    hide TableInv, StoredEntry, EntryAt, Key.Bytes, ProfileOf, IsProfileOf, RemoveComment;
    StoredIsRow(env, rdb, entryId);
    NoProfileOf(mdb, user);
    var id := env.parseUuid(entryId);
    var k := UUIDKey(TABLE_ENTRY, id.value).Bytes();
    if id.ok && k in rdb {
      var comments := rdb[k].entry.comments;
      forall i: nat | FirstComment(comments, commentId, i)
        ensures RemoveComment(comments, commentId) == comments[..i] + comments[i + 1..]
      {
        RemoveCommentAt(comments, commentId, i);
      }
      if forall i :: 0 <= i < |comments| ==> comments[i].id != commentId {
        RemoveCommentAt(comments, commentId, |comments|);
      }
    }
  }

  /** What LikeEntry answers, stores and pushes. */
  ghost predicate LikeOutcome(env: Env, mdb: Rows, rows: Rows, entryId: text, user: text, like: bool, now: text,
                              r: Result<Entry>, rows': Rows, pushes: seq<text>)
  {
    var id, u := env.parseUuid(entryId), env.parseUuid(user);
    var key := UUIDKey(TABLE_ENTRY, id.value);
    && (!id.ok || !u.ok || (forall p :: !IsProfile(mdb, u.value, p)) ==> r.Err? && rows' == rows && pushes == [])
    && (id.ok && u.ok && key.Bytes() in rows ==>
          && rows[key.Bytes()].EntryRow?
          && forall p :: IsProfile(mdb, u.value, p) ==>
               var e := rows[key.Bytes()].entry;
               && (like && (forall i :: 0 <= i < |e.likes| ==> e.likes[i].from.id != p.id) ==>
                     var added := Messages.Like.Like(now, Feed(p.id, p.name, p.kind, []));
                     && r == Ok(e.(likes := e.likes + [added]))
                     && rows' == rows[key.Bytes() := EntryRow(r.value)] && pushes == [key.String()])
               && (!like ==> forall i: nat :: FirstLike(e.likes, p.id, i) ==>
                     && r == Ok(e.(likes := e.likes[..i] + e.likes[i + 1..]))
                     && rows' == rows[key.Bytes() := EntryRow(r.value)] && pushes == [])
               && (like == (exists i :: 0 <= i < |e.likes| && e.likes[i].from.id == p.id) ==>
                     r == Ok(e) && rows' == rows && pushes == []))
    && (key.Bytes() !in rows ==> rows' == rows && pushes == [] && (like ==> r.Err?))
  }

  /** What CommentEntry answers, stores and pushes. */
  ghost predicate CommentOutcome(env: Env, mdb: Rows, rows: Rows, entryId: text, c: Comment,
                                 r: Result<Entry>, rows': Rows, pushes: seq<text>)
  {
    var id := env.parseUuid(entryId);
    var key := UUIDKey(TABLE_ENTRY, id.value);
    var k := key.Bytes();
    && (!id.ok || k !in rows || (forall p :: !IsProfileOf(mdb, c.from.id, p)) ==>
          r.Err? && rows' == rows && pushes == [])
    && (id.ok && k in rows && (exists p :: IsProfileOf(mdb, c.from.id, p)) ==>
          && rows[k].EntryRow?
          && var e := rows[k].entry;
          && ((forall i :: 0 <= i < |e.comments| ==> e.comments[i].id != c.id) ==>
                && r == Ok(e.(comments := e.comments + [c]))
                && rows' == rows[k := EntryRow(r.value)] && pushes == [key.String()])
          && forall i: nat :: FirstComment(e.comments, c.id, i) ==>
               if e.comments[i].from.id == c.from.id then
                 && r == Ok(e.(comments := e.comments[i := c]))
                 && rows' == rows[k := EntryRow(r.value)] && pushes == [key.String()]
               else r.Err? && rows' == rows && pushes == [])
  }

  /** The request writes the entry back as `after` and pushes its key if asked to; without one it
      does nothing. */
  ghost predicate WritesBack(env: Env, rows: Rows, entryId: text, after: Option<Entry>, push: bool,
                             r: Result<Entry>, rows': Rows, pushes: seq<text>)
  {
    match after
    case Some(e) =>
      && r == Ok(e) && rows' == rows[EntryAt(env.parseUuid(entryId).value) := EntryRow(e)]
      && pushes == if push then [EntryName(env, entryId)] else []
    case None => rows' == rows && pushes == [] && (push ==> r.Err?)
  }

  /** Whether a like or unlike pushes the entry: when it adds one. */
  predicate LikePushes(env: Env, rdb: Rows, entryId: text, like: bool, after: Option<Entry>) {
    var stored := StoredEntry(env, rdb, entryId);
    like && (after == None || stored == None || after.value.likes != stored.value.likes)
  }

  lemma {:induction false} LikeOutcomes(env: Env, mdb: Rows, rows: Rows, entryId: text, user: text, like: bool,
                                        now: text)
    requires TableInv(env, rows)
    ensures forall r: Result<Entry>, rows': Rows, pushes: seq<text> ::
              var after := LikedEntry(env, mdb, rows, entryId, user, like, now);
              var fails := !env.parseUuid(entryId).ok || !env.parseUuid(user).ok
                           || forall p :: !IsProfile(mdb, env.parseUuid(user).value, p);
              WritesBack(env, rows, entryId, after, LikePushes(env, rows, entryId, like, after), r, rows', pushes)
              && (fails ==> r.Err?)
              ==> LikeOutcome(env, mdb, rows, entryId, user, like, now, r, rows', pushes)
  {
    hide TableInv, LikedEntry, StoredEntry, IsProfile, Key.Bytes, Key.String;
    LikeMeaning(env, mdb, rows, entryId, user, like, now);
    StoredIsRow(env, rows, entryId);
  }

  lemma {:induction false} CommentOutcomes(env: Env, mdb: Rows, rows: Rows, entryId: text, c: Comment)
    requires TableInv(env, rows)
    ensures forall r: Result<Entry>, rows': Rows, pushes: seq<text> ::
              WritesBack(env, rows, entryId, CommentedEntry(env, mdb, rows, entryId, c), true, r, rows', pushes)
              ==> CommentOutcome(env, mdb, rows, entryId, c, r, rows', pushes)
  {
    hide TableInv, CommentedEntry, StoredEntry, IsProfileOf, Key.Bytes, Key.String;
    CommentMeaning(env, mdb, rows, entryId, c);
    StoredIsRow(env, rows, entryId);
  }

  /** The key an entry is pushed under. */
  function EntryName(env: Env, entryId: text): text {
    UUIDKey(TABLE_ENTRY, env.parseUuid(entryId).value).String()
  }

  lemma CountWraps(i: nat)
    ensures Feeds.ToInt32(Feeds.ToInt32(i) + 1) == Feeds.ToInt32(i + 1)
  {
  }

  lemma CountsSmall(n: nat)
    ensures n < 0x8000_0000 ==> Feeds.ToInt32(n) == n
  {
  }

  datatype FeedSummary = FeedSummary(entryCount: int, dateStart: text, dateEnd: text)

  /** Count in 32 bits, the last entry's date and the first one's. */
  function Summary(stream: seq<Entry>): FeedSummary {
    if stream == [] then FeedSummary(0, [], [])
    else FeedSummary(Feeds.ToInt32(|stream|), stream[|stream| - 1].date, stream[0].date)
  }

  // ------------------------------------------------------- the public page

  /** The keys the public feed shows: those pushed or loaded, the newest 500. */
  lemma ShownNamesEntries(rows: Rows, history: seq<text>, iq: seq<text>, loaded: seq<text>, buf: seq<text>)
    requires AllName(rows, history) && AllName(rows, loaded) && |iq| <= |history|
    requires buf == Pad(Recent(PublicIndex.Reverse(history[..|history| - |iq|]) + loaded))
    ensures WellFormed(buf) && AllName(rows, UntilBlank(buf))
  {
    hide Dedup, Pad, NamesEntry, UntilBlank, WellFormed;
    var applied := history[..|history| - |iq|];
    BlankNamesNothing(rows);
    assert BLANK !in history && BLANK !in loaded;
    ReverseKeepsBlankOut(applied);
    var past := PublicIndex.Reverse(applied) + loaded;
    RecentIsWellFormed(past);
    RecentMeaning(past);
  }

  /** The stored entry a key names, with its author's picture if there is one. */
  function EntryShown(rdb: Rows, mdb: Rows, key: text): Entry {
    var k := DecodeHex(key).bytes;
    if k in rdb && rdb[k].EntryRow? then Shown(mdb, rdb[k].entry) else EMPTY_ENTRY
  }

  function EntriesShown(rdb: Rows, mdb: Rows, keys: seq<text>): seq<Entry> {
    seq(|keys|, i requires 0 <= i < |keys| => EntryShown(rdb, mdb, keys[i]))
  }

  // ------------------------------------------------------------- the server

  class ApiServer {
    const env: Env
    const mdb: Store
    const rdb: Store
    const index: FeedIndex
    /** The first insertions of entries, oldest first. */
    ghost var log: seq<Insertion>

    /** Everything in the public index, shown or pending, is the key of a stored entry, and
        entries and reverse index are what the first insertions left. */
    ghost predicate Valid()
      reads this, rdb, index, index.bufq
    {
      && EnvOk(env)
      && mdb != rdb
      && index.Valid() && index.uuid == NIL_UUID
      && TableInv(env, rdb.rows) && Reflects(log, rdb.rows)
      && AllName(rdb.rows, index.history) && AllName(rdb.rows, index.loaded)
    }

    constructor (env: Env, mdb: Store, rdb: Store, index: FeedIndex, ghost log: seq<Insertion>)
      requires EnvOk(env) && mdb != rdb && index.Valid() && index.uuid == NIL_UUID
      requires TableInv(env, rdb.rows) && Reflects(log, rdb.rows)
      requires AllName(rdb.rows, index.history) && AllName(rdb.rows, index.loaded)
      ensures Valid() && this.env == env && this.mdb == mdb && this.rdb == rdb && this.index == index && this.log == log
    {
      this.env, this.mdb, this.rdb, this.index := env, mdb, rdb, index;
      this.log := log;
    }

    method Spread(key: Option<Key>)
      requires index.Valid()
      modifies index
      ensures index.Valid() && index.bufq == old(index.bufq) && index.loaded == old(index.loaded)
      ensures index.history == old(index.history) + (match key case Some(k) => [k.String()] case None => [])
    {
      if key.Some? {
        index.Push(key.value.String());
      }
    }

    method PostEntry(entry: Entry, w: WorkerId) returns (r: Result<Entry>)
      requires Valid()
      modifies this`log, rdb, index
      ensures Valid() && index.bufq == old(index.bufq) && index.loaded == old(index.loaded)
      ensures var a := Putting(env, old(rdb.rows), entry, false, w);
              rdb.rows == a.rows && index.history == old(index.history) + a.pushes && log == old(log) + a.inserted
      ensures var p := Put(env, old(rdb.rows), entry, false, w);
              if p.err == None then r == Ok(p.entry) && |index.history| == |old(index.history)| + 1
              else r.Err? && index.history == old(index.history)
      ensures var k, rows := UUIDKey(TABLE_ENTRY, EntryUuid(env, entry)), old(rdb.rows);
              var user, date, e := env.parseUuid(entry.profileUuid), env.parseDate(entry.date), TrimId(entry);
              if !Named(env, entry) || k.Bytes() in rows then
                r.Err? && rdb.rows == rows && index.history == old(index.history)
              else if date == None then
                r.Err? && rdb.rows == rows[k.Bytes() := EntryRow(e)] && index.history == old(index.history)
              else
                && r == Ok(e) && index.history == old(index.history) + [k.String()]
                && rdb.rows == rows[k.Bytes() := EntryRow(e)]
                                   [IndexAt(user.value, date.value, w) := EntryKeyRow(k.Bytes())]
    {
      hide TableInv, KeepsTable, Put, NamesEntry, FeedIndex.Valid, Reflects, Inserted, TrimId, IndexAt, Key.Bytes,
           Key.String;
      PutKeepsAllNames(env, rdb.rows, entry, false, w, index.history, index.loaded);
      PutKeepsLog(env, log, rdb.rows, entry, false, w);
      log := log + Inserted(env, rdb.rows, entry, false, w);
      var key, err, e := PutEntry(env, rdb, entry, false, w);
      if err.Some? {
        assert err.value.BadUuid? || err.value.BadDate? || err.value.ExistItem?;
        return Err(FAILED);
      }
      Spread(key);
      return Ok(e);
    }

    /** The loop both archive calls share: every entry that PutEntry takes is pushed, an
        entry that exists or fails is passed over, and the stream goes on. */
    method Receive(stream: seq<Entry>, update: bool, w: WorkerId) returns (summary: FeedSummary)
      requires Valid()
      modifies this`log, rdb, index
      ensures Valid() && index.bufq == old(index.bufq) && index.loaded == old(index.loaded)
      ensures var a := Archive(env, old(rdb.rows), stream, update, w);
              rdb.rows == a.rows && index.history == old(index.history) + a.pushes && log == old(log) + a.inserted
      ensures summary == Summary(stream)
    {
      hide TableInv, KeepsTable, PutOutcome, Put, NamesEntry, FeedIndex.Valid, AllName, EnvOk, Key.String, Archive,
           Feeds.ToInt32, Reflects, Inserted;
      EmptyArchive(env, rdb.rows, update, w);
      assert stream[..0] == [];
      var dateStart, dateEnd, count := [], [], 0;
      for i := 0 to |stream|
        invariant Valid() && index.bufq == old(index.bufq) && index.loaded == old(index.loaded)
        invariant var a := Archive(env, old(rdb.rows), stream[..i], update, w);
                  rdb.rows == a.rows && index.history == old(index.history) + a.pushes && log == old(log) + a.inserted
        invariant count == Feeds.ToInt32(i)
        invariant i > 0 ==> dateEnd == stream[0].date && dateStart == stream[i - 1].date
        invariant i == 0 ==> dateEnd == dateStart == []
      {
        var entry := stream[i];
        ArchiveSnoc(env, old(rdb.rows), stream, update, w, i);
        PutKeepsAllNames(env, rdb.rows, entry, update, w, index.history, index.loaded);
        PutKeepsLog(env, log, rdb.rows, entry, update, w);
        log := log + Inserted(env, rdb.rows, entry, update, w);
        CountWraps(i);
        count := Feeds.ToInt32(count + 1);
        var key, err, e := PutEntry(env, rdb, entry, update, w);
        if err == None {
          Spread(key);
        }
        if i == 0 {
          dateEnd := entry.date;
        }
        dateStart := entry.date;
      }
      assert stream[..|stream|] == stream;
      return FeedSummary(count, dateStart, dateEnd);
    }

    /** `broken` says whether the stream ends in an error, which leaves what came before it
        stored and pushed and sends no summary. */
    method ArchiveFeed(stream: seq<Entry>, broken: bool, w: WorkerId)
      returns (r: Result<FeedSummary>, ghost taken: seq<nat>)
      requires Valid()
      modifies this`log, rdb, index
      ensures Valid() && index.bufq == old(index.bufq) && index.loaded == old(index.loaded)
      ensures var a := Archive(env, old(rdb.rows), stream, false, w);
              rdb.rows == a.rows && index.history == old(index.history) + a.pushes && log == old(log) + a.inserted
      ensures AllTaken(env, old(rdb.rows), stream, false, taken)
      ensures |index.history| == |old(index.history)| + |taken| && old(index.history) <= index.history
      ensures AreKeysOf(env, stream, taken, index.history[|old(index.history)|..])
      ensures r.Err? <==> broken
      ensures r.Ok? && stream == [] ==> r.value == FeedSummary(0, [], [])
      ensures r.Ok? && stream != [] ==>
                r.value.dateEnd == stream[0].date && r.value.dateStart == stream[|stream| - 1].date
      ensures r.Ok? && |stream| < 0x8000_0000 ==> r.value.entryCount == |stream|
      ensures r == if broken then Err(FAILED) else Ok(Summary(stream))
    {
      hide Valid, Archive, AllTaken, Putting, EntryUuid, Key.String;
      taken := ArchivePushes(env, rdb.rows, stream, false, w);
      var summary := Receive(stream, false, w);
      CountsSmall(|stream|);
      r := if broken then Err(FAILED) else Ok(summary);
    }

    method ForceArchiveFeed(stream: seq<Entry>, broken: bool, w: WorkerId)
      returns (r: Result<FeedSummary>, ghost taken: seq<nat>)
      requires Valid()
      modifies this`log, rdb, index
      ensures Valid() && index.bufq == old(index.bufq) && index.loaded == old(index.loaded)
      ensures var a := Archive(env, old(rdb.rows), stream, true, w);
              rdb.rows == a.rows && index.history == old(index.history) + a.pushes && log == old(log) + a.inserted
      ensures AllTaken(env, old(rdb.rows), stream, true, taken)
      ensures |index.history| == |old(index.history)| + |taken| && old(index.history) <= index.history
      ensures AreKeysOf(env, stream, taken, index.history[|old(index.history)|..])
      ensures r.Err? <==> broken
      ensures r.Ok? && stream == [] ==> r.value == FeedSummary(0, [], [])
      ensures r.Ok? && stream != [] ==>
                r.value.dateEnd == stream[0].date && r.value.dateStart == stream[|stream| - 1].date
      ensures r.Ok? && |stream| < 0x8000_0000 ==> r.value.entryCount == |stream|
      ensures r == if broken then Err(FAILED) else Ok(Summary(stream))
    {
      hide Valid, Archive, AllTaken, Putting, EntryUuid, Key.String;
      taken := ArchivePushes(env, rdb.rows, stream, true, w);
      var summary := Receive(stream, true, w);
      CountsSmall(|stream|);
      r := if broken then Err(FAILED) else Ok(summary);
    }

    /** A like by someone who has not liked the entry adds one and pushes the entry; by
        someone who has, it changes neither store nor index. An unlike never pushes. */
    method LikeEntry(entryId: text, user: text, like: bool, now: text, w: WorkerId) returns (r: Result<Entry>)
      requires Valid()
      modifies rdb, index
      ensures Valid() && index.bufq == old(index.bufq) && index.loaded == old(index.loaded)
      ensures match LikedEntry(env, mdb.rows, old(rdb.rows), entryId, user, like, now)
              case Some(e) =>
                && r == Ok(e) && rdb.rows == old(rdb.rows)[EntryAt(env.parseUuid(entryId).value) := EntryRow(e)]
                && index.history == old(index.history)
                     + if like && e.likes != StoredEntry(env, old(rdb.rows), entryId).value.likes
                       then [EntryName(env, entryId)] else []
              case None => rdb.rows == old(rdb.rows) && index.history == old(index.history) && (like ==> r.Err?)
      ensures var e := StoredEntry(env, old(rdb.rows), entryId);
              var p := ProfileFromUuid(mdb.rows, env.parseUuid(user).value);
              e.Some? && p.Some? && Liked(e.value.likes, p.value.id) == like ==>
                rdb.rows == old(rdb.rows) && index.history == old(index.history)
      ensures old(index.history) <= index.history
      ensures LikeOutcome(env, mdb.rows, old(rdb.rows), entryId, user, like, now, r, rdb.rows,
                          index.history[|old(index.history)|..])
      ensures var id, u := env.parseUuid(entryId), env.parseUuid(user);
              var missing := id.ok && UUIDKey(TABLE_ENTRY, id.value).Bytes() !in old(rdb.rows);
              missing && !like && u.ok && (exists p :: IsProfile(mdb.rows, u.value, p)) ==> r == Ok(EMPTY_ENTRY)
    {
      hide TableInv, Put, NamesEntry, FeedIndex.Valid, Reflects, EntryAt, Liked, RemoveLike, Key.String, LikeOutcome,
           IsProfile;
      LikeOutcomes(env, mdb.rows, rdb.rows, entryId, user, like, now);
      StoredIsRow(env, rdb.rows, entryId);
      NoProfileFromUuid(mdb.rows, env.parseUuid(user).value);
      var stored := StoredEntry(env, rdb.rows, entryId);
      if stored == None {
        return Err(FAILED);
      }
      var uuid1 := env.parseUuid(user);
      if !uuid1.ok {
        return Err(FAILED);
      }
      var profile := ProfileFromUuid(mdb.rows, uuid1.value);
      if profile == None {
        return Err(FAILED);
      }
      var e := stored.value;
      ghost var e' := e.(likes := ApplyLike(e.likes, LikeRequest(NewLike(profile.value, now), like)));
      PutBack(env, rdb.rows, entryId, e', w);
      PutBackKeepsNames(env, rdb.rows, entryId, e', w, index.history);
      PutBackKeepsNames(env, rdb.rows, entryId, e', w, index.loaded);
      PutBackKeepsLog(env, log, rdb.rows, entryId, e', w);
      RowUnchanged(env, rdb.rows, entryId);
      NobodyLikesEmpty(profile.value.id);
      if !Liked(e.likes, profile.value.id) {
        RemoveLikeAbsent(e.likes, profile.value.id);
      }
      if like {
        var key, e2, err := Reactions.Like(env, rdb, profile.value, e, now, w);
        if err == None {
          Spread(key);
          return Ok(e2);
        }
        return Err(FAILED);
      } else {
        var e2, err := Reactions.DeleteLike(env, rdb, profile.value, e, w);
        if err.Some? {
          return Err(FAILED);
        }
        return Ok(e2);
      }
    }

    /** A comment by the author of its id, or under a new id, is stored and the entry
        pushed; one under another author's id changes nothing. */
    method CommentEntry(entryId: text, comment: Comment, w: WorkerId) returns (r: Result<Entry>)
      requires Valid()
      modifies rdb, index
      ensures Valid() && index.bufq == old(index.bufq) && index.loaded == old(index.loaded)
      ensures match CommentedEntry(env, mdb.rows, old(rdb.rows), entryId, comment)
              case Some(e) =>
                && r == Ok(e) && rdb.rows == old(rdb.rows)[EntryAt(env.parseUuid(entryId).value) := EntryRow(e)]
                && index.history == old(index.history) + [EntryName(env, entryId)]
              case None => rdb.rows == old(rdb.rows) && index.history == old(index.history) && r.Err?
      ensures old(index.history) <= index.history
      ensures CommentOutcome(env, mdb.rows, old(rdb.rows), entryId, comment, r, rdb.rows,
                             index.history[|old(index.history)|..])
    {
      hide TableInv, Put, NamesEntry, FeedIndex.Valid, Reflects, EntryAt, SetComment, Key.String, CommentOutcome,
           IsProfileOf;
      CommentOutcomes(env, mdb.rows, rdb.rows, entryId, comment);
      var stored := StoredEntry(env, rdb.rows, entryId);
      if stored == None {
        return Err(FAILED);
      }
      var profile := ProfileOf(mdb.rows, comment.from.id);
      if profile == None {
        return Err(FAILED);
      }
      ghost var after := SetComment(stored.value.comments, comment);
      if after.Some? {
        ghost var e' := stored.value.(comments := after.value);
        PutBack(env, rdb.rows, entryId, e', w);
        PutBackKeepsNames(env, rdb.rows, entryId, e', w, index.history);
        PutBackKeepsNames(env, rdb.rows, entryId, e', w, index.loaded);
        PutBackKeepsLog(env, log, rdb.rows, entryId, e', w);
      }
      var key, e, err := Reactions.Comment(env, rdb, stored.value, comment, w);
      if err.Some? {
        return Err(FAILED);
      }
      Spread(key);
      return Ok(e);
    }

    /** Deleting asks no permission and pushes nothing. */
    method DeleteComment(entryId: text, user: text, commentId: text, w: WorkerId) returns (r: Result<Entry>)
      requires Valid()
      modifies rdb
      ensures Valid()
      ensures match UncommentedEntry(env, mdb.rows, old(rdb.rows), entryId, user, commentId)
              case Some(e) =>
                r == Ok(e) && rdb.rows == old(rdb.rows)[EntryAt(env.parseUuid(entryId).value) := EntryRow(e)]
              case None => rdb.rows == old(rdb.rows)
      ensures var id := env.parseUuid(entryId);
              !id.ok || (forall p :: !IsProfileOf(mdb.rows, user, p)) ==> r.Err? && rdb.rows == old(rdb.rows)
      ensures var id := env.parseUuid(entryId);
              var k, rows := UUIDKey(TABLE_ENTRY, id.value).Bytes(), old(rdb.rows);
              id.ok && k in rows && (exists p :: IsProfileOf(mdb.rows, user, p)) ==>
                && rows[k].EntryRow?
                && var e := rows[k].entry;
                && ((forall i :: 0 <= i < |e.comments| ==> e.comments[i].id != commentId) ==>
                      r == Ok(e) && rdb.rows == rows)
                && forall i: nat :: FirstComment(e.comments, commentId, i) ==>
                     && r == Ok(e.(comments := e.comments[..i] + e.comments[i + 1..]))
                     && rdb.rows == rows[k := EntryRow(r.value)]
      ensures var id := env.parseUuid(entryId);
              var missing := id.ok && UUIDKey(TABLE_ENTRY, id.value).Bytes() !in old(rdb.rows);
              missing && (exists p :: IsProfileOf(mdb.rows, user, p)) ==>
                r == Ok(EMPTY_ENTRY) && rdb.rows == old(rdb.rows)
    {
      UncommentMeaning(env, mdb.rows, rdb.rows, entryId, user, commentId);
      StoredIsRow(env, rdb.rows, entryId);
      NoProfileOf(mdb.rows, user);
      hide TableInv, Put, NamesEntry, FeedIndex.Valid, Reflects, EntryAt, CommentIndex, Key.String;
      var stored := StoredEntry(env, rdb.rows, entryId);
      if stored == None || ProfileOf(mdb.rows, user) == None {
        return Err(FAILED);
      }
      ghost var e' := stored.value.(comments := RemoveComment(stored.value.comments, commentId));
      PutBack(env, rdb.rows, entryId, e', w);
      PutBackKeepsNames(env, rdb.rows, entryId, e', w, index.history);
      PutBackKeepsNames(env, rdb.rows, entryId, e', w, index.loaded);
      PutBackKeepsLog(env, log, rdb.rows, entryId, e', w);
      RowUnchanged(env, rdb.rows, entryId);
      var e, err := Reactions.DeleteComment(env, rdb, stored.value, commentId, w);
      if err.Some? {
        return Err(FAILED);
      }
      return Ok(e);
    }

    /** The index may be rebuilt at any time. */
    method RebuildIndex()
      requires Valid()
      modifies index
      ensures Valid() && index.iq == [] && index.history == old(index.history) && index.loaded == old(index.loaded)
      ensures index.bufq[..] == Pad(Recent(PublicIndex.Reverse(index.history) + index.loaded))
    {
      hide TableInv, NamesEntry, Reflects, FeedIndex.Valid, Recent, Pad;
      BlankNamesNothing(rdb.rows);
      index.Rebuild();
    }

    /** Stores the index as the next process will load it. Keys still queued are not in it. */
    method Shutdown()
      requires Valid()
      modifies mdb
      ensures Valid() && rdb.rows == old(rdb.rows)
      ensures mdb.rows == old(mdb.rows)[UUIDKey(TABLE_INDEX_CACHE, NIL_UUID).Bytes() := IndexCacheRow(index.bufq[..])]
    {
      hide TableInv, NamesEntry, Reflects, FeedIndex.Valid, Key.Bytes;
      index.Dump(mdb);
    }

    /** One page of the public feed: PageSize + 1 entries from Start on, or all that remain.
        "entry data missing" does not occur. */
    method CachedFeed(start: int, requested: int) returns (r: Result<seq<Entry>>)
      requires Valid()
      ensures WellFormed(index.bufq[..])
      ensures var page := Window(UntilBlank(index.bufq[..]), start, PageSize(requested) + 1);
              r == Ok(EntriesShown(rdb.rows, mdb.rows, page))
      ensures var page := Window(UntilBlank(index.bufq[..]), start, PageSize(requested) + 1);
              r.Ok? && AreShown(rdb.rows, mdb.rows, page, r.value)
    {
      hide TableInv, NamesEntry, Reflects, Recent, Pad, UntilBlank, EntriesShown, EntryShown, WellFormed, DecodeHex,
           AreShown, Dedup;
      var size := PageSize(requested);
      ghost var filled := UntilBlank(index.bufq[..]);
      BlankNamesNothing(rdb.rows);
      ShownNamesEntries(rdb.rows, index.history, index.iq, index.loaded, index.bufq[..]);
      PageShown(env, rdb.rows, mdb.rows, filled, start, size + 1);
      var skip, entries, found := start, [], 0;
      NothingShown(rdb.rows, mdb.rows);
      assert filled[0..0] == [];
      var i := 0;
      while i < index.bufq.Length
        invariant 0 <= i <= index.bufq.Length
        invariant i <= start ==> skip == start - i && entries == [] && found == 0
        invariant i > start ==> skip <= 0 && Positive(start) <= i <= |filled|
        invariant i > start ==> found == i - Positive(start) <= size
        invariant i > start ==> entries == EntriesShown(rdb.rows, mdb.rows, filled[Positive(start)..i])
      {
        if skip > 0 {
          skip := skip - 1;
          i := i + 1;
          continue;
        }
        var key := index.bufq[i];
        FilledIndex(index.bufq[..], i);
        if key == BLANK {
          break;
        }
        assert key == filled[i] && key in filled;
        var kb := DecodeHex(key).bytes;
        NamedRow(env, rdb.rows, key);
        if kb !in rdb.rows {
          return Err(MISSING);
        }
        var entry := rdb.rows[kb].entry;
        EntriesShownSnoc(rdb.rows, mdb.rows, filled, Positive(start), i);
        entries := entries + [Shown(mdb.rows, entry)];
        found := found + 1;
        i := i + 1;
        assert entries == EntriesShown(rdb.rows, mdb.rows, filled[Positive(start)..i]);
        if found > size {
          break;
        }
      }
      assert i > start ==> found == size + 1 || i == |filled|;
      assert i <= start ==> |filled| <= i;
      if i > start {
        PageDone(filled, start, size + 1, i);
        assert entries == EntriesShown(rdb.rows, mdb.rows, Window(filled, start, size + 1));
      } else {
        assert Window(filled, start, size + 1) == [];
      }
      return Ok(entries);
    }

    /** One page of a user's feed: the window of the user's index rows that begins at Start,
        strictly newest first when the user's entries were first inserted with distinct
        whole-second dates from the epoch to MAX_TIME, and with no entry before one a second newer
        for any dates in that range. It fails only for want of a profile, the user's or an
        author's; no row of the index is without its entry. */
    method ForwardFetchFeed(id: text, start: int, requested: int) returns (r: Result<seq<Entry>>)
      requires Valid()
      ensures var p := ProfileOf(mdb.rows, id);
              p.Some? ==>
                var user := env.parseUuid(p.value.uuid).value;
                var ks := KeysUnder(rdb.rows, UUIDKey(TABLE_REVERSE_ENTRY_INDEX, user).Bytes());
                var page := Window(ks, start, ForwardCount(start, PageSize(requested)));
                && (r.Ok? <==> forall k :: k in page ==> Format(mdb.rows, EntryBehind(rdb.rows, k)).Some?)
                && (r.Ok? ==> |r.value| == |page|
                              && forall i :: 0 <= i < |page| ==>
                                   Format(mdb.rows, EntryBehind(rdb.rows, page[i])) == Some(r.value[i]))
                && (DatesDistinct(log, user) ==> NewestFirst(log, rdb.rows, user, page))
                && (DatesInRange(log, user) ==> NearlyNewestFirst(log, rdb.rows, user, page))
      ensures ProfileOf(mdb.rows, id) == None ==> r.Err?
      ensures (forall p :: !IsProfileOf(mdb.rows, id, p)) ==> r.Err?
      ensures forall p :: IsProfileOf(mdb.rows, id, p) ==>
                var user, rows := env.parseUuid(p.uuid).value, rdb.rows;
                var ks := KeysUnder(rows, UUIDKey(TABLE_REVERSE_ENTRY_INDEX, user).Bytes());
                var page := Window(ks, start, ForwardCount(start, PageSize(requested)));
                && (forall k :: k in page ==> LeadsToEntry(rows, k))
                && (r.Ok? <==> forall k :: k in page ==>
                      exists a :: IsProfileOf(mdb.rows, rows[rows[k].key].entry.from.id, a))
                && (r.Ok? ==>
                      && |r.value| == |page|
                      && forall i :: 0 <= i < |page| ==>
                           page[i] in page && IsShown(mdb.rows, rows[rows[page[i]].key].entry, r.value[i]))
    {
      hide FeedIndex.Valid, NamesEntry, KeysUnder, Key.Bytes, FormatRow, Format, ForwardCount, Reflects,
           DatesDistinct, NewestFirst, DatesInRange, NearlyNewestFirst, IsProfileOf, IsShown;
      var size := PageSize(requested);
      var profile := ProfileOf(mdb.rows, id);
      NoProfileOf(mdb.rows, id);
      if profile == None {
        return Err(FAILED);
      }
      var preKey := UUIDKey(TABLE_REVERSE_ENTRY_INDEX, env.parseUuid(profile.value.uuid).value);
      ghost var ks := KeysUnder(rdb.rows, preKey.Bytes());
      var n, err, st := ForwardTableScan(rdb, preKey, Fetch(rdb.rows, mdb.rows, start, size), FetchState(start, []));
      FetchFold(rdb.rows, mdb.rows, start, size, ks, 0, FetchState(start, []));
      RemainingIsWindow(ks, start, size);
      ghost var page := Window(ks, start, ForwardCount(start, size));
      FormatRowsAll(rdb.rows, mdb.rows, page);
      PageNewestFirst(log, rdb.rows, preKey.uuid, start, ForwardCount(start, size));
      PageNearlyNewestFirst(log, rdb.rows, preKey.uuid, start, ForwardCount(start, size));
      forall k | k in page
        ensures FormatRow(rdb.rows, mdb.rows, rdb.rows[k]) == Format(mdb.rows, EntryBehind(rdb.rows, k))
        ensures LeadsToEntry(rdb.rows, k) && EntryBehind(rdb.rows, k) == rdb.rows[rdb.rows[k].key].entry
      {
        UserRowFormats(env, rdb.rows, mdb.rows, preKey.uuid, k);
        UserRowLeads(env, rdb.rows, preKey.uuid, k);
      }
      forall k | k in page { FormatMeaning(mdb.rows, EntryBehind(rdb.rows, k)); }
      forall p ensures IsProfileOf(mdb.rows, id, p) ==> profile == Some(p) {
        ProfileOfIff(mdb.rows, id, p);
      }
      if err.Some? {
        return Err(err.value);
      }
      return Ok(st.entries);
    }
  }

  /** One entry per key, which is the stored one that the key's hex names, as it is to be shown. */
  ghost predicate AreShown(rdb: Rows, mdb: Rows, keys: seq<text>, shown: seq<Entry>) {
    && |shown| == |keys|
    && forall i :: 0 <= i < |keys| ==>
         var k := DecodeHex(keys[i]).bytes;
         k in rdb && rdb[k].EntryRow? && IsShown(mdb, rdb[k].entry, shown[i])
  }

  /** A page of named keys is shown as the entries they name, each with its author's picture. */
  lemma {:induction false} PageShown(env: Env, rdb: Rows, mdb: Rows, filled: seq<text>, start: int, count: nat)
    requires TableInv(env, rdb) && AllName(rdb, filled)
    ensures var page := Window(filled, start, count);
            AreShown(rdb, mdb, page, EntriesShown(rdb, mdb, page))
  {
    hide TableInv, NamesEntry, DecodeHex, IsShown, Shown;
    var page := Window(filled, start, count);
    forall i | 0 <= i < |page|
      ensures var k := DecodeHex(page[i]).bytes;
              k in rdb && rdb[k].EntryRow? && IsShown(mdb, rdb[k].entry, EntryShown(rdb, mdb, page[i]))
    {
      assert page[i] == filled[First(|filled|, start) + i];
      NamedRow(env, rdb, page[i]);
      FormatMeaning(mdb, rdb[DecodeHex(page[i]).bytes].entry);
    }
  }

  lemma PageNewestFirst(log: seq<Insertion>, rows: Rows, user: Uuid, start: int, count: nat)
    requires Reflects(log, rows)
    ensures DatesDistinct(log, user) ==> NewestFirst(log, rows, user, Window(UserKeys(rows, user), start, count))
  {
    hide Reflects, DatesDistinct, Newer, UserKeys;
    if DatesDistinct(log, user) {
      RowsNewestFirst(log, rows, user);
      WindowNewestFirst(log, rows, user, UserKeys(rows, user), start, count);
    }
  }

  lemma WindowNewestFirst(log: seq<Insertion>, rows: Rows, user: Uuid, ks: seq<seq<byte>>, start: int, count: nat)
    requires NewestFirst(log, rows, user, ks)
    ensures NewestFirst(log, rows, user, Window(ks, start, count))
  {
    hide Newer;
    var page, s := Window(ks, start, count), First(|ks|, start);
    forall a, b | 0 <= a < b < |page| ensures Newer(log, rows, user, page[a], page[b]) {
      assert page[a] == ks[s + a] && page[b] == ks[s + b];
    }
  }

  lemma PageNearlyNewestFirst(log: seq<Insertion>, rows: Rows, user: Uuid, start: int, count: nat)
    requires Reflects(log, rows)
    ensures DatesInRange(log, user) ==> NearlyNewestFirst(log, rows, user, Window(UserKeys(rows, user), start, count))
  {
    hide Reflects, DatesInRange, NotMuchNewer, UserKeys;
    if DatesInRange(log, user) {
      RowsNearlyNewestFirst(log, rows, user);
      var ks, page := UserKeys(rows, user), Window(UserKeys(rows, user), start, count);
      var s := First(|ks|, start);
      forall a, b | 0 <= a < b < |page| ensures NotMuchNewer(log, rows, user, page[a], page[b]) {
        assert page[a] == ks[s + a] && page[b] == ks[s + b];
      }
    }
  }

  predicate LeadsToEntry(rows: Rows, k: seq<byte>) {
    k in rows && rows[k].EntryKeyRow? && rows[k].key in rows && rows[rows[k].key].EntryRow?
  }

  /** The entry an index row points to. */
  function EntryBehind(rdb: Rows, k: seq<byte>): Entry {
    if k in rdb && rdb[k].EntryKeyRow? && rdb[k].key in rdb && rdb[rdb[k].key].EntryRow? then rdb[rdb[k].key].entry
    else EMPTY_ENTRY
  }

  lemma {:induction false} UserRowLeads(env: Env, rows: Rows, user: Uuid, k: seq<byte>)
    requires TableInv(env, rows) && k in rows && UUIDKey(TABLE_REVERSE_ENTRY_INDEX, user).Bytes() <= k
    ensures LeadsToEntry(rows, k) && EntryBehind(rows, k) == rows[rows[k].key].entry
  {
    TablePrefix(TABLE_REVERSE_ENTRY_INDEX, UUIDKey(TABLE_REVERSE_ENTRY_INDEX, user));
  }

  lemma {:induction false} UserRowFormats(env: Env, rdb: Rows, mdb: Rows, user: Uuid, k: seq<byte>)
    requires TableInv(env, rdb) && k in rdb && UUIDKey(TABLE_REVERSE_ENTRY_INDEX, user).Bytes() <= k
    ensures FormatRow(rdb, mdb, rdb[k]) == Format(mdb, EntryBehind(rdb, k))
  {
    TablePrefix(TABLE_REVERSE_ENTRY_INDEX, UUIDKey(TABLE_REVERSE_ENTRY_INDEX, user));
  }

  lemma FilledIndex(buf: seq<text>, i: nat)
    requires WellFormed(buf) && i < |buf|
    ensures buf[i] != BLANK <==> i < |UntilBlank(buf)|
    ensures i < |UntilBlank(buf)| ==> UntilBlank(buf)[i] == buf[i]
  {
  }

  lemma NothingShown(rdb: Rows, mdb: Rows)
    ensures EntriesShown(rdb, mdb, []) == []
  {
  }

  lemma EntriesShownSnoc(rdb: Rows, mdb: Rows, keys: seq<text>, a: nat, i: nat)
    requires a <= i < |keys|
    ensures EntriesShown(rdb, mdb, keys[a..i + 1])
         == EntriesShown(rdb, mdb, keys[a..i]) + [EntryShown(rdb, mdb, keys[i])]
    ensures EntriesShown(rdb, mdb, keys[a..a]) == []
  {
    hide EntryShown;
    assert keys[a..i + 1] == keys[a..i] + [keys[i]];
  }

  lemma PageDone(list: seq<text>, start: int, count: nat, i: nat)
    requires Positive(start) <= i <= |list|
    requires i - Positive(start) == count || (i == |list| && i - Positive(start) <= count)
    ensures Window(list, start, count) == list[Positive(start)..i]
  {
  }

  lemma {:induction false} NamedRow(env: Env, rows: Rows, key: text)
    requires TableInv(env, rows) && NamesEntry(rows, key)
    ensures var k := DecodeHex(key).bytes; k in rows && rows[k].EntryRow?
    ensures forall mdb: Rows :: EntryShown(rows, mdb, key) == Shown(mdb, rows[DecodeHex(key).bytes].entry)
  {
  }

  lemma NobodyLikesEmpty(id: text)
    ensures !Liked(EMPTY_ENTRY.likes, id)
  {
  }

  lemma RowUnchanged(env: Env, rows: Rows, uuid: text)
    requires TableInv(env, rows) && StoredEntry(env, rows, uuid).Some?
    ensures var k := EntryAt(env.parseUuid(uuid).value);
            k in rows ==> rows[k := EntryRow(StoredEntry(env, rows, uuid).value)] == rows
  {
  }

  /** Starts with the index dumped last, if there is one; an error of the load is ignored. */
  method NewApiServer(env: Env, mdb: Store, rdb: Store, ghost log: seq<Insertion>) returns (s: ApiServer)
    requires EnvOk(env) && mdb != rdb && TableInv(env, rdb.rows) && Reflects(log, rdb.rows)
    requires match mdb.Get(UUIDKey(TABLE_INDEX_CACHE, NIL_UUID).Bytes())
             case Some(IndexCacheRow(keys)) => WellFormed(keys) && AllName(rdb.rows, UntilBlank(keys))
             case _ => true
    ensures s.Valid() && s.env == env && s.mdb == mdb && s.rdb == rdb && s.log == log && s.index.history == []
    ensures match mdb.Get(UUIDKey(TABLE_INDEX_CACHE, NIL_UUID).Bytes())
            case Some(IndexCacheRow(keys)) => s.index.bufq[..] == keys && s.index.loaded == UntilBlank(keys)
            case _ => s.index.loaded == []
    ensures fresh(s) && fresh(s.index) && fresh(s.index.bufq)
  {
    hide WellFormed, UntilBlank, NamesEntry, TableInv, Reflects, FeedIndex.Valid, Key.Bytes;
    var index := new FeedIndex(NIL_UUID);
    var _ := index.Load(mdb);
    s := new ApiServer(env, mdb, rdb, index, log);
  }

  /** A new process over the stores of one that was shut down shows the same public feed, and
      loses a pushed key exactly when keys were queued that a rebuild would have put first. */
  method Restart(s: ApiServer) returns (t: ApiServer)
    requires s.Valid()
    modifies s.mdb
    ensures t.Valid() && t.env == s.env && t.mdb == s.mdb && t.rdb == s.rdb && t.log == s.log && fresh(t)
    ensures s.rdb.rows == old(s.rdb.rows) && s.index.bufq[..] == old(s.index.bufq[..])
    ensures t.index.bufq[..] == s.index.bufq[..]
    ensures UntilBlank(t.index.bufq[..]) == Recent(PublicIndex.Reverse(s.index.history) + s.index.loaded)
       <==> Recent(PublicIndex.Reverse(s.index.iq)) <= UntilBlank(s.index.bufq[..])
  {
    hide TableInv, NamesEntry, Reflects, Dedup, Recent, Pad, UntilBlank, WellFormed, PublicIndex.Reverse, Key.Bytes;
    BlankNamesNothing(s.rdb.rows);
    ShownNamesEntries(s.rdb.rows, s.index.history, s.index.iq, s.index.loaded, s.index.bufq[..]);
    QueuedKeysLost(s.index.Applied(), s.index.iq, s.index.loaded);
    assert s.index.Applied() + s.index.iq == s.index.history;
    s.Shutdown();
    t := NewApiServer(s.env, s.mdb, s.rdb, s.log);
  }
}
