/** Whole runs of the server's operations on entries (server/server.go:176-511): what the
    public feed shows after any of them, and what becomes of one stored entry. */
module ServerRuns {
  import opened Bytes
  import opened Flake
  import opened Keys
  import opened Messages
  import opened Storage
  import opened Table
  import opened Reactions
  import opened PublicIndex
  import opened Feeds
  import opened EntryIndex
  import opened Server

  datatype Request =
    | PostReq(entry: Entry, w: WorkerId)
    | ArchiveReq(stream: seq<Entry>, force: bool, broken: bool, w: WorkerId)
    | LikeReq(entryId: text, user: text, like: bool, now: text, w: WorkerId)
    | CommentReq(entryId: text, comment: Comment, w: WorkerId)
    | UncommentReq(entryId: text, user: text, commentId: text, w: WorkerId)
    | RebuildReq

  /** Writing the entry back under its key, if there is something to write. */
  function Updating(env: Env, rdb: Rows, entryId: text, e: Option<Entry>, push: bool): Effect {
    match e
    case None => Effect(rdb, [], [])
    case Some(e) =>
      var k := EntryAt(env.parseUuid(entryId).value);
      Effect(rdb[k := EntryRow(e)], if push then [EntryName(env, entryId)] else [], [])
  }

  predicate IsReaction(req: Request) {
    req.LikeReq? || req.CommentReq? || req.UncommentReq?
  }

  /** The entry a like, comment or deletion writes back. */
  function Reacted(env: Env, mdb: Rows, rdb: Rows, req: Request): Option<Entry>
    requires IsReaction(req)
  {
    match req
    case LikeReq(entryId, user, like, now, _) => LikedEntry(env, mdb, rdb, entryId, user, like, now)
    case CommentReq(entryId, comment, _) => CommentedEntry(env, mdb, rdb, entryId, comment)
    case UncommentReq(entryId, user, commentId, _) => UncommentedEntry(env, mdb, rdb, entryId, user, commentId)
  }

  /** The entry is pushed for a new like and for a comment, not for an unlike or a deletion. */
  predicate Spreads(env: Env, mdb: Rows, rdb: Rows, req: Request)
    requires IsReaction(req)
  {
    var e, stored := Reacted(env, mdb, rdb, req), StoredEntry(env, rdb, req.entryId);
    req.CommentReq? || (req.LikeReq? && req.like && e.Some? && stored.Some? && e.value.likes != stored.value.likes)
  }

  function Serve(env: Env, mdb: Rows, rdb: Rows, req: Request): Effect {
    match req
    case PostReq(entry, w) => Putting(env, rdb, entry, false, w)
    case ArchiveReq(stream, force, _, w) => Archive(env, rdb, stream, force, w)
    case RebuildReq => Effect(rdb, [], [])
    case _ => Updating(env, rdb, req.entryId, Reacted(env, mdb, rdb, req), Spreads(env, mdb, rdb, req))
  }

  function ServeAll(env: Env, mdb: Rows, rdb: Rows, reqs: seq<Request>): Effect {
    if reqs == [] then Effect(rdb, [], [])
    else
      var n := |reqs| - 1;
      var before := ServeAll(env, mdb, rdb, reqs[..n]);
      Then(before, Serve(env, mdb, before.rows, reqs[n]))
  }

  /** The store, the pushes and the log after an effect, given the pushes and the log before. */
  predicate Took(a: Effect, rows: Rows, history0: seq<text>, history: seq<text>, log0: seq<Insertion>,
                 log: seq<Insertion>) {
    rows == a.rows && history == history0 + a.pushes && log == log0 + a.inserted
  }

  lemma TookNothing(env: Env, mdb: Rows, rows: Rows, history: seq<text>, log: seq<Insertion>)
    ensures Took(ServeAll(env, mdb, rows, []), rows, history, history, log, log)
  {
  }

  /** One more request. */
  lemma TookSnoc(env: Env, mdb: Rows, rows0: Rows, reqs: seq<Request>, i: nat, rows: Rows, rows': Rows,
                 history0: seq<text>, history: seq<text>, history': seq<text>,
                 log0: seq<Insertion>, log: seq<Insertion>, log': seq<Insertion>)
    requires i < |reqs| && Took(ServeAll(env, mdb, rows0, reqs[..i]), rows, history0, history, log0, log)
    requires Took(Serve(env, mdb, rows, reqs[i]), rows', history, history', log, log')
    ensures Took(ServeAll(env, mdb, rows0, reqs[..i + 1]), rows', history0, history', log0, log')
  {
    hide Serve;
    assert reqs[..i + 1][..i] == reqs[..i];
  }

  /** A like, comment or deletion writes back the entry it read, in its likes or comments only. */
  lemma ReactedIsStored(env: Env, mdb: Rows, rdb: Rows, req: Request)
    requires IsReaction(req) && Reacted(env, mdb, rdb, req).Some?
    ensures var e, stored := Reacted(env, mdb, rdb, req).value, StoredEntry(env, rdb, req.entryId);
            && stored.Some? && EntryAt(env.parseUuid(req.entryId).value) in rdb
            && e.id == stored.value.id && e.profileUuid == stored.value.profileUuid
  {
    hide StoredEntry, EntryAt, ProfileOf, ProfileFromUuid, SetComment, RemoveComment, ApplyLike;
  }

  // -------------------------------------------------- the public feed

  /** One request as the server runs it does what Serve says. */
  method Handle(s: ApiServer, req: Request)
    requires s.Valid()
    modifies s`log, s.rdb, s.index
    ensures s.Valid() && s.index.loaded == old(s.index.loaded)
    ensures Took(Serve(s.env, s.mdb.rows, old(s.rdb.rows), req), s.rdb.rows,
                 old(s.index.history), s.index.history, old(s.log), s.log)
  {
    hide TableInv, Reflects, FeedIndex.Valid, AllName, EnvOk, Putting, Archive, LikedEntry, CommentedEntry,
         UncommentedEntry, EntryAt, EntryName, StoredEntry, Put, Recent, Pad;
    if IsReaction(req) && Reacted(s.env, s.mdb.rows, s.rdb.rows, req).Some? {
      ReactedIsStored(s.env, s.mdb.rows, s.rdb.rows, req);
    }
    match req
    case PostReq(entry, w) =>
      var _ := s.PostEntry(entry, w);
    case ArchiveReq(stream, force, broken, w) =>
      if force {
        var _, _ := s.ForceArchiveFeed(stream, broken, w);
      } else {
        var _, _ := s.ArchiveFeed(stream, broken, w);
      }
    case LikeReq(entryId, user, like, now, w) =>
      var _ := s.LikeEntry(entryId, user, like, now, w);
    case CommentReq(entryId, comment, w) =>
      var _ := s.CommentEntry(entryId, comment, w);
    case UncommentReq(entryId, user, commentId, w) =>
      var _ := s.DeleteComment(entryId, user, commentId, w);
    case RebuildReq =>
      s.RebuildIndex();
  }

  method HandleAll(s: ApiServer, reqs: seq<Request>)
    requires s.Valid()
    modifies s`log, s.rdb, s.index
    ensures s.Valid() && s.index.loaded == old(s.index.loaded)
    ensures Took(ServeAll(s.env, s.mdb.rows, old(s.rdb.rows), reqs), s.rdb.rows,
                 old(s.index.history), s.index.history, old(s.log), s.log)
  {
    assert s.mdb != s.rdb;
    hide ApiServer.Valid, ServeAll, Serve, Took;
    ghost var mdb, rows0, history0, log0 := s.mdb.rows, s.rdb.rows, s.index.history, s.log;
    TookNothing(s.env, mdb, rows0, history0, log0);
    assert reqs[..0] == [];
    for i := 0 to |reqs|
      invariant s.Valid() && s.index.loaded == old(s.index.loaded)
      invariant Took(ServeAll(s.env, mdb, rows0, reqs[..i]), s.rdb.rows, history0, s.index.history, log0, s.log)
    {
      ghost var rows, history, log := s.rdb.rows, s.index.history, s.log;
      Handle(s, reqs[i]);
      TookSnoc(s.env, mdb, rows0, reqs, i, rows, s.rdb.rows, history0, history, s.index.history, log0, log, s.log);
    }
    assert reqs[..|reqs|] == reqs;
  }

  /** After any requests, rebuilds among them, and one more rebuild, a page of the public feed
      is the window of the newest 500 of all keys pushed and loaded. */
  method PublicFeedAfter(s: ApiServer, reqs: seq<Request>, start: int, requested: int)
    returns (r: Server.Result<seq<Entry>>)
    requires s.Valid()
    modifies s`log, s.rdb, s.index
    ensures s.Valid()
    ensures var a := ServeAll(s.env, s.mdb.rows, old(s.rdb.rows), reqs);
            var shown := Recent(PublicIndex.Reverse(old(s.index.history) + a.pushes) + old(s.index.loaded));
            var page := Window(shown, start, PageSize(requested) + 1);
            && r == Ok(EntriesShown(a.rows, s.mdb.rows, page))
            && AreShown(a.rows, s.mdb.rows, page, r.value)
  {
    hide AreShown, ServeAll, Recent, Pad, PublicIndex.Reverse, Window, EntriesShown, UntilBlank, WellFormed, TableInv,
         Reflects;
    HandleAll(s, reqs);
    s.RebuildIndex();
    r := s.CachedFeed(start, requested);
    BlankNamesNothing(s.rdb.rows);
    ReverseKeepsBlankOut(s.index.history);
    RecentIsWellFormed(PublicIndex.Reverse(s.index.history) + s.index.loaded);
  }

  // --------------------------------------------------- one stored entry

  predicate Meets(env: Env, k: seq<byte>, entryId: text) {
    env.parseUuid(entryId).ok && EntryAt(env.parseUuid(entryId).value) == k
  }

  function Changes(env: Env, mdb: Rows, k: seq<byte>, req: Request): seq<Change> {
    match req
    case LikeReq(entryId, user, like, now, _) =>
      var u := env.parseUuid(user);
      if !Meets(env, k, entryId) || !u.ok then []
      else (match ProfileFromUuid(mdb, u.value)
        case None => []
        case Some(p) => [LikeChange(LikeRequest(NewLike(p, now), like))])
    case CommentReq(entryId, comment, _) =>
      if Meets(env, k, entryId) && ProfileOf(mdb, comment.from.id).Some? then [CommentChange(SetOp(comment))] else []
    case UncommentReq(entryId, user, commentId, _) =>
      if Meets(env, k, entryId) && ProfileOf(mdb, user).Some? then [CommentChange(RemoveOp(commentId))] else []
    case _ => []
  }

  /** What is stored at k: nothing, or the entry put there last and the changes since. */
  datatype Story = NoEntry | Story(put: Entry, changes: seq<Change>)

  ghost predicate Tells(story: Story, rows: Rows, k: seq<byte>) {
    match story
    case NoEntry => k !in rows
    case Story(e, cs) => k in rows && rows[k] == EntryRow(Changed(e, cs))
  }

  function Beginning(rows: Rows, k: seq<byte>): Story {
    if k in rows && rows[k].EntryRow? then Story(rows[k].entry, []) else NoEntry
  }

  /** An entry is put at k when there is none, and over the one there when updating. */
  function PutStory(env: Env, k: seq<byte>, story: Story, e: Entry, update: bool): Story {
    if env.parseUuid(e.profileUuid).ok && Meets(env, k, TrimId(e).id) && (story.NoEntry? || update)
    then Story(TrimId(e), [])
    else story
  }

  function ArchiveStory(env: Env, k: seq<byte>, story: Story, stream: seq<Entry>, update: bool): Story {
    if stream == [] then story
    else
      var n := |stream| - 1;
      PutStory(env, k, ArchiveStory(env, k, story, stream[..n], update), stream[n], update)
  }

  function ServeStory(env: Env, mdb: Rows, k: seq<byte>, story: Story, req: Request): Story {
    match req
    case PostReq(entry, _) => PutStory(env, k, story, entry, false)
    case ArchiveReq(stream, force, _, _) => ArchiveStory(env, k, story, stream, force)
    case _ => if story.NoEntry? then NoEntry else Story(story.put, story.changes + Changes(env, mdb, k, req))
  }

  function RunStory(env: Env, mdb: Rows, k: seq<byte>, story: Story, reqs: seq<Request>): Story {
    if reqs == [] then story
    else
      var n := |reqs| - 1;
      ServeStory(env, mdb, k, RunStory(env, mdb, k, story, reqs[..n]), reqs[n])
  }

  lemma BeginningTells(env: Env, rows: Rows, k: seq<byte>)
    requires TableInv(env, rows) && InEntries(k)
    ensures Tells(Beginning(rows, k), rows, k)
  {
    hide InEntries, InIndex, EntryAt, Changed;
    if k in rows {
      NoChange(rows[k].entry);
    }
  }

  lemma {:induction false} PutTells(env: Env, rows: Rows, e: Entry, update: bool, w: WorkerId, k: seq<byte>,
                                    story: Story)
    requires InEntries(k) && Tells(story, rows, k)
    ensures Tells(PutStory(env, k, story, e, update), Put(env, rows, e, update, w).rows, k)
  {
    hide TrimId, InEntries, InIndex, IndexAt, EntryAt, Changed;
    TrimKeepsRest(e);
    NoChange(TrimId(e));
    var user, date := env.parseUuid(e.profileUuid), env.parseDate(TrimId(e).date);
    if date.Some? {
      IndexKeyFacts(user.value, date.value, w);
    }
  }

  lemma {:induction false} ArchiveTells(env: Env, rows: Rows, stream: seq<Entry>, update: bool, w: WorkerId,
                                        k: seq<byte>, story: Story)
    requires InEntries(k) && TableInv(env, rows) && Tells(story, rows, k)
    ensures var a := Archive(env, rows, stream, update, w);
            TableInv(env, a.rows) && Tells(ArchiveStory(env, k, story, stream, update), a.rows, k)
  {
    hide TableInv, Put, PutStory, Tells, Inserted, Key.String, InEntries;
    if stream != [] {
      var n := |stream| - 1;
      ArchiveTells(env, rows, stream[..n], update, w, k, story);
      var before := Archive(env, rows, stream[..n], update, w);
      PutTells(env, before.rows, stream[n], update, w, k, ArchiveStory(env, k, story, stream[..n], update));
      PutKeepsTable(env, before.rows, stream[n], update, w);
    }
  }

  /** Replacing the lists of a stored entry keeps the table and every other row. */
  lemma UpdateKeepsTable(env: Env, rows: Rows, k: seq<byte>, e: Entry)
    requires TableInv(env, rows) && k in rows && InEntries(k) && !InIndex(k)
    requires rows[k].EntryRow? ==> e.id == rows[k].entry.id && e.profileUuid == rows[k].entry.profileUuid
    ensures rows[k].EntryRow? && TableInv(env, rows[k := EntryRow(e)])
  {
    hide InEntries, InIndex, EntryAt;
  }

  lemma StoredAt(env: Env, rows: Rows, entryId: text)
    requires TableInv(env, rows)
    ensures var k := EntryAt(env.parseUuid(entryId).value);
            StoredEntry(env, rows, entryId).Some? && k in rows ==>
              Meets(env, k, entryId) && InEntries(k) && !InIndex(k)
              && rows[k] == EntryRow(StoredEntry(env, rows, entryId).value)
    ensures forall k: seq<byte> :: k in rows && Meets(env, k, entryId) ==>
              StoredEntry(env, rows, entryId).Some? && rows[k] == EntryRow(StoredEntry(env, rows, entryId).value)
  {
    hide InIndex, InEntries;
    EntryKeyFacts(env.parseUuid(entryId).value);
  }

  /** Writing an entry back with other likes or comments keeps the table and leaves k alone
      unless it is that entry's key. */
  lemma {:induction false} UpdatingKeeps(env: Env, rdb: Rows, entryId: text, e: Option<Entry>, push: bool, k: seq<byte>)
    requires TableInv(env, rdb)
    requires e.Some? ==>
               var stored := StoredEntry(env, rdb, entryId);
               && stored.Some? && EntryAt(env.parseUuid(entryId).value) in rdb
               && e.value.id == stored.value.id && e.value.profileUuid == stored.value.profileUuid
    ensures var a := Updating(env, rdb, entryId, e, push);
            && TableInv(env, a.rows) && (k in a.rows <==> k in rdb)
            && (k in rdb ==> a.rows[k] == if e.Some? && Meets(env, k, entryId) then EntryRow(e.value) else rdb[k])
  {
    hide TableInv, InEntries, InIndex, EntryAt, StoredEntry, EntryName;
    StoredAt(env, rdb, entryId);
    if e.Some? {
      UpdateKeepsTable(env, rdb, EntryAt(env.parseUuid(entryId).value), e.value);
    }
  }

  /** What a like, comment or deletion makes of the entry at k is what its changes say. */
  lemma {:induction false} ReactionChanges(env: Env, mdb: Rows, rdb: Rows, req: Request, k: seq<byte>, e: Entry)
    requires IsReaction(req)
    requires StoredEntry(env, rdb, req.entryId) == Some(e) && k in rdb && Meets(env, k, req.entryId)
    ensures var after := Reacted(env, mdb, rdb, req);
            Changed(e, Changes(env, mdb, k, req)) == if after.Some? then after.value else e
  {
    hide Changed, ApplyLike, SetComment, RemoveComment, StoredEntry, ProfileOf, ProfileFromUuid, EntryAt;
    NoChange(e);
    var cs := Changes(env, mdb, k, req);
    if cs != [] {
      ChangedSnoc(e, [], cs[0]);
      assert [] + [cs[0]] == cs;
    }
  }

  lemma NotMet(env: Env, mdb: Rows, k: seq<byte>, req: Request)
    requires IsReaction(req)
    ensures !Meets(env, k, req.entryId) ==> Changes(env, mdb, k, req) == []
  {
    hide Meets, ProfileOf, ProfileFromUuid;
  }

  lemma {:induction false} ReactionTells(env: Env, mdb: Rows, rdb: Rows, req: Request, k: seq<byte>, story: Story)
    requires IsReaction(req) && TableInv(env, rdb) && Tells(story, rdb, k)
    ensures var a := Serve(env, mdb, rdb, req);
            TableInv(env, a.rows) && Tells(ServeStory(env, mdb, k, story, req), a.rows, k)
  {
    hide TableInv, Updating, Reacted, Changed, Changes, Meets, StoredEntry, EntryAt;
    var e := Reacted(env, mdb, rdb, req);
    if e.Some? {
      ReactedIsStored(env, mdb, rdb, req);
    }
    UpdatingKeeps(env, rdb, req.entryId, e, false, k);
    UpdatingKeeps(env, rdb, req.entryId, e, true, k);
    if story.Story? {
      var before := Changed(story.put, story.changes);
      OneChange(env, mdb, k, req);
      ChangedOnceMore(story.put, story.changes, Changes(env, mdb, k, req));
      if Meets(env, k, req.entryId) {
        StoredAt(env, rdb, req.entryId);
        ReactionChanges(env, mdb, rdb, req, k, before);
      } else {
        NotMet(env, mdb, k, req);
        NoChange(before);
      }
    }
  }

  /** One request continues the story of what is stored at k. */
  lemma {:induction false} ServeTells(env: Env, mdb: Rows, rdb: Rows, req: Request, k: seq<byte>, story: Story)
    requires TableInv(env, rdb) && InEntries(k) && Tells(story, rdb, k)
    ensures var a := Serve(env, mdb, rdb, req);
            TableInv(env, a.rows) && Tells(ServeStory(env, mdb, k, story, req), a.rows, k)
  {
    hide TableInv, InEntries, Put, Archive, ArchiveStory, PutStory, Inserted, Key.String, Updating, Reacted, Changed;
    match req
    case PostReq(entry, w) =>
      PutTells(env, rdb, entry, false, w, k, story);
      PutKeepsTable(env, rdb, entry, false, w);
    case ArchiveReq(stream, force, broken, w) => ArchiveTells(env, rdb, stream, force, w, k, story);
    case RebuildReq => NothingMore(story);
    case _ => ReactionTells(env, mdb, rdb, req, k, story);
  }

  lemma NothingMore(story: Story)
    ensures story.Story? ==> story.changes + [] == story.changes
  {
  }

  lemma OneChange(env: Env, mdb: Rows, k: seq<byte>, req: Request)
    ensures |Changes(env, mdb, k, req)| <= 1
  {
    hide Meets;
  }

  /** Over any run of requests, what is stored under an entry key is the entry put there last, the
      first one or a later archived copy, with its likes and comments as the requests on it since
      then, taken one after the other, make them; nothing else changes it. */
  lemma {:induction false} EntryFollowsRequests(env: Env, mdb: Rows, rdb: Rows, reqs: seq<Request>, k: seq<byte>)
    requires TableInv(env, rdb) && InEntries(k)
    ensures var a := ServeAll(env, mdb, rdb, reqs);
            TableInv(env, a.rows) && Tells(RunStory(env, mdb, k, Beginning(rdb, k), reqs), a.rows, k)
  {
    hide TableInv, InEntries, Serve, ServeStory, Tells, Beginning;
    if reqs == [] {
      BeginningTells(env, rdb, k);
    } else {
      var n := |reqs| - 1;
      EntryFollowsRequests(env, mdb, rdb, reqs[..n], k);
      var before := ServeAll(env, mdb, rdb, reqs[..n]);
      ServeTells(env, mdb, before.rows, reqs[n], k, RunStory(env, mdb, k, Beginning(rdb, k), reqs[..n]));
    }
  }

  /** So in the store too, since the entry was put there: if it had at most one like per user, it
      still has, there exactly when the user's latest request on the entry was a like; and if
      its comments had distinct ids, they are a map keyed by id, in the order ids were added. */
  lemma {:induction false} StoredReactions(env: Env, mdb: Rows, rdb: Rows, reqs: seq<Request>, k: seq<byte>, user: text,
                                           m: map<text, Comment>)
    requires TableInv(env, rdb) && InEntries(k)
    requires RunStory(env, mdb, k, Beginning(rdb, k), reqs).Story?
    ensures var (a, story) := (ServeAll(env, mdb, rdb, reqs), RunStory(env, mdb, k, Beginning(rdb, k), reqs));
            && k in a.rows && a.rows[k].EntryRow?
            && var (e, put, cs) := (a.rows[k].entry, story.put, story.changes);
            && (OneLikeEach(put.likes) ==>
                  && OneLikeEach(e.likes)
                  && (Liked(e.likes, user) <==> LastWord(put.likes, LikesIn(cs), user)))
            && (DistinctIds(put.comments) ==>
                  && DistinctIds(e.comments)
                  && (SameBindings(put.comments, m) ==> SameBindings(e.comments, MapComments(m, CommentsIn(cs))))
                  && Ids(e.comments) == ApplyIds(Ids(put.comments), CommentsIn(cs)))
  {
    hide TableInv, InEntries, ServeAll, RunStory, ApplyLikes, ApplyComments, Liked, LastWord, OneLikeEach,
         DistinctIds, SameBindings, MapComments, Ids, ApplyIds, LikesIn, CommentsIn;
    EntryFollowsRequests(env, mdb, rdb, reqs, k);
    var story := RunStory(env, mdb, k, Beginning(rdb, k), reqs);
    var put, cs := story.put, story.changes;
    if OneLikeEach(put.likes) {
      LikesFollowRequests(put.likes, LikesIn(cs), user);
    }
    if DistinctIds(put.comments) {
      CommentsKeepOrder(put.comments, CommentsIn(cs));
      if SameBindings(put.comments, m) {
        CommentsAreMap(put.comments, m, CommentsIn(cs));
      }
    }
  }
}
