/** storage/table.go: Like, DeleteLike, Comment and DeleteComment on an entry's lists. */
module Reactions {
  import opened Bytes
  import opened Flake
  import opened Keys
  import opened Messages
  import opened Storage
  import opened Table

  // --------------------------------------------------------------- likes

  predicate Liked(likes: seq<Like>, id: text) {
    exists i :: 0 <= i < |likes| && likes[i].from.id == id
  }

  predicate OneLikeEach(likes: seq<Like>) {
    forall i, j :: 0 <= i < j < |likes| ==> likes[i].from.id != likes[j].from.id
  }

  function AddLike(likes: seq<Like>, like: Like): seq<Like> {
    if Liked(likes, like.from.id) then likes else likes + [like]
  }

  function RemoveLike(likes: seq<Like>, id: text): seq<Like> {
    if likes == [] then []
    else if likes[0].from.id == id then likes[1..]
    else [likes[0]] + RemoveLike(likes[1..], id)
  }

  lemma {:induction false} RemoveLikeAt(likes: seq<Like>, id: text, i: nat)
    requires i < |likes| && likes[i].from.id == id
    requires forall j :: 0 <= j < i ==> likes[j].from.id != id
    ensures RemoveLike(likes, id) == likes[..i] + likes[i + 1..]
  {
    if i > 0 {
      RemoveLikeAt(likes[1..], id, i - 1);
      SpliceTail(likes, i);
    }
  }

  lemma SpliceTail<T>(s: seq<T>, i: nat)
    requires 0 < i < |s|
    ensures s[..i] + s[i + 1..] == [s[0]] + (s[1..][..i - 1] + s[1..][i..])
  {
  }

  lemma {:induction false} RemoveLikeAbsent(likes: seq<Like>, id: text)
    requires !Liked(likes, id)
    ensures RemoveLike(likes, id) == likes
  {
    if likes != [] {
      assert likes == [likes[0]] + likes[1..];
      forall i | 0 <= i < |likes[1..]| ensures likes[1..][i].from.id != id {
        assert likes[1..][i] == likes[i + 1];
      }
      RemoveLikeAbsent(likes[1..], id);
    }
  }

  lemma LikedSnoc(likes: seq<Like>, like: Like, id: text)
    ensures Liked(likes + [like], id) <==> Liked(likes, id) || like.from.id == id
  {
    var more := likes + [like];
    if Liked(likes, id) {
      var i :| 0 <= i < |likes| && likes[i].from.id == id;
      assert more[i].from.id == id;
    }
    assert more[|likes|] == like;
  }

  lemma LikedCons(like: Like, rest: seq<Like>, id: text)
    ensures Liked([like] + rest, id) <==> like.from.id == id || Liked(rest, id)
  {
    var all := [like] + rest;
    assert all[0] == like && forall i :: 0 <= i < |rest| ==> all[i + 1] == rest[i];
    if Liked(rest, id) {
      var i :| 0 <= i < |rest| && rest[i].from.id == id;
      assert all[i + 1].from.id == id;
    }
  }

  lemma OneLikeEachCons(like: Like, rest: seq<Like>)
    ensures OneLikeEach([like] + rest) <==> OneLikeEach(rest) && !Liked(rest, like.from.id)
  {
    var all := [like] + rest;
    if OneLikeEach(all) {
      forall i, j | 0 <= i < j < |rest| ensures rest[i].from.id != rest[j].from.id {
        assert all[i + 1].from.id != all[j + 1].from.id;
      }
      forall i | 0 <= i < |rest| ensures rest[i].from.id != like.from.id {
        assert all[0].from.id != all[i + 1].from.id;
      }
    }
  }

  lemma {:induction false} LikedAfterRemove(likes: seq<Like>, id: text, other: text)
    requires OneLikeEach(likes)
    ensures OneLikeEach(RemoveLike(likes, id))
    ensures Liked(RemoveLike(likes, id), other) <==> Liked(likes, other) && other != id
  {
    if likes != [] {
      var head, rest := likes[0], likes[1..];
      assert likes == [head] + rest;
      LikedCons(head, rest, other);
      OneLikeEachCons(head, rest);
      if head.from.id != id {
        LikedAfterRemove(rest, id, other);
        LikedAfterRemove(rest, id, head.from.id);
        LikedCons(head, RemoveLike(rest, id), other);
        OneLikeEachCons(head, RemoveLike(rest, id));
      }
    }
  }

  /** A like that was not there before is undone by unliking. */
  lemma LikeThenUnlike(likes: seq<Like>, like: Like)
    requires !Liked(likes, like.from.id)
    ensures RemoveLike(AddLike(likes, like), like.from.id) == likes
  {
    RemoveLikeAt(likes + [like], like.from.id, |likes|);
  }

  datatype LikeRequest = LikeRequest(like: Like, on: bool)

  function ApplyLike(likes: seq<Like>, r: LikeRequest): seq<Like> {
    if r.on then AddLike(likes, r.like) else RemoveLike(likes, r.like.from.id)
  }

  function ApplyLikes(likes: seq<Like>, rs: seq<LikeRequest>): seq<Like> {
    if rs == [] then likes else ApplyLike(ApplyLikes(likes, rs[..|rs| - 1]), rs[|rs| - 1])
  }

  /** What the user's latest request asked for, or how things stood without one. */
  predicate LastWord(likes: seq<Like>, rs: seq<LikeRequest>, id: text) {
    if rs == [] then Liked(likes, id)
    else if rs[|rs| - 1].like.from.id == id then rs[|rs| - 1].on
    else LastWord(likes, rs[..|rs| - 1], id)
  }

  /** Over any run of like and unlike requests there is at most one like per user, and it
      is there exactly when the user's latest request was a like. */
  lemma {:induction false} LikesFollowRequests(likes: seq<Like>, rs: seq<LikeRequest>, id: text)
    requires OneLikeEach(likes)
    ensures OneLikeEach(ApplyLikes(likes, rs))
    ensures Liked(ApplyLikes(likes, rs), id) <==> LastWord(likes, rs, id)
  {
    if rs != [] {
      var r := rs[|rs| - 1];
      LikesFollowRequests(likes, rs[..|rs| - 1], id);
      var before := ApplyLikes(likes, rs[..|rs| - 1]);
      LikedSnoc(before, r.like, id);
      LikedAfterRemove(before, r.like.from.id, id);
    }
  }

  method FindLike(likes: seq<Like>, id: text) returns (index: int)
    ensures -1 <= index < |likes|
    ensures index == -1 <==> !Liked(likes, id)
    ensures index >= 0 ==> likes[index].from.id == id && forall j :: 0 <= j < index ==> likes[j].from.id != id
  {
    for i := 0 to |likes|
      invariant forall j :: 0 <= j < i ==> likes[j].from.id != id
    {
      if likes[i].from.id == id {
        return i;
      }
    }
    return -1;
  }

  function NewLike(profile: Profile, now: text): Like {
    Messages.Like.Like(now, Feed(profile.id, profile.name, profile.kind, []))
  }

  /** `now` is the current time as text. A repeated like touches nothing. */
  method Like(env: Env, rdb: Store, profile: Profile, entry: Entry, now: text, w: WorkerId)
    returns (key: Option<Key>, e: Entry, err: Option<PutError>)
    modifies rdb
    ensures Liked(entry.likes, profile.id) ==> key == None && e == entry && err == None && rdb.rows == old(rdb.rows)
    ensures !Liked(entry.likes, profile.id) ==>
              PutResult(rdb.rows, key, err, e)
              == Put(env, old(rdb.rows), entry.(likes := AddLike(entry.likes, NewLike(profile, now))), true, w)
    ensures (forall i :: 0 <= i < |entry.likes| ==> entry.likes[i].from.id != profile.id) ==>
              var from := Feed(profile.id, profile.name, profile.kind, []);
              e.likes == entry.likes + [Messages.Like.Like(now, from)] && e == entry.(id := e.id, likes := e.likes)
  {
    hide Put, RemoveLike, PutOutcome, KeepsTable, TableInv;
    var index := FindLike(entry.likes, profile.id);
    e := entry;
    if index == -1 {
      var like := Messages.Like.Like(now, Feed(profile.id, profile.name, profile.kind, []));
      e := e.(likes := e.likes + [like]);
      key, err, e := PutEntry(env, rdb, e, true, w);
    } else {
      key, err := None, None;
    }
  }

  method DeleteLike(env: Env, rdb: Store, profile: Profile, entry: Entry, w: WorkerId)
    returns (e: Entry, err: Option<PutError>)
    modifies rdb
    ensures !Liked(entry.likes, profile.id) ==> e == entry && err == None && rdb.rows == old(rdb.rows)
    ensures Liked(entry.likes, profile.id) ==>
              var r := Put(env, old(rdb.rows), entry.(likes := RemoveLike(entry.likes, profile.id)), true, w);
              rdb.rows == r.rows && e == r.entry && err == r.err
    ensures forall i :: && 0 <= i < |entry.likes| && entry.likes[i].from.id == profile.id
                        && (forall j :: 0 <= j < i ==> entry.likes[j].from.id != profile.id) ==>
              && e.likes == entry.likes[..i] + entry.likes[i + 1..]
              && e == entry.(id := e.id, likes := e.likes)
  {
    hide Put, RemoveLike, PutOutcome, KeepsTable, TableInv;
    var index := FindLike(entry.likes, profile.id);
    e, err := entry, None;
    if index >= 0 {
      RemoveLikeAt(entry.likes, profile.id, index);
      e := e.(likes := e.likes[..index] + e.likes[index + 1..]);
      var _, err', e' := PutEntry(env, rdb, e, true, w);
      err, e := err', e';
    }
  }

  // ------------------------------------------------------------ comments

  /** Position of the first comment with the id. */
  function CommentIndex(comments: seq<Comment>, id: text): (i: nat)
    ensures i <= |comments|
    ensures i < |comments| ==> comments[i].id == id
    ensures forall j :: 0 <= j < i ==> comments[j].id != id
  {
    if comments == [] || comments[0].id == id then 0 else 1 + CommentIndex(comments[1..], id)
  }

  function Lookup(comments: seq<Comment>, id: text): Option<Comment> {
    var i := CommentIndex(comments, id);
    if i < |comments| then Some(comments[i]) else None
  }

  function Ids(comments: seq<Comment>): (ids: seq<text>)
    ensures |ids| == |comments|
  {
    seq(|comments|, i requires 0 <= i < |comments| => comments[i].id)
  }

  predicate DistinctIds(comments: seq<Comment>) {
    forall i, j :: 0 <= i < j < |comments| ==> comments[i].id != comments[j].id
  }

  /** Adds or edits a comment; none when it is someone else's. */
  function SetComment(comments: seq<Comment>, c: Comment): Option<seq<Comment>> {
    var i := CommentIndex(comments, c.id);
    if i == |comments| then Some(comments + [c])
    else if comments[i].from.id != c.from.id then None
    else Some(comments[i := c])
  }

  function RemoveComment(comments: seq<Comment>, id: text): seq<Comment> {
    var i := CommentIndex(comments, id);
    if i == |comments| then comments else comments[..i] + comments[i + 1..]
  }

  lemma {:induction false} CommentIndexUnique(comments: seq<Comment>, id: text, i: nat)
    requires i <= |comments| && (i < |comments| ==> comments[i].id == id)
    requires forall j :: 0 <= j < i ==> comments[j].id != id
    ensures CommentIndex(comments, id) == i
  {
    if i > 0 {
      CommentIndexUnique(comments[1..], id, i - 1);
    }
  }

  /** Setting a comment in an insertion-ordered map: the id is bound, every other binding
      and the order of ids stay, a new id goes last, and the author of an id never changes. */
  lemma SetCommentIsMapUpdate(comments: seq<Comment>, c: Comment, other: text)
    requires DistinctIds(comments)
    ensures SetComment(comments, c) == None
       <==> Lookup(comments, c.id).Some? && Lookup(comments, c.id).value.from.id != c.from.id
    ensures SetComment(comments, c).Some? ==>
              var after := SetComment(comments, c).value;
              && DistinctIds(after)
              && Lookup(after, other) == (if other == c.id then Some(c) else Lookup(comments, other))
              && Ids(after) == if Lookup(comments, c.id).Some? then Ids(comments) else Ids(comments) + [c.id]
  {
    hide CommentIndex, Ids, DistinctIds;
    var i := CommentIndex(comments, c.id);
    SetLookup(comments, c, c.id);
    SetLookup(comments, c, other);
    SetIds(comments, c);
  }

  lemma SetIds(comments: seq<Comment>, c: Comment)
    requires DistinctIds(comments)
    ensures var i := CommentIndex(comments, c.id);
            if i == |comments| then DistinctIds(comments + [c]) && Ids(comments + [c]) == Ids(comments) + [c.id]
            else DistinctIds(comments[i := c]) && Ids(comments[i := c]) == Ids(comments)
  {
    hide CommentIndex;
  }

  lemma {:induction false} SetLookup(comments: seq<Comment>, c: Comment, other: text)
    requires DistinctIds(comments)
    ensures var i := CommentIndex(comments, c.id);
            var after := if i == |comments| then comments + [c] else comments[i := c];
            Lookup(after, other) == if other == c.id then Some(c) else Lookup(comments, other)
  {
    hide CommentIndex;
    var i := CommentIndex(comments, c.id);
    var after := if i == |comments| then comments + [c] else comments[i := c];
    if other == c.id {
      CommentIndexUnique(after, other, i);
    } else {
      var j := CommentIndex(comments, other);
      CommentIndexUnique(after, other, if j == |comments| then |after| else j);
    }
  }

  /** Deleting unbinds the id and keeps every other binding and the order. */
  lemma RemoveCommentIsMapRemove(comments: seq<Comment>, id: text, other: text)
    requires DistinctIds(comments)
    ensures var after := RemoveComment(comments, id);
            && DistinctIds(after)
            && Lookup(after, other) == (if other == id then None else Lookup(comments, other))
            && (Lookup(comments, id) == None ==> after == comments)
            && (Lookup(comments, id).Some? ==>
                  var i := CommentIndex(comments, id); Ids(after) == Ids(comments)[..i] + Ids(comments)[i + 1..])
  {
    hide CommentIndex, Ids, DistinctIds;
    var i := CommentIndex(comments, id);
    if i < |comments| {
      RemovedIds(comments, i);
      RemovedDistinct(comments, i);
      RemovedLookup(comments, i, other);
    }
  }

  lemma RemovedIds(comments: seq<Comment>, i: nat)
    requires i < |comments|
    ensures Ids(comments[..i] + comments[i + 1..]) == Ids(comments)[..i] + Ids(comments)[i + 1..]
  {
  }

  lemma RemovedDistinct(comments: seq<Comment>, i: nat)
    requires DistinctIds(comments) && i < |comments|
    ensures DistinctIds(comments[..i] + comments[i + 1..])
  {
  }

  lemma RemovedLookup(comments: seq<Comment>, i: nat, other: text)
    requires DistinctIds(comments) && i < |comments|
    ensures Lookup(comments[..i] + comments[i + 1..], other)
         == if other == comments[i].id then None else Lookup(comments, other)
  {
    hide CommentIndex;
    var after := comments[..i] + comments[i + 1..];
    if other == comments[i].id {
      CommentIndexUnique(after, other, |after|);
    } else {
      var j := CommentIndex(comments, other);
      CommentIndexUnique(after, other, if j < i then j else j - 1);
    }
  }

  /** Setting and removing by position: of the first comment with the id, or none. */
  lemma SetCommentAt(comments: seq<Comment>, c: Comment, i: nat)
    requires i <= |comments| && (i < |comments| ==> comments[i].id == c.id)
    requires forall j :: 0 <= j < i ==> comments[j].id != c.id
    ensures SetComment(comments, c) == if i == |comments| then Some(comments + [c])
                                       else if comments[i].from.id == c.from.id then Some(comments[i := c]) else None
  {
    CommentIndexUnique(comments, c.id, i);
  }

  lemma RemoveCommentAt(comments: seq<Comment>, id: text, i: nat)
    requires i <= |comments| && (i < |comments| ==> comments[i].id == id)
    requires forall j :: 0 <= j < i ==> comments[j].id != id
    ensures RemoveComment(comments, id) == if i == |comments| then comments else comments[..i] + comments[i + 1..]
  {
    CommentIndexUnique(comments, id, i);
  }

  datatype CommentOp = SetOp(comment: Comment) | RemoveOp(id: text)

  /** A rejected edit leaves the comments as they are. */
  function ApplyComment(comments: seq<Comment>, op: CommentOp): seq<Comment> {
    match op
    case SetOp(c) => (match SetComment(comments, c) case Some(after) => after case None => comments)
    case RemoveOp(id) => RemoveComment(comments, id)
  }

  function ApplyComments(comments: seq<Comment>, ops: seq<CommentOp>): seq<Comment> {
    if ops == [] then comments else ApplyComment(ApplyComments(comments, ops[..|ops| - 1]), ops[|ops| - 1])
  }

  /** The same run on a plain map from ids to comments. */
  function MapComments(m: map<text, Comment>, ops: seq<CommentOp>): map<text, Comment> {
    if ops == [] then m
    else
      var before := MapComments(m, ops[..|ops| - 1]);
      match ops[|ops| - 1]
      case SetOp(c) => if c.id in before && before[c.id].from.id != c.from.id then before else before[c.id := c]
      case RemoveOp(id) => before - {id}
  }

  ghost predicate SameBindings(comments: seq<Comment>, m: map<text, Comment>) {
    forall id: text :: Lookup(comments, id) == if id in m then Some(m[id]) else None
  }

  /** Over any run of comment and delete requests the list is a map keyed by id. */
  lemma {:induction false} CommentsAreMap(comments: seq<Comment>, m: map<text, Comment>, ops: seq<CommentOp>)
    requires DistinctIds(comments) && SameBindings(comments, m)
    ensures DistinctIds(ApplyComments(comments, ops))
    ensures SameBindings(ApplyComments(comments, ops), MapComments(m, ops))
  {
    hide Lookup, SetComment, RemoveComment, DistinctIds;
    if ops != [] {
      CommentsAreMap(comments, m, ops[..|ops| - 1]);
      var before := ApplyComments(comments, ops[..|ops| - 1]);
      match ops[|ops| - 1]
      case SetOp(c) =>
        SetCommentIsMapUpdate(before, c, c.id);
        forall id: text ensures Lookup(ApplyComments(comments, ops), id)
                             == if id in MapComments(m, ops) then Some(MapComments(m, ops)[id]) else None {
          SetCommentIsMapUpdate(before, c, id);
        }
      case RemoveOp(gone) =>
        RemoveCommentIsMapRemove(before, gone, gone);
        forall id: text ensures Lookup(ApplyComments(comments, ops), id)
                             == if id in MapComments(m, ops) then Some(MapComments(m, ops)[id]) else None {
          RemoveCommentIsMapRemove(before, gone, id);
        }
    }
  }

  function Without(ids: seq<text>, id: text): seq<text> {
    if ids == [] then []
    else if ids[0] == id then Without(ids[1..], id)
    else [ids[0]] + Without(ids[1..], id)
  }

  /** The ids of the comments over a run: a new id goes last, an edit keeps its place whether it
      is accepted or not, a deleted one leaves. */
  function ApplyIds(ids: seq<text>, ops: seq<CommentOp>): seq<text> {
    if ops == [] then ids
    else
      var before := ApplyIds(ids, ops[..|ops| - 1]);
      match ops[|ops| - 1]
      case SetOp(c) => if c.id in before then before else before + [c.id]
      case RemoveOp(id) => Without(before, id)
  }

  lemma LookupIsInIds(comments: seq<Comment>, id: text)
    ensures Lookup(comments, id).Some? <==> id in Ids(comments)
    ensures Lookup(comments, id).Some? ==> Ids(comments)[CommentIndex(comments, id)] == id
  {
    hide CommentIndex;
    var n := CommentIndex(comments, id);
    assert n < |comments| ==> Ids(comments)[n] == id && Ids(comments)[n] in Ids(comments);
    if id in Ids(comments) {
      var i :| 0 <= i < |comments| && Ids(comments)[i] == id;
      assert comments[i].id == id;
    }
  }

  lemma {:induction false} WithoutAt(ids: seq<text>, i: nat)
    requires i < |ids| && forall j :: 0 <= j < |ids| && j != i ==> ids[j] != ids[i]
    ensures Without(ids, ids[i]) == ids[..i] + ids[i + 1..]
  {
    if i == 0 {
      WithoutNone(ids[1..], ids[0]);
    } else {
      WithoutAt(ids[1..], i - 1);
      assert ids[..i] == [ids[0]] + ids[1..][..i - 1];
    }
  }

  lemma {:induction false} WithoutNone(ids: seq<text>, id: text)
    requires id !in ids
    ensures Without(ids, id) == ids
  {
    if ids != [] {
      WithoutNone(ids[1..], id);
    }
  }

  lemma RemoveIds(comments: seq<Comment>, id: text)
    requires DistinctIds(comments)
    ensures Ids(RemoveComment(comments, id)) == Without(Ids(comments), id)
  {
    hide CommentIndex, Without, DistinctIds, Ids;
    var i := CommentIndex(comments, id);
    LookupIsInIds(comments, id);
    if i < |comments| {
      RemovedIds(comments, i);
      IdsDistinct(comments);
      WithoutAt(Ids(comments), i);
    } else {
      WithoutNone(Ids(comments), id);
    }
  }

  lemma IdsDistinct(comments: seq<Comment>)
    requires DistinctIds(comments)
    ensures forall i, j :: 0 <= i < |comments| && 0 <= j < |comments| && j != i ==> Ids(comments)[j] != Ids(comments)[i]
  {
  }

  /** Over any run the comments stay in the order in which their ids were last added. */
  lemma {:induction false} CommentsKeepOrder(comments: seq<Comment>, ops: seq<CommentOp>)
    requires DistinctIds(comments)
    ensures DistinctIds(ApplyComments(comments, ops))
    ensures Ids(ApplyComments(comments, ops)) == ApplyIds(Ids(comments), ops)
  {
    hide Lookup, SetComment, RemoveComment, DistinctIds, Ids, CommentIndex;
    if ops != [] {
      CommentsKeepOrder(comments, ops[..|ops| - 1]);
      var before := ApplyComments(comments, ops[..|ops| - 1]);
      match ops[|ops| - 1]
      case SetOp(c) =>
        SetCommentIsMapUpdate(before, c, c.id);
        LookupIsInIds(before, c.id);
      case RemoveOp(gone) =>
        RemoveCommentIsMapRemove(before, gone, gone);
        RemoveIds(before, gone);
    }
  }

  datatype CommentError = PermError | PutFailed(cause: PutError)

  method FindComment(comments: seq<Comment>, id: text) returns (index: int)
    ensures index == if CommentIndex(comments, id) == |comments| then -1 else CommentIndex(comments, id)
  {
    for i := 0 to |comments|
      invariant forall j :: 0 <= j < i ==> comments[j].id != id
    {
      if comments[i].id == id {
        CommentIndexUnique(comments, id, i);
        return i;
      }
    }
    CommentIndexUnique(comments, id, |comments|);
    return -1;
  }

  /** An edit under another author's id is refused before anything is written. */
  method Comment(env: Env, rdb: Store, entry: Entry, comment: Comment, w: WorkerId)
    returns (key: Option<Key>, e: Entry, err: Option<CommentError>)
    modifies rdb
    ensures SetComment(entry.comments, comment) == None ==>
              key == None && err == Some(PermError) && rdb.rows == old(rdb.rows)
    ensures SetComment(entry.comments, comment).Some? ==>
              var r := Put(env, old(rdb.rows), entry.(comments := SetComment(entry.comments, comment).value), true, w);
              && rdb.rows == r.rows && key == r.key && e == r.entry
              && err == match r.err case Some(cause) => Some(PutFailed(cause)) case None => None
  {
    hide Put, CommentIndex, PutOutcome, KeepsTable, TableInv;
    var idx := FindComment(entry.comments, comment.id);
    e := entry;
    if idx >= 0 {
      if entry.comments[idx].from.id != comment.from.id {
        return None, e, Some(PermError);
      }
      e := e.(comments := e.comments[idx := comment]);
    } else {
      e := e.(comments := e.comments + [comment]);
    }
    var key', err', e' := PutEntry(env, rdb, e, true, w);
    return key', e', match err' case Some(cause) => Some(PutFailed(cause)) case None => None;
  }

  lemma RemoveMeans(comments: seq<Comment>, id: text)
    ensures var i := CommentIndex(comments, id);
            && (Lookup(comments, id) == None <==> i == |comments|)
            && (i < |comments| ==> RemoveComment(comments, id) == comments[..i] + comments[i + 1..])
  {
    hide CommentIndex;
  }

  method DeleteComment(env: Env, rdb: Store, entry: Entry, commentId: text, w: WorkerId)
    returns (e: Entry, err: Option<PutError>)
    modifies rdb
    ensures Lookup(entry.comments, commentId) == None ==> e == entry && err == None && rdb.rows == old(rdb.rows)
    ensures Lookup(entry.comments, commentId).Some? ==>
              var r := Put(env, old(rdb.rows), entry.(comments := RemoveComment(entry.comments, commentId)), true, w);
              rdb.rows == r.rows && e == r.entry && err == r.err
  {
    hide Put, CommentIndex, PutOutcome, KeepsTable, TableInv, TrimId, Lookup, RemoveComment;
    var index := FindComment(entry.comments, commentId);
    RemoveMeans(entry.comments, commentId);
    if index < 0 {
      return entry, None;
    }
    var less := entry.(comments := entry.comments[..index] + entry.comments[index + 1..]);
    var _, err', e' := PutEntry(env, rdb, less, true, w);
    return e', err';
  }

  // ------------------------------------------------- changes of an entry

  /** What a request asks of an entry. */
  datatype Change = LikeChange(request: LikeRequest) | CommentChange(op: CommentOp)

  function LikesIn(cs: seq<Change>): seq<LikeRequest> {
    if cs == [] then []
    else
      var before := LikesIn(cs[..|cs| - 1]);
      match cs[|cs| - 1] case LikeChange(r) => before + [r] case _ => before
  }

  function CommentsIn(cs: seq<Change>): seq<CommentOp> {
    if cs == [] then []
    else
      var before := CommentsIn(cs[..|cs| - 1]);
      match cs[|cs| - 1] case CommentChange(op) => before + [op] case _ => before
  }

  /** The entry after the changes: only its likes and comments are other. */
  function Changed(e: Entry, cs: seq<Change>): Entry {
    e.(likes := ApplyLikes(e.likes, LikesIn(cs)), comments := ApplyComments(e.comments, CommentsIn(cs)))
  }

  lemma NoChange(e: Entry)
    ensures Changed(e, []) == e
  {
  }

  function ChangeOnce(e: Entry, c: Change): Entry {
    match c
    case LikeChange(r) => e.(likes := ApplyLike(e.likes, r))
    case CommentChange(op) => e.(comments := ApplyComment(e.comments, op))
  }

  lemma {:induction false} ChangedSnoc(e: Entry, cs: seq<Change>, c: Change)
    ensures Changed(e, cs + [c]) == ChangeOnce(Changed(e, cs), c)
  {
    hide ApplyLike, ApplyComment;
    assert (cs + [c])[..|cs|] == cs;
    match c
    case LikeChange(r) => assert (LikesIn(cs) + [r])[..|LikesIn(cs)|] == LikesIn(cs);
    case CommentChange(op) => assert (CommentsIn(cs) + [op])[..|CommentsIn(cs)|] == CommentsIn(cs);
  }

  lemma {:induction false} ChangedOnceMore(e: Entry, cs: seq<Change>, more: seq<Change>)
    requires |more| <= 1
    ensures Changed(e, cs + more) == Changed(Changed(e, cs), more)
  {
    hide Changed;
    if more == [] {
      NoChange(Changed(e, cs));
      assert cs + more == cs;
    } else {
      NoChange(Changed(e, cs));
      ChangedSnoc(e, cs, more[0]);
      ChangedSnoc(Changed(e, cs), [], more[0]);
      assert [] + [more[0]] == more && [more[0]] == more;
    }
  }
}
