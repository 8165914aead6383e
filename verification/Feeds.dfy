/** server/server.go: the windows of a feed that cachedFeed and ForwardFetchFeed return. */
module Feeds {
  import opened Bytes
  import opened Keys
  import opened Messages
  import opened Storage

  // ------------------------------------------------------------- profiles

  /** p is the profile the uuid leads to: the stored one, which must not be deleted, or the empty
      one when nothing is stored, since no bytes unmarshal to an empty message. */
  ghost predicate IsProfile(mdb: Rows, u: Uuid, p: Profile) {
    var k := UUIDKey(TABLE_PROFILE, u).Bytes();
    if k in mdb then mdb[k] == ProfileRow(p) && !p.deleted else p == EMPTY_PROFILE
  }

  /** p is the profile a profile id leads to, by way of its uuid. */
  ghost predicate IsProfileOf(mdb: Rows, id: text, p: Profile) {
    id in mdb && mdb[id].UuidRow? && |mdb[id].uuid| == 16 && IsProfile(mdb, mdb[id].uuid, p)
  }

  /** `shown` is the entry with its author's current picture, or the entry itself when there is
      no author. */
  ghost predicate IsShown(mdb: Rows, e: Entry, shown: Entry) {
    && shown == e.(from := e.from.(picture := shown.from.picture))
    && (forall p :: IsProfileOf(mdb, e.from.id, p) ==> shown.from.picture == p.picture)
    && ((forall p :: !IsProfileOf(mdb, e.from.id, p)) ==> shown == e)
  }

  function ProfileFromUuid(mdb: Rows, u: Uuid): Option<Profile> {
    var k := UUIDKey(TABLE_PROFILE, u).Bytes();
    if k !in mdb then Some(EMPTY_PROFILE)  // no bytes unmarshal to an empty message
    else match mdb[k]
      case ProfileRow(p) => if p.deleted then None else Some(p)
      case _ => None
  }

  function ProfileOf(mdb: Rows, id: text): Option<Profile> {
    if id !in mdb then None
    else match mdb[id]
      case UuidRow(u) => if |u| == 16 then ProfileFromUuid(mdb, u) else None
      case _ => None
  }

  /** FormatFeedEntry: the author's current picture, or an error when there is no author. */
  function Format(mdb: Rows, e: Entry): Option<Entry> {
    match ProfileOf(mdb, e.from.id)
    case Some(p) => Some(e.(from := e.from.(picture := p.picture)))
    case None => None
  }

  /** What cachedFeed shows: it ignores that error. */
  function Shown(mdb: Rows, e: Entry): Entry {
    match Format(mdb, e) case Some(f) => f case None => e
  }

  lemma ProfileFromUuidIff(mdb: Rows, u: Uuid, p: Profile)
    ensures ProfileFromUuid(mdb, u) == Some(p) <==> IsProfile(mdb, u, p)
  {
  }

  lemma ProfileOfIff(mdb: Rows, id: text, p: Profile)
    ensures ProfileOf(mdb, id) == Some(p) <==> IsProfileOf(mdb, id, p)
  {
    hide ProfileFromUuid, IsProfile;
    if id in mdb && mdb[id].UuidRow? && |mdb[id].uuid| == 16 {
      ProfileFromUuidIff(mdb, mdb[id].uuid, p);
    }
  }

  lemma NoProfileFromUuid(mdb: Rows, u: Uuid)
    ensures ProfileFromUuid(mdb, u) == None <==> forall p :: !IsProfile(mdb, u, p)
  {
    hide ProfileFromUuid, IsProfile;
    if ProfileFromUuid(mdb, u).Some? {
      ProfileFromUuidIff(mdb, u, ProfileFromUuid(mdb, u).value);
    }
    forall p ensures IsProfile(mdb, u, p) ==> ProfileFromUuid(mdb, u) == Some(p) {
      ProfileFromUuidIff(mdb, u, p);
    }
  }

  lemma NoProfileOf(mdb: Rows, id: text)
    ensures ProfileOf(mdb, id) == None <==> forall p :: !IsProfileOf(mdb, id, p)
  {
    hide ProfileOf, IsProfileOf;
    if ProfileOf(mdb, id).Some? {
      ProfileOfIff(mdb, id, ProfileOf(mdb, id).value);
    }
    forall p ensures IsProfileOf(mdb, id, p) ==> ProfileOf(mdb, id) == Some(p) {
      ProfileOfIff(mdb, id, p);
    }
  }

  /** A formatted entry differs from the stored one in the picture only, which is the author's
      current one; without an author there is none. */
  lemma FormatMeaning(mdb: Rows, e: Entry)
    ensures Format(mdb, e).Some? <==> exists p :: IsProfileOf(mdb, e.from.id, p)
    ensures Format(mdb, e).Some? ==> IsShown(mdb, e, Format(mdb, e).value)
    ensures IsShown(mdb, e, Shown(mdb, e))
  {
    hide ProfileOf, IsProfileOf;
    NoProfileOf(mdb, e.from.id);
    forall p ensures IsProfileOf(mdb, e.from.id, p) ==> ProfileOf(mdb, e.from.id) == Some(p) {
      ProfileOfIff(mdb, e.from.id, p);
    }
  }

  // -------------------------------------------------------------- windows

  /** The page size asked for, or 50 when it is not between 1 and 99. */
  function PageSize(requested: int): (size: int)
    ensures 0 < size < 100
    ensures 0 < requested < 100 ==> size == requested
    ensures !(0 < requested < 100) ==> size == 50
  {
    if requested <= 0 || requested >= 100 then 50 else requested
  }

  function Positive(n: int): nat {
    if n > 0 then n else 0
  }

  function First(length: nat, start: int): nat {
    if Positive(start) > length then length else Positive(start)
  }

  /** At most `count` elements from position `start` on. */
  function Window<T>(list: seq<T>, start: int, count: nat): seq<T> {
    var s := First(|list|, start);
    if s + count <= |list| then list[s..s + count] else list[s..]
  }

  /** A window is as long as asked for while the list lasts, and begins at `start`. */
  lemma WindowMeaning<T>(list: seq<T>, start: int, count: nat)
    ensures var w, s := Window(list, start, count), if start > 0 then start else 0;
            && |w| <= count && (s + count <= |list| ==> |w| == count)
            && (s + count > |list| ==> |w| == if s < |list| then |list| - s else 0)
            && forall i :: 0 <= i < |w| ==> s + i < |list| && w[i] == list[s + i]
  {
  }

  function ToInt32(n: int): int {
    (n + 0x8000_0000) % 0x1_0000_0000 - 0x8000_0000
  }

  /** How many rows ForwardFetchFeed appends at most: it stops after the first row past its
      start whose number exceeds PageSize + Start, added in 32 bits. */
  function ForwardCount(start: int, size: int): (n: nat)
    ensures n >= 1
  {
    var s := Positive(start);
    var last := ToInt32(size + start) + 1;
    if last > s then last - s + 1 else 1
  }

  /** As coded, a page holds PageSize + 2 entries; fewer when Start is negative, and one when the
      32-bit sum overflows. */
  lemma ForwardCountMeaning(start: int, size: int)
    requires -0x8000_0000 <= start < 0x8000_0000 && 0 < size < 100
    ensures start >= 0 && start + size < 0x8000_0000 ==> ForwardCount(start, size) == size + 2
    ensures start + size >= 0x8000_0000 ==> ForwardCount(start, size) == 1
    ensures start < 0 ==> ForwardCount(start, size) == if start + size >= 0 then start + size + 2 else 1
  {
  }

  /** The first `size` entries of each of m pages, one page after the other. */
  function Walk<T>(list: seq<T>, size: nat, count: nat, m: nat): seq<T> {
    if m == 0 then [] else Walk(list, size, count, m - 1) + Window(Window(list, (m - 1) * size, count), 0, size)
  }

  /** Walking Start by PageSize covers the feed in order without a gap, for any page that
      returns at least PageSize entries while there are some. */
  lemma {:induction false} WalkCovers<T>(list: seq<T>, size: nat, count: nat, m: nat)
    requires 0 < size <= count
    ensures Walk(list, size, count, m) == Window(list, 0, m * size)
    ensures m * size >= |list| ==> Walk(list, size, count, m) == list
  {
    hide Window;
    WindowAll(list, m * size);
    if m > 0 {
      WalkCovers(list, size, count, m - 1);
      assert m * size == (m - 1) * size + size;
      WindowJoin(list, (m - 1) * size, size, count);
    }
  }

  lemma WindowAll<T>(list: seq<T>, n: nat)
    ensures n >= |list| ==> Window(list, 0, n) == list
    ensures Window(list, 0, 0) == []
  {
  }

  lemma WindowJoin<T>(list: seq<T>, n: nat, size: nat, count: nat)
    requires 0 < size <= count
    ensures Window(list, 0, n) + Window(Window(list, n, count), 0, size) == Window(list, 0, n + size)
  {
    if n + size <= |list| {
      assert Window(Window(list, n, count), 0, size) == list[n..n + size];
    } else if n <= |list| {
      assert Window(Window(list, n, count), 0, size) == list[n..];
    }
  }

  // ------------------------------------------------------ the forward scan

  datatype FetchState = FetchState(start: int, entries: seq<Entry>)

  /** The entry behind an index row, ready to show. */
  function FormatRow(rdb: Rows, mdb: Rows, v: Value): Option<Entry> {
    match v
    case EntryKeyRow(kb) =>
      if kb !in rdb then None
      else (match rdb[kb] case EntryRow(e) => Format(mdb, e) case _ => None)
    case _ => None
  }

  /** ForwardFetchFeed's callback on row number i. */
  function Fetch(rdb: Rows, mdb: Rows, start: int, size: int): Callback<FetchState> {
    (i: nat, k: seq<byte>, v: Value, st: FetchState) =>
      if st.start > 0 then (st.(start := st.start - 1), Continue)
      else match FormatRow(rdb, mdb, v)
        case None => (st, Fail(Lit("entry data missing")))
        case Some(e) =>
          (st.(entries := st.entries + [e]), if i > ToInt32(size + start) then Stop else Continue)
  }

  function FormatRows(rdb: Rows, mdb: Rows, ks: seq<seq<byte>>): Option<seq<Entry>>
    requires forall k :: k in ks ==> k in rdb
  {
    if ks == [] then Some([])
    else match FormatRow(rdb, mdb, rdb[ks[0]])
      case None => None
      case Some(e) => (match FormatRows(rdb, mdb, ks[1..]) case None => None case Some(es) => Some([e] + es))
  }

  /** The end of the window ForwardFetchFeed reads, when rows do not run out. */
  function End(start: int, size: int): nat {
    Positive(start) + ForwardCount(start, size)
  }

  lemma StopsAtEnd(start: int, size: int, n: nat)
    requires start <= n && n < End(start, size)
    ensures n > ToInt32(size + start) <==> n + 1 == End(start, size)
  {
  }

  /** The rows the scan still reads from row n on. */
  function Remaining(ks: seq<seq<byte>>, start: int, size: int, n: nat): seq<seq<byte>>
    requires n <= |ks| && n < End(start, size)
    ensures forall k :: k in Remaining(ks, start, size, n) ==> k in ks
  {
    var a := if n < start then First(|ks|, start) else n;
    if End(start, size) <= |ks| then ks[a..End(start, size)] else ks[a..]
  }

  lemma RemainingStep(ks: seq<seq<byte>>, start: int, size: int, n: nat)
    requires n < |ks| && n < End(start, size)
    ensures n < start ==> n + 1 < End(start, size) && Remaining(ks, start, size, n) == Remaining(ks, start, size, n + 1)
    ensures start <= n && n + 1 < End(start, size) ==>
              Remaining(ks, start, size, n) == [ks[n]] + Remaining(ks, start, size, n + 1)
    ensures start <= n && n + 1 == End(start, size) ==> Remaining(ks, start, size, n) == [ks[n]]
  {
  }

  /** The scan appends the formatted rows of its window, or fails at the first row there
      that has no entry or no author. */
  lemma {:induction false} FetchFold(rdb: Rows, mdb: Rows, start: int, size: int, ks: seq<seq<byte>>, n: nat,
                                     st: FetchState)
    requires n <= |ks| && n < End(start, size) && forall k :: k in ks ==> k in rdb
    requires st.start == if n <= start then start - n else if start > 0 then 0 else start
    ensures var r := Fold(Fetch(rdb, mdb, start, size), rdb, ks, n, st);
            match FormatRows(rdb, mdb, Remaining(ks, start, size, n))
            case Some(es) => r.err == None && r.state.entries == st.entries + es
            case None => r.err.Some?
    decreases |ks| - n
  {
    hide FormatRow, FormatRows, ForwardCount, ToInt32, End, Remaining;
    FormatNothing(rdb, mdb);
    if n == |ks| {
      NothingRemains(ks, start, size);
    } else {
      var next := Fetch(rdb, mdb, start, size)(n, ks[n], rdb[ks[n]], st).0;
      RemainingStep(ks, start, size, n);
      if n < start {
        FetchFold(rdb, mdb, start, size, ks, n + 1, next);
      } else {
        StopsAtEnd(start, size, n);
        var shown := FormatRow(rdb, mdb, rdb[ks[n]]);
        assert shown.Some? ==> next.entries == st.entries + [shown.value];
        FormatRowsCons(rdb, mdb, ks[n], if n + 1 < End(start, size) then Remaining(ks, start, size, n + 1) else []);
        if n + 1 < End(start, size) && FormatRow(rdb, mdb, rdb[ks[n]]).Some? {
          FetchFold(rdb, mdb, start, size, ks, n + 1, next);
        }
      }
    }
  }

  lemma NothingRemains(ks: seq<seq<byte>>, start: int, size: int)
    requires |ks| < End(start, size)
    ensures Remaining(ks, start, size, |ks|) == []
  {
  }

  lemma FormatNothing(rdb: Rows, mdb: Rows)
    ensures FormatRows(rdb, mdb, []) == Some([])
  {
  }

  lemma FormatRowsCons(rdb: Rows, mdb: Rows, k: seq<byte>, ks: seq<seq<byte>>)
    requires k in rdb && forall x :: x in ks ==> x in rdb
    ensures FormatRows(rdb, mdb, [k] + ks)
         == match FormatRow(rdb, mdb, rdb[k])
            case None => None
            case Some(e) => match FormatRows(rdb, mdb, ks) case None => None case Some(es) => Some([e] + es)
    ensures ks == [] ==> [k] + ks == [k]
  {
    assert ([k] + ks)[1..] == ks;
  }

  /** From row 0 the window is the one that begins at Start. */
  lemma RemainingIsWindow(ks: seq<seq<byte>>, start: int, size: int)
    ensures Remaining(ks, start, size, 0) == Window(ks, start, ForwardCount(start, size))
  {
  }

  lemma {:induction false} FormatRowsAll(rdb: Rows, mdb: Rows, ks: seq<seq<byte>>)
    requires forall k :: k in ks ==> k in rdb
    ensures FormatRows(rdb, mdb, ks).Some? <==> forall k :: k in ks ==> FormatRow(rdb, mdb, rdb[k]).Some?
    ensures match FormatRows(rdb, mdb, ks)
            case Some(es) =>
              |es| == |ks| && forall i :: 0 <= i < |ks| ==> FormatRow(rdb, mdb, rdb[ks[i]]) == Some(es[i])
            case None => true
  {
    hide FormatRow;
    if ks != [] {
      assert ks == [ks[0]] + ks[1..];
      FormatRowsAll(rdb, mdb, ks[1..]);
    }
  }
}
