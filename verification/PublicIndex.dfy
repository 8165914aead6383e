/** server/index.go: the bounded "most recent first, each key once" buffer behind the
    public feed. */
module PublicIndex {
  import opened Bytes
  import opened Keys
  import opened Messages
  import opened Storage

  const MIN_QUEUE := 500
  const BLANK: text := []

  // ------------------------------------------------------- specification

  /** Each key once, in order of first occurrence. */
  function Dedup(s: seq<text>): (d: seq<text>)
    ensures forall k :: k in d <==> k in s
  {
    if s == [] then []
    else
      var d, last := Dedup(s[..|s| - 1]), s[|s| - 1];
      assert s == s[..|s| - 1] + [last];
      if last in d then d else d + [last]
  }

  function Take(n: nat, s: seq<text>): seq<text> {
    if |s| <= n then s else s[..n]
  }

  /** The first 500 distinct keys. */
  function Recent(s: seq<text>): seq<text> {
    Take(MIN_QUEUE, Dedup(s))
  }

  function Reverse(s: seq<text>): (r: seq<text>)
    ensures |r| == |s|
    ensures forall i :: 0 <= i < |s| ==> r[i] == s[|s| - 1 - i]
  {
    if s == [] then [] else [s[|s| - 1]] + Reverse(s[..|s| - 1])
  }

  predicate Distinct(s: seq<text>) {
    forall i, j :: 0 <= i < j < |s| ==> s[i] != s[j]
  }

  function UntilBlank(s: seq<text>): (r: seq<text>)
    ensures r <= s && BLANK !in r
    ensures |r| < |s| ==> s[|r|] == BLANK
  {
    if s == [] || s[0] == BLANK then [] else [s[0]] + UntilBlank(s[1..])
  }

  /** A buffer of 500 slots holding `keys`, then blanks. */
  function Pad(keys: seq<text>): (b: seq<text>)
    requires |keys| <= MIN_QUEUE
    ensures |b| == MIN_QUEUE
  {
    keys + seq(MIN_QUEUE - |keys|, _ => BLANK)
  }

  /** Distinct keys, then blanks: what rebuild leaves and dump stores. */
  predicate WellFormed(buf: seq<text>) {
    && |buf| == MIN_QUEUE
    && Distinct(UntilBlank(buf))
    && forall i :: |UntilBlank(buf)| <= i < |buf| ==> buf[i] == BLANK
  }

  /** The buffer rebuild makes of a pending queue and an old buffer. */
  function Rebuilt(iq: seq<text>, buf: seq<text>): seq<text> {
    Recent(Reverse(iq) + UntilBlank(buf))
  }

  // ---------------------------------------------------- laws of Dedup

  lemma DedupSnoc(s: seq<text>, x: text)
    ensures Dedup(s + [x]) == if x in s then Dedup(s) else Dedup(s) + [x]
  {
    assert (s + [x])[..|s|] == s;
  }

  lemma {:induction false} DedupDistinct(s: seq<text>)
    ensures Distinct(Dedup(s))
  {
    if s != [] {
      DedupDistinct(s[..|s| - 1]);
    }
  }

  lemma {:induction false} DedupOfDistinct(s: seq<text>)
    requires Distinct(s)
    ensures Dedup(s) == s
  {
    if s != [] {
      var front, x := s[..|s| - 1], s[|s| - 1];
      DedupOfDistinct(front);
      DedupSnoc(front, x);
      assert s == front + [x];
    }
  }

  /** Reading on never changes what has been found so far. */
  lemma {:induction false} DedupPrefix(s: seq<text>, t: seq<text>)
    ensures Dedup(s) <= Dedup(s + t)
  {
    hide Dedup;
    if t == [] {
      assert s + t == s;
    } else {
      var front, x := t[..|t| - 1], t[|t| - 1];
      DedupPrefix(s, front);
      DedupSnoc(s + front, x);
      assert s + t == s + front + [x];
    }
  }

  lemma EmptyDedup()
    ensures Dedup([]) == []
  {
  }

  lemma {:induction false} DedupInner(p: seq<text>, s: seq<text>)
    ensures Dedup(p + Dedup(s)) == Dedup(p + s)
  {
    hide Dedup;
    if s == [] {
      EmptyDedup();
    } else {
      var front, x := s[..|s| - 1], s[|s| - 1];
      DedupInner(p, front);
      DedupSnoc(front, x);
      DedupSnoc(p + front, x);
      DedupSnoc(p + Dedup(front), x);
      assert s == front + [x] && p + s == p + front + [x];
      if x !in front {
        assert p + Dedup(s) == p + Dedup(front) + [x];
      }
    }
  }

  lemma {:induction false} DistinctCount(s: seq<text>)
    requires Distinct(s)
    ensures |set k | k in s| == |s|
  {
    if s != [] {
      var front, x := s[..|s| - 1], s[|s| - 1];
      DistinctCount(front);
      assert s == front + [x];
      assert (set k | k in s) == (set k | k in front) + {x};
    }
  }

  /** The counting argument: text that contains n distinct keys dedups to at least n. */
  lemma DedupCounts(s: seq<text>, d: seq<text>)
    requires Distinct(d) && forall k :: k in d ==> k in s
    ensures |Dedup(s)| >= |d|
  {
    DedupDistinct(s);
    DistinctCount(Dedup(s));
    DistinctCount(d);
    var small, large := set k | k in d, set k | k in Dedup(s);
    assert small <= large;
    assert large == small + (large - small);
  }

  /** Truncating the older part to 500 first never changes the result. */
  lemma TruncationIsHarmless(p: seq<text>, s: seq<text>)
    ensures Recent(p + Recent(s)) == Recent(p + s)
  {
    var d := Dedup(s);
    DedupInner(p, s);
    if |d| > MIN_QUEUE {
      var r := Recent(s);
      DedupDistinct(s);
      assert p + d == (p + r) + d[MIN_QUEUE..];
      DedupPrefix(p + r, d[MIN_QUEUE..]);
      DedupCounts(p + r, r);
    }
  }

  lemma {:induction false} DedupKnown(p: seq<text>, t: seq<text>)
    requires forall k :: k in t ==> k in p
    ensures Dedup(p + t) == Dedup(p)
  {
    hide Dedup;
    if t == [] {
      assert p + t == p;
    } else {
      var front, x := t[..|t| - 1], t[|t| - 1];
      DedupKnown(p, front);
      DedupSnoc(p + front, x);
      assert p + t == p + front + [x] && x in t;
    }
  }

  lemma {:induction false} DedupExtends(p: seq<text>, d: seq<text>)
    requires Distinct(d) && Dedup(p) <= d
    ensures Dedup(p + d) == d
    decreases |d|
  {
    hide Dedup;
    if d == Dedup(p) {
      DedupKnown(p, d);
    } else {
      var front, x := d[..|d| - 1], d[|d| - 1];
      DedupExtends(p, front);
      DedupSnoc(p + front, x);
      assert p + d == p + front + [x] && d == front + [x];
      assert forall k :: k in p ==> k in Dedup(p) && k in front;
    }
  }

  /** Reading p first makes no difference exactly when what it adds already comes first. */
  lemma ReadFirstIff(p: seq<text>, s: seq<text>)
    ensures Recent(p + s) == Recent(s) <==> Recent(p) <= Recent(s)
  {
    hide Dedup;
    DedupPrefix(p, s);
    if Recent(p) <= Recent(s) {
      if |Dedup(p)| < MIN_QUEUE {
        DedupDistinct(s);
        DedupExtends(p, Dedup(s));
        DedupInner(p, s);
      } else {
        assert Recent(p + s) == Recent(p) == Recent(s);
      }
    }
  }

  lemma ReverseConcat(a: seq<text>, b: seq<text>)
    ensures Reverse(a + b) == Reverse(b) + Reverse(a)
  {
  }

  // ------------------------------------------------- meaning of Recent

  function FirstIndex(s: seq<text>, k: text): (i: nat)
    requires k in s
    ensures i < |s| && s[i] == k && k !in s[..i]
  {
    if s[0] == k then 0 else 1 + FirstIndex(s[1..], k)
  }

  lemma FirstIndexUnique(s: seq<text>, k: text, i: nat)
    requires i < |s| && s[i] == k && k !in s[..i]
    ensures FirstIndex(s, k) == i
  {
    if i > 0 {
      assert s[0] == s[..i][0];
      assert s[1..][..i - 1] == s[..i][1..];
      FirstIndexUnique(s[1..], k, i - 1);
    }
  }

  lemma {:induction false} DedupOrder(s: seq<text>, i: nat, j: nat)
    requires i < j < |Dedup(s)|
    ensures FirstIndex(s, Dedup(s)[i]) < FirstIndex(s, Dedup(s)[j])
  {
    var n := |s| - 1;
    var front, d := s[..n], Dedup(s[..n]);
    assert s == front + [s[n]];
    DedupSnoc(front, s[n]);
    FirstIndexInFront(front, s[n], d[i]);
    if j < |d| {
      DedupOrder(front, i, j);
      FirstIndexInFront(front, s[n], d[j]);
    } else {
      FirstIndexUnique(s, s[n], n);
    }
  }

  lemma FirstIndexInFront(front: seq<text>, x: text, k: text)
    requires k in front
    ensures FirstIndex(front + [x], k) == FirstIndex(front, k)
  {
    var f := FirstIndex(front, k);
    assert (front + [x])[..f] == front[..f];
    FirstIndexUnique(front + [x], k, f);
  }

  /** Read newest first, Recent keeps each key once, ordered by its newest occurrence, and
      drops a key only when 500 newer ones fill the buffer. */
  lemma RecentMeaning(s: seq<text>)
    ensures var r := Recent(s);
            && |r| <= 500 && Distinct(r) && (forall k :: k in r ==> k in s)
            && (forall i, j :: 0 <= i < j < |r| ==> FirstIndex(s, r[i]) < FirstIndex(s, r[j]))
            && (forall k :: k in s && k !in r ==>
                  |r| == 500 && forall i :: 0 <= i < |r| ==> FirstIndex(s, r[i]) < FirstIndex(s, k))
  {
    var d, r := Dedup(s), Recent(s);
    DedupDistinct(s);
    assert d == r + d[|r|..];
    forall i, j | 0 <= i < |r| && i < j < |d| ensures FirstIndex(s, r[i]) < FirstIndex(s, d[j]) {
      DedupOrder(s, i, j);
    }
    forall k | k in s && k !in r
      ensures |r| == MIN_QUEUE && forall i :: 0 <= i < |r| ==> FirstIndex(s, r[i]) < FirstIndex(s, k)
    {
      assert k in d;
    }
    forall i, j | 0 <= i < j < |r| ensures FirstIndex(s, r[i]) < FirstIndex(s, r[j]) {
      assert r[j] == d[j];
    }
  }

  // ---------------------------------------------- agreement with history

  /** One rebuild carries "the first 500 distinct keys of everything pushed, newest first,
      then what was loaded" from the pushes applied so far to all of them. */
  lemma RebuiltFromHistory(applied: seq<text>, iq: seq<text>, loaded: seq<text>)
    requires BLANK !in applied && BLANK !in iq && BLANK !in loaded
    ensures Rebuilt(iq, Pad(Recent(Reverse(applied) + loaded))) == Recent(Reverse(applied + iq) + loaded)
  {
    hide Dedup, Pad, Reverse, UntilBlank, Recent, WellFormed;
    var past := Reverse(applied) + loaded;
    ReverseKeepsBlankOut(applied);
    RecentIsWellFormed(past);
    TruncationIsHarmless(Reverse(iq), past);
    ReverseConcat(applied, iq);
    assert Reverse(iq) + past == Reverse(applied + iq) + loaded;
  }

  lemma ReverseKeepsBlankOut(s: seq<text>)
    requires BLANK !in s
    ensures BLANK !in Reverse(s)
  {
  }

  // --------------------------------------------------- buffers and blanks

  lemma {:induction false} UntilBlankConcat(keys: seq<text>, rest: seq<text>)
    requires BLANK !in keys && (rest == [] || rest[0] == BLANK)
    ensures UntilBlank(keys + rest) == keys
  {
    if keys == [] {
      assert keys + rest == rest;
    } else {
      assert (keys + rest)[1..] == keys[1..] + rest;
      UntilBlankConcat(keys[1..], rest);
    }
  }

  lemma PadKeepsKeys(keys: seq<text>)
    requires |keys| <= MIN_QUEUE && BLANK !in keys
    ensures UntilBlank(Pad(keys)) == keys
  {
    UntilBlankConcat(keys, seq(MIN_QUEUE - |keys|, _ => BLANK));
  }

  lemma WellFormedIsPad(buf: seq<text>)
    requires WellFormed(buf)
    ensures buf == Pad(UntilBlank(buf))
  {
  }

  lemma RecentIsWellFormed(s: seq<text>)
    requires BLANK !in s
    ensures WellFormed(Pad(Recent(s))) && UntilBlank(Pad(Recent(s))) == Recent(s)
  {
    DedupDistinct(s);
    PadKeepsKeys(Recent(s));
  }

  /** Rebuilding with nothing pending changes nothing. */
  lemma IdleRebuild(buf: seq<text>)
    requires WellFormed(buf)
    ensures Pad(Rebuilt([], buf)) == buf
  {
    hide Dedup, UntilBlank;
    assert Reverse([]) + UntilBlank(buf) == UntilBlank(buf);
    DedupOfDistinct(UntilBlank(buf));
    WellFormedIsPad(buf);
  }

  /** A buffer that has not taken in the queued keys shows what one that has would show exactly
      when those keys, newest first, are the ones it already begins with. */
  lemma QueuedKeysLost(applied: seq<text>, iq: seq<text>, loaded: seq<text>)
    requires BLANK !in applied && BLANK !in loaded
    ensures var shown := UntilBlank(Pad(Recent(Reverse(applied) + loaded)));
            shown == Recent(Reverse(applied + iq) + loaded) <==> Recent(Reverse(iq)) <= shown
  {
    hide Dedup, Pad, UntilBlank, WellFormed, Recent, Reverse;
    var past := Reverse(applied) + loaded;
    ReverseKeepsBlankOut(applied);
    RecentIsWellFormed(past);
    ReadFirstIff(Reverse(iq), past);
    ReverseConcat(applied, iq);
    assert Reverse(iq) + past == Reverse(applied + iq) + loaded;
  }

  /** A blank key pushed last would hide every other key from the next rebuild. */
  lemma BlankPushHidesAll(s: seq<text>)
    ensures UntilBlank(Pad(Recent([BLANK] + s))) == []
  {
    DedupSnoc([], BLANK);
    DedupPrefix([BLANK], s);
    assert [] + [BLANK] == [BLANK];
    assert Pad(Recent([BLANK] + s))[0] == BLANK;
  }

  // ------------------------------------------------------- array bounds

  /** What the first loop has counted, from its j-th turn on: slots filled and keys seen. */
  function QueueLoop(iq: seq<text>, j: nat, i: nat, index: set<text>): (nat, set<text>)
    requires j <= |iq|
    decreases |iq| - j
  {
    if j == |iq| || i >= MIN_QUEUE then (i, index)
    else
      var item := iq[|iq| - j - 1];
      if item in index then QueueLoop(iq, j + 1, i, index) else QueueLoop(iq, j + 1, i + 1, index + {item})
  }

  /** The second loop from position j on reads no slot past the end of the old buffer. */
  predicate OldLoopStays(buf: seq<text>, j: nat, i: nat, index: set<text>)
    requires j <= |buf|
    decreases |buf| - j
  {
    i < MIN_QUEUE ==>
      && j < |buf|
      && (buf[j] != BLANK ==>
            if buf[j] in index then OldLoopStays(buf, j + 1, i, index)
            else OldLoopStays(buf, j + 1, i + 1, index + {buf[j]}))
  }

  /** rebuild as coded stays inside its arrays. */
  predicate RebuildStays(iq: seq<text>, buf: seq<text>) {
    var (i, index) := QueueLoop(iq, 0, 0, {});
    OldLoopStays(buf, 0, i, index)
  }

  /** The same in terms of keys: the queue alone fills the new buffer, or a blank is met, or
      there are enough distinct keys. */
  predicate InBounds(iq: seq<text>, buf: seq<text>) {
    || |Dedup(Reverse(iq))| >= MIN_QUEUE
    || BLANK in buf
    || |Dedup(Reverse(iq) + buf)| >= MIN_QUEUE
  }

  /** The counters of both loops when `seen` has been read. */
  ghost predicate Counts(seen: seq<text>, i: nat, index: set<text>) {
    i == |Dedup(seen)| && forall k :: k in index <==> k in seen
  }

  lemma CountsStep(seen: seq<text>, i: nat, index: set<text>, item: text)
    requires Counts(seen, i, index)
    ensures item in index ==> Counts(seen + [item], i, index)
    ensures item !in index ==> Counts(seen + [item], i + 1, index + {item})
  {
    hide Dedup;
    DedupSnoc(seen, item);
  }

  /** The first loop reads the whole queue, newest first, or stops at 500 keys. */
  lemma {:induction false} QueueLoopCounts(iq: seq<text>, j: nat, i: nat, index: set<text>) returns (n: nat)
    requires j <= |iq| && Counts(Reverse(iq)[..j], i, index)
    ensures n <= |iq| && Counts(Reverse(iq)[..n], QueueLoop(iq, j, i, index).0, QueueLoop(iq, j, i, index).1)
    ensures n == |iq| || QueueLoop(iq, j, i, index).0 >= MIN_QUEUE
    decreases |iq| - j
  {
    hide Dedup, Reverse, Counts;
    if j == |iq| || i >= MIN_QUEUE {
      n := j;
    } else {
      var seen, item := Reverse(iq)[..j], iq[|iq| - j - 1];
      CountsStep(seen, i, index, item);
      assert Reverse(iq)[..j + 1] == seen + [item];
      if item in index {
        n := QueueLoopCounts(iq, j + 1, i, index);
      } else {
        n := QueueLoopCounts(iq, j + 1, i + 1, index + {item});
      }
    }
  }

  /** The second loop stays inside exactly when it meets a blank or 500 distinct keys. */
  lemma {:induction false} OldLoopStaysIff(buf: seq<text>, j: nat, seen: seq<text>, i: nat, index: set<text>)
    requires j <= |buf| && Counts(seen, i, index)
    ensures OldLoopStays(buf, j, i, index)
       <==> i >= MIN_QUEUE || BLANK in buf[j..] || |Dedup(seen + buf[j..])| >= MIN_QUEUE
    decreases |buf| - j
  {
    hide Dedup, Counts;
    CountsMeans(seen, i, index);
    if j == |buf| {
      assert seen + buf[j..] == seen;
    } else if i < MIN_QUEUE && buf[j] != BLANK {
      var item := buf[j];
      CountsStep(seen, i, index, item);
      assert buf[j..] == [item] + buf[j + 1..];
      assert seen + buf[j..] == seen + [item] + buf[j + 1..];
      if item in index {
        OldLoopStaysIff(buf, j + 1, seen + [item], i, index);
      } else {
        OldLoopStaysIff(buf, j + 1, seen + [item], i + 1, index + {item});
        CountsMeans(seen + [item], i + 1, index + {item});
        DedupPrefix(seen + [item], buf[j + 1..]);
      }
    }
  }

  lemma CountsMeans(seen: seq<text>, i: nat, index: set<text>)
    requires Counts(seen, i, index)
    ensures i == |Dedup(seen)| && forall k :: k in index <==> k in seen
  {
  }

  /** The loops as coded stay inside their arrays exactly when InBounds holds. */
  lemma {:induction false} RebuildStaysIff(iq: seq<text>, buf: seq<text>)
    requires |buf| == MIN_QUEUE
    ensures RebuildStays(iq, buf) <==> InBounds(iq, buf)
  {
    hide Dedup, Reverse, Counts;
    EmptyCounts();
    var pushed := Reverse(iq);
    assert pushed[..0] == [];
    var n := QueueLoopCounts(iq, 0, 0, {});
    var (i, index) := QueueLoop(iq, 0, 0, {});
    CountsMeans(pushed[..n], i, index);
    OldLoopStaysIff(buf, 0, pushed[..n], i, index);
    assert buf[0..] == buf;
    DedupPrefix(pushed[..n], pushed[n..]);
    assert pushed == pushed[..n] + pushed[n..];
    assert n == |iq| ==> pushed[..n] == pushed;
  }

  lemma EmptyCounts()
    ensures Counts([], 0, {})
  {
  }

  lemma SafeBuffer(iq: seq<text>, buf: seq<text>)
    requires |buf| == MIN_QUEUE && (BLANK in buf || Distinct(buf))
    ensures InBounds(iq, buf)
  {
    if Distinct(buf) {
      DedupCounts(Reverse(iq) + buf, buf);
    }
  }

  /** What rebuild leaves is safe again, whatever was pushed. */
  lemma RebuiltIsSafe(s: seq<text>)
    ensures var buf := Pad(Recent(s)); BLANK in buf || Distinct(buf)
  {
    DedupDistinct(s);
    var buf := Pad(Recent(s));
    if |Recent(s)| < MIN_QUEUE {
      assert buf[MIN_QUEUE - 1] in buf;
    }
  }

  /** A buffer of 500 slots is safe under every queue exactly when it has a blank or no
      duplicate; with neither, a queue of its own first key is enough to run past its end. */
  lemma InBoundsForEveryQueue(buf: seq<text>)
    requires |buf| == MIN_QUEUE
    ensures (forall iq: seq<text> :: iq != [] ==> RebuildStays(iq, buf)) <==> BLANK in buf || Distinct(buf)
    ensures BLANK !in buf && !Distinct(buf) ==> !RebuildStays([buf[0]], buf)
  {
    hide RebuildStays, InBounds;
    if BLANK in buf || Distinct(buf) {
      forall iq: seq<text> | iq != [] ensures RebuildStays(iq, buf) {
        SafeBuffer(iq, buf);
        RebuildStaysIff(iq, buf);
      }
    } else {
      DuplicateRunsOut(buf);
      RebuildStaysIff([buf[0]], buf);
    }
  }

  lemma DuplicateRunsOut(buf: seq<text>)
    requires |buf| == MIN_QUEUE && BLANK !in buf && !Distinct(buf)
    ensures !InBounds([buf[0]], buf)
  {
    hide Dedup;
    var iq := [buf[0]];
    DedupDistinct(Reverse(iq) + buf);
    FewDistinct(buf, Dedup(Reverse(iq) + buf));
    DedupDistinct(Reverse(iq));
    FewDistinct(buf, Dedup(Reverse(iq)));
  }

  /** A sequence with a duplicate has fewer distinct members than its length. */
  lemma FewDistinct(s: seq<text>, d: seq<text>)
    requires !Distinct(s) && Distinct(d)
    requires forall k :: k in d ==> k in s
    ensures |d| < |s|
  {
    var i, j :| 0 <= i < j < |s| && s[i] == s[j];
    var t := s[..j] + s[j + 1..];
    forall k | k in s ensures k in t {
      var n :| 0 <= n < |s| && s[n] == k;
      if n < j {
        assert t[n] == k;
      } else if n == j {
        assert t[i] == k;
      } else {
        assert t[n - 1] == k;
      }
    }
    DedupCounts(t, d);
    DedupNoLonger(t);
  }

  lemma {:induction false} DedupNoLonger(s: seq<text>)
    ensures |Dedup(s)| <= |s|
  {
    if s != [] {
      DedupNoLonger(s[..|s| - 1]);
    }
  }

  lemma EmptyIndex(buf: seq<text>)
    requires |buf| == MIN_QUEUE && forall i :: 0 <= i < |buf| ==> buf[i] == BLANK
    ensures BLANK in buf && buf == Pad(Recent(Reverse([]) + []))
  {
    assert buf[0] in buf;
    assert Reverse([]) + [] == [];
  }

  /** What both loops of rebuild keep: `seen` has been read, and the i slots filled and the
      index set hold exactly its distinct keys. */
  ghost predicate Progress(seen: seq<text>, i: int, index: set<text>, buf: seq<text>) {
    0 <= i <= MIN_QUEUE && Counts(seen, i, index) && buf == Pad(Dedup(seen))
  }

  /** One turn of either loop: an item not yet seen goes into the next slot. */
  lemma ProgressStep(seen: seq<text>, i: int, index: set<text>, buf: seq<text>, item: text)
    requires Progress(seen, i, index, buf) && i < MIN_QUEUE
    ensures item in index ==> Progress(seen + [item], i, index, buf)
    ensures item !in index ==> 0 <= i < |buf| && Progress(seen + [item], i + 1, index + {item}, buf[i := item])
  {
    hide Dedup, Pad;
    CountsStep(seen, i, index, item);
    DedupSnoc(seen, item);
    PadSnoc(Dedup(seen), item);
  }

  lemma MoveHead(seen: seq<text>, todo: seq<text>)
    requires todo != []
    ensures seen + [todo[0]] + todo[1..] == seen + todo
  {
  }

  /** At the end all is read, or 500 keys are found and the rest does not matter. */
  lemma ProgressDone(seen: seq<text>, todo: seq<text>, i: int, index: set<text>, buf: seq<text>)
    requires Progress(seen, i, index, buf) && (i == MIN_QUEUE || todo == [])
    ensures buf == Pad(Recent(seen + todo))
  {
    RecentSettled(seen, todo);
  }

  lemma PadSnoc(keys: seq<text>, item: text)
    requires |keys| < MIN_QUEUE
    ensures Pad(keys + [item]) == Pad(keys)[|keys| := item]
  {
  }

  /** Once 500 distinct keys are found the rest of the input does not matter. */
  lemma RecentSettled(seen: seq<text>, rest: seq<text>)
    requires |Dedup(seen)| == MIN_QUEUE || rest == []
    requires |Dedup(seen)| <= MIN_QUEUE
    ensures Recent(seen + rest) == Dedup(seen)
  {
    DedupPrefix(seen, rest);
    if rest == [] {
      assert seen + rest == seen;
    }
  }

  // ------------------------------------------------------------ the class

  class FeedIndex {
    const uuid: Uuid
    var bufq: array<text>
    var iq: seq<text>
    var dirty: bool
    /** The keys loaded last, and every push since then, oldest first. */
    ghost var loaded: seq<text>
    ghost var history: seq<text>

    /** What holds whenever the lock is free. */
    ghost predicate Valid()
      reads this, bufq
    {
      && bufq.Length == MIN_QUEUE
      && (dirty <==> iq != [])
      && |iq| <= |history| && history[|history| - |iq|..] == iq
      && BLANK !in loaded
      && (BLANK in bufq[..] || Distinct(bufq[..]))
      && (BLANK !in history ==> bufq[..] == Pad(Recent(Reverse(Applied()) + loaded)))
    }

    /** The pushes the last rebuild has seen. */
    ghost function Applied(): seq<text>
      requires |iq| <= |history|
      reads this
    {
      history[..|history| - |iq|]
    }

    constructor (uuid: Uuid)
      ensures Valid() && fresh(bufq)
      ensures this.uuid == uuid && history == [] && loaded == [] && iq == []
    {
      this.uuid := uuid;
      iq, dirty := [], false;
      loaded, history := [], [];
      bufq := new text[MIN_QUEUE](_ => BLANK);
      new;
      hide Dedup, Pad, Reverse, Recent, Distinct;
      EmptyIndex(bufq[..]);
      assert Applied() == [];
    }

    /** Queues a key; atomic under the lock. */
    method Push(key: text)
      requires Valid()
      modifies this
      ensures Valid()
      ensures iq == old(iq) + [key] && history == old(history) + [key]
      ensures bufq == old(bufq) && loaded == old(loaded)
    {
      iq := iq + [key];
      dirty := true;
      history := history + [key];
      assert Applied() == old(Applied());
    }

    /** rebuild's first loop: the pending queue, newest first. */
    method FillFromQueue(ghost stored: seq<text>)
      returns (i: nat, index: set<text>, ghost seen: seq<text>, ghost todo: seq<text>)
      requires bufq.Length == MIN_QUEUE && forall k :: 0 <= k < MIN_QUEUE ==> bufq[k] == BLANK
      modifies bufq
      ensures i <= MIN_QUEUE && Progress(seen, i, index, bufq[..])
      ensures seen + todo == Reverse(iq) + stored && (i < MIN_QUEUE ==> todo == stored)
    {
      hide Dedup, Pad, Reverse, Progress;
      ghost var pushed := Reverse(iq);
      i, index, seen, todo := 0, {}, [], pushed + stored;
      NothingSeen(bufq[..]);
      var j := 0;
      while j < |iq|
        invariant 0 <= j <= |iq| && i < MIN_QUEUE
        invariant Progress(seen, i, index, bufq[..])
        invariant seen + todo == pushed + stored && todo == pushed[j..] + stored
      {
        var item := iq[|iq| - j - 1];
        ghost var buf := bufq[..];
        assert todo[0] == item;
        ProgressStep(seen, i, index, buf, item);
        MoveHead(seen, todo);
        if item !in index {
          index := index + {item};
          bufq[i] := item;
          assert bufq[..] == buf[i := item];
          i := i + 1;
        }
        seen, todo := seen + [item], todo[1..];
        j := j + 1;
        if i == MIN_QUEUE {
          break;
        }
      }
    }

    /** Its second loop: the old buffer up to the first blank. Nothing bounds j. */
    method FillFromOld(oldbuf: array<text>, i0: nat, index0: set<text>, ghost queue: seq<text>,
                       ghost seen0: seq<text>, ghost todo0: seq<text>)
      requires bufq.Length == oldbuf.Length == MIN_QUEUE && bufq != oldbuf && InBounds(queue, oldbuf[..])
      requires i0 <= MIN_QUEUE && Progress(seen0, i0, index0, bufq[..])
      requires seen0 + todo0 == Reverse(queue) + UntilBlank(oldbuf[..])
      requires i0 < MIN_QUEUE ==> todo0 == UntilBlank(oldbuf[..])
      modifies bufq
      ensures bufq[..] == Pad(Recent(seen0 + todo0))
    {
      hide Dedup, Pad, Reverse, UntilBlank, Progress, InBounds, Recent;
      var i, index := i0, index0;
      ghost var seen, todo := seen0, todo0;
      ghost var stored := UntilBlank(oldbuf[..]);
      var j := 0;
      while i < MIN_QUEUE
        invariant oldbuf[..] == old(oldbuf[..])
        invariant i <= MIN_QUEUE && Progress(seen, i, index, bufq[..])
        invariant seen + todo == seen0 + todo0
        invariant i < MIN_QUEUE ==> j <= |stored| && todo == stored[j..]
        decreases |todo|
      {
        ghost var buf := bufq[..];
        BoundHolds(queue, oldbuf[..], j, seen, i, index, buf);
        var item := oldbuf[j];
        if item == BLANK {
          assert todo == [];
          break;
        }
        assert j < |stored| && todo[0] == item;
        ProgressStep(seen, i, index, buf, item);
        MoveHead(seen, todo);
        if item !in index {
          index := index + {item};
          bufq[i] := item;
          assert bufq[..] == buf[i := item];
          i := i + 1;
        }
        seen, todo := seen + [item], todo[1..];
        if i == MIN_QUEUE {
          break;
        }
        j := j + 1;
      }
      ProgressDone(seen, todo, i, index, bufq[..]);
    }

    /** The part of rebuild under the lock. It needs of the buffer only what keeps its
        second loop inside the array. */
    method RebuildLocked()
      requires bufq.Length == MIN_QUEUE && RebuildStays(iq, bufq[..])
      modifies this
      ensures fresh(bufq) && bufq[..] == Pad(Rebuilt(old(iq), old(bufq[..])))
      ensures iq == [] && !dirty
      ensures loaded == old(loaded) && history == old(history)
    {
      hide Dedup, Pad, Reverse, UntilBlank, Progress, InBounds, RebuildStays, Recent;
      RebuildStaysIff(iq, bufq[..]);
      var oldbuf := new text[MIN_QUEUE];
      forall k | 0 <= k < MIN_QUEUE {
        oldbuf[k] := bufq[k];
      }
      assert oldbuf[..] == bufq[..];
      bufq := new text[MIN_QUEUE](_ => BLANK);
      ghost var queue, before := iq, oldbuf[..];
      var i, index, seen, todo := FillFromQueue(UntilBlank(before));
      assert oldbuf[..] == before == old(bufq[..]);
      ghost var filled := bufq[..];
      while |iq| > 0
        invariant oldbuf[..] == before && bufq[..] == filled
        modifies `iq
      {
        iq := iq[1..];
      }
      FillFromOld(oldbuf, i, index, queue, seen, todo);
      dirty := false;
    }

    /** rebuild's look at `dirty`; this contract is for a look made while the lock is free. */
    method CheckDirty() returns (sawDirty: bool)
      requires Valid()
      ensures !sawDirty ==> Applied() == history
    {
      sawDirty := dirty;
    }

    /** rebuild from any answer the look at `dirty` gave, however stale by now. A rebuild
        that raced past the check and finds the queue already drained changes nothing. */
    method RebuildAfterCheck(sawDirty: bool)
      requires Valid()
      modifies this
      ensures Valid()
      ensures history == old(history) && loaded == old(loaded)
      ensures !sawDirty ==> bufq == old(bufq) && iq == old(iq)
      ensures sawDirty ==> iq == [] && fresh(bufq)
      ensures sawDirty && BLANK !in history ==> bufq[..] == Pad(Recent(Reverse(history) + loaded))
      ensures old(iq) == [] && BLANK !in history ==> bufq[..] == old(bufq[..])
    {
      if !sawDirty {
        return;
      }
      hide Dedup, Pad, Reverse, UntilBlank, Recent, Rebuilt, RebuildStays, InBounds;
      ghost var applied, queue, before := Applied(), iq, bufq[..];
      assert history == applied + queue;
      SafeBuffer(iq, bufq[..]);
      RebuildStaysIff(iq, bufq[..]);
      RebuildLocked();
      RebuildSafeAgain(queue, before);
      if BLANK !in history {
        RebuiltFromHistory(applied, queue, loaded);
        assert Applied() == history;
      }
    }

    method Rebuild()
      requires Valid()
      modifies this
      ensures Valid() && iq == [] && (bufq == old(bufq) || fresh(bufq))
      ensures history == old(history) && loaded == old(loaded)
      ensures BLANK !in history ==> bufq[..] == Pad(Recent(Reverse(history) + loaded))
    {
      var sawDirty := CheckDirty();
      RebuildAfterCheck(sawDirty);
    }

    function CacheKey(): Key {
      UUIDKey(TABLE_INDEX_CACHE, uuid)
    }

    /** Replaces the buffer by the stored one, if there is one. */
    method Load(db: Store) returns (err: Option<text>)
      requires Valid()
      modifies this
      ensures db.Get(CacheKey().Bytes()) == None ==> Valid() && err == None && bufq == old(bufq)
      ensures iq == old(iq) && (bufq == old(bufq) || fresh(bufq))
      ensures bufq == old(bufq) ==> history == old(history) && loaded == old(loaded)
      ensures match db.Get(CacheKey().Bytes())
              case Some(IndexCacheRow(keys)) =>
                && err == None && bufq[..] == keys
                && (WellFormed(keys) ==> Valid() && loaded == UntilBlank(keys) && history == iq)
              case Some(_) => err.Some? && Valid() && bufq == old(bufq)
              case None => true
    {
      hide Dedup, Pad, Reverse, Recent, Key.Bytes, UntilBlank, WellFormed;
      match db.Get(CacheKey().Bytes())
      case None => return None;
      case Some(IndexCacheRow(keys)) =>
        bufq := new text[|keys|](i requires 0 <= i < |keys| => keys[i]);
        loaded, history := UntilBlank(keys), iq;
        assert bufq[..] == keys;
        assert Applied() == [];
        if WellFormed(keys) {
          LoadedIsRecent(keys);
        }
        return None;
      case Some(_) => return Some(Lit("gob: type mismatch"));
    }

    /** Stores the buffer; what is stored can be loaded again. */
    method Dump(db: Store)
      requires Valid()
      modifies db
      ensures db.rows == old(db.rows)[CacheKey().Bytes() := IndexCacheRow(bufq[..])]
      ensures BLANK !in history ==> WellFormed(bufq[..])
    {
      db.Put(CacheKey().Bytes(), IndexCacheRow(bufq[..]));
      if BLANK !in history {
        ReverseKeepsBlankOut(Applied());
        RecentIsWellFormed(Reverse(Applied()) + loaded);
      }
    }
  }

  lemma RebuildSafeAgain(queue: seq<text>, before: seq<text>)
    ensures var buf := Pad(Rebuilt(queue, before)); BLANK in buf || Distinct(buf)
  {
    RebuiltIsSafe(Reverse(queue) + UntilBlank(before));
  }

  lemma {:induction false} LoadedIsRecent(keys: seq<text>)
    requires WellFormed(keys)
    ensures |keys| == MIN_QUEUE && keys == Pad(Recent(Reverse([]) + UntilBlank(keys)))
    ensures BLANK in keys || Distinct(keys)
  {
    IdleRebuild(keys);
    RebuildSafeAgain([], keys);
  }

  lemma NothingSeen(buf: seq<text>)
    requires |buf| == MIN_QUEUE && forall i :: 0 <= i < |buf| ==> buf[i] == BLANK
    ensures Progress([], 0, {}, buf)
  {
  }

  /** While fewer than 500 distinct keys are found, j is inside the old buffer. */
  lemma BoundHolds(iq: seq<text>, oldbuf: seq<text>, j: nat, seen: seq<text>, i: int, index: set<text>, buf: seq<text>)
    requires |oldbuf| == MIN_QUEUE && InBounds(iq, oldbuf)
    requires Progress(seen, i, index, buf) && i < MIN_QUEUE
    requires j <= |UntilBlank(oldbuf)| && seen + UntilBlank(oldbuf)[j..] == Reverse(iq) + UntilBlank(oldbuf)
    ensures j < MIN_QUEUE
  {
    var pushed, stored := Reverse(iq), UntilBlank(oldbuf);
    assert (seen + stored[j..])[..|seen|] == seen;
    assert (pushed + stored)[..|pushed| + j] == pushed + stored[..j];
    DedupPrefix(pushed, stored[..j]);
    assert j == |stored| ==> stored[..j] == stored;
    assert |stored| == MIN_QUEUE ==> stored == oldbuf;
  }
}
