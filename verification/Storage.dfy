/** storage/store.go and the scan of storage/table.go: a sorted map with snapshot
    iterators, and the one loop everything else reads it by. */
module Storage {
  import opened Bytes
  import opened Flake
  import opened Keys
  import opened Messages

  type Rows = map<seq<byte>, Value>

  // ------------------------------------------------- sorted enumeration

  ghost predicate Sorted(ks: seq<seq<byte>>) {
    forall i, j :: 0 <= i < j < |ks| ==> LexLess(ks[i], ks[j])
  }

  predicate IsLeast(k: seq<byte>, s: set<seq<byte>>) {
    k in s && forall x :: x in s ==> x == k || LexLess(k, x)
  }

  lemma {:induction false} LeastExists(s: set<seq<byte>>)
    requires s != {}
    ensures exists k :: IsLeast(k, s)
  {
    var x :| x in s;
    if s == {x} {
      assert IsLeast(x, s);
    } else {
      LeastExists(s - {x});
      var m :| IsLeast(m, s - {x});
      LexTrichotomy(x, m);
      if LexLess(m, x) {
        assert IsLeast(m, s);
      } else {
        forall y | y in s ensures y == x || LexLess(x, y) {
          if y != x && y != m {
            LexTransitive(x, m, y);
          }
        }
        assert IsLeast(x, s);
      }
    }
  }

  lemma LeastUnique(s: set<seq<byte>>)
    ensures forall a, b :: IsLeast(a, s) && IsLeast(b, s) ==> a == b
  {
    forall a, b | IsLeast(a, s) && IsLeast(b, s) ensures a == b {
      LexTrichotomy(a, b);
    }
  }

  function Least(s: set<seq<byte>>): (k: seq<byte>)
    requires s != {}
    ensures IsLeast(k, s)
  {
    LeastExists(s);
    LeastUnique(s);
    var k :| k in s && IsLeast(k, s);
    k
  }

  /** The keys of a snapshot in the order an iterator walks them. */
  function SortedKeys(s: set<seq<byte>>): (ks: seq<seq<byte>>)
    ensures forall k :: k in ks <==> k in s
    ensures |ks| == |s|
  {
    if s == {} then [] else [Least(s)] + SortedKeys(s - {Least(s)})
  }

  lemma {:induction false} SortedKeysSorted(s: set<seq<byte>>)
    ensures Sorted(SortedKeys(s))
  {
    if s != {} {
      var k, rest := Least(s), SortedKeys(s - {Least(s)});
      SortedKeysSorted(s - {k});
      SortedCons(k, rest);
    }
  }

  lemma SortedCons(k: seq<byte>, rest: seq<seq<byte>>)
    requires Sorted(rest)
    requires forall x :: x in rest ==> LexLess(k, x)
    ensures Sorted([k] + rest)
  {
    var ks := [k] + rest;
    forall i, j | 0 <= i < j < |ks| ensures LexLess(ks[i], ks[j]) {
      assert ks[j] == rest[j - 1] && rest[j - 1] in rest;
    }
  }

  /** A set has one sorted enumeration. */
  lemma {:induction false} SortedUnique(a: seq<seq<byte>>, b: seq<seq<byte>>)
    requires Sorted(a) && Sorted(b)
    requires forall k :: k in a <==> k in b
    ensures a == b
  {
    SomeElement(b);
    if a != [] {
      assert a[0] in b;
      assert b[0] in a;
      SortedHead(a, b[0]);
      SortedHead(b, a[0]);
      LexTrichotomy(a[0], b[0]);
      var a', b' := a[1..], b[1..];
      forall k ensures k in a' <==> k in b' {
        SortedTail(a, k);
        SortedTail(b, k);
      }
      SortedUnique(a', b');
      assert a == [a[0]] + a' && b == [b[0]] + b';
    }
  }

  lemma SomeElement(s: seq<seq<byte>>)
    ensures s != [] ==> exists k :: k in s
  {
    if s != [] {
      assert s[0] in s;
    }
  }

  lemma SortedHead(s: seq<seq<byte>>, k: seq<byte>)
    requires Sorted(s) && k in s
    ensures k == s[0] || LexLess(s[0], k)
  {
  }

  lemma SortedTail(s: seq<seq<byte>>, k: seq<byte>)
    requires Sorted(s) && s != []
    ensures Sorted(s[1..])
    ensures k in s[1..] <==> k in s && k != s[0]
  {
    LexTrichotomy(s[0], s[0]);
    assert s == [s[0]] + s[1..];
    if k in s[1..] {
      var i :| 0 <= i < |s[1..]| && s[1..][i] == k;
      assert LexLess(s[0], s[i + 1]);
    }
  }

  // ----------------------------------------------------- keys under a prefix

  function KeysUnder(rows: Rows, prefix: seq<byte>): (ks: seq<seq<byte>>)
    ensures forall k :: k in ks <==> k in rows && prefix <= k
  {
    SortedKeys(set k | k in rows && prefix <= k)
  }

  /** In a sorted enumeration the keys under a prefix are one contiguous block, which
      starts at the first key not below the prefix. */
  lemma PrefixBlock(rows: Rows, all: seq<seq<byte>>, prefix: seq<byte>, start: nat)
    requires all == SortedKeys(rows.Keys) && start <= |all|
    requires forall i :: 0 <= i < start ==> LexLess(all[i], prefix)
    requires start < |all| ==> !LexLess(all[start], prefix)
    ensures var under := KeysUnder(rows, prefix);
            && start + |under| <= |all|
            && under == all[start..start + |under|]
            && (start + |under| < |all| ==> !(prefix <= all[start + |under|]))
  {
    hide LexLess, SortedKeys, KeysUnder;
    var end := BlockEnd(all, prefix, start);
    SortedKeysSorted(rows.Keys);
    forall i | 0 <= i < |all| && prefix <= all[i] ensures start <= i < end {
      LexPrefixInterval(prefix, all[i], all[i]);
      if i > end {
        NoGap(all, prefix, start, end, i);
      }
    }
    BlockIsUnder(rows, all, prefix, start, end);
  }

  function BlockEnd(all: seq<seq<byte>>, prefix: seq<byte>, start: nat): (end: nat)
    requires start <= |all|
    ensures start <= end <= |all|
    ensures forall i :: start <= i < end ==> prefix <= all[i]
    ensures end < |all| ==> !(prefix <= all[end])
    decreases |all| - start
  {
    if start < |all| && prefix <= all[start] then BlockEnd(all, prefix, start + 1) else start
  }

  lemma NoGap(all: seq<seq<byte>>, prefix: seq<byte>, start: nat, end: nat, i: nat)
    requires Sorted(all) && start <= end < i < |all|
    requires !LexLess(all[start], prefix) && prefix <= all[i]
    ensures prefix <= all[end]
  {
    if start < end {
      LexAbove(prefix, all[start], all[end]);
    }
    LexPrefixInterval(prefix, all[end], all[i]);
  }

  lemma BlockIsUnder(rows: Rows, all: seq<seq<byte>>, prefix: seq<byte>, start: nat, end: nat)
    requires all == SortedKeys(rows.Keys) && start <= end <= |all|
    requires forall i :: 0 <= i < |all| ==> (prefix <= all[i] <==> start <= i < end)
    ensures KeysUnder(rows, prefix) == all[start..end]
  {
    hide LexLess, SortedKeys;
    var block := all[start..end];
    forall k ensures k in block <==> k in rows && prefix <= k {
      if k in rows && prefix <= k {
        assert k in all;
        var i :| 0 <= i < |all| && all[i] == k;
        assert block[i - start] == k;
      }
    }
    SortedKeysSorted(rows.Keys);
    assert Sorted(block);
    SortedKeysSorted(set k | k in rows && prefix <= k);
    SortedUnique(block, KeysUnder(rows, prefix));
  }

  lemma LexAbove(p: seq<byte>, a: seq<byte>, b: seq<byte>)
    requires !LexLess(a, p) && LexLess(a, b)
    ensures !LexLess(b, p)
  {
    if LexLess(b, p) {
      LexTransitive(a, b, p);
    }
  }

  lemma KeysUnderSame(rows: Rows, rows': Rows, prefix: seq<byte>)
    requires forall k :: prefix <= k ==> (k in rows <==> k in rows')
    ensures KeysUnder(rows, prefix) == KeysUnder(rows', prefix)
  {
    assert (set k | k in rows && prefix <= k) == (set k | k in rows' && prefix <= k);
  }

  /** A key above all others under the prefix is scanned last. */
  lemma KeysUnderAppend(rows: Rows, prefix: seq<byte>, k: seq<byte>, v: Value)
    requires prefix <= k && forall x :: x in KeysUnder(rows, prefix) ==> LexLess(x, k)
    ensures KeysUnder(rows[k := v], prefix) == KeysUnder(rows, prefix) + [k]
  {
    hide LexLess, SortedKeys;
    var ks := KeysUnder(rows, prefix);
    KeysUnderSorted(rows, prefix);
    KeysUnderSorted(rows[k := v], prefix);
    var more := ks + [k];
    forall i, j | 0 <= i < j < |more| ensures LexLess(more[i], more[j]) {
      assert ks[i] in ks;
    }
    SortedUnique(KeysUnder(rows[k := v], prefix), more);
  }

  /** Deleting a key leaves the others in order. */
  lemma KeysUnderRemove(rows: Rows, prefix: seq<byte>, i: nat)
    requires i < |KeysUnder(rows, prefix)|
    ensures var ks := KeysUnder(rows, prefix); KeysUnder(rows - {ks[i]}, prefix) == ks[..i] + ks[i + 1..]
  {
    hide LexLess, KeysUnder;
    var ks := KeysUnder(rows, prefix);
    KeysUnderSorted(rows, prefix);
    KeysUnderSorted(rows - {ks[i]}, prefix);
    SortedSplice(ks, i);
    var rest, rows' := ks[..i] + ks[i + 1..], rows - {ks[i]};
    assert forall k :: k in rows' <==> k in rows && k != ks[i];
    forall k ensures k in KeysUnder(rows', prefix) <==> k in rest {
      assert k in rest <==> k in ks && k != ks[i];
    }
    SortedUnique(KeysUnder(rows', prefix), rest);
  }

  lemma SortedSplice(ks: seq<seq<byte>>, i: nat)
    requires Sorted(ks) && i < |ks|
    ensures Sorted(ks[..i] + ks[i + 1..])
    ensures forall k :: k in ks[..i] + ks[i + 1..] <==> k in ks && k != ks[i]
  {
    hide LexLess;
    var rest := ks[..i] + ks[i + 1..];
    LexTrichotomy(ks[i], ks[i]);
    forall k ensures k in rest <==> k in ks && k != ks[i] {
      if k in ks && k != ks[i] {
        var j :| 0 <= j < |ks| && ks[j] == k;
        assert rest[if j < i then j else j - 1] == k;
      }
      if k in rest {
        var j :| 0 <= j < |rest| && rest[j] == k;
        assert ks[if j < i then j else j + 1] == k;
        assert LexLess(k, ks[i]) || LexLess(ks[i], k);
      }
    }
  }

  lemma KeysUnderSorted(rows: Rows, prefix: seq<byte>)
    ensures Sorted(KeysUnder(rows, prefix))
  {
    SortedKeysSorted(set k | k in rows && prefix <= k);
  }

  // ------------------------------------------------------------- store

  /** What a NextId call that retries on error does with the readings the clock gives it:
      the id of the first reading accepted, or none while it is still waiting. */
  function Retry(g: GenState, clock: seq<Time>): (r: (GenState, Option<Id>))
    decreases clock
  {
    if clock == [] then (g, None)
    else if Accepts(g, clock[0]) then (After(g, clock[0]), Some(LastId(After(g, clock[0]))))
    else Retry(g, clock[1..])
  }

  class Store {
    var rows: Rows
    const idGen: Generator

    constructor (workerId: WorkerId)
      ensures rows == map[] && fresh(idGen) && idGen.State() == Fresh(workerId)
    {
      rows := map[];
      idGen := new Generator(workerId);
    }

    /** GetBytes answers nil, without an error, for a key that is not there. */
    function Get(key: seq<byte>): Option<Value>
      reads this
    {
      if key in rows then Some(rows[key]) else None
    }

    method Put(key: seq<byte>, value: Value)
      modifies this
      ensures rows == old(rows)[key := value]
    {
      rows := rows[key := value];
    }

    method Delete(key: seq<byte>)
      modifies this
      ensures rows == old(rows) - {key}
    {
      rows := rows - {key};
    }

    method NewIterator() returns (it: Iterator)
      ensures fresh(it) && it.Valid() && it.rows == rows && it.pos == 0
    {
      it := new Iterator(rows);
    }

    method NextId(clock: seq<Time>) returns (id: Option<Id>)
      modifies idGen
      ensures (idGen.State(), id) == Retry(old(idGen.State()), clock)
      ensures var g := old(idGen.State());
              && (id == None <==> forall i :: 0 <= i < |clock| ==> !Accepts(g, clock[i]))
              && (id == None ==> idGen.State() == g)
              && forall i :: && 0 <= i < |clock| && Accepts(g, clock[i])
                             && (forall j :: 0 <= j < i ==> !Accepts(g, clock[j])) ==>
                   idGen.State() == After(g, clock[i]) && id == Some(LastId(After(g, clock[i])))
    {
      hide Accepts, After, LastId;
      var i := 0;
      while i < |clock|
        invariant 0 <= i <= |clock|
        invariant idGen.State() == old(idGen.State())
        invariant forall j :: 0 <= j < i ==> !Accepts(old(idGen.State()), clock[j])
        invariant Retry(old(idGen.State()), clock) == Retry(idGen.State(), clock[i..])
      {
        var r := idGen.NextId(clock[i]);
        if r.Issued? {
          return Some(r.id);
        }
        i := i + 1;
      }
      return None;
    }
  }

  method TimeTravelReverseId(t: Time, workerId: WorkerId) returns (id: Id)
    ensures id == ReverseId(t, workerId)
    ensures Stamp(id) == Millis(ReverseTime(t)) && id[8..14] == workerId && FromBigEndian(id[14..]) == 0
  {
    var duration := Sub(MAX_TIME, t);
    var reverseTime := Unix(WholeSeconds(duration), 0);
    var gen := new Generator(workerId);
    var r := gen.NextId(reverseTime);
    id := r.id;
  }

  /** A RocksDB iterator over the rows as they were when it was made. */
  class Iterator {
    const rows: Rows
    const keys: seq<seq<byte>>
    var pos: nat

    ghost predicate Valid()
      reads this
    {
      keys == SortedKeys(rows.Keys) && pos <= |keys|
    }

    constructor (rows: Rows)
      ensures Valid() && this.rows == rows && pos == 0
    {
      this.rows := rows;
      keys := SortedKeys(rows.Keys);
      pos := 0;
    }

    /** Moves to the first key not below target. */
    method Seek(target: seq<byte>)
      requires Valid()
      modifies this
      ensures Valid()
      ensures forall i :: 0 <= i < pos ==> LexLess(keys[i], target)
      ensures pos < |keys| ==> !LexLess(keys[pos], target)
    {
      hide LexLess, SortedKeys;
      pos := 0;
      while pos < |keys| && LexLess(keys[pos], target)
        invariant Valid()
        invariant forall i :: 0 <= i < pos ==> LexLess(keys[i], target)
      {
        pos := pos + 1;
      }
    }

    predicate ValidForPrefix(prefix: seq<byte>)
      reads this
    {
      pos < |keys| && prefix <= keys[pos]
    }

    method Next()
      requires Valid() && pos < |keys|
      modifies this
      ensures Valid() && pos == old(pos) + 1
    {
      pos := pos + 1;
    }
  }

  // -------------------------------------------------------------- scan

  /** How a callback ends: go on, StopIteration, or another error. */
  datatype Status = Continue | Stop | Fail(msg: text)

  /** A ScanCallback closes over state of its caller; here that state is passed through. */
  type Callback<!S> = (nat, seq<byte>, Value, S) -> (S, Status)

  datatype ScanResult<S> = ScanResult(n: nat, err: Option<text>, state: S)

  /** The calls a scan makes on the keys from the n-th on. */
  function Fold<S>(fn: Callback<S>, rows: Rows, ks: seq<seq<byte>>, n: nat, s: S): ScanResult<S>
    requires n <= |ks| && forall k :: k in ks ==> k in rows
    decreases |ks| - n
  {
    if n == |ks| then ScanResult(n, None, s)
    else
      var (s', status) := fn(n, ks[n], rows[ks[n]], s);
      match status
      case Continue => Fold(fn, rows, ks, n + 1, s')
      case Stop => ScanResult(n, None, s')
      case Fail(msg) => ScanResult(n, Some(msg), s')
  }

  /** One pass over the keys under the prefix, ascending, each once, on the rows as they
      were at the start; `n` counts the calls that completed. */
  method ForwardTableScan<S>(db: Store, prefix: Key, fn: Callback<S>, s0: S)
    returns (n: nat, err: Option<text>, s: S)
    ensures ScanResult(n, err, s) == Fold(fn, db.rows, KeysUnder(db.rows, prefix.Bytes()), 0, s0)
  {
    hide LexLess, SortedKeys, KeysUnder, Key.Bytes;
    var p := prefix.Bytes();
    ghost var under := KeysUnder(db.rows, p);
    var iter := db.NewIterator();
    iter.Seek(p);
    ghost var start := iter.pos;
    PrefixBlock(db.rows, iter.keys, p, start);
    assert |under| > 0 ==> under[0] in under;
    n, err, s := 0, None, s0;
    while iter.ValidForPrefix(p)
      invariant iter.Valid() && iter.rows == db.rows
      invariant n <= |under| && iter.pos == start + n
      invariant n < |under| ==> iter.pos < |iter.keys| && p <= iter.keys[iter.pos]
      invariant err == None
      invariant Fold(fn, db.rows, under, 0, s0) == Fold(fn, db.rows, under, n, s)
      decreases |iter.keys| - iter.pos
    {
      assert n < |under|;
      var k := iter.keys[iter.pos];
      assert k == under[n];
      var (s', status) := fn(n, k, iter.rows[k], s);
      s := s';
      match status {
        case Continue =>
        case Stop => return n, None, s;
        case Fail(msg) => return n, Some(msg), s;
      }
      n := n + 1;
      iter.Next();
      assert n < |under| ==> under[n] in under;
    }
  }

  /** The caller's state after the first i calls, all of which went on. */
  function StateAfter<S>(fn: Callback<S>, rows: Rows, ks: seq<seq<byte>>, i: nat, s0: S): S
    requires i <= |ks| && forall k :: k in ks ==> k in rows
  {
    if i == 0 then s0
    else fn(i - 1, ks[i - 1], rows[ks[i - 1]], StateAfter(fn, rows, ks, i - 1, s0)).0
  }

  function StatusAt<S>(fn: Callback<S>, rows: Rows, ks: seq<seq<byte>>, i: nat, s0: S): Status
    requires i < |ks| && forall k :: k in ks ==> k in rows
  {
    fn(i, ks[i], rows[ks[i]], StateAfter(fn, rows, ks, i, s0)).1
  }

  /** The count is the first call that did not go on, or all of them; only an error other
      than StopIteration is reported; the state is that of exactly those calls. */
  lemma {:induction false} FoldMeaning<S>(fn: Callback<S>, rows: Rows, ks: seq<seq<byte>>, n: nat, s0: S)
    requires n <= |ks| && forall k :: k in ks ==> k in rows
    requires forall i :: 0 <= i < n ==> StatusAt(fn, rows, ks, i, s0) == Continue
    ensures var r := Fold(fn, rows, ks, n, StateAfter(fn, rows, ks, n, s0));
            && n <= r.n <= |ks|
            && (forall i :: 0 <= i < r.n ==> StatusAt(fn, rows, ks, i, s0) == Continue)
            && (r.n == |ks| ==> r.err == None && r.state == StateAfter(fn, rows, ks, r.n, s0))
            && (r.n < |ks| ==> && StatusAt(fn, rows, ks, r.n, s0) == (if r.err == None then Stop else Fail(r.err.value))
                               && r.state == StateAfter(fn, rows, ks, r.n + 1, s0))
    decreases |ks| - n
  {
    if n < |ks| && StatusAt(fn, rows, ks, n, s0) == Continue {
      FoldMeaning(fn, rows, ks, n + 1, s0);
    }
  }

  /** The keys of `ks` whose rows are selected. */
  function Chosen(sel: Value -> bool, rows: Rows, ks: seq<seq<byte>>): set<seq<byte>> {
    set k | k in ks && k in rows && sel(rows[k])
  }

  /** A callback that deletes the selected rows from the live store, reading the snapshot,
      removes exactly the selected keys. */
  lemma {:induction false} FoldDeletes(fn: Callback<Rows>, sel: Value -> bool, rows: Rows, ks: seq<seq<byte>>, n: nat,
                                       live: Rows)
    requires n <= |ks| && forall k :: k in ks ==> k in rows
    requires forall i: nat, k, l: Rows :: k in ks ==>
               fn(i, k, rows[k], l) == (if sel(rows[k]) then l - {k} else l, Continue)
    ensures Fold(fn, rows, ks, n, live) == ScanResult(|ks|, None, live - Chosen(sel, rows, ks[n..]))
    decreases |ks| - n
  {
    if n < |ks| {
      var k := ks[n];
      var live' := if sel(rows[k]) then live - {k} else live;
      assert fn(n, k, rows[k], live) == (live', Continue);
      FoldDeletes(fn, sel, rows, ks, n + 1, live');
      assert ks[n..] == [k] + ks[n + 1..];
      assert live' - Chosen(sel, rows, ks[n + 1..]) == live - Chosen(sel, rows, ks[n..]);
    } else {
      assert Chosen(sel, rows, ks[n..]) == {};
      assert live - {} == live;
    }
  }
}
