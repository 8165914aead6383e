/** Likes and comments as many requests make them on one entry: each reads the entry, changes
    its copy and writes the whole copy back (storage/table.go:414-493, server/server.go:453-511),
    and no lock spans the two. */
module ReactionProtocol {
  import opened Bytes
  import opened Messages
  import opened Reactions

  /** A request between its read and its write: the copy it read and what it will do to it.
      `chain` and `at` are bookkeeping: the writes the copy stems from, and how many writes
      there had been when it was read. */
  datatype Copy = Copy(entry: Entry, change: Change, chain: seq<nat>, at: nat)

  datatype State = State(
    entry: Entry,            // as stored
    copies: map<nat, Copy>,  // requests under way
    // bookkeeping
    changes: seq<Change>,    // every write's change, oldest first
    chain: seq<nat>)         // the writes the stored entry stems from, oldest first

  datatype Step = ReadEntry(call: nat, change: Change) | WriteEntry(call: nat)

  function Init(e: Entry): State {
    State(e, map[], [], [])
  }

  /** The request has nothing to write: a like that is there, an unlike or delete of nothing, an
      edit under another author's id. */
  predicate Skips(e: Entry, c: Change) {
    match c
    case LikeChange(r) => Liked(e.likes, r.like.from.id) == r.on
    case CommentChange(SetOp(comment)) => SetComment(e.comments, comment) == None
    case CommentChange(RemoveOp(id)) => Lookup(e.comments, id) == None
  }

  predicate Enabled(s: State, step: Step) {
    match step
    case ReadEntry(call, _) => call !in s.copies
    case WriteEntry(call) => call in s.copies
  }

  function Apply(s: State, step: Step): State
    requires Enabled(s, step)
  {
    match step
    case ReadEntry(call, change) =>
      s.(copies := s.copies[call := Copy(s.entry, change, s.chain, |s.changes|)])
    case WriteEntry(call) =>
      var c := s.copies[call];
      var s' := s.(copies := s.copies - {call});
      if Skips(c.entry, c.change) then s'
      else s'.(entry := ChangeOnce(c.entry, c.change), changes := s.changes + [c.change],
               chain := c.chain + [|s.changes|])
  }

  /** The changes at the positions. */
  function Picked(changes: seq<Change>, chain: seq<nat>): seq<Change>
    requires forall i :: 0 <= i < |chain| ==> chain[i] < |changes|
  {
    seq(|chain|, i requires 0 <= i < |chain| => changes[chain[i]])
  }

  /** The chain names writes, each once, in order. */
  predicate IsChain(changes: seq<Change>, chain: seq<nat>) {
    && |chain| <= |changes|
    && (forall i :: 0 <= i < |chain| ==> chain[i] < |changes|)
    && (forall i, j :: 0 <= i < j < |chain| ==> chain[i] < chain[j])
  }

  /** The entry is the first one with the chain's changes made to it. */
  ghost predicate StemsFrom(base: Entry, changes: seq<Change>, chain: seq<nat>, e: Entry) {
    IsChain(changes, chain) && e == Changed(base, Picked(changes, chain))
  }

  ghost predicate CopyInv(base: Entry, s: State, c: Copy) {
    && StemsFrom(base, s.changes, c.chain, c.entry)
    && |c.chain| <= c.at <= |s.changes|
    && (c.at == |s.changes| ==> c.chain == s.chain)
  }

  ghost predicate Inv(base: Entry, s: State) {
    && StemsFrom(base, s.changes, s.chain, s.entry)
    && forall call :: call in s.copies ==> CopyInv(base, s, s.copies[call])
  }

  lemma InitInv(e: Entry)
    ensures Inv(e, Init(e))
  {
    hide Changed;
    NoChange(e);
    assert Picked([], []) == [];
  }

  /** A further write leaves what stems from earlier ones as it is. */
  lemma StemsStays(base: Entry, changes: seq<Change>, chain: seq<nat>, e: Entry, c: Change)
    requires StemsFrom(base, changes, chain, e)
    ensures StemsFrom(base, changes + [c], chain, e)
  {
    hide Changed;
    assert Picked(changes + [c], chain) == Picked(changes, chain);
  }

  lemma StemsWrite(base: Entry, changes: seq<Change>, chain: seq<nat>, e: Entry, c: Change)
    requires StemsFrom(base, changes, chain, e)
    ensures StemsFrom(base, changes + [c], chain + [|changes|], ChangeOnce(e, c))
  {
    hide Changed, ChangeOnce;
    ChangedSnoc(base, Picked(changes, chain), c);
    var chain' := chain + [|changes|];
    assert Picked(changes + [c], chain') == Picked(changes, chain) + [c];
  }

  lemma StepInv(base: Entry, s: State, step: Step)
    requires Inv(base, s) && Enabled(s, step)
    ensures Inv(base, Apply(s, step))
  {
    hide StemsFrom, Skips, ChangeOnce;
    var s' := Apply(s, step);
    StemsBounds(base, s.changes, s.chain, s.entry);
    if step.WriteEntry? {
      var c := s.copies[step.call];
      assert CopyInv(base, s, c);
      if !Skips(c.entry, c.change) {
        StemsWrite(base, s.changes, c.chain, c.entry, c.change);
      }
    }
    forall call | call in s'.copies ensures CopyInv(base, s', s'.copies[call]) {
      if call in s.copies {
        var c := s.copies[call];
        assert CopyInv(base, s, c);
        if |s'.changes| > |s.changes| {
          StemsStays(base, s.changes, c.chain, c.entry, s.copies[step.call].change);
        }
      }
    }
  }

  lemma StemsBounds(base: Entry, changes: seq<Change>, chain: seq<nat>, e: Entry)
    requires StemsFrom(base, changes, chain, e)
    ensures |chain| <= |changes|
  {
  }

  // ------------------------------------------------------------- runs

  ghost predicate IsRun(e: Entry, ss: seq<State>, steps: seq<Step>) {
    && |ss| == |steps| + 1
    && ss[0] == Init(e)
    && forall i :: 0 <= i < |steps| ==> Enabled(ss[i], steps[i]) && ss[i + 1] == Apply(ss[i], steps[i])
  }

  lemma {:induction false} RunKeepsInv(e: Entry, ss: seq<State>, steps: seq<Step>, i: nat)
    requires IsRun(e, ss, steps) && i < |ss|
    ensures Inv(e, ss[i])
  {
    hide Inv, Apply, Enabled;
    if i == 0 {
      InitInv(e);
    } else {
      RunKeepsInv(e, ss, steps, i - 1);
      assert Enabled(ss[i - 1], steps[i - 1]) && ss[i - 1 + 1] == Apply(ss[i - 1], steps[i - 1]);
      StepInv(e, ss[i - 1], steps[i - 1]);
    }
  }

  /** Under any interleaving the stored entry is the first one with some of the changes written
      made to it, each once and in the order written: those in the chain of copies that leads
      to the last write. The others are lost. */
  lemma ChainIsStored(e: Entry, ss: seq<State>, steps: seq<Step>, i: nat)
    requires IsRun(e, ss, steps) && i < |ss|
    ensures IsChain(ss[i].changes, ss[i].chain)
    ensures ss[i].entry == Changed(e, Picked(ss[i].changes, ss[i].chain))
  {
    hide Changed;
    RunKeepsInv(e, ss, steps, i);
  }

  /** No other request wrote between the step's read and its write. */
  predicate ReadsLast(s: State, step: Step) {
    step.WriteEntry? && step.call in s.copies && !Skips(s.copies[step.call].entry, s.copies[step.call].change)
    ==> s.copies[step.call].at == |s.changes|
  }

  lemma StepKeepsAllIff(base: Entry, s: State, step: Step)
    requires Inv(base, s) && Enabled(s, step)
    ensures var s' := Apply(s, step);
            |s'.chain| == |s'.changes| <==> |s.chain| == |s.changes| && ReadsLast(s, step)
  {
    hide StemsFrom, Skips, ChangeOnce;
    StemsBounds(base, s.changes, s.chain, s.entry);
    if step.WriteEntry? {
      assert CopyInv(base, s, s.copies[step.call]);
    }
  }

  /** No write is lost exactly when no request's write came between another's read and write;
      the stored entry is then what the changes, one after the other, make of the first. */
  lemma {:induction false} NothingLostIff(e: Entry, ss: seq<State>, steps: seq<Step>, i: nat)
    requires IsRun(e, ss, steps) && i < |ss|
    ensures |ss[i].chain| == |ss[i].changes| <==> forall j :: 0 <= j < i ==> ReadsLast(ss[j], steps[j])
    ensures |ss[i].chain| == |ss[i].changes| ==> ss[i].entry == Changed(e, ss[i].changes)
  {
    hide Inv, Apply, Enabled, ReadsLast, Changed;
    ChainIsStored(e, ss, steps, i);
    if |ss[i].chain| == |ss[i].changes| {
      FullChain(ss[i].changes, ss[i].chain);
    }
    if i > 0 {
      NothingLostIff(e, ss, steps, i - 1);
      RunKeepsInv(e, ss, steps, i - 1);
      assert Enabled(ss[i - 1], steps[i - 1]) && ss[i - 1 + 1] == Apply(ss[i - 1], steps[i - 1]);
      StepKeepsAllIff(e, ss[i - 1], steps[i - 1]);
    } else {
      assert ss[0].chain == [] && ss[0].changes == [];
    }
  }

  /** As many positions as there are writes, in order, are all of them. */
  lemma {:induction false} FullChain(changes: seq<Change>, chain: seq<nat>)
    requires IsChain(changes, chain) && |chain| == |changes|
    ensures Picked(changes, chain) == changes
  {
    forall i | 0 <= i < |chain| ensures chain[i] == i {
      ChainAt(chain, i);
      ChainAbove(chain, i, |chain| - 1);
    }
  }

  lemma {:induction false} ChainAt(chain: seq<nat>, i: nat)
    requires i < |chain| && forall a, b :: 0 <= a < b < |chain| ==> chain[a] < chain[b]
    ensures chain[i] >= i
  {
    if i > 0 {
      ChainAt(chain, i - 1);
    }
  }

  lemma {:induction false} ChainAbove(chain: seq<nat>, i: nat, j: nat)
    requires i <= j < |chain| && forall a, b :: 0 <= a < b < |chain| ==> chain[a] < chain[b]
    ensures chain[j] >= chain[i] + (j - i)
  {
    if i < j {
      ChainAbove(chain, i, j - 1);
    }
  }

  /** Two users like an entry at once, both reading before either writes: whoever writes first
      has not liked it in the end. */
  lemma OverlapLosesLike(e: Entry, r1: LikeRequest, r2: LikeRequest)
    requires r1.on && r2.on && r1.like.from.id != r2.like.from.id
    requires !Liked(e.likes, r1.like.from.id) && !Liked(e.likes, r2.like.from.id)
    ensures var s0 := Init(e);
            var s1 := Apply(s0, ReadEntry(1, LikeChange(r1)));
            var s2 := Apply(s1, ReadEntry(2, LikeChange(r2)));
            var s3 := Apply(s2, WriteEntry(1));
            var s4 := Apply(s3, WriteEntry(2));
            Liked(s3.entry.likes, r1.like.from.id) && !Liked(s4.entry.likes, r1.like.from.id)
  {
    hide Liked;
    LikedSnoc(e.likes, r1.like, r1.like.from.id);
    LikedSnoc(e.likes, r2.like, r1.like.from.id);
  }
}
