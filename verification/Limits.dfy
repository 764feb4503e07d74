/** Where the source and its intent part: runs and decisions for which recovery does not do what the
    log promises. */
module Limits {
  import opened Words
  import opened Blocks
  import opened TxLog
  import opened InPlace
  import opened Machine
  import opened MachineProofs
  import opened Crash
  import opened CrashPoints
  import opened Runs
  import opened Api
  import opened Sessions

  // ---- the skipped slot ----

  /** A first object on an empty store, put through slot `i` and not committed. */
  ghost function FirstObject(cfg: Config, s: Sys, i: nat, x: nat, b: Block): Sys
    requires Shaped(cfg, s) && i < |s.txs| && x < |s.blocks| && Contained(cfg, x, b)
  {
    NewBlock(Effect(cfg, s, TxBegin(i)), i, x, Write(x), Sealed(cfg, x, b))
  }

  /** What that state looks like. */
  lemma {:induction false} FirstObjectShape(cfg: Config, s: Sys, i: nat, x: nat, b: Block)
    requires Init(cfg, s) && Shaped(cfg, s) && i < |s.txs| && x < |s.blocks| && Contained(cfg, x, b)
    ensures var m := FirstObject(cfg, s, i, x, b);
            && m.txs == s.txs[i := IDLE.(status := Processing, log := [Write(x)])]
            && m.blocks == s.blocks[x := Sealed(cfg, x, b)] && m.free == s.free - {x} && m.db == map[]
  {
    var m := FirstObject(cfg, s, i, x, b);
    assert m.txs[i].log == [] + [Write(x)] == [Write(x)];
    assert m.txs == s.txs[i := m.txs[i]];
  }

  lemma {:induction false} FirstObjectReached(cfg: Config, s: Sys, i: nat, x: nat, b: Block) returns (es: seq<Event>)
    requires Init(cfg, s) && Inv(cfg, s) && i < |s.txs| && 0 < x < |s.blocks| && x < U64 && Contained(cfg, x, b) && b.flch == 0
    ensures Reaches(cfg, s, es, FirstObject(cfg, s, i, x, b)) && Inv(cfg, FirstObject(cfg, s, i, x, b))
  {
    assert s.txs[i] == Idle(s.txs[i].stale);
    var m := Effect(cfg, s, TxBegin(i));
    BeginIsRun(cfg, s, i);
    RunKeeps(cfg, s, [Act(Begin(i)), Act(Shrink(i))], m);
    forall j, y | 0 <= j < |m.txs| ensures !Mentions(m.txs[j].log, y) {
      assert m.txs[j].log == [];
    }
    PutIsRun(cfg, m, i, 0, x, b);
    es := [Act(Begin(i)), Act(Shrink(i))] + PutRun(i, x, Write(x), b);
    Join(cfg, s, [Act(Begin(i)), Act(Shrink(i))], m, PutRun(i, x, Write(x), b), FirstObject(cfg, s, i, x, b));
  }

  /** The skipped slot, on every empty store: an uncommitted object written through the first slot is still there
      after the source's restart, whatever the checksum tests say and the walk reads. */
  lemma {:induction false} FirstSlotKeepsUncommitted(cfg: Config, s: Sys, x: nat, b: Block, sums: seq<bool>, seen: seq<seq<Op>>)
    returns (es: seq<Event>, r: Sys)
    requires Init(cfg, s) && |s.txs| > 0 && 0 < x < |s.blocks| && x < U64
    requires Contained(cfg, x, b) && b.flch == 0 && |sums| == |seen| == |s.txs|
    ensures Reaches(cfg, s, es, r) && r.db == map[] && |r.txs| == |sums|
    ensures x in LiveMap(CheckedBlocks(cfg, r, sums, seen))
  {
    InitHolds(cfg, s);
    es := FirstObjectReached(cfg, s, 0, x, b);
    FirstObjectShape(cfg, s, 0, x, b);
    r := FirstObject(cfg, s, 0, x, b);
    var found := Sighting(r.txs, sums, seen);
    OthersIdle(s, r.txs, 0, sums, seen, x);
    assert AllContained(cfg, r.blocks);
    RecoverSlotsAt(cfg, r.blocks, found, 1, |found|, x);
  }

  /** Slots nobody has used are empty, so the walk skips them. */
  lemma {:induction false} OthersIdle(s: Sys, txs: seq<Tx>, i: nat, sums: seq<bool>, seen: seq<seq<Op>>, x: nat)
    requires |txs| == |s.txs| == |sums| == |seen| && forall j :: 0 <= j < |s.txs| ==> s.txs[j] == Idle(s.txs[j].stale)
    requires forall j :: 0 <= j < |txs| && j != i ==> txs[j] == s.txs[j]
    ensures forall j :: 0 <= j < |txs| && j != i ==> Sighting(txs, sums, seen)[j].status.Empty?
    ensures !MaskedIn(Sighting(txs, sums, seen), i + 1, |txs|, x)
  {
  }

  // ---- the commit decision ----

  /** Taking back a commit that was not executed gives the committed objects before it. */
  lemma {:induction false} RollbackUndoesCommit(cfg: Config, s: Sys, i: nat)
    requires Inv(cfg, s) && Can(cfg, s, Commit(i))
    ensures RollbackDb(Do(cfg, s, Commit(i)), s.txs[i].log) == s.db
  {
    var back := RollbackDb(Do(cfg, s, Commit(i)), s.txs[i].log);
    forall x: nat ensures SameIn(s.db, back, x) {
      if 0 < x < |s.blocks| {
        if Mentions(s.txs[i].log, x) { NewsOwned(cfg, s, i, x); PatchedNotInHand(cfg, s, i, x); }
        RollbackAt(cfg, s, i, x);
      }
    }
    SameMaps(s.db, back);
  }

  lemma {:induction false} RollbackAt(cfg: Config, s: Sys, i: nat, x: nat)
    requires Shaped(cfg, s) && Can(cfg, s, Commit(i)) && 0 < x < |s.blocks|
    requires Mentions(s.txs[i].log, x) ==> s.txs[i].hand != x && Owned(cfg, s, s.txs[i], x)
    ensures SameIn(s.db, RollbackDb(Do(cfg, s, Commit(i)), s.txs[i].log), x)
  {
    var log := s.txs[i].log;
    var c := Do(cfg, s, Commit(i));
    assert c.blocks == s.blocks && c.db == CommitDb(cfg, s, log);
  }

  lemma {:induction false} SameMaps(a: map<nat, Block>, b: map<nat, Block>)
    requires forall x: nat :: SameIn(a, b, x)
    ensures a == b
  {
    assert forall x :: x in a <==> x in b by { forall x ensures x in a <==> x in b { assert SameIn(a, b, x); } }
    forall x | x in a ensures a[x] == b[x] { assert SameIn(a, b, x); }
  }

  /** The commit decision matters. The source compares a checksum over a longer range than it stored, so a
      committed slot can fail its test. Before execute has started the walk then does exactly what it would
      have done without the commit, so it takes the store back to before commit ... */
  lemma {:induction false} MisjudgedBeforeExecute(cfg: Config, s: Sys, i: nat, sums: seq<bool>, seen: seq<seq<Op>>, start: nat)
    requires Inv(cfg, s) && Can(cfg, s, Commit(i)) && |sums| == |seen| == |s.txs| && !sums[i] && start <= |s.txs|
    ensures WalkedSeen(cfg, Do(cfg, s, Commit(i)), sums, seen, start) == WalkedSeen(cfg, s, sums, seen, start)
    ensures Short(s.txs) && Survivable(cfg, s, sums, seen, start) ==>
              LiveMap(WalkedSeen(cfg, Do(cfg, s, Commit(i)), sums, seen, start)) == s.db
  {
    var c := Do(cfg, s, Commit(i));
    var fa, fb := Sighting(c.txs, sums, seen), Sighting(s.txs, sums, seen);
    forall j | 0 <= j < |s.txs| ensures fa[j].log == fb[j].log && SameVerdict(fa[j].status, fb[j].status) {
      assert j != i ==> c.txs[j] == s.txs[j];
    }
    WalkSees(cfg, s.blocks, fa, fb, start, |s.txs|);
    if Short(s.txs) { WalkExact(cfg, s, sums, seen, start); }
  }

  /** ... but once execute has passed an update, undoing it loses both the old and the new object. */
  lemma {:induction false} MisjudgedMidwayLosesBoth(cfg: Config, s: Sys, i: nat, k: nat)
    requires Inv(cfg, s) && i < |s.txs| && s.txs[i].status.Commited?
    requires k < s.txs[i].pc && s.txs[i].log[k].Update?
    requires 0 < s.txs[i].log[k].prev < |s.blocks| && 0 < s.txs[i].log[k].next < |s.blocks|
    ensures var r := RecoverLog(cfg, s.blocks, s.txs[i].log, false);
            !Live(r[s.txs[i].log[k].prev]) && !Live(r[s.txs[i].log[k].next])
  {
    var t := s.txs[i];
    var prev, next := t.log[k].prev, t.log[k].next;
    RecoverLogAt(cfg, s.blocks, t.log, false, next);
    assert OldOf(t.log[k]) == prev && NewOf(t.log[k]) == next;
    assert News(t.log, next) && Targets(t.log, prev);
    RecoverLogAt(cfg, s.blocks, t.log, false, prev);
    NewsOwned(cfg, s, i, prev);
    assert TxOK(cfg, s, i);
    assert t.log[..t.pc][k] == t.log[k] && Targets(t.log[..t.pc], prev);
  }

  // ---- reuse before the slot is cleared ----

  /** A free block handed out although some open log may still name it. */
  ghost function TakenAnyway(s: Sys, j: nat, x: nat): Sys
    requires j < |s.txs|
  {
    WithTx(s, j, s.txs[j].(hand := x)).(free := s.free - {x})
  }

  /** The rest of a first put through slot `j`, and its commit. */
  function ReuseRun(j: nat, x: nat, b: Block): seq<Event> {
    [Act(LogNew(j, Write(x))), Act(Fill(j, b)), Act(Seal(j)), Act(Commit(j))]
  }

  /** Where that leads: `x` is a committed object. */
  ghost function Reused(cfg: Config, s: Sys, j: nat, x: nat, b: Block): Sys
    requires j < |s.txs| && x < |s.blocks| && Contained(cfg, x, b)
  {
    WithTx(s, j, s.txs[j].(log := [Write(x)], status := Commited))
      .(blocks := s.blocks[x := Sealed(cfg, x, b)], free := s.free - {x}, db := s.db[x := Sealed(cfg, x, b)])
  }

  ghost predicate CanReuse(cfg: Config, s: Sys, j: nat, x: nat, b: Block) {
    && j < |s.txs| && Accepting(s.txs[j]) && Quiescent(s.txs[j]) && s.txs[j].log == []
    && x in s.free && 0 < x < |s.blocks| && x < U64 && Contained(cfg, x, b) && b.flch == 0
  }

  /** Nothing in the source stops it: every later step of the put is possible. */
  lemma {:induction false} ReuseHappens(cfg: Config, s: Sys, j: nat, x: nat, b: Block)
    requires Inv(cfg, s) && CanReuse(cfg, s, j, x, b)
    ensures Reaches(cfg, TakenAnyway(s, j, x), ReuseRun(j, x, b), Reused(cfg, s, j, x, b))
  {
    var s0 := TakenAnyway(s, j, x);
    assert TxOK(cfg, s, j);
    FreeIsDead(cfg, s, x);
    var s2 := ReuseFilled(cfg, s0, j, x, b);
    var r := Do(cfg, s2, Commit(j));
    Extend(cfg, s0, [Act(LogNew(j, Write(x))), Act(Fill(j, b)), Act(Seal(j))], s2, Act(Commit(j)));
    assert [Act(LogNew(j, Write(x))), Act(Fill(j, b)), Act(Seal(j))] + [Act(Commit(j))] == ReuseRun(j, x, b);
    ReuseCommits(cfg, s, s2, j, x, b);
  }

  lemma {:induction false} ReuseFilled(cfg: Config, s: Sys, j: nat, x: nat, b: Block) returns (r: Sys)
    requires Shaped(cfg, s) && j < |s.txs| && Accepting(s.txs[j]) && s.txs[j].hand == x && s.txs[j].fill == 0 && s.txs[j].log == []
    requires 0 < x < |s.blocks| && x < U64 && Contained(cfg, x, b) && b.flch == 0 && !Live(s.blocks[x])
    ensures r == WithTx(s, j, s.txs[j].(log := [Write(x)], hand := 0)).(blocks := s.blocks[x := Sealed(cfg, x, b)])
    ensures Shaped(cfg, r) && Reaches(cfg, s, [Act(LogNew(j, Write(x))), Act(Fill(j, b)), Act(Seal(j))], r)
  {
    var s1 := Do(cfg, s, LogNew(j, Write(x)));
    assert s.txs[j].log + [Write(x)] == [Write(x)];
    assert s1 == WithTx(s, j, s.txs[j].(log := [Write(x)], hand := 0, fill := x));
    StepRun(cfg, s, LogNew(j, Write(x)));
    ReuseSealed(cfg, s1, j, x, b);
    r := Do(cfg, Do(cfg, s1, Fill(j, b)), Seal(j));
    Join(cfg, s, [Act(LogNew(j, Write(x)))], s1, [Act(Fill(j, b)), Act(Seal(j))], r);
    assert [Act(LogNew(j, Write(x)))] + [Act(Fill(j, b)), Act(Seal(j))] == [Act(LogNew(j, Write(x))), Act(Fill(j, b)), Act(Seal(j))];
  }

  lemma {:induction false} ReuseSealed(cfg: Config, s: Sys, j: nat, x: nat, b: Block)
    requires Shaped(cfg, s) && j < |s.txs| && s.txs[j].fill == x && 0 < x < |s.blocks|
    requires Contained(cfg, x, b) && b.flch == 0 && !Live(s.blocks[x])
    ensures Can(cfg, s, Fill(j, b)) && Shaped(cfg, Do(cfg, s, Fill(j, b))) && Can(cfg, Do(cfg, s, Fill(j, b)), Seal(j))
    ensures var r := Do(cfg, Do(cfg, s, Fill(j, b)), Seal(j));
            && r == WithTx(s, j, s.txs[j].(fill := 0)).(blocks := s.blocks[x := Sealed(cfg, x, b)])
            && Shaped(cfg, r) && Reaches(cfg, s, [Act(Fill(j, b)), Act(Seal(j))], r)
  {
    var m := Do(cfg, s, Fill(j, b));
    assert s.blocks[x := b][x := Sealed(cfg, x, b)] == s.blocks[x := Sealed(cfg, x, b)];
    RunTwo(cfg, s, Fill(j, b), Seal(j));
  }

  lemma {:induction false} ReuseCommits(cfg: Config, s: Sys, m: Sys, j: nat, x: nat, b: Block)
    requires Inv(cfg, s) && CanReuse(cfg, s, j, x, b) && Shaped(cfg, m)
    requires m == WithTx(s, j, s.txs[j].(log := [Write(x)])).(blocks := s.blocks[x := Sealed(cfg, x, b)], free := s.free - {x})
    ensures Can(cfg, m, Commit(j)) && Do(cfg, m, Commit(j)) == Reused(cfg, s, j, x, b)
  {
    var log := [Write(x)];
    assert NewOf(log[0]) == x && m.txs[j].log == log;
    forall y ensures !Targets(log, y) && !Patches(log, y) && (News(log, y) <==> y == x) {}
    assert CommitDb(cfg, m, log) == s.db[x := Sealed(cfg, x, b)];
  }

  /** Reuse before the slot is cleared. A free block is handed out, written and committed through slot `j`; if a crash
      before would have been survived, a crash after is survived if and only if no open slot's walk still zeroes
      that block or copies something else into it. */
  lemma {:induction false} ReuseExact(cfg: Config, s: Sys, j: nat, x: nat, b: Block, sums: seq<bool>, seen: seq<seq<Op>>, start: nat)
    requires Inv(cfg, s) && CanReuse(cfg, s, j, x, b) && |sums| == |seen| == |s.txs| && sums[j] && seen[j] == [] && start <= |s.txs|
    requires Short(s.txs) && Survivable(cfg, s, sums, seen, start)
    ensures var r := Reused(cfg, s, j, x, b);
            LiveMap(WalkedSeen(cfg, r, sums, seen[j := [Write(x)]], start)) == r.db <==>
            && !Doomed(s.txs, sums, seen, start, x)
            && CopiesKeep(cfg, x, Sealed(cfg, x, b), Redone(Sighting(s.txs, sums, seen), start, |s.txs|))
  {
    var r := Reused(cfg, s, j, x, b);
    var fa, fb := Sighting(s.txs, sums, seen), Sighting(r.txs, sums, seen[j := [Write(x)]]);
    WalkExact(cfg, s, sums, seen, start);
    RecoveryExact(cfg, s.blocks, fa, start, s.db);
    ReuseMasks(s, r, j, x, sums, seen);
    ReuseRecovers(cfg, s.blocks, fa, s.db, x, Sealed(cfg, x, b), fb, start);
  }

  /** The two walks mask the same ids and copy the same. */
  ghost predicate WalkAlike(fa: seq<Tx>, fb: seq<Tx>) {
    && |fa| == |fb|
    && (forall k :: 0 <= k < |fa| ==> fa[k] == fb[k] || (NoInPlace(RedoneOf(fa[k])) && NoInPlace(RedoneOf(fb[k]))))
    && (forall k, y :: 0 <= k < |fa| ==> (Masked(fa[k], y) <==> Masked(fb[k], y)))
  }

  lemma {:induction false} AlikeAt(cfg: Config, fa: seq<Tx>, fb: seq<Tx>, start: nat, y: nat, b: Block)
    requires WalkAlike(fa, fb) && start <= |fa|
    ensures MaskedIn(fa, start, |fa|, y) <==> MaskedIn(fb, start, |fb|, y)
    ensures CopyAll(cfg, y, b, Redone(fa, start, |fa|)) == CopyAll(cfg, y, b, Redone(fb, start, |fb|))
  {
    CopiesAlike(cfg, y, b, fa, fb, start, |fa|);
  }

  /** Adding a live object at an id: recoverable if and only if no slot masks it or copies something else into it. */
  lemma {:induction false} ReuseRecovers(
    cfg: Config, blocks: seq<Block>, fa: seq<Tx>, db: map<nat, Block>, x: nat, b: Block, fb: seq<Tx>, start: nat)
    requires Recoverable(cfg, blocks, fa, start, db) && 0 < x < |blocks| && Contained(cfg, x, b) && Live(b) && WalkAlike(fa, fb)
    ensures LiveMap(RecoverSlots(cfg, blocks[x := b], fb, start, |fb|)) == db[x := b] <==>
            !MaskedIn(fa, start, |fa|, x) && CopiesKeep(cfg, x, b, Redone(fa, start, |fa|))
  {
    var after, db' := blocks[x := b], db[x := b];
    RecoveryExact(cfg, after, fb, start, db');
    AlikeAt(cfg, fa, fb, start, x, b);
    CopiesKeepExactly(cfg, x, b, Redone(fa, start, |fa|));
    assert RecoverableAt(cfg, b, fb, start, db', x) <==> !MaskedIn(fa, start, |fa|, x) && CopiesKeep(cfg, x, b, Redone(fa, start, |fa|));
    forall y | 0 < y < |blocks| && y != x ensures RecoverableAt(cfg, after[y], fb, start, db', y) {
      assert RecoverableAt(cfg, blocks[y], fa, start, db, y);
      AlikeAt(cfg, fa, fb, start, y, blocks[y]);
    }
    assert after[x] == b && AllContained(cfg, after) && forall y :: y in db' ==> 0 < y < |after|;
    if RecoverableAt(cfg, b, fb, start, db', x) { assert Recoverable(cfg, after, fb, start, db'); }
  }

  lemma {:induction false} ReuseMasks(s: Sys, r: Sys, j: nat, x: nat, sums: seq<bool>, seen: seq<seq<Op>>)
    requires j < |s.txs| == |sums| == |seen| && Accepting(s.txs[j]) && seen[j] == [] && sums[j]
    requires r.txs == s.txs[j := s.txs[j].(log := [Write(x)], status := Commited)]
    ensures WalkAlike(Sighting(s.txs, sums, seen), Sighting(r.txs, sums, seen[j := [Write(x)]]))
  {
    var fa, fb := Sighting(s.txs, sums, seen), Sighting(r.txs, sums, seen[j := [Write(x)]]);
    assert fa[j].log == [] && fb[j].log == [Write(x)] && OldOf([Write(x)][0]) == 0;
    forall y ensures !Masked(fa[j], y) && !Masked(fb[j], y) {}
    forall k | 0 <= k < |s.txs| && k != j ensures fa[k] == fb[k] {}
  }

  /** The failing family: a block that a committed transaction has removed, and freed, before its slot was cleared. */
  lemma {:induction false} UnclearedSlotKillsReuse(cfg: Config, s: Sys, i: nat, j: nat, x: nat, b: Block, sums: seq<bool>, seen: seq<seq<Op>>, start: nat)
    requires Inv(cfg, s) && CanReuse(cfg, s, j, x, b) && |sums| == |seen| == |s.txs| && sums[j] && seen[j] == []
    requires start <= i < |s.txs| && Short(s.txs) && Survivable(cfg, s, sums, seen, start) && s.txs[i].status.Commited? && sums[i] && Targets(seen[i], x)
    ensures x in Reused(cfg, s, j, x, b).db
    ensures LiveMap(WalkedSeen(cfg, Reused(cfg, s, j, x, b), sums, seen[j := [Write(x)]], start)) != Reused(cfg, s, j, x, b).db
  {
    ReuseExact(cfg, s, j, x, b, sums, seen, start);
    assert Masked(Sighting(s.txs, sums, seen)[i], x);
  }

  // ---- payloads that spell entries ----

  /** A committed block the walk reads as its victim is lost. */
  lemma {:induction false} MisreadKills(cfg: Config, s: Sys, i: nat, y: nat, sums: seq<bool>, seen: seq<seq<Op>>, start: nat)
    requires AllContained(cfg, s.blocks) && 0 < y < |s.blocks| && y in s.db
    requires |sums| == |seen| == |s.txs| && start <= i < |s.txs| && Masked(Sighting(s.txs, sums, seen)[i], y)
    ensures y !in LiveMap(WalkedSeen(cfg, s, sums, seen, start)) && LiveMap(WalkedSeen(cfg, s, sums, seen, start)) != s.db
  {
    var found := Sighting(s.txs, sums, seen);
    assert MaskedIn(found, start, |found|, y);
    RecoverSlotsAt(cfg, s.blocks, found, start, |found|, y);
  }

  /** The stride ignores payloads, so a small update, logged and not committed, can make the walk undo a put that was
      never made. From every state in which the update is possible as the first entry of its transaction: its payload
      spells the entry WRITE(y) for a committed `y`, the slot's bytes are read as the update and that entry, and a
      crash destroys `y`. */
  lemma {:induction false} PayloadReadAsNew(
    cfg: Config, s: Sys, i: nat, x: nat, y: nat, slot: Slot, sums: seq<bool>, seen: seq<seq<Op>>, start: nat) returns (r: Sys)
    requires Inv(cfg, s) && y in s.db && y < U64 && SLOT_HDR + 2 * ENTRY <= |slot.bytes|
    requires i < |s.txs| && s.txs[i].log == [] && Can(cfg, s, LogPatch(i, InPlace(x, 0, Spelled(Write(y)))))
    requires |sums| == |seen| == |s.txs| && start <= i && seen[i] == [InPlace(x, 0, Spelled(Write(y))), Write(y)]
    ensures Reaches(cfg, s, [Act(LogPatch(i, InPlace(x, 0, Spelled(Write(y)))))], r) && Inv(cfg, r) && |r.txs| == |sums|
    ensures var after := Appended(Begun(slot), InPlace(x, 0, Spelled(Write(y))));
            && Logged(after, SLOT_HDR, r.txs[i].log)
            && Readable(after.bytes, SLOT_HDR, after.size) && Seen(after.bytes, SLOT_HDR, after.size) == seen[i]
    ensures y in r.db && y !in LiveMap(WalkedSeen(cfg, r, sums, seen, start))
  {
    var op := InPlace(x, 0, Spelled(Write(y)));
    PayloadSpells(slot, x, 0, Write(y));
    r := Do(cfg, s, LogPatch(i, op));
    StepKeeps(cfg, s, LogPatch(i, op));
    StepRun(cfg, s, LogPatch(i, op));
    assert r.txs[i].log == [op];
    assert NewOf(seen[i][1]) == y;
    assert Masked(Sighting(r.txs, sums, seen)[i], y);
    MisreadKills(cfg, r, i, y, sums, seen, start);
  }

  /** The same after commit, once execute and its metadata pass are done and before the slot is cleared: the payload
      spells REMOVE(y). */
  lemma {:induction false} PayloadReadAsObsolete(
    cfg: Config, s: Sys, i: nat, x: nat, y: nat, slot: Slot, sums: seq<bool>, seen: seq<seq<Op>>, start: nat) returns (r: Sys)
    requires Inv(cfg, s) && y in s.db && y != x && y < U64 && SLOT_HDR + 2 * ENTRY <= |slot.bytes|
    requires i < |s.txs| && s.txs[i].log == [] && Can(cfg, s, LogPatch(i, InPlace(x, 0, Spelled(Remove(y)))))
    requires |sums| == |seen| == |s.txs| && sums[i] && start <= i && seen[i] == [InPlace(x, 0, Spelled(Remove(y))), Remove(y)]
    ensures Reaches(cfg, s, [Act(LogPatch(i, InPlace(x, 0, Spelled(Remove(y))))), Act(Commit(i)), Act(Exec(i)), Act(Restamp(i, x))], r)
    ensures Inv(cfg, r) && |r.txs| == |sums| && !Unsettled(r.txs[i], x)
    ensures var after := Appended(Begun(slot), InPlace(x, 0, Spelled(Remove(y))));
            && Logged(after, SLOT_HDR, r.txs[i].log)
            && Readable(after.bytes, SLOT_HDR, after.size) && Seen(after.bytes, SLOT_HDR, after.size) == seen[i]
    ensures y in r.db && y !in LiveMap(WalkedSeen(cfg, r, sums, seen, start))
  {
    var op := InPlace(x, 0, Spelled(Remove(y)));
    PayloadSpells(slot, x, 0, Remove(y));
    r := PatchDone(cfg, s, i, op, y);
    ObsoleteKills(cfg, r, i, op, y, sums, seen, start);
  }

  /** A small update taken through commit, execute and the metadata pass. */
  lemma {:induction false} PatchDone(cfg: Config, s: Sys, i: nat, op: Op, y: nat) returns (r: Sys)
    requires Inv(cfg, s) && i < |s.txs| && s.txs[i].log == [] && Can(cfg, s, LogPatch(i, op)) && y in s.db && y != op.id
    ensures Reaches(cfg, s, [Act(LogPatch(i, op)), Act(Commit(i)), Act(Exec(i)), Act(Restamp(i, op.id))], r)
    ensures Inv(cfg, r) && |r.txs| == |s.txs| && y in r.db && 0 < y < |r.blocks|
    ensures r.txs[i].log == [op] && r.txs[i].status.Commited? && !Unsettled(r.txs[i], op.id)
  {
    var c := PatchCommitted(cfg, s, i, op, y);
    r := PatchSettled(cfg, c, i, op);
    FourSteps(LogPatch(i, op), Commit(i), Exec(i), Restamp(i, op.id));
    Join(cfg, s, [Act(LogPatch(i, op)), Act(Commit(i))], c, [Act(Exec(i)), Act(Restamp(i, op.id))], r);
  }

  lemma {:induction false} FourSteps(a: Action, b: Action, c: Action, d: Action)
    ensures [Act(a), Act(b)] + [Act(c), Act(d)] == [Act(a), Act(b), Act(c), Act(d)]
  {
  }

  lemma {:induction false} ObsoleteKills(cfg: Config, r: Sys, i: nat, op: Op, y: nat, sums: seq<bool>, seen: seq<seq<Op>>, start: nat)
    requires AllContained(cfg, r.blocks) && 0 < y < |r.blocks| && y in r.db && |sums| == |seen| == |r.txs| && start <= i < |r.txs|
    requires r.txs[i].status.Commited? && sums[i] && seen[i] == [op, Remove(y)]
    ensures y !in LiveMap(WalkedSeen(cfg, r, sums, seen, start))
  {
    assert OldOf(seen[i][1]) == y;
    assert Sighting(r.txs, sums, seen)[i].status.Commited?;
    assert Masked(Sighting(r.txs, sums, seen)[i], y);
    MisreadKills(cfg, r, i, y, sums, seen, start);
  }

  /** The update logged and committed; other objects stay committed. */
  lemma {:induction false} PatchCommitted(cfg: Config, s: Sys, i: nat, op: Op, y: nat) returns (c: Sys)
    requires Inv(cfg, s) && i < |s.txs| && s.txs[i].log == [] && Can(cfg, s, LogPatch(i, op)) && y in s.db && y != op.id
    ensures Reaches(cfg, s, [Act(LogPatch(i, op)), Act(Commit(i))], c) && Inv(cfg, c) && |c.txs| == |s.txs| && y in c.db
    ensures c.txs[i].log == [op] && c.txs[i].status.Commited? && c.txs[i].pc == 0 && Quiescent(c.txs[i]) && op.id < |c.blocks|
  {
    var m := Do(cfg, s, LogPatch(i, op));
    StepKeeps(cfg, s, LogPatch(i, op));
    assert TxOK(cfg, s, i) && m.txs[i].log == [op];
    CommitKeeps(cfg, m, i);
    c := Do(cfg, m, Commit(i));
    RunTwo(cfg, s, LogPatch(i, op), Commit(i));
    assert !Targets([op], y) && !Patches([op], y) && !News([op], y);
  }

  /** Its one entry executed and its block restamped. */
  lemma {:induction false} PatchSettled(cfg: Config, c: Sys, i: nat, op: Op) returns (r: Sys)
    requires Inv(cfg, c) && i < |c.txs| && c.txs[i].log == [op] && op.InPlace? && op.id < |c.blocks|
    requires c.txs[i].status.Commited? && c.txs[i].pc == 0
    ensures Reaches(cfg, c, [Act(Exec(i)), Act(Restamp(i, op.id))], r) && Inv(cfg, r) && |r.txs| == |c.txs| && r.db == c.db
    ensures r.txs[i].log == [op] && r.txs[i].status.Commited? && !Unsettled(r.txs[i], op.id)
  {
    var e := Do(cfg, c, Exec(i));
    ExecKeeps(cfg, c, i);
    ExecShaped(cfg, c, i);
    assert op.id in e.txs[i].table && e.txs[i].pc == 1;
    RestampKeeps(cfg, e, i, op.id);
    r := Do(cfg, e, Restamp(i, op.id));
    RunTwo(cfg, c, Exec(i), Restamp(i, op.id));
  }

  // ---- abort over what its stride reads ----

  /** Aborting over `ids` leaves the same live objects and free ids as aborting the log. */
  ghost predicate AbortsAlike(s: Sys, i: nat, ids: seq<nat>)
    requires i < |s.txs|
  {
    var log := NewIds(s.txs[i].log);
    LiveMap(ZapAll(s.blocks, ids)) == LiveMap(ZapAll(s.blocks, log)) && s.free + IdSet(ids) == s.free + IdSet(log)
  }

  ghost predicate Abortable(t: Tx) { Quiescent(t) && (Accepting(t) || (t.status.Commited? && t.pc == 0)) }

  /** A block an open, unexecuted log made is live and not free. */
  lemma {:induction false} NewIsLive(cfg: Config, s: Sys, i: nat, x: nat)
    requires Inv(cfg, s) && i < |s.txs| && Abortable(s.txs[i]) && News(s.txs[i].log, x)
    ensures 0 < x < |s.blocks| && Live(s.blocks[x]) && x !in s.free
  {
    assert TxOK(cfg, s, i);
    var k :| 0 <= k < |s.txs[i].log| && NewOf(s.txs[i].log[k]) == x;
    NewsOwned(cfg, s, i, x);
    MentionsAll(s.txs[i].log, x);
    assert s.txs[i].log[..0] == [];
  }

  /** Exactly when abort gets a log right, payloads or not: it reads every new block of the log as new, and every other
      block it reads as new is dead and free already. */
  lemma {:induction false} AbortAgreesExactly(cfg: Config, s: Sys, i: nat, ids: seq<nat>)
    requires Inv(cfg, s) && i < |s.txs| && Abortable(s.txs[i]) && forall k :: 0 <= k < |ids| ==> ids[k] < |s.blocks|
    ensures AbortsAlike(s, i, ids) <==>
            && (forall x: nat :: News(s.txs[i].log, x) ==> x in ids)
            && (forall x: nat :: x in ids && x != 0 && !News(s.txs[i].log, x) ==> !Live(s.blocks[x]) && x in s.free)
  {
    var log := NewIds(s.txs[i].log);
    forall x: nat | x != 0 ensures x in log <==> News(s.txs[i].log, x) { NewIdsAre(s.txs[i].log, x); }
    forall x: nat | News(s.txs[i].log, x) ensures 0 < x < |s.blocks| && Live(s.blocks[x]) && x !in s.free { NewIsLive(cfg, s, i, x); }
    forall x | 0 < x < |s.blocks|
      ensures x in LiveMap(ZapAll(s.blocks, ids)) <==> x !in ids && Live(s.blocks[x])
      ensures x in LiveMap(ZapAll(s.blocks, log)) <==> x !in log && Live(s.blocks[x])
      ensures x !in ids ==> ZapAll(s.blocks, ids)[x] == s.blocks[x]
      ensures x !in log ==> ZapAll(s.blocks, log)[x] == s.blocks[x]
    {
      ZapAllAt(cfg, s.blocks, ids, x);
      ZapAllAt(cfg, s.blocks, log, x);
    }
    AlikeSets(s, ids, log);
  }

  lemma {:induction false} NewIdsAre(log: seq<Op>, x: nat)
    requires x != 0
    ensures x in NewIds(log) <==> News(log, x)
  {
    var ids := NewIds(log);
    if News(log, x) {
      var k :| 0 <= k < |log| && NewOf(log[k]) == x;
      assert ids[k] == x;
    }
  }

  lemma {:induction false} AlikeSets(s: Sys, ids: seq<nat>, log: seq<nat>)
    requires forall x :: x in log && x != 0 ==> 0 < x < |s.blocks| && Live(s.blocks[x]) && x !in s.free
    requires forall x :: x in ids ==> x < |s.blocks|
    requires forall x :: 0 < x < |s.blocks| ==> (x in LiveMap(ZapAll(s.blocks, ids)) <==> x !in ids && Live(s.blocks[x]))
    requires forall x :: 0 < x < |s.blocks| ==> (x in LiveMap(ZapAll(s.blocks, log)) <==> x !in log && Live(s.blocks[x]))
    requires forall x :: 0 < x < |s.blocks| && x !in ids ==> ZapAll(s.blocks, ids)[x] == s.blocks[x]
    requires forall x :: 0 < x < |s.blocks| && x !in log ==> ZapAll(s.blocks, log)[x] == s.blocks[x]
    ensures LiveMap(ZapAll(s.blocks, ids)) == LiveMap(ZapAll(s.blocks, log)) && s.free + IdSet(ids) == s.free + IdSet(log) <==>
            && (forall x :: x in log && x != 0 ==> x in ids)
            && (forall x :: x in ids && x != 0 && x !in log ==> !Live(s.blocks[x]) && x in s.free)
  {
    var a, b := LiveMap(ZapAll(s.blocks, ids)), LiveMap(ZapAll(s.blocks, log));
    if (forall x :: x in log && x != 0 ==> x in ids) && (forall x :: x in ids && x != 0 && x !in log ==> !Live(s.blocks[x]) && x in s.free) {
      assert forall x :: x in a <==> x in b;
      assert a == b;
      assert s.free + IdSet(ids) == s.free + IdSet(log);
    } else if a == b && s.free + IdSet(ids) == s.free + IdSet(log) {
      forall x | x in log && x != 0 ensures x in ids { assert x in IdSet(log) && x in s.free + IdSet(ids); }
      forall x | x in ids && x != 0 && x !in log ensures !Live(s.blocks[x]) && x in s.free {
        assert x in IdSet(ids) && x in s.free + IdSet(log);
        assert x !in a;
      }
    }
  }

  /** The failing input: begin, a small update whose payload spells WRITE(y) for a committed `y`, abort. The slot's bytes
      make abort zero `y` and put it on the free list. */
  lemma {:induction false} AbortFreesCommitted(cfg: Config, s: Sys, i: nat, x: nat, y: nat, slot: Slot) returns (m: Sys)
    requires Inv(cfg, s) && y in s.db && y < U64 && SLOT_HDR + 2 * ENTRY <= |slot.bytes|
    requires i < |s.txs| && s.txs[i].log == [] && Can(cfg, s, LogPatch(i, InPlace(x, 0, Spelled(Write(y)))))
    ensures Reaches(cfg, s, [Act(LogPatch(i, InPlace(x, 0, Spelled(Write(y)))))], m) && Inv(cfg, m) && i < |m.txs| && y in m.db
    ensures var after := Appended(Begun(slot), InPlace(x, 0, Spelled(Write(y))));
            && Logged(after, SLOT_HDR, m.txs[i].log)
            && Strideable(after.bytes, SLOT_HDR, after.size)
            && var r := AbortReadEffect(m, i, FreshIds(after.bytes, SLOT_HDR, after.size));
               y in r.db && y !in LiveMap(r.blocks) && y in r.free
  {
    var op := InPlace(x, 0, Spelled(Write(y)));
    PayloadSpells(slot, x, 0, Write(y));
    m := Do(cfg, s, LogPatch(i, op));
    StepKeeps(cfg, s, LogPatch(i, op));
    StepRun(cfg, s, LogPatch(i, op));
    assert m.txs[i].log == [op] && m.txs[i].status.Processing?;
    var ids := [0, y];
    assert ids[1] == y && y in ids;
    ZapAllAt(cfg, m.blocks, ids, y);
  }

  // ---- in-place entries ----

  /** All or nothing fails for in-place entries, from every state in which a small update is possible: after the
      update is logged and committed, no walk reaches the committed objects, whatever it sees in the slots. */
  lemma {:induction false} PatchLostInCrash(cfg: Config, s: Sys, i: nat, op: Op, found: seq<Tx>, start: nat) returns (r: Sys)
    requires Inv(cfg, s) && Can(cfg, s, LogPatch(i, op)) && |s.txs[i].log| + 1 < U32 && start <= |found|
    ensures Reaches(cfg, s, [Act(LogPatch(i, op)), Act(Commit(i))], r) && Inv(cfg, r)
    ensures LiveMap(RecoverSlots(cfg, r.blocks, found, start, |found|)) != r.db
  {
    var m := Do(cfg, s, LogPatch(i, op));
    StepKeeps(cfg, s, LogPatch(i, op));
    r := Do(cfg, m, Commit(i));
    CommitKeeps(cfg, m, i);
    RunTwo(cfg, s, LogPatch(i, op), Commit(i));
    assert PatchOf(r.txs[i].log[|s.txs[i].log|]) == op.id;
    HitCountBound(r.txs[i].log, op.id);
    PatchNeverRestored(cfg, r, i, op.id, found, start);
  }

  /** The same as a run on every empty store with a data block: put, patch, commit, crash. */
  lemma {:induction false} PatchLostFromStart(cfg: Config, s: Sys, i: nat, x: nat, b: Block, op: Op, found: seq<Tx>, start: nat)
    returns (es: seq<Event>, r: Sys)
    requires Init(cfg, s) && i < |s.txs| && 0 < x < cfg.total && x < U64 && Contained(cfg, x, b) && b.flch == 0
    requires Hits(op, x) && Encodable(op) && Fits(cfg, op) && start <= |found|
    ensures Reaches(cfg, s, es, r) && LiveMap(RecoverSlots(cfg, r.blocks, found, start, |found|)) != r.db
  {
    InitHolds(cfg, s);
    var first := FirstObjectReached(cfg, s, i, x, b);
    var m := FirstObject(cfg, s, i, x, b);
    FirstObjectShape(cfg, s, i, x, b);
    FirstPatchPossible(cfg, s, m, i, x, op);
    r := PatchLostInCrash(cfg, m, i, op, found, start);
    es := first + [Act(LogPatch(i, op)), Act(Commit(i))];
    Join(cfg, s, first, m, [Act(LogPatch(i, op)), Act(Commit(i))], r);
  }

  lemma {:induction false} FirstPatchPossible(cfg: Config, s: Sys, m: Sys, i: nat, x: nat, op: Op)
    requires Init(cfg, s) && i < |s.txs| == |m.txs| && 0 < x < |m.blocks| && Live(m.blocks[x])
    requires forall j :: 0 <= j < |s.txs| && j != i ==> m.txs[j] == s.txs[j]
    requires m.txs[i] == IDLE.(status := Processing, log := [Write(x)])
    requires Hits(op, x) && Encodable(op) && Fits(cfg, op)
    ensures Can(cfg, m, LogPatch(i, op))
  {
    forall j | 0 <= j < |m.txs| && j != i ensures !Touches(m.txs[j], x) {
      assert m.txs[j] == Idle(s.txs[j].stale);
    }
  }

  /** In-place entries after a crash: redoing one is only the copy, since the walk never runs the metadata
      pass. The outcome is never the executed block, and it is the old block exactly when the payload was
      there already: neither all nor nothing for every payload that changes a byte. */
  lemma {:induction false} InPlaceRedoIncomplete(cfg: Config, x: nat, b: Block, op: Op)
    requires 0 < x < cfg.total && Contained(cfg, x, b) && Hits(op, x) && Fits(cfg, op)
    ensures Stamp(cfg, b, op) != Replay(cfg, x, b, None, [op])
    ensures Stamp(cfg, b, op) == b <==>
            b.body[cfg.maxKey + op.offset..cfg.maxKey + op.offset + |op.payload|] == op.payload
  {
    ReplayOne(cfg, x, b, op);
    var from := cfg.maxKey + op.offset;
    OverlayReadBack(b.body, from, op.payload);
    if b.body[from..from + |op.payload|] == op.payload {
      assert Overlay(b.body, from, op.payload) == b.body;
    }
  }
}
