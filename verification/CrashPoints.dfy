/** Crash all-or-nothing in the log's own terms: redoing after any prefix of execute, undoing from any point
    before commit, and the window inside begin. */
module CrashPoints {
  import opened Blocks
  import opened TxLog
  import opened Machine
  import opened MachineProofs
  import opened Crash
  import opened Runs
  import opened Api

  /** The live objects a walk from slot `start` on leaves, for what it reads. */
  ghost function Recovered(cfg: Config, s: Sys, sums: seq<bool>, seen: seq<seq<Op>>, start: nat): map<nat, Block>
    requires |sums| == |seen| == |s.txs| && start <= |s.txs|
  {
    LiveMap(WalkedSeen(cfg, s, sums, seen, start))
  }

  // ---- redoing after any prefix of execute ----

  predicate NoInPlace(log: seq<Op>) { forall k :: 0 <= k < |log| ==> !log[k].InPlace? }

  lemma {:induction false} NoInPlaceNoPatch(log: seq<Op>, x: nat)
    requires NoInPlace(log)
    ensures !Patches(log, x)
  {
  }

  function RedoneOf(t: Tx): seq<Op> { if t.status.Commited? then t.log else [] }

  /** Slots that redo the same, or nothing in place, copy the same. */
  lemma {:induction false} CopiesAlike(cfg: Config, x: nat, b: Block, fa: seq<Tx>, fb: seq<Tx>, start: nat, end: nat)
    requires start <= end <= |fa| == |fb|
    requires forall j :: 0 <= j < |fa| ==> fa[j] == fb[j] || (NoInPlace(RedoneOf(fa[j])) && NoInPlace(RedoneOf(fb[j])))
    ensures CopyAll(cfg, x, b, Redone(fa, start, end)) == CopyAll(cfg, x, b, Redone(fb, start, end))
    decreases end
  {
    if start < end {
      CopiesAlike(cfg, x, b, fa, fb, start, end - 1);
      var p, q := Redone(fa, start, end - 1), Redone(fb, start, end - 1);
      var c := CopyAll(cfg, x, b, p);
      CopyConcat(cfg, x, b, p, RedoneOf(fa[end - 1]));
      CopyConcat(cfg, x, b, q, RedoneOf(fb[end - 1]));
      if fa[end - 1] != fb[end - 1] {
        NothingCopied(cfg, x, c, RedoneOf(fa[end - 1]));
        NothingCopied(cfg, x, c, RedoneOf(fb[end - 1]));
      }
    }
  }

  /** The transaction is about to be executed, its test comes out right, and it is read as it was written. */
  ghost predicate Executable(s: Sys, sums: seq<bool>, seen: seq<seq<Op>>, i: nat) {
    && |sums| == |seen| == |s.txs| && i < |s.txs| && sums[i] && seen[i] == s.txs[i].log && NoInPlace(s.txs[i].log)
    && s.txs[i].status.Commited? && s.txs[i].pc == 0 && Quiescent(s.txs[i])
  }

  /** Block by block, a crash during execute and one after it are the same to the walk. */
  lemma {:induction false} SameFate(cfg: Config, s: Sys, e: Sys, d: Sys, sums: seq<bool>, seen: seq<seq<Op>>, i: nat, x: nat)
    requires Inv(cfg, s) && Inv(cfg, e) && Executable(s, sums, seen, i) && 0 < x < |s.blocks| == |e.blocks| == |d.blocks|
    requires e.db == d.db == s.db && OnlyTx(s, e, i) && OnlyTx(s, d, i) && d.txs[i] == Idle(s.txs[i].log)
    requires e.txs[i] == s.txs[i].(pc := e.txs[i].pc, table := e.txs[i].table)
    requires Targets(s.txs[i].log, x) ==> !Live(d.blocks[x])
    requires !Targets(s.txs[i].log, x) ==> e.blocks[x] == d.blocks[x]
    ensures SurvivableAt(cfg, e, sums, seen, 0, x) <==> SurvivableAt(cfg, d, sums, seen, 0, x)
  {
    var fe, fd, n := Sighting(e.txs, sums, seen), Sighting(d.txs, sums, seen), |s.txs|;
    assert forall j :: 0 <= j < n && j != i ==> fe[j] == fd[j];
    assert fe[i].status.Commited? && fe[i].log == s.txs[i].log && fd[i].status.Empty?;
    forall j | 0 <= j < n && j != i ensures e.txs[j] == d.txs[j] {}
    NoInPlaceNoPatch(s.txs[i].log, x);
    assert Masked(fe[i], x) <==> Targets(s.txs[i].log, x);
    assert MaskedIn(fe, 0, n, x) <==> MaskedIn(fd, 0, n, x) || Targets(s.txs[i].log, x);
    if Targets(s.txs[i].log, x) {
      TargetGone(cfg, e, i, x);
    } else {
      CopiesAlike(cfg, x, e.blocks[x], fe, fd, 0, n);
      CopiesKeepExactly(cfg, x, e.blocks[x], Redone(fe, 0, n));
      CopiesKeepExactly(cfg, x, e.blocks[x], Redone(fd, 0, n));
    }
  }

  /** What an executing log makes obsolete is not committed, and nobody patches it. */
  lemma {:induction false} TargetGone(cfg: Config, e: Sys, i: nat, x: nat)
    requires Inv(cfg, e) && i < |e.txs| && e.txs[i].status.Commited? && Targets(e.txs[i].log, x) && 0 < x < |e.blocks|
    ensures x !in e.db && forall j :: 0 <= j < |e.txs| && j != i ==> !Patches(e.txs[j].log, x)
  {
    NewsOwned(cfg, e, i, x);
    assert TxOK(cfg, e, i) && Touches(e.txs[i], x);
    PatchedNotInHand(cfg, e, i, x);
    forall j | 0 <= j < |e.txs| && j != i ensures !Patches(e.txs[j].log, x) { assert !Touches(e.txs[j], x); }
  }

  /** A crash after any number of entries of execute, with any other transactions open in any state and read in any
      way: recovery reaches the committed objects if and only if it would have after execute had run to its end. */
  lemma {:induction false} CrashDuringExecute(cfg: Config, s: Sys, sums: seq<bool>, seen: seq<seq<Op>>, i: nat, n: nat)
    requires Inv(cfg, s) && Executable(s, sums, seen, i) && Short(s.txs) && n <= |s.txs[i].log|
    ensures |ExecPrefix(cfg, s, i, n).txs| == |Executed(cfg, s, i).txs| == |sums|
    ensures Recovered(cfg, ExecPrefix(cfg, s, i, n), sums, seen, 0) == s.db <==> Recovered(cfg, Executed(cfg, s, i), sums, seen, 0) == s.db
  {
    var e, d := ExecPrefix(cfg, s, i, n), Executed(cfg, s, i);
    ExecPrefixKeeps(cfg, s, i, n);
    ExecutedKeeps(cfg, s, i);
    assert TxOK(cfg, s, i);
    forall x | 0 < x < |s.blocks| ensures SurvivableAt(cfg, e, sums, seen, 0, x) <==> SurvivableAt(cfg, d, sums, seen, 0, x) {
      ExecuteFrames(cfg, s, i, n, x);
      SameFate(cfg, s, e, d, sums, seen, i, x);
    }
    WalkExact(cfg, e, sums, seen, 0);
    WalkExact(cfg, d, sums, seen, 0);
  }

  lemma {:induction false} ExecuteFrames(cfg: Config, s: Sys, i: nat, n: nat, x: nat)
    requires Inv(cfg, s) && i < |s.txs| && s.txs[i].status.Commited? && s.txs[i].pc == 0 && Quiescent(s.txs[i])
    requires NoInPlace(s.txs[i].log) && n <= |s.txs[i].log| && 0 < x < |s.blocks|
    ensures Targets(s.txs[i].log, x) ==> !Live(Executed(cfg, s, i).blocks[x])
    ensures !Targets(s.txs[i].log, x) ==> ExecPrefix(cfg, s, i, n).blocks[x] == Executed(cfg, s, i).blocks[x]
  {
    assert TxOK(cfg, s, i);
    NoInPlaceNoPatch(s.txs[i].log, x);
    if Targets(s.txs[i].log, x) {
      ExecutedKeeps(cfg, s, i);
      TargetGone(cfg, s, i, x);
      assert Mentions(s.txs[i].log, x) && Quiet(Executed(cfg, s, i), x);
    } else {
      ExecPrefixFrame(cfg, s, i, n, x);
      ExecutedFrame(cfg, s, i, x);
    }
  }

  /** With every other slot empty, recovery reaches the map uninterrupted execute leaves. */
  lemma {:induction false} CrashEqualsExecute(cfg: Config, s: Sys, sums: seq<bool>, seen: seq<seq<Op>>, i: nat, n: nat)
    requires Inv(cfg, s) && Executable(s, sums, seen, i) && Short(s.txs) && n <= |s.txs[i].log|
    requires forall j :: 0 <= j < |s.txs| && j != i ==> s.txs[j].status.Empty? && s.txs[j].hand == 0
    ensures |ExecPrefix(cfg, s, i, n).txs| == |sums|
    ensures Recovered(cfg, ExecPrefix(cfg, s, i, n), sums, seen, 0) == LiveMap(Executed(cfg, s, i).blocks)
  {
    var d := Executed(cfg, s, i);
    CrashDuringExecute(cfg, s, sums, seen, i, n);
    ExecutedKeeps(cfg, s, i);
    forall j | 0 <= j < |d.txs| ensures d.txs[j].status.Empty? && d.txs[j].hand == 0 {
      assert j != i ==> d.txs[j] == s.txs[j];
    }
    ReopenRebuilds(cfg, d);
    NothingToWalk(cfg, d.blocks, Sighting(d.txs, sums, seen), |d.txs|);
  }

  lemma {:induction false} NothingToWalk(cfg: Config, blocks: seq<Block>, found: seq<Tx>, end: nat)
    requires end <= |found| && forall j :: 0 <= j < |found| ==> found[j].status.Empty?
    ensures RecoverSlots(cfg, blocks, found, 0, end) == blocks
    decreases end
  {
    if end > 0 { NothingToWalk(cfg, blocks, found, end - 1); }
  }

  // ---- undoing from any point before commit ----

  ghost predicate NoneCommitted(s: Sys) {
    forall j :: 0 <= j < |s.txs| ==> !s.txs[j].status.Commited?
  }

  lemma {:induction false} UncommittedStep(cfg: Config, s: Sys, e: Event)
    requires Inv(cfg, s) && NoneCommitted(s) && Possible(cfg, s, e) && (e.Act? ==> !e.a.Commit?)
    ensures NoneCommitted(After(cfg, s, e)) && After(cfg, s, e).db == s.db
  {
    if e.Act? {
      forall j | 0 <= j < |s.txs| && j != e.a.i ensures Do(cfg, s, e.a).txs[j] == s.txs[j] { OtherSlots(cfg, s, e.a, j); }
      assert !s.txs[e.a.i].status.Commited?;
    }
  }

  lemma {:induction false} UncommittedRun(cfg: Config, s: Sys, es: seq<Event>, r: Sys)
    requires Inv(cfg, s) && NoneCommitted(s) && Reaches(cfg, s, es, r)
    requires forall k :: 0 <= k < |es| && es[k].Act? ==> !es[k].a.Commit?
    ensures Inv(cfg, r) && r.db == s.db && NoneCommitted(r)
    decreases |es|
  {
    if es != [] {
      EventKeeps(cfg, s, es[0]);
      UncommittedStep(cfg, s, es[0]);
      UncommittedRun(cfg, After(cfg, s, es[0]), es[1..], r);
    }
  }

  /** A crash at any point of a run without a commit, however many transactions it began, filled or aborted, and
      whatever the walk reads in their slots: it reaches the live objects held when the run began if and only if it
      reads none of them as new, and reads as new every other live block. */
  lemma {:induction false} CrashBeforeCommit(cfg: Config, s: Sys, es: seq<Event>, r: Sys, sums: seq<bool>, seen: seq<seq<Op>>, start: nat)
    requires Inv(cfg, s) && forall j :: 0 <= j < |s.txs| ==> s.txs[j].status.Empty? && s.txs[j].hand == 0
    requires Reaches(cfg, s, es, r) && |sums| == |seen| == |r.txs| && start <= |r.txs| && Short(r.txs)
    requires forall k :: 0 <= k < |es| && es[k].Act? ==> !es[k].a.Commit?
    ensures Recovered(cfg, r, sums, seen, start) == LiveMap(s.blocks) <==>
            forall x :: 0 < x < |r.blocks| ==>
              && (ReadAsNew(r.txs, seen, start, x) ==> x !in LiveMap(s.blocks))
              && (Live(r.blocks[x]) && x !in LiveMap(s.blocks) ==> ReadAsNew(r.txs, seen, start, x))
  {
    UncommittedRun(cfg, s, es, r);
    UncommittedExact(cfg, r, sums, seen, start);
    ReopenRebuilds(cfg, s);
  }

  /** With no slot committed, the walk zeroes what it reads as new and does nothing else. */
  lemma {:induction false} UncommittedExact(cfg: Config, r: Sys, sums: seq<bool>, seen: seq<seq<Op>>, start: nat)
    requires Inv(cfg, r) && NoneCommitted(r) && |sums| == |seen| == |r.txs| && start <= |r.txs| && Short(r.txs)
    ensures Recovered(cfg, r, sums, seen, start) == r.db <==>
            forall x :: 0 < x < |r.blocks| ==>
              && (ReadAsNew(r.txs, seen, start, x) ==> x !in r.db)
              && (Live(r.blocks[x]) && x !in r.db ==> ReadAsNew(r.txs, seen, start, x))
  {
    WalkExact(cfg, r, sums, seen, start);
    forall x | 0 < x < |r.blocks|
      ensures SurvivableAt(cfg, r, sums, seen, start, x) <==>
              && (ReadAsNew(r.txs, seen, start, x) ==> x !in r.db)
              && (Live(r.blocks[x]) && x !in r.db ==> ReadAsNew(r.txs, seen, start, x))
    {
      UncommittedAt(cfg, r, sums, seen, start, x);
    }
  }

  lemma {:induction false} UncommittedAt(cfg: Config, r: Sys, sums: seq<bool>, seen: seq<seq<Op>>, start: nat, x: nat)
    requires NoneCommitted(r) && |sums| == |seen| == |r.txs| && start <= |r.txs| && 0 < x < |r.blocks|
    ensures SurvivableAt(cfg, r, sums, seen, start, x) <==>
            && (ReadAsNew(r.txs, seen, start, x) ==> x !in r.db)
            && (Live(r.blocks[x]) && x !in r.db ==> ReadAsNew(r.txs, seen, start, x))
  {
    var found := Sighting(r.txs, sums, seen);
    forall j | 0 <= j < |r.txs| ensures found[j].log == seen[j] && found[j].status == r.txs[j].status {
      assert !r.txs[j].status.Commited?;
    }
    NothingRedone(found, start, |r.txs|);
    assert Doomed(r.txs, sums, seen, start, x) <==> ReadAsNew(r.txs, seen, start, x) by {
      forall j | start <= j < |r.txs| ensures Masked(found[j], x) <==> !r.txs[j].status.Empty? && News(seen[j], x) {}
    }
  }

  /** Some walked slot that is not empty is read as having made `x`. */
  ghost predicate ReadAsNew(txs: seq<Tx>, seen: seq<seq<Op>>, start: nat, x: nat)
    requires |seen| == |txs|
  {
    exists j :: start <= j < |txs| && !txs[j].status.Empty? && News(seen[j], x)
  }

  lemma {:induction false} NothingRedone(found: seq<Tx>, start: nat, end: nat)
    requires start <= end <= |found| && forall j :: 0 <= j < |found| ==> !found[j].status.Commited?
    ensures Redone(found, start, end) == []
    decreases end
  {
    if start < end { NothingRedone(found, start, end - 1); }
  }

  /** The same with the slots read as they were written: what remains is the window inside begin. */
  lemma {:induction false} CrashBeforeCommitWritten(cfg: Config, s: Sys, es: seq<Event>, r: Sys, sums: seq<bool>)
    requires Inv(cfg, s) && forall j :: 0 <= j < |s.txs| ==> s.txs[j].status.Empty? && s.txs[j].hand == 0
    requires Reaches(cfg, s, es, r) && |sums| == |r.txs| && Legible(r.txs, 0) && Short(r.txs)
    requires forall k :: 0 <= k < |es| && es[k].Act? ==> !es[k].a.Commit?
    ensures LiveMap(Walked(cfg, r, sums, 0)) == LiveMap(s.blocks) <==>
            forall x :: 0 < x < |r.blocks| && x in LiveMap(s.blocks) ==> !StaleHit(r.txs, 0, x)
  {
    UncommittedRun(cfg, s, es, r);
    WrittenExact(cfg, r, sums, 0);
    ReopenRebuilds(cfg, s);
    forall x | 0 < x < |r.blocks| ensures RestorableAt(r, sums, 0, x) <==> (StaleHit(r.txs, 0, x) ==> x !in r.db) {}
  }

  /** The window inside begin, on every store that has executed something through slot `i`: if the crash comes after
      the new status is stored and before the new size, the walk undoes the executed transaction and every object it
      reads as made there is gone, although it was committed. */
  lemma {:induction false} CrashInsideBegin(cfg: Config, s: Sys, i: nat, x: nat, sums: seq<bool>, seen: seq<seq<Op>>, start: nat)
    requires Inv(cfg, s) && i < |s.txs| && s.txs[i].status.Commited? && s.txs[i].pc == 0 && Quiescent(s.txs[i])
    requires 0 < x < |s.blocks| && News(s.txs[i].log, x) && !Targets(s.txs[i].log, x)
    requires |sums| == |seen| == |s.txs| && start <= i && News(seen[i], x)
    ensures var d := Executed(cfg, s, i);
            && Shaped(cfg, d) && Can(cfg, d, Begin(i)) && x in d.db && x in LiveMap(d.blocks)
            && var r := Do(cfg, d, Begin(i)); |r.txs| == |sums| && r.db == d.db && x !in Recovered(cfg, r, sums, seen, start)
  {
    var d := Executed(cfg, s, i);
    ExecutedKeeps(cfg, s, i);
    NewsOwned(cfg, s, i, x);
    assert TxOK(cfg, s, i);
    assert x in s.db;
    assert Quiet(d, x);
    var r := Do(cfg, d, Begin(i));
    assert r.txs[i] == Idle(s.txs[i].log).(status := Processing);
    var found := Sighting(r.txs, sums, seen);
    assert found[i].status.Processing? && found[i].log == seen[i];
    assert Masked(found[i], x);
    assert MaskedIn(found, start, |found|, x);
    RecoverSlotsAt(cfg, r.blocks, found, start, |found|, x);
  }
}
