/** Every step of the machine keeps the invariant. */
module MachineProofs {
  import opened Words
  import opened Blocks
  import opened TxLog
  import opened InPlace
  import opened Machine

  // ---- logs as sets ----

  lemma {:induction false} MentionsAppend(log: seq<Op>, op: Op, x: nat)
    requires x != 0
    ensures News(log + [op], x) <==> News(log, x) || NewOf(op) == x
    ensures Targets(log + [op], x) <==> Targets(log, x) || OldOf(op) == x
    ensures Patches(log + [op], x) <==> Patches(log, x) || PatchOf(op) == x
  {
    var ext := log + [op];
    assert ext[|log|] == op;
    assert forall k :: 0 <= k < |log| ==> ext[k] == log[k];
  }

  lemma {:induction false} MentionsPrefix(log: seq<Op>, pc: nat, x: nat)
    requires x != 0 && pc < |log|
    ensures News(log[..pc + 1], x) <==> News(log[..pc], x) || NewOf(log[pc]) == x
    ensures Targets(log[..pc + 1], x) <==> Targets(log[..pc], x) || OldOf(log[pc]) == x
  {
    assert log[..pc + 1] == log[..pc] + [log[pc]];
    MentionsAppend(log[..pc], log[pc], x);
  }

  lemma {:induction false} MentionsAll(log: seq<Op>, x: nat)
    ensures News(log[..|log|], x) <==> News(log, x)
    ensures Targets(log[..|log|], x) <==> Targets(log, x)
    ensures !News(log[..0], x) && !Targets(log[..0], x)
  {
    assert log[..|log|] == log;
  }

  // ---- framing ----

  ghost predicate SameAt(s: Sys, r: Sys, x: nat)
    requires x < |s.blocks| && x < |r.blocks|
  {
    && r.blocks[x] == s.blocks[x]
    && (x in r.free <==> x in s.free)
    && (x in r.db <==> x in s.db) && (x in s.db ==> r.db[x] == s.db[x])
  }

  /** What the invariant says about `x` as far as transaction `i` is concerned. */
  ghost predicate Local(cfg: Config, s: Sys, i: nat, x: nat)
    requires Shaped(cfg, s) && i < |s.txs| && x < |s.blocks|
  {
    if Touches(s.txs[i], x) then Owned(cfg, s, s.txs[i], x) else Quiet(s, x)
  }

  ghost predicate OnlyTx(s: Sys, r: Sys, i: nat) {
    |r.txs| == |s.txs| && |r.blocks| == |s.blocks| && forall j :: 0 <= j < |s.txs| && j != i ==> r.txs[j] == s.txs[j]
  }

  lemma {:induction false} LocalFromInv(cfg: Config, s: Sys, i: nat, x: nat)
    requires Inv(cfg, s) && i < |s.txs| && 0 < x < |s.blocks| && !Others(s, i, x)
    ensures Local(cfg, s, i, x)
  {
    assert IdOK(cfg, s, x);
  }

  /** A step of transaction `i` keeps the invariant at `x` if it leaves ids of other transactions alone and
      is locally right. */
  lemma {:induction false} IdStep(cfg: Config, s: Sys, r: Sys, i: nat, x: nat)
    requires Inv(cfg, s) && Shaped(cfg, r) && OnlyTx(s, r, i) && i < |s.txs| && 0 < x < |s.blocks|
    requires Others(s, i, x) ==> !Touches(r.txs[i], x) && SameAt(s, r, x)
    requires !Others(s, i, x) ==> Local(cfg, r, i, x)
    ensures IdOK(cfg, r, x)
  {
    assert IdOK(cfg, s, x);
    forall j | 0 <= j < |r.txs| && Touches(r.txs[j], x) ensures Owned(cfg, r, r.txs[j], x) {
      if j != i {
        assert Touches(s.txs[j], x);
        assert Owned(cfg, s, s.txs[j], x);
      }
    }
    assert Others(s, i, x) ==> exists j :: 0 <= j < |r.txs| && Touches(r.txs[j], x);
  }

  /** Separation survives when transaction `i` only picks up ids nobody else touches. */
  lemma {:induction false} SeparateStep(s: Sys, r: Sys, i: nat)
    requires Separate(s) && OnlyTx(s, r, i) && i < |s.txs|
    requires forall x :: Touches(r.txs[i], x) && !Touches(s.txs[i], x) ==> !Others(s, i, x)
    ensures Separate(r)
  {
    forall j, k, x | 0 <= j < |r.txs| && 0 <= k < |r.txs| && j != k && Touches(r.txs[j], x)
      ensures !Touches(r.txs[k], x)
    {
      if j == i {
        assert Touches(s.txs[k], x) ==> Others(s, i, x);
      } else if k == i {
        assert Touches(s.txs[j], x) && Others(s, i, x);
      }
    }
  }

  /** An id another transaction touches is not touched by `i`. */
  lemma {:induction false} OthersMeansNotMine(s: Sys, i: nat, x: nat)
    requires Separate(s) && i < |s.txs| && Others(s, i, x)
    ensures !Touches(s.txs[i], x)
  {
    var j :| 0 <= j < |s.txs| && j != i && Touches(s.txs[j], x);
  }

  /** The invariant of the new state from its parts: what transaction `i` did is locally right, ids of other
      transactions are as before, and nobody else's id was picked up. */
  lemma {:induction false} Conclude(cfg: Config, s: Sys, r: Sys, i: nat)
    requires Inv(cfg, s) && Shaped(cfg, r) && OnlyTx(s, r, i) && i < |s.txs|
    requires forall x :: x in r.free ==> 0 < x < |s.blocks|
    requires forall x :: x in r.db ==> 0 < x < |s.blocks| && Intact(cfg, x, r.db[x])
    requires forall j :: j != i ==> (j in r.freeSlots <==> j in s.freeSlots)
    requires TxOK(cfg, r, i)
    requires forall x :: Touches(r.txs[i], x) && !Touches(s.txs[i], x) ==> !Others(s, i, x)
    requires forall x :: 0 < x < |s.blocks| && Others(s, i, x) && !Touches(s.txs[i], x) ==> SameAt(s, r, x)
    requires forall x :: 0 < x < |s.blocks| && !Others(s, i, x) && Local(cfg, s, i, x) ==> Local(cfg, r, i, x)
    ensures Inv(cfg, r)
  {
    forall x | 0 < x < |s.blocks| ensures IdOK(cfg, r, x) {
      if Others(s, i, x) { OthersMeansNotMine(s, i, x); } else { LocalFromInv(cfg, s, i, x); }
      IdStep(cfg, s, r, i, x);
    }
    SeparateStep(s, r, i);
    forall j | 0 <= j < |r.txs| ensures TxOK(cfg, r, j) {
      if j != i { assert TxOK(cfg, s, j); }
    }
  }

  // ---- the steps ----

  lemma {:induction false} BeginKeeps(cfg: Config, s: Sys, i: nat)
    requires Inv(cfg, s) && Can(cfg, s, Begin(i))
    ensures Inv(cfg, Do(cfg, s, Begin(i)))
  {
    var r := Do(cfg, s, Begin(i));
    assert TxOK(cfg, s, i);
    Conclude(cfg, s, r, i);
  }

  lemma {:induction false} ShrinkLocal(cfg: Config, s: Sys, i: nat, x: nat)
    requires Shaped(cfg, s) && Can(cfg, s, Shrink(i)) && 0 < x < |s.blocks| && Local(cfg, s, i, x)
    ensures Shaped(cfg, Do(cfg, s, Shrink(i))) && Local(cfg, Do(cfg, s, Shrink(i)), i, x)
  {
    assert Do(cfg, s, Shrink(i)).txs[i] == s.txs[i].(stale := []);
  }

  lemma {:induction false} ShrinkKeeps(cfg: Config, s: Sys, i: nat)
    requires Inv(cfg, s) && Can(cfg, s, Shrink(i))
    ensures Inv(cfg, Do(cfg, s, Shrink(i)))
  {
    var r := Do(cfg, s, Shrink(i));
    assert TxOK(cfg, s, i);
    forall x | 0 < x < |s.blocks| && Local(cfg, s, i, x) ensures Local(cfg, r, i, x) {
      ShrinkLocal(cfg, s, i, x);
    }
    Conclude(cfg, s, r, i);
  }

  lemma {:induction false} FreeNotInHand(cfg: Config, s: Sys, j: nat, x: nat)
    requires Inv(cfg, s) && j < |s.txs| && x in s.free
    ensures s.txs[j].hand != x
  {
    assert IdOK(cfg, s, x);
    assert Touches(s.txs[j], s.txs[j].hand) || s.txs[j].hand == 0;
  }

  /** A free id that no log names is touched by nobody. */
  lemma {:induction false} TakeAlone(cfg: Config, s: Sys, i: nat, x: nat)
    requires Inv(cfg, s) && Can(cfg, s, Take(i, x))
    ensures !Touches(s.txs[i], x) && !Others(s, i, x)
  {
    forall j | 0 <= j < |s.txs| ensures !Touches(s.txs[j], x) {
      assert !Mentions(s.txs[j].log, x);
      FreeNotInHand(cfg, s, j, x);
    }
  }

  lemma {:induction false} TakeLocal(cfg: Config, s: Sys, i: nat, x: nat, y: nat)
    requires Shaped(cfg, s) && Can(cfg, s, Take(i, x)) && !Touches(s.txs[i], x) && 0 < y < |s.blocks|
    requires Local(cfg, s, i, y)
    ensures Shaped(cfg, Do(cfg, s, Take(i, x))) && Local(cfg, Do(cfg, s, Take(i, x)), i, y)
  {
    var t, r := s.txs[i], Do(cfg, s, Take(i, x));
    assert r.txs[i] == t.(hand := x);
    assert y != x ==> SameAt(s, r, y);
  }

  lemma {:induction false} TakeKeeps(cfg: Config, s: Sys, i: nat, x: nat)
    requires Inv(cfg, s) && Can(cfg, s, Take(i, x))
    ensures Inv(cfg, Do(cfg, s, Take(i, x)))
  {
    var r := Do(cfg, s, Take(i, x));
    assert TxOK(cfg, s, i);
    TakeAlone(cfg, s, i, x);
    forall y | 0 < y < |s.blocks| && Local(cfg, s, i, y) ensures Local(cfg, r, i, y) {
      TakeLocal(cfg, s, i, x, y);
    }
    Conclude(cfg, s, r, i);
  }

  lemma {:induction false} GiveBackLocal(cfg: Config, s: Sys, i: nat, y: nat)
    requires Shaped(cfg, s) && Can(cfg, s, GiveBack(i)) && 0 < y < |s.blocks| && Local(cfg, s, i, y)
    ensures Shaped(cfg, Do(cfg, s, GiveBack(i))) && Local(cfg, Do(cfg, s, GiveBack(i)), i, y)
  {
    var t, r := s.txs[i], Do(cfg, s, GiveBack(i));
    assert r.txs[i] == t.(hand := 0);
    assert y != t.hand ==> SameAt(s, r, y);
  }

  lemma {:induction false} GiveBackKeeps(cfg: Config, s: Sys, i: nat)
    requires Inv(cfg, s) && Can(cfg, s, GiveBack(i))
    ensures Inv(cfg, Do(cfg, s, GiveBack(i)))
  {
    var r := Do(cfg, s, GiveBack(i));
    assert TxOK(cfg, s, i);
    assert Touches(s.txs[i], s.txs[i].hand);
    forall y | 0 < y < |s.blocks| && Local(cfg, s, i, y) ensures Local(cfg, r, i, y) {
      GiveBackLocal(cfg, s, i, y);
    }
    Conclude(cfg, s, r, i);
  }

  lemma {:induction false} LogNewTxOK(cfg: Config, s: Sys, i: nat, op: Op)
    requires Shaped(cfg, s) && i < |s.txs| && TxOK(cfg, s, i) && Accepting(s.txs[i]) && s.txs[i].hand != 0
    requires (op.Write? || op.Update?) && NewOf(op) == s.txs[i].hand && Encodable(op) && !Patches(s.txs[i].log, OldOf(op))
    ensures var r := WithTx(s, i, s.txs[i].(log := s.txs[i].log + [op], hand := 0, fill := s.txs[i].hand));
            Shaped(cfg, r) && TxOK(cfg, r, i)
  {
    var t := s.txs[i];
    MentionsAppend(t.log, op, t.hand);
    forall x | x != 0 ensures Patches(t.log + [op], x) ==> Patches(t.log, x) && !Targets(t.log + [op], x) {
      MentionsAppend(t.log, op, x);
    }
  }

  lemma {:induction false} LogNewLocal(cfg: Config, s: Sys, i: nat, op: Op, y: nat)
    requires Shaped(cfg, s) && Can(cfg, s, LogNew(i, op)) && TxOK(cfg, s, i) && 0 < y < |s.blocks| && Local(cfg, s, i, y)
    requires Shaped(cfg, Do(cfg, s, LogNew(i, op)))
    ensures Local(cfg, Do(cfg, s, LogNew(i, op)), i, y)
  {
    var t, r := s.txs[i], Do(cfg, s, LogNew(i, op));
    assert r.txs[i] == t.(log := t.log + [op], hand := 0, fill := t.hand);
    MentionsAppend(t.log, op, y);
  }

  lemma {:induction false} LogNewKeeps(cfg: Config, s: Sys, i: nat, op: Op)
    requires Inv(cfg, s) && Can(cfg, s, LogNew(i, op))
    ensures Inv(cfg, Do(cfg, s, LogNew(i, op)))
  {
    var t := s.txs[i];
    var r := WithTx(s, i, t.(log := t.log + [op], hand := 0, fill := t.hand));
    LogNewTxOK(cfg, s, i, op);
    forall y | y != 0
      ensures Touches(r.txs[i], y) <==> Touches(t, y) || y == OldOf(op)
      ensures Patches(r.txs[i].log, y) <==> Patches(t.log, y)
      ensures News(r.txs[i].log, y) <==> News(t.log, y) || y == t.hand
    {
      MentionsAppend(t.log, op, y);
    }
    forall y | 0 < y < |s.blocks| && !Others(s, i, y) && Local(cfg, s, i, y) ensures Local(cfg, r, i, y) {
      LogNewLocal(cfg, s, i, op, y);
    }
    Conclude(cfg, s, r, i);
  }

  lemma {:induction false} FillLocal(cfg: Config, s: Sys, i: nat, b: Block, y: nat)
    requires Shaped(cfg, s) && Can(cfg, s, Fill(i, b)) && TxOK(cfg, s, i) && 0 < y < |s.blocks| && Local(cfg, s, i, y)
    ensures Shaped(cfg, Do(cfg, s, Fill(i, b))) && Local(cfg, Do(cfg, s, Fill(i, b)), i, y)
  {
  }

  lemma {:induction false} SealLocal(cfg: Config, s: Sys, i: nat, y: nat)
    requires Shaped(cfg, s) && Can(cfg, s, Seal(i)) && TxOK(cfg, s, i) && 0 < y < |s.blocks| && Local(cfg, s, i, y)
    ensures Shaped(cfg, Do(cfg, s, Seal(i))) && Local(cfg, Do(cfg, s, Seal(i)), i, y)
  {
  }

  lemma {:induction false} FillKeeps(cfg: Config, s: Sys, i: nat, b: Block)
    requires Inv(cfg, s) && Can(cfg, s, Fill(i, b))
    ensures Inv(cfg, Do(cfg, s, Fill(i, b)))
  {
    var r := Do(cfg, s, Fill(i, b));
    assert TxOK(cfg, s, i);
    forall y | 0 < y < |s.blocks| && Local(cfg, s, i, y) ensures Local(cfg, r, i, y) { FillLocal(cfg, s, i, b, y); }
    Conclude(cfg, s, r, i);
  }

  lemma {:induction false} SealKeeps(cfg: Config, s: Sys, i: nat)
    requires Inv(cfg, s) && Can(cfg, s, Seal(i))
    ensures Inv(cfg, Do(cfg, s, Seal(i)))
  {
    var r := Do(cfg, s, Seal(i));
    assert TxOK(cfg, s, i);
    forall y | 0 < y < |s.blocks| && Local(cfg, s, i, y) ensures Local(cfg, r, i, y) { SealLocal(cfg, s, i, y); }
    Conclude(cfg, s, r, i);
  }

  /** The slot stays well-formed when a removal or an in-place entry is appended. */
  lemma {:induction false} AppendTxOK(cfg: Config, s: Sys, i: nat, op: Op)
    requires Shaped(cfg, s) && i < |s.txs| && TxOK(cfg, s, i) && Accepting(s.txs[i])
    requires NewOf(op) == 0 && Encodable(op) && Fits(cfg, op)
    requires !Patches(s.txs[i].log, OldOf(op)) && !Targets(s.txs[i].log, PatchOf(op))
    requires OldOf(op) == 0 || PatchOf(op) == 0
    ensures TxOK(cfg, WithTx(s, i, s.txs[i].(log := s.txs[i].log + [op])), i)
    ensures Shaped(cfg, WithTx(s, i, s.txs[i].(log := s.txs[i].log + [op])))
  {
    var t := s.txs[i];
    forall x | x != 0
      ensures Patches(t.log + [op], x) ==> !Targets(t.log + [op], x)
      ensures News(t.log + [op], x) <==> News(t.log, x)
    {
      MentionsAppend(t.log, op, x);
    }
  }

  lemma {:induction false} AppendLocal(cfg: Config, s: Sys, i: nat, op: Op, y: nat)
    requires Shaped(cfg, s) && i < |s.txs| && TxOK(cfg, s, i) && Accepting(s.txs[i]) && Quiescent(s.txs[i])
    requires (op.Remove? || op.InPlace?) && Encodable(op) && Fits(cfg, op) && FirstId(op) != 0
    requires !Patches(s.txs[i].log, OldOf(op)) && !Targets(s.txs[i].log, PatchOf(op))
    requires op.InPlace? ==> Get(s.blocks, op.id).Some?
    requires 0 < y < |s.blocks| && Local(cfg, s, i, y) && Shaped(cfg, WithTx(s, i, s.txs[i].(log := s.txs[i].log + [op])))
    ensures Local(cfg, WithTx(s, i, s.txs[i].(log := s.txs[i].log + [op])), i, y)
  {
    MentionsAppend(s.txs[i].log, op, y);
  }

  lemma {:induction false} AppendKeeps(cfg: Config, s: Sys, i: nat, op: Op)
    requires Inv(cfg, s) && i < |s.txs| && Accepting(s.txs[i]) && Quiescent(s.txs[i])
    requires (op.Remove? || op.InPlace?) && Encodable(op) && Fits(cfg, op) && FirstId(op) != 0
    requires !Others(s, i, FirstId(op))
    requires !Patches(s.txs[i].log, OldOf(op)) && !Targets(s.txs[i].log, PatchOf(op))
    requires op.InPlace? ==> Get(s.blocks, op.id).Some?
    ensures Inv(cfg, WithTx(s, i, s.txs[i].(log := s.txs[i].log + [op])))
  {
    var t := s.txs[i];
    var r := WithTx(s, i, t.(log := t.log + [op]));
    AppendTxOK(cfg, s, i, op);
    forall y | y != 0
      ensures Touches(r.txs[i], y) <==> Touches(t, y) || y == FirstId(op)
      ensures Patches(r.txs[i].log, y) <==> Patches(t.log, y) || y == PatchOf(op)
      ensures News(r.txs[i].log, y) <==> News(t.log, y)
    {
      MentionsAppend(t.log, op, y);
    }
    forall y | 0 < y < |s.blocks| && Local(cfg, s, i, y) ensures Local(cfg, r, i, y) {
      AppendLocal(cfg, s, i, op, y);
    }
    Conclude(cfg, s, r, i);
  }

  /** A patched block is hit by its log, so the replay leaves it intact and live. */
  lemma {:induction false} PatchesHit(log: seq<Op>, x: nat)
    requires Patches(log, x)
    ensures HitCount(log, x) > 0
  {
    var k :| 0 <= k < |log| && PatchOf(log[k]) == x;
    if k > 0 {
      assert log[1..][k - 1] == log[k];
      assert Patches(log[1..], x);
      PatchesHit(log[1..], x);
    }
  }

  /** The committed map after commit holds intact blocks, and the promise of execute for patched ones. */
  lemma {:induction false} CommitPatched(cfg: Config, s: Sys, log: seq<Op>, x: nat)
    requires Shaped(cfg, s) && AllFit(cfg, log) && 0 < x < |s.blocks| && Patches(log, x)
    ensures x < cfg.total && log[0..] == log && AllFit(cfg, log[0..])
    ensures Intact(cfg, x, Replay(cfg, x, s.blocks[x], None, log))
  {
    var k :| 0 <= k < |log| && PatchOf(log[k]) == x;
    assert Fits(cfg, log[k]);
    PatchesHit(log, x);
    ReplayTouched(cfg, x, s.blocks[x], None, log);
    assert log[0..] == log;
  }

  lemma {:induction false} CommitLocal(cfg: Config, s: Sys, i: nat, x: nat)
    requires Shaped(cfg, s) && Can(cfg, s, Commit(i)) && TxOK(cfg, s, i) && 0 < x < |s.blocks|
    requires x in s.db ==> Intact(cfg, x, s.db[x])
    requires Local(cfg, s, i, x)
    ensures Local(cfg, Do(cfg, s, Commit(i)), i, x)
  {
    var r := Do(cfg, s, Commit(i));
    var log := s.txs[i].log;
    assert TxOK(cfg, s, i);
    MentionsAll(log, x);
    if Targets(log, x) {
      assert x !in r.db;
    } else if Patches(log, x) {
      CommitPatched(cfg, s, log, x);
      assert x in r.db && r.db[x] == Replay(cfg, x, s.blocks[x], None, log);
    }
  }

  lemma {:induction false} CommitTxOK(cfg: Config, s: Sys, i: nat)
    requires Inv(cfg, s) && Can(cfg, s, Commit(i))
    ensures var r := Do(cfg, s, Commit(i)); TxOK(cfg, s, i) && TxOK(cfg, r, i) && Shaped(cfg, r) && OnlyTx(s, r, i)
    ensures forall x :: Touches(Do(cfg, s, Commit(i)).txs[i], x) <==> Touches(s.txs[i], x)
  {
    assert TxOK(cfg, s, i);
  }

  lemma {:induction false} CommitSame(cfg: Config, s: Sys, i: nat, x: nat)
    requires Shaped(cfg, s) && Can(cfg, s, Commit(i)) && 0 < x < |s.blocks| && !Touches(s.txs[i], x)
    ensures |Do(cfg, s, Commit(i)).blocks| == |s.blocks| && SameAt(s, Do(cfg, s, Commit(i)), x)
  {
  }

  lemma {:induction false} CommitKeeps(cfg: Config, s: Sys, i: nat)
    requires Inv(cfg, s) && Can(cfg, s, Commit(i))
    ensures Inv(cfg, Do(cfg, s, Commit(i)))
  {
    var r := Do(cfg, s, Commit(i));
    CommitTxOK(cfg, s, i);
    CommitIntact(cfg, s, i);
    forall x | 0 < x < |s.blocks| && Local(cfg, s, i, x) ensures Local(cfg, r, i, x) {
      CommitLocal(cfg, s, i, x);
    }
    forall x | 0 < x < |s.blocks| && !Touches(s.txs[i], x) ensures SameAt(s, r, x) { CommitSame(cfg, s, i, x); }
    Conclude(cfg, s, r, i);
  }

  lemma {:induction false} CommitIntact(cfg: Config, s: Sys, i: nat)
    requires Inv(cfg, s) && Can(cfg, s, Commit(i))
    ensures var db := CommitDb(cfg, s, s.txs[i].log); forall x :: x in db ==> 0 < x < |s.blocks| && Intact(cfg, x, db[x])
  {
    var db, log := CommitDb(cfg, s, s.txs[i].log), s.txs[i].log;
    assert TxOK(cfg, s, i);
    forall x | x in db ensures Intact(cfg, x, db[x]) {
      if Patches(log, x) {
        CommitPatched(cfg, s, log, x);
      } else if News(log, x) {
        NewsOwned(cfg, s, i, x);
      }
    }
  }

  lemma {:induction false} NewsOwned(cfg: Config, s: Sys, i: nat, x: nat)
    requires Inv(cfg, s) && i < |s.txs| && Mentions(s.txs[i].log, x) && 0 < x < |s.blocks|
    ensures Owned(cfg, s, s.txs[i], x)
  {
    assert IdOK(cfg, s, x);
    assert Touches(s.txs[i], x);
  }

  /** The rest of the log after one more entry. */
  lemma {:induction false} Advance(cfg: Config, log: seq<Op>, pc: nat)
    requires pc < |log| && AllFit(cfg, log)
    ensures log[pc..] != [] && log[pc..][0] == log[pc] && log[pc..][1..] == log[pc + 1..]
    ensures AllFit(cfg, log[pc..]) && AllFit(cfg, log[pc + 1..])
  {
  }

  lemma {:induction false} ExecShaped(cfg: Config, s: Sys, i: nat)
    requires Inv(cfg, s) && Can(cfg, s, Exec(i))
    ensures var r := ExecOne(cfg, s, i); Shaped(cfg, r) && OnlyTx(s, r, i) && r.db == s.db && r.freeSlots == s.freeSlots
    ensures var t, t' := s.txs[i], ExecOne(cfg, s, i).txs[i]; t' == t.(pc := t.pc + 1, table := t'.table)
    ensures forall x :: x in ExecOne(cfg, s, i).free ==> 0 < x < |s.blocks|
  {
    var t := s.txs[i];
    var op := t.log[t.pc];
    if op.InPlace? {
      assert Fits(cfg, op);
    } else if Get(s.blocks, OldOf(op)).Some? {
      ZeroContained(cfg, OldOf(op), s.blocks[OldOf(op)]);
    }
  }

  lemma {:induction false} HitCountAppend(log: seq<Op>, op: Op, x: nat)
    ensures HitCount(log + [op], x) == HitCount(log, x) + if Hits(op, x) then 1 else 0
  {
    if log == [] {
      assert [op][1..] == [];
      assert HitCount([op][1..], x) == 0;
      assert log + [op] == [op];
    } else {
      HitCountAppend(log[1..], op, x);
      assert (log + [op])[1..] == log[1..] + [op];
    }
  }

  /** One more entry of execute keeps the tally of a block. */
  lemma {:induction false} TallyAdvances(t: Tx, t': Tx, x: nat, b: Block, b': Block)
    requires t.pc < |t.log| && Tallied(t, x, b) && b'.hdr.version == b.hdr.version
    requires t'.pc == t.pc + 1 && t'.log == t.log
    requires var op := t.log[t.pc];
             if Hits(op, x)
             then x in t'.table && t'.table[x].version == Inc32(if x in t.table then t.table[x].version else b.hdr.version)
             else Look(t'.table, x) == Look(t.table, x)
    ensures Tallied(t', x, b')
  {
    var n := HitCount(t.log[..t.pc], x);
    assert t.log[..t.pc + 1] == t.log[..t.pc] + [t.log[t.pc]];
    HitCountAppend(t.log[..t.pc], t.log[t.pc], x);
    if Hits(t.log[t.pc], x) { NextVersion(b.hdr.version, n); }
  }

  lemma {:induction false} NextVersion(v: Word32, n: nat)
    ensures Inc32(Later(v, n)) == Later(v, n + 1)
    ensures Inc32(v) == Later(v, 1)
  {
  }

  /** An entry other than an in-place update does not move the promise made for a patched block. */
  lemma {:induction false} ReplaySkips(cfg: Config, x: nat, b: Block, m: Option<Meta>, log: seq<Op>, pc: nat)
    requires pc < |log| && AllFit(cfg, log) && AllFit(cfg, log[pc..]) && AllFit(cfg, log[pc + 1..])
    requires x < cfg.total && Contained(cfg, x, b) && (m.Some? ==> m.value.valLen <= cfg.maxVal)
    requires !Hits(log[pc], x)
    ensures Replay(cfg, x, b, m, log[pc..]) == Replay(cfg, x, b, m, log[pc + 1..])
  {
    Advance(cfg, log, pc);
  }

  /** An in-place entry turns the promise for its block into the promise from the stamped block. */
  lemma {:induction false} ReplayHits(cfg: Config, x: nat, b: Block, m: Option<Meta>, log: seq<Op>, pc: nat)
    requires pc < |log| && AllFit(cfg, log) && AllFit(cfg, log[pc..]) && AllFit(cfg, log[pc + 1..])
    requires x < cfg.total && Contained(cfg, x, b) && (m.Some? ==> m.value.valLen <= cfg.maxVal)
    requires Hits(log[pc], x) && Fits(cfg, log[pc])
    ensures var m' := Bump(if m.Some? then m.value else HeaderMeta(b), log[pc].offset + |log[pc].payload|);
            && m'.valLen <= cfg.maxVal
            && Replay(cfg, x, b, m, log[pc..]) == Replay(cfg, x, Stamp(cfg, b, log[pc]), Some(m'), log[pc + 1..])
  {
    Advance(cfg, log, pc);
  }

  lemma {:induction false} ExecPatchHere(cfg: Config, s: Sys, i: nat)
    requires Shaped(cfg, s) && i < |s.txs| && TxOK(cfg, s, i)
    requires s.txs[i].status.Commited? && s.txs[i].pc < |s.txs[i].log| && s.txs[i].log[s.txs[i].pc].InPlace?
    requires var x := s.txs[i].log[s.txs[i].pc].id; 0 < x < |s.blocks| && s.txs[i].hand != x && Owned(cfg, s, s.txs[i], x)
    ensures Owned(cfg, ExecOne(cfg, s, i), ExecOne(cfg, s, i).txs[i], s.txs[i].log[s.txs[i].pc].id)
  {
    var t, r := s.txs[i], ExecOne(cfg, s, i);
    var op := t.log[t.pc];
    var x := op.id;
    assert Fits(cfg, op) && PatchOf(t.log[t.pc]) == x;
    assert Patches(t.log, x) && !Targets(t.log, x);
    PatchAdvances(cfg, x, s.blocks[x], t, r.txs[i], s.db[x]);
    assert r.blocks[x] == Stamp(cfg, s.blocks[x], op);
  }

  /** The promise for a patched block, and its tally, from one in-place entry to the next. */
  lemma {:induction false} PatchAdvances(cfg: Config, x: nat, b: Block, t: Tx, t': Tx, goal: Block)
    requires t.pc < |t.log| && AllFit(cfg, t.log) && AllFit(cfg, t.log[t.pc..]) && x < cfg.total && Contained(cfg, x, b)
    requires Hits(t.log[t.pc], x) && (x in t.table ==> t.table[x].valLen <= cfg.maxVal) && Tallied(t, x, b)
    requires goal == Replay(cfg, x, b, Look(t.table, x), t.log[t.pc..])
    requires var op := t.log[t.pc];
             t' == t.(pc := t.pc + 1, table := t.table[x := Bump(if x in t.table then t.table[x] else HeaderMeta(b), op.offset + |op.payload|)])
    ensures Fits(cfg, t.log[t.pc]) && AllFit(cfg, t.log[t.pc + 1..]) && x in t'.table && t'.table[x].valLen <= cfg.maxVal
    ensures goal == Replay(cfg, x, Stamp(cfg, b, t.log[t.pc]), Look(t'.table, x), t.log[t.pc + 1..])
    ensures Tallied(t', x, Stamp(cfg, b, t.log[t.pc]))
  {
    assert Fits(cfg, t.log[t.pc]);
    Advance(cfg, t.log, t.pc);
    ReplayHits(cfg, x, b, Look(t.table, x), t.log, t.pc);
    TallyAdvances(t, t', x, b, Stamp(cfg, b, t.log[t.pc]));
  }

  lemma {:induction false} ExecFreeHere(cfg: Config, s: Sys, i: nat)
    requires Shaped(cfg, s) && i < |s.txs| && TxOK(cfg, s, i)
    requires s.txs[i].status.Commited? && s.txs[i].pc < |s.txs[i].log|
    requires var x := OldOf(s.txs[i].log[s.txs[i].pc]); 0 < x < |s.blocks| && Owned(cfg, s, s.txs[i], x)
    ensures Owned(cfg, ExecOne(cfg, s, i), ExecOne(cfg, s, i).txs[i], OldOf(s.txs[i].log[s.txs[i].pc]))
  {
    var t := s.txs[i];
    var x := OldOf(t.log[t.pc]);
    assert Targets(t.log, x);
    MentionsPrefix(t.log, t.pc, x);
    ZeroContained(cfg, x, s.blocks[x]);
  }

  /** Moving past an entry that is not about `x`. */
  lemma {:induction false} OwnedAdvances(cfg: Config, s: Sys, r: Sys, t: Tx, t': Tx, x: nat)
    requires 0 < x < |s.blocks| == |r.blocks| && SameAt(s, r, x) && Contained(cfg, x, s.blocks[x])
    requires AllFit(cfg, t.log) && t.status.Commited? && t.pc < |t.log| && Owned(cfg, s, t, x)
    requires forall y :: Patches(t.log, y) ==> !Targets(t.log, y)
    requires t' == t.(pc := t.pc + 1, table := t'.table) && Look(t'.table, x) == Look(t.table, x)
    requires x != PatchOf(t.log[t.pc]) && x != OldOf(t.log[t.pc])
    ensures Owned(cfg, r, t', x)
  {
    MentionsPrefix(t.log, t.pc, x);
    if Patches(t.log, x) && t.hand != x {
      assert !Targets(t.log, x);
      Advance(cfg, t.log, t.pc);
      ReplaySkips(cfg, x, s.blocks[x], Look(t.table, x), t.log, t.pc);
      TallyAdvances(t, t', x, s.blocks[x], r.blocks[x]);
    }
  }

  lemma {:induction false} ExecLocal(cfg: Config, s: Sys, i: nat, x: nat)
    requires Shaped(cfg, s) && i < |s.txs| && TxOK(cfg, s, i) && 0 < x < |s.blocks|
    requires s.txs[i].status.Commited? && s.txs[i].pc < |s.txs[i].log| && Shaped(cfg, ExecOne(cfg, s, i))
    requires Local(cfg, s, i, x)
    ensures Local(cfg, ExecOne(cfg, s, i), i, x)
  {
    var t := s.txs[i];
    var op := t.log[t.pc];
    if !Touches(t, x) {
      assert x != OldOf(op) && x != PatchOf(op);
    } else if op.InPlace? && x == op.id {
      assert PatchOf(t.log[t.pc]) == x;
      assert Patches(t.log, x);
      ExecPatchHere(cfg, s, i);
    } else if x == OldOf(op) {
      ExecFreeHere(cfg, s, i);
    } else {
      var r := ExecOne(cfg, s, i);
      OwnedAdvances(cfg, s, r, t, r.txs[i], x);
    }
  }

  lemma {:induction false} ExecTxOK(cfg: Config, s: Sys, i: nat)
    requires Inv(cfg, s) && Can(cfg, s, Exec(i))
    ensures TxOK(cfg, ExecOne(cfg, s, i), i)
  {
    var r := ExecOne(cfg, s, i);
    var t := s.txs[i];
    var op := t.log[t.pc];
    assert TxOK(cfg, s, i);
    if op.InPlace? {
      assert Fits(cfg, op) && PatchOf(t.log[t.pc]) == op.id;
      assert Patches(t.log, op.id);
    }
  }

  lemma {:induction false} ExecKeeps(cfg: Config, s: Sys, i: nat)
    requires Inv(cfg, s) && Can(cfg, s, Exec(i))
    ensures Inv(cfg, Do(cfg, s, Exec(i)))
  {
    var r := ExecOne(cfg, s, i);
    var t := s.txs[i];
    ExecShaped(cfg, s, i);
    ExecTxOK(cfg, s, i);
    forall x | 0 < x < |s.blocks| && Local(cfg, s, i, x) ensures Local(cfg, r, i, x) {
      ExecLocal(cfg, s, i, x);
    }
    forall x | 0 < x < |s.blocks| && !Touches(t, x) ensures SameAt(s, r, x) {
      var op := t.log[t.pc];
      assert x != OldOf(op) && x != PatchOf(op);
    }
    Conclude(cfg, s, r, i);
  }

  // ---- execute finished ----

  lemma {:induction false} DoneLocal(cfg: Config, s: Sys, i: nat, x: nat)
    requires Inv(cfg, s) && Can(cfg, s, ExecDone(i)) && 0 < x < |s.blocks|
    requires Local(cfg, s, i, x)
    ensures x < cfg.total || x !in s.txs[i].table
    ensures Quiet(Do(cfg, s, ExecDone(i)), x)
  {
    var r := Do(cfg, s, ExecDone(i));
    var t := s.txs[i];
    assert TxOK(cfg, s, i);
    MentionsAll(t.log, x);
    assert t.log[t.pc..] == [];
    assert r.blocks[x] == Settle(cfg, x, s.blocks[x], t.table);
    if x in s.db { assert Intact(cfg, x, s.db[x]); }
  }

  lemma {:induction false} RestampLocal(cfg: Config, s: Sys, i: nat, y: nat, x: nat)
    requires Shaped(cfg, s) && Can(cfg, s, Restamp(i, y)) && TxOK(cfg, s, i) && 0 < x < |s.blocks| && Local(cfg, s, i, x)
    ensures Shaped(cfg, Do(cfg, s, Restamp(i, y))) && Local(cfg, Do(cfg, s, Restamp(i, y)), i, x)
  {
    var t, r := s.txs[i], Do(cfg, s, Restamp(i, y));
    assert Patches(t.log, y) && !Targets(t.log, y);
    assert r.txs[i] == t.(table := t.table - {y});
    if x == y && t.hand != x {
      assert t.log[t.pc..] == [];
    }
  }

  lemma {:induction false} RestampKeeps(cfg: Config, s: Sys, i: nat, y: nat)
    requires Inv(cfg, s) && Can(cfg, s, Restamp(i, y))
    ensures Inv(cfg, Do(cfg, s, Restamp(i, y)))
  {
    var r := Do(cfg, s, Restamp(i, y));
    assert TxOK(cfg, s, i);
    assert Touches(s.txs[i], y);
    forall x | 0 < x < |s.blocks| && Local(cfg, s, i, x) ensures Local(cfg, r, i, x) {
      RestampLocal(cfg, s, i, y, x);
    }
    Conclude(cfg, s, r, i);
  }

  lemma {:induction false} ExecDoneKeeps(cfg: Config, s: Sys, i: nat)
    requires Inv(cfg, s) && Can(cfg, s, ExecDone(i))
    ensures Inv(cfg, Do(cfg, s, ExecDone(i)))
  {
    var r := Do(cfg, s, ExecDone(i));
    var t := s.txs[i];
    assert TxOK(cfg, s, i);
    forall x | 0 < x < |s.blocks| && Local(cfg, s, i, x) ensures Local(cfg, r, i, x) {
      DoneLocal(cfg, s, i, x);
    }
    forall x | 0 < x < |s.blocks| && !Touches(t, x) ensures SameAt(s, r, x) {
      assert x !in t.table;
    }
    Conclude(cfg, s, r, i);
  }

  // ---- abort ----

  lemma {:induction false} AbortLocal(cfg: Config, s: Sys, i: nat, x: nat)
    requires Shaped(cfg, s) && Can(cfg, s, Abort(i)) && TxOK(cfg, s, i) && 0 < x < |s.blocks|
    requires Local(cfg, s, i, x)
    ensures Local(cfg, Do(cfg, s, Abort(i)), i, x)
  {
    var t, r := s.txs[i], Do(cfg, s, Abort(i));
    assert TxOK(cfg, s, i);
    MentionsAll(t.log, x);
    assert t.log[..t.pc] == t.log[..0];
    if Touches(t, x) && t.status.Commited? && !News(t.log, x) {
      assert Targets(t.log, x) || Patches(t.log, x);
      assert x in r.db <==> Live(s.blocks[x]);
      assert x in r.db ==> r.db[x] == s.blocks[x];
    }
  }

  lemma {:induction false} AbortIntact(cfg: Config, s: Sys, i: nat)
    requires Inv(cfg, s) && Can(cfg, s, Abort(i))
    ensures var db := Do(cfg, s, Abort(i)).db; forall x :: x in db ==> 0 < x < |s.blocks| && Intact(cfg, x, db[x])
  {
    var t, db := s.txs[i], Do(cfg, s, Abort(i)).db;
    forall x | x in db ensures 0 < x < |s.blocks| && Intact(cfg, x, db[x]) {
      if t.status.Commited? && (Targets(t.log, x) || Patches(t.log, x)) { NewsOwned(cfg, s, i, x); }
    }
  }

  lemma {:induction false} AbortKeeps(cfg: Config, s: Sys, i: nat)
    requires Inv(cfg, s) && Can(cfg, s, Abort(i))
    ensures Inv(cfg, Do(cfg, s, Abort(i)))
  {
    var r := Do(cfg, s, Abort(i));
    var t := s.txs[i];
    assert TxOK(cfg, s, i);
    AbortIntact(cfg, s, i);
    forall x | 0 < x < |s.blocks| && Local(cfg, s, i, x) ensures Local(cfg, r, i, x) {
      AbortLocal(cfg, s, i, x);
    }
    Conclude(cfg, s, r, i);
  }

  lemma {:induction false} UndoLocal(cfg: Config, s: Sys, i: nat, x: nat)
    requires Shaped(cfg, s) && i < |s.txs| && TxOK(cfg, s, i) && 0 < x < |s.blocks|
    requires s.txs[i].status.Aborted? && s.txs[i].pc < |s.txs[i].log| && Shaped(cfg, UndoOne(s, i))
    requires Local(cfg, s, i, x)
    ensures Local(cfg, UndoOne(s, i), i, x)
  {
    var t := s.txs[i];
    var y := NewOf(t.log[t.pc]);
    assert TxOK(cfg, s, i);
    MentionsPrefix(t.log, t.pc, x);
    if y != 0 {
      assert News(t.log, y);
      ZeroContained(cfg, y, s.blocks[y]);
    }
  }

  /** What one entry of abort changes: its own position, and the new block the entry names. */
  lemma {:induction false} UndoFrame(cfg: Config, s: Sys, i: nat)
    requires Shaped(cfg, s) && i < |s.txs| && s.txs[i].pc < |s.txs[i].log| && s.txs[i].status.Aborted? && TxOK(cfg, s, i)
    ensures var r := UndoOne(s, i);
            && Shaped(cfg, r) && OnlyTx(s, r, i) && TxOK(cfg, r, i) && r.db == s.db && r.freeSlots == s.freeSlots
            && r.txs[i] == s.txs[i].(pc := s.txs[i].pc + 1)
            && (forall x :: x in r.free ==> x in s.free || 0 < x < |s.blocks|)
            && (forall x :: 0 < x < |s.blocks| && !Touches(s.txs[i], x) ==> SameAt(s, r, x))
  {
    var t := s.txs[i];
    var y := NewOf(t.log[t.pc]);
    if y != 0 {
      assert News(t.log, y);
      ZeroContained(cfg, y, s.blocks[y]);
    }
  }

  lemma {:induction false} UndoKeeps(cfg: Config, s: Sys, i: nat)
    requires Inv(cfg, s) && Can(cfg, s, Undo(i))
    ensures Inv(cfg, Do(cfg, s, Undo(i)))
  {
    var r := UndoOne(s, i);
    assert TxOK(cfg, s, i);
    UndoFrame(cfg, s, i);
    forall x | 0 < x < |s.blocks| && Local(cfg, s, i, x) ensures Local(cfg, r, i, x) {
      UndoLocal(cfg, s, i, x);
    }
    Conclude(cfg, s, r, i);
  }

  lemma {:induction false} AbortDoneKeeps(cfg: Config, s: Sys, i: nat)
    requires Inv(cfg, s) && Can(cfg, s, AbortDone(i))
    ensures Inv(cfg, Do(cfg, s, AbortDone(i)))
  {
    var r := Do(cfg, s, AbortDone(i));
    var t := s.txs[i];
    assert TxOK(cfg, s, i);
    forall x | 0 < x < |s.blocks| && Local(cfg, s, i, x) ensures Local(cfg, r, i, x) {
      MentionsAll(t.log, x);
    }
    Conclude(cfg, s, r, i);
  }

  /** Every step, by any transaction, in any interleaving, keeps the invariant. */
  lemma {:induction false} StepKeeps(cfg: Config, s: Sys, a: Action)
    requires Inv(cfg, s) && Can(cfg, s, a)
    ensures Inv(cfg, Do(cfg, s, a))
  {
    match a
    case Begin(i) => BeginKeeps(cfg, s, i);
    case Shrink(i) => ShrinkKeeps(cfg, s, i);
    case Take(i, x) => TakeKeeps(cfg, s, i, x);
    case GiveBack(i) => GiveBackKeeps(cfg, s, i);
    case LogNew(i, op) => LogNewKeeps(cfg, s, i, op);
    case Fill(i, b) => FillKeeps(cfg, s, i, b);
    case Seal(i) => SealKeeps(cfg, s, i);
    case LogDel(i, x) => AppendKeeps(cfg, s, i, Remove(x));
    case LogPatch(i, op) => AppendKeeps(cfg, s, i, op);
    case Commit(i) => CommitKeeps(cfg, s, i);
    case Exec(i) => ExecKeeps(cfg, s, i);
    case Restamp(i, x) => RestampKeeps(cfg, s, i, x);
    case ExecDone(i) => ExecDoneKeeps(cfg, s, i);
    case Abort(i) => AbortKeeps(cfg, s, i);
    case Undo(i) => UndoKeeps(cfg, s, i);
    case AbortDone(i) => AbortDoneKeeps(cfg, s, i);
  }

  lemma {:induction false} InitHolds(cfg: Config, s: Sys)
    requires Init(cfg, s)
    ensures Inv(cfg, s)
  {
    forall i | 0 <= i < |s.txs| ensures TxOK(cfg, s, i) && AllFit(cfg, s.txs[i].log) && forall x :: !Touches(s.txs[i], x) {
      assert s.txs[i] == Idle(s.txs[i].stale);
    }
  }
}
