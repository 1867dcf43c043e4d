/** Runs in which the caller keeps the discipline of the interpreter: disable before enabling again,
    and before releasing. In these the recogniser and the tables agree at every step. */
module LedgerDiscipline {
  import opened Wrappers
  import opened GrammarLedger
  import opened LedgerLaws
  import opened LedgerRuns

  /** Only an enabled dynamic grammar holds a handle. */
  ghost predicate Tidy(g: Info) {
    g.dynamic && g.handle.Some? ==> g.enabled
  }

  /** Nothing is lost or stray, and the active handles are those of the enabled grammars. */
  ghost predicate Clean(l: Ledger) {
    && Consistent(l) && Exact(l) && Lost(l) == {} && Stray(l) == {}
    && forall i :: 0 <= i < |l.infos| ==> Tidy(l.infos[i])
  }

  /** A clean ledger is one where the recogniser knows exactly what the tables say. */
  lemma CleanAgrees(l: Ledger)
    requires Clean(l)
    ensures l.rec.active == On(l) && l.rec.live == Held(l)
  {
    hide On, Held, Accounted, Distinct, Sequenced;
    assert forall h :: h in l.rec.active ==> h in Held(l) by {
      assert forall h :: h in l.rec.active && h !in Held(l) ==> h in Stray(l);
    }
    assert forall h :: h in l.rec.live && h !in Held(l) ==> h in Lost(l);
  }

  /** What a caller can see before the call: nothing is enabled, and no dynamic grammar will be
      loaded and then refused activation. */
  ghost predicate Careful(l: Ledger, op: Op) {
    match op
    case EnableOp(_, f, _) =>
      && (forall i :: 0 <= i < |l.infos| ==> !l.infos[i].enabled)
      && (forall i :: 0 <= i < |l.infos| && l.infos[i].dynamic ==> f(i) != ActivateFails)
    case ReleaseOp => On(l) == {}
    case _ => true
  }

  lemma {:induction false} EnableInfosClean(e: Enabling, n: nat, q: Request, f: nat -> Reply)
    requires n <= |e.ledger.infos|
    requires Consistent(e.ledger) && Exact(e.ledger)
    requires forall i :: 0 <= i < n ==> !e.ledger.infos[i].enabled && (e.ledger.infos[i].dynamic ==> e.ledger.infos[i].handle.None?)
    requires forall i :: n <= i < |e.ledger.infos| ==> Tidy(e.ledger.infos[i])
    requires forall i :: 0 <= i < n && e.ledger.infos[i].dynamic ==> f(i) != ActivateFails
    ensures var r := EnableInfos(e, n, q, f).ledger;
            && Consistent(r) && Exact(r) && Lost(r) == Lost(e.ledger) && Stray(r) == Stray(e.ledger)
            && forall i :: 0 <= i < |r.infos| ==> Tidy(r.infos[i])
    decreases n
  {
    hide Consistent, Exact, Lost, Stray, Matched;
    if n > 0 && e.ok {
      EnableInfoKeeps(e, n - 1, q, f(n - 1));
      assert Overwritten(e, n - 1, q, f(n - 1)) == {};
      EnableInfosClean(EnableInfo(e, n - 1, q, f(n - 1)), n - 1, q, f);
    }
  }

  lemma EnableClean(l: Ledger, op: Op)
    requires Clean(l) && Careful(l, op) && op.EnableOp?
    ensures Clean(Apply(l, op))
  {
    hide Consistent, Exact, Lost, Stray, EnableInfos, EnableUnivs;
    var e := Enabling(l, true, false);
    EnableInfosClean(e, |l.infos|, op.request, op.infoReplies);
    EnableUnivsKeep(EnableInfos(e, |l.infos|, op.request, op.infoReplies), 0, op.request, op.univReplies);
  }

  lemma DisableClean(l: Ledger)
    requires Clean(l)
    ensures Clean(DisableAll(l))
  {
    hide Consistent, Lost, Stray, DisableAll, On;
    DisableKeeps(l);
    assert Exact(DisableAll(l));
  }

  lemma ReleaseClean(l: Ledger)
    requires Clean(l) && On(l) == {}
    ensures Clean(Release(l))
  {
    hide Consistent, Stray, Release;
    ReleaseKeeps(l);
    NothingOn(l);
    var r := Release(l);
    assert On(r) == {} && Held(r) == {};
    assert r.rec.active == {} by { hide Held; assert Stray(l) == {}; }
    assert Stray(r) == {} by { StrayIsActive(r); }
  }

  lemma StrayIsActive(l: Ledger)
    ensures Stray(l) <= l.rec.active
  {
  }

  lemma LoadClean(l: Ledger, op: Op)
    requires Clean(l) && (op.LoadStatic? || op.LoadDynamic? || op.LoadUniversal?)
    ensures Clean(Apply(l, op))
  {
    hide Consistent, Lost, Stray, Exact;
    LoadKeeps(l, op);
  }

  /** In every disciplined run, whatever else fails, the active handles are exactly those of the
      enabled grammars and the live handles exactly those held. */
  lemma {:induction false} DisciplinedRunsAgree(ops: seq<Op>)
    requires forall k {:trigger ops[k]} :: 0 <= k < |ops| ==> Careful(Run(EMPTY, ops[..k]), ops[k])
    ensures var l := Run(EMPTY, ops); Clean(l) && l.rec.active == On(l) && l.rec.live == Held(l)
  {
    hide Clean, Careful, Consistent, On, Held, DisableAll, Release, Enable, AddStatic, AddDynamic, AddUniversal;
    if ops == [] {
      EmptyClean();
    } else {
      var n := |ops| - 1;
      var before := ops[..n];
      assert forall k :: 0 <= k < n ==> before[k] == ops[k] && before[..k] == ops[..k];
      DisciplinedRunsAgree(before);
      assert Careful(Run(EMPTY, ops[..n]), ops[n]);
      StepClean(Run(EMPTY, before), ops[n]);
    }
    CleanAgrees(Run(EMPTY, ops));
  }

  lemma EmptyClean()
    ensures Clean(EMPTY)
  {
    EmptyConsistent();
    assert On(EMPTY) == {};
  }

  lemma StepClean(l: Ledger, op: Op)
    requires Clean(l) && Careful(l, op)
    ensures Clean(Apply(l, op))
  {
    hide Clean, Consistent, On, Held, DisableAll, Release, Enable, AddStatic, AddDynamic, AddUniversal;
    match op {
      case EnableOp(_, _, _) => EnableClean(l, op);
      case DisableOp => DisableClean(l);
      case ReleaseOp => ReleaseClean(l);
      case LoadStatic(_) => LoadClean(l, op);
      case LoadDynamic(_) => LoadClean(l, op);
      case LoadUniversal(_) => LoadClean(l, op);
    }
  }

  // ----- Exactly when they agree -----

  /** The recogniser has active exactly the handles of the enabled grammars. */
  predicate Agrees(l: Ledger) {
    l.rec.active == On(l)
  }

  /** The step neither overwrites a handle that is active nor frees a universal that is. */
  predicate Respects(l: Ledger, op: Op) {
    match op
    case EnableOp(_, _, _) => OverwrittenBy(l, op) * l.rec.active == {}
    case ReleaseOp => l.rec.active * UnivHandles(l) == {}
    case _ => true
  }

  lemma AgreesIs(l: Ledger)
    requires Consistent(l)
    ensures Agrees(l) <==> Exact(l) && Stray(l) == {}
  {
    hide On, Held, Distinct, Accounted, Sequenced, Flags;
    OnIsHeld(l);
    if Exact(l) && Stray(l) == {} {
      forall h | h in l.rec.active ensures h in On(l) {
        assert h !in Stray(l);
        assert h in l.rec.active * Held(l);
      }
    }
  }

  lemma OnIsHeld(l: Ledger)
    ensures On(l) <= Held(l)
  {
  }

  /** A call overwrites only handles that the entries it has yet to visit hold. */
  lemma {:induction false} OverwrittenAreBelow(e: Enabling, n: nat, q: Request, f: nat -> Reply)
    requires n <= |e.ledger.infos|
    ensures forall h :: h in OverwrittenBelow(e, n, q, f) ==> exists i :: 0 <= i < n && e.ledger.infos[i].handle == Some(h)
    decreases n
  {
    if n > 0 && e.ok {
      var r := EnableInfo(e, n - 1, q, f(n - 1));
      OverwrittenAreBelow(r, n - 1, q, f);
      assert forall i :: 0 <= i < n - 1 ==> r.ledger.infos[i] == e.ledger.infos[i] by { OthersStay(e, n - 1, q, f(n - 1)); }
    }
  }

  lemma OthersStay(e: Enabling, i: nat, q: Request, reply: Reply)
    requires i < |e.ledger.infos|
    ensures forall k :: 0 <= k < |e.ledger.infos| && k != i ==> EnableInfo(e, i, q, reply).ledger.infos[k] == e.ledger.infos[k]
  {
  }

  /** Visiting one entry activates nothing that a later entry of the same call overwrites. */
  lemma LaterHandles(e: Enabling, n: nat, q: Request, f: nat -> Reply)
    requires 0 < n <= |e.ledger.infos| && Consistent(e.ledger)
    ensures var r := EnableInfo(e, n - 1, q, f(n - 1));
            OverwrittenBelow(r, n - 1, q, f) * r.ledger.rec.active == OverwrittenBelow(r, n - 1, q, f) * e.ledger.rec.active
  {
    hide OverwrittenBelow, Matched, Accounted, Sequenced, Held, On, Flags, InfoHandles, UnivHandles;
    var r := EnableInfo(e, n - 1, q, f(n - 1));
    EnableInfoKeeps(e, n - 1, q, f(n - 1));
    OverwrittenAreBelow(r, n - 1, q, f);
    assert Distinct(r.ledger);
    assert e.ledger.rec.active <= r.ledger.rec.active <= e.ledger.rec.active + AsSet(r.ledger.infos[n - 1].handle);
  }

  /** A step that is refused on an enabled dynamic grammar overwrites that grammar's active handle. */
  lemma DeceivingOverwrites(e: Enabling, i: nat, q: Request, reply: Reply)
    requires Consistent(e.ledger) && Exact(e.ledger) && i < |e.ledger.infos| && Deceives(e, i, q, reply)
    ensures Overwritten(e, i, q, reply) * e.ledger.rec.active != {}
  {
    hide Accounted, Sequenced, Held, On, Matched;
    HeldAt(e.ledger, i);
    assert Flags(e.ledger.infos[i]);
    assert e.ledger.infos[i].handle.value in Overwritten(e, i, q, reply) * e.ledger.rec.active;
  }

  lemma {:induction false} EnableInfosStray(e: Enabling, n: nat, q: Request, f: nat -> Reply)
    requires Consistent(e.ledger) && n <= |e.ledger.infos|
    ensures var r := EnableInfos(e, n, q, f).ledger;
            && Consistent(r)
            && Stray(r) == Stray(e.ledger) + OverwrittenBelow(e, n, q, f) * e.ledger.rec.active
            && (Exact(e.ledger) && OverwrittenBelow(e, n, q, f) * e.ledger.rec.active == {} ==> Exact(r))
    decreases n
  {
    hide EnableInfo, Consistent, Stray, Overwritten, Exact, Deceives;
    if n > 0 && e.ok {
      var r := EnableInfo(e, n - 1, q, f(n - 1));
      var now, later := Overwritten(e, n - 1, q, f(n - 1)), OverwrittenBelow(r, n - 1, q, f);
      EnableInfoKeeps(e, n - 1, q, f(n - 1));
      EnableInfosStray(r, n - 1, q, f);
      LaterHandles(e, n, q, f);
      Distributes(now, later, e.ledger.rec.active);
      if Exact(e.ledger) && Deceives(e, n - 1, q, f(n - 1)) { DeceivingOverwrites(e, n - 1, q, f(n - 1)); }
    }
  }

  lemma Distributes(a: set<nat>, b: set<nat>, c: set<nat>)
    ensures (a + b) * c == a * c + b * c
  {
  }

  lemma StepAgrees(l: Ledger, op: Op)
    requires Consistent(l) && Agrees(l)
    ensures Consistent(Apply(l, op)) && (Agrees(Apply(l, op)) <==> Respects(l, op))
  {
    hide Consistent, Exact, Lost, Stray, Agrees, On, Held, UnivHandles, Enable, DisableAll, Release, OverwrittenBy,
         AddStatic, AddDynamic, AddUniversal;
    AgreesIs(l);
    ApplyKeeps(l, op);
    AgreesIs(Apply(l, op));
    match op {
      case EnableOp(_, _, _) => EnableStray(l, op);
      case DisableOp => DisableAgrees(l);
      case ReleaseOp => ReleaseAgrees(l);
      case LoadStatic(_) => LoadKeeps(l, op);
      case LoadDynamic(_) => LoadKeeps(l, op);
      case LoadUniversal(_) => LoadKeeps(l, op);
    }
  }

  lemma EnableStray(l: Ledger, op: Op)
    requires Consistent(l) && op.EnableOp?
    ensures var r := Apply(l, op);
            && Stray(r) == Stray(l) + OverwrittenBy(l, op) * l.rec.active
            && (Exact(l) && OverwrittenBy(l, op) * l.rec.active == {} ==> Exact(r))
  {
    hide Consistent, Exact, Lost, Stray, EnableInfos, EnableUnivs, OverwrittenBelow;
    var e := Enabling(l, true, false);
    EnableInfosStray(e, |l.infos|, op.request, op.infoReplies);
    EnableUnivsKeep(EnableInfos(e, |l.infos|, op.request, op.infoReplies), 0, op.request, op.univReplies);
  }

  lemma DisableAgrees(l: Ledger)
    requires Consistent(l) && Stray(l) == {}
    ensures Agrees(DisableAll(l))
  {
    hide Consistent, Lost, Stray, DisableAll, On;
    DisableKeeps(l);
  }

  lemma ReleaseAgrees(l: Ledger)
    requires Consistent(l) && Stray(l) == {}
    ensures Agrees(Release(l)) <==> l.rec.active * UnivHandles(l) == {}
  {
    hide Consistent, Lost, Stray, UnivHandles;
    ReleaseKeeps(l);
    assert On(Release(l)) == {} by { hide Release; }
  }

  /** All runs, with any replies: the recogniser's active set is that of the enabled grammars at every
      step if and only if no enable call overwrites an active handle and no release comes while a
      universal is active. */
  lemma {:induction false} RunsAgree(ops: seq<Op>)
    ensures (forall k :: 0 <= k <= |ops| ==> Agrees(Run(EMPTY, ops[..k])))
            <==> (forall k {:trigger ops[k]} :: 0 <= k < |ops| ==> Respects(Run(EMPTY, ops[..k]), ops[k]))
  {
    hide Agrees, Respects, Consistent, Apply, Run;
    var n := |ops| - 1;
    if ops == [] {
      EmptyAgrees();
      assert forall k :: 0 <= k <= |ops| ==> ops[..k] == [];
    } else {
      RunsAgree(ops[..n]);
      RunConsistent(ops[..n]);
      RunLast(ops);
      Shorter(ops);
      if Agrees(Run(EMPTY, ops[..n])) { StepAgrees(Run(EMPTY, ops[..n]), ops[n]); }
    }
  }

  lemma EmptyAgrees()
    ensures Agrees(Run(EMPTY, []))
  {
    assert On(EMPTY) == {};
  }

  lemma RunLast(ops: seq<Op>)
    requires ops != []
    ensures Run(EMPTY, ops[..|ops|]) == Apply(Run(EMPTY, ops[..|ops| - 1]), ops[|ops| - 1])
  {
    hide Apply;
    assert ops[..|ops|] == ops;
  }

  // Both sides of RunsAgree, for all but the last step.
  lemma Shorter(ops: seq<Op>)
    requires ops != []
    ensures var n := |ops| - 1;
            && ((forall k :: 0 <= k <= n ==> Agrees(Run(EMPTY, ops[..n][..k]))) <==>
                (forall k :: 0 <= k <= n ==> Agrees(Run(EMPTY, ops[..k]))))
            && ((forall k {:trigger ops[..n][k]} :: 0 <= k < n ==> Respects(Run(EMPTY, ops[..n][..k]), ops[..n][k])) <==>
                (forall k {:trigger ops[k]} :: 0 <= k < n ==> Respects(Run(EMPTY, ops[..k]), ops[k])))
  {
    hide Agrees, Respects, Run;
    var n := |ops| - 1;
    assert forall k :: 0 <= k <= n ==> ops[..n][..k] == ops[..k];
    assert forall k {:trigger ops[..n][k]} {:trigger ops[k]} :: 0 <= k < n ==> ops[..n][k] == ops[k];
  }

  // ----- Without the discipline -----

  const DYNAMIC := Info(None, true, DocScope, "", "", "", 0, false, NoScope)
  const FINE: nat -> Reply := i => Fine
  const REFUSED: nat -> Reply := i => ActivateFails
  const ANYWHERE := Request("", "", "", false, None)

  /** Enabling twice without disabling in between loses the first handle, which stays active. */
  lemma EnablingTwiceLoses()
    ensures var enable := EnableOp(ANYWHERE, FINE, FINE);
            var l := Run(EMPTY, [LoadDynamic(DYNAMIC), enable, enable]);
            0 in Lost(l) && 0 in Stray(l)
  {
    var enable := EnableOp(ANYWHERE, FINE, FINE);
    var l0 := AddDynamic(EMPTY, DYNAMIC);
    EnableOne(l0, FINE);
    var l1 := Enable(l0, ANYWHERE, FINE, FINE).ledger;
    EnableOne(l1, FINE);
    var ops := [LoadDynamic(DYNAMIC), enable, enable];
    RunOf(ops, l0, l1);
    var l := Run(EMPTY, ops);
    assert l.infos == [DYNAMIC.(handle := Some(1), sequence := 1, enabled := true, activated := DocScope)];
    OneHeld(l, 1);
  }

  /** A dynamic grammar that loads and is then refused by the recogniser keeps its handle through
      DisableAllGrammars, and the next EnableGrammars loses it. */
  lemma RefusedActivationLoses()
    ensures var ops := [LoadDynamic(DYNAMIC), EnableOp(ANYWHERE, REFUSED, FINE), DisableOp,
                        EnableOp(ANYWHERE, FINE, FINE)];
            0 in Lost(Run(EMPTY, ops))
  {
    var l0 := AddDynamic(EMPTY, DYNAMIC);
    EnableOne(l0, REFUSED);
    var l1 := Enable(l0, ANYWHERE, REFUSED, FINE).ledger;
    var l2 := DisableAll(l1);
    assert DisableInfos(l1, 1) == DisableInfo(DisableInfos(l1, 0), 0);
    assert l2 == l1;
    EnableOne(l2, FINE);
    var ops := [LoadDynamic(DYNAMIC), EnableOp(ANYWHERE, REFUSED, FINE), DisableOp, EnableOp(ANYWHERE, FINE, FINE)];
    assert ops[..3] == [LoadDynamic(DYNAMIC), EnableOp(ANYWHERE, REFUSED, FINE), DisableOp];
    RunOf(ops[..3], l0, l1);
    var l := Run(EMPTY, ops);
    assert l.infos == [DYNAMIC.(handle := Some(1), sequence := 1, enabled := true, activated := DocScope)];
    OneHeld(l, 1);
  }

  lemma OneHeld(l: Ledger, h: nat)
    requires |l.infos| == 1 && l.infos[0].handle == Some(h) && l.univs == []
    ensures Held(l) == {h}
  {
    assert l.infos[0].handle.value in InfoHandles(l);
  }

  lemma RunOf(ops: seq<Op>, l0: Ledger, l1: Ledger)
    requires |ops| == 3 && l0 == Apply(EMPTY, ops[0]) && l1 == Apply(l0, ops[1])
    ensures Run(EMPTY, ops) == Apply(l1, ops[2])
  {
    assert ops[..2][..1] == [ops[0]];
    assert [ops[0]][..0] == [];
    assert Run(EMPTY, [ops[0]]) == Apply(Run(EMPTY, []), ops[0]);
  }

  lemma EnableOne(l: Ledger, f: nat -> Reply)
    requires |l.infos| == 1 && l.univs == []
    ensures Enable(l, ANYWHERE, f, FINE).ledger == EnableInfo(Enabling(l, true, false), 0, ANYWHERE, f(0)).ledger
  {
    var e := EnableInfo(Enabling(l, true, false), 0, ANYWHERE, f(0));
    assert EnableInfos(e, 0, ANYWHERE, f) == e;
  }
}
