/** The ledger over whole runs: every handle is freed once, unless a dynamic grammar is loaded again
    while it still holds one. */
module LedgerRuns {
  import opened Wrappers
  import opened GrammarLedger
  import opened LedgerLaws

  /** Active in the recogniser without a holder: a lost handle, or one freed while active. */
  function Stray(l: Ledger): set<nat> {
    l.rec.active - Held(l)
  }

  // ----- The recogniser's accounts -----

  lemma IssueAccounted(r: Recogniser)
    requires Accounted(r)
    ensures Accounted(Issue(r)) && r.issued !in r.live && r.issued !in r.active
  {
  }

  lemma FreeAccounted(r: Recogniser, h: nat)
    requires Accounted(r) && h in r.live
    ensures Accounted(Free(r, h))
  {
    assert (r.freed + [h])[|r.freed|] == h;
    assert forall k: nat :: k in r.freed + [h] <==> k in r.freed || k == h;
  }

  lemma {:induction false} FreedOnce(r: Recogniser, h: nat)
    requires Accounted(r)
    ensures multiset(r.freed)[h] == if h < r.issued && h !in r.live then 1 else 0
  {
    OneEach(r.freed, h);
  }

  lemma {:induction false} OneEach(s: seq<nat>, h: nat)
    requires forall i, j :: 0 <= i < j < |s| ==> s[i] != s[j]
    ensures multiset(s)[h] == if h in s then 1 else 0
  {
    if s != [] {
      var n := |s| - 1;
      assert s == s[..n] + [s[n]];
      OneEach(s[..n], h);
    }
  }

  // ----- Each step -----

  lemma LoadKeeps(l: Ledger, op: Op)
    requires Consistent(l) && (op.LoadStatic? || op.LoadDynamic? || op.LoadUniversal?)
    ensures var r := Apply(l, op);
            && Consistent(r) && Lost(r) == Lost(l) && Stray(r) == Stray(l) && On(r) == On(l)
            && (Exact(l) ==> Exact(r))
            && Held(r) == Held(l) + (if op.LoadDynamic? then {} else {l.rec.issued})
  {
    hide Held, On, InfoHandles, UnivHandles, InfosOn, UnivsOn, Distinct, Accounted;
    IssueAccounted(l.rec);
    assert l.rec.issued !in Held(l);
    var r := Apply(l, op);
    if op.LoadUniversal? {
      AppendUniv(l, r.univs[|l.univs|], r.rec, r.sequence);
    } else {
      AppendInfo(l, r.infos[|l.infos|], r.rec, r.sequence);
    }
  }

  /** The handle a second load of a dynamic grammar overwrites. */
  function Overwritten(e: Enabling, i: nat, q: Request, reply: Reply): set<nat>
    requires i < |e.ledger.infos|
  {
    var g := e.ledger.infos[i];
    if Matched(g, q) != NoScope && g.dynamic && reply != EvalFails && reply != LoadFails then AsSet(g.handle) else {}
  }

  function OverwrittenBelow(e: Enabling, n: nat, q: Request, replies: nat -> Reply): set<nat>
    requires n <= |e.ledger.infos|
    decreases n
  {
    if n == 0 || !e.ok then {}
    else Overwritten(e, n - 1, q, replies(n - 1))
         + OverwrittenBelow(EnableInfo(e, n - 1, q, replies(n - 1)), n - 1, q, replies)
  }

  /** An enabled dynamic grammar is loaded again and the new handle is not activated: the flag stays. */
  predicate Deceives(e: Enabling, i: nat, q: Request, reply: Reply)
    requires i < |e.ledger.infos|
  {
    var g := e.ledger.infos[i];
    Matched(g, q) != NoScope && g.dynamic && g.enabled && reply == ActivateFails
  }

  lemma HeldAt(l: Ledger, i: nat)
    requires i < |l.infos|
    ensures AsSet(l.infos[i].handle) <= Held(l)
    ensures Distinct(l) && l.infos[i].handle.Some? ==> (l.infos[i].enabled <==> l.infos[i].handle.value in On(l))
  {
    if Distinct(l) && l.infos[i].handle.Some? {
      var h := l.infos[i].handle.value;
      assert h in InfoHandles(l);
      if h in On(l) {
        assert h !in UnivHandles(l) && UnivsOn(l) <= UnivHandles(l);
        var k :| 0 <= k < |l.infos| && l.infos[k].handle == Some(h) && l.infos[k].enabled;
      }
    }
  }

  lemma UnivHeldAt(l: Ledger, j: nat)
    requires j < |l.univs|
    ensures l.univs[j].handle in Held(l)
    ensures Distinct(l) ==> (l.univs[j].enabled <==> l.univs[j].handle in On(l))
  {
    assert l.univs[j].handle in UnivHandles(l);
    if Distinct(l) && l.univs[j].handle in On(l) {
      assert InfosOn(l) <= InfoHandles(l);
      var k :| 0 <= k < |l.univs| && l.univs[k].handle == l.univs[j].handle && l.univs[k].enabled;
    }
  }

  lemma EnableInfoKeeps(e: Enabling, i: nat, q: Request, reply: Reply)
    requires Consistent(e.ledger) && i < |e.ledger.infos|
    ensures var r := EnableInfo(e, i, q, reply);
            && Consistent(r.ledger)
            && Lost(r.ledger) == Lost(e.ledger) + Overwritten(e, i, q, reply)
            && Stray(r.ledger) == Stray(e.ledger) + Overwritten(e, i, q, reply) * e.ledger.rec.active
            && (Exact(e.ledger) ==> (Exact(r.ledger) <==> !Deceives(e, i, q, reply)))
  {
    hide Held, On, InfoHandles, UnivHandles, InfosOn, UnivsOn, Distinct, Matched, Accounted, Sequenced;
    var l := e.ledger;
    var r := EnableInfo(e, i, q, reply);
    HeldAt(l, i);
    if r.ledger != l {
      RecAccounted(l, l.infos[i].handle);
      PutInfo(l, i, r.ledger.infos[i], r.ledger.rec);
      PutSequenced(l, i, r.ledger.infos[i], r.ledger.rec);
    }
  }

  lemma RecAccounted(l: Ledger, h: Option<nat>)
    requires Accounted(l.rec) && Held(l) <= l.rec.live && AsSet(h) <= Held(l)
    ensures Accounted(Issue(l.rec)) && Accounted(Activate(Issue(l.rec), l.rec.issued))
    ensures h.Some? ==> Accounted(Activate(l.rec, h.value))
    ensures l.rec.issued !in l.rec.live && l.rec.issued !in l.rec.active && l.rec.issued !in Held(l)
  {
    hide Held;
    IssueAccounted(l.rec);
  }

  lemma PutSequenced(l: Ledger, i: nat, g: Info, rec: Recogniser)
    requires Sequenced(l) && i < |l.infos| && g.sequence == l.infos[i].sequence
    ensures Sequenced(l.(rec := rec, infos := l.infos[i := g]))
  {
  }

  lemma ActivateAccounted(r: Recogniser)
    requires Accounted(r)
    ensures forall h :: h in r.live ==> Accounted(Activate(r, h))
    ensures forall h :: Accounted(Deactivate(r, h))
  {
  }

  lemma {:induction false} EnableInfosKeep(e: Enabling, n: nat, q: Request, replies: nat -> Reply)
    requires Consistent(e.ledger) && n <= |e.ledger.infos|
    ensures var r := EnableInfos(e, n, q, replies);
            Consistent(r.ledger) && Lost(r.ledger) == Lost(e.ledger) + OverwrittenBelow(e, n, q, replies)
    decreases n
  {
    hide EnableInfo, Consistent, Lost, Overwritten;
    if n > 0 && e.ok {
      EnableInfoKeeps(e, n - 1, q, replies(n - 1));
      EnableInfosKeep(EnableInfo(e, n - 1, q, replies(n - 1)), n - 1, q, replies);
    }
  }

  lemma EnableUnivKeeps(e: Enabling, j: nat, q: Request, reply: Reply)
    requires Consistent(e.ledger) && j < |e.ledger.univs|
    ensures var r := EnableUniv(e, j, q, reply);
            && Consistent(r.ledger) && Lost(r.ledger) == Lost(e.ledger) && Stray(r.ledger) == Stray(e.ledger)
            && (Exact(e.ledger) ==> Exact(r.ledger))
  {
    hide Held, On, InfoHandles, UnivHandles, InfosOn, UnivsOn, Distinct, Accounted, Wants;
    var r := EnableUniv(e, j, q, reply);
    UnivHeldAt(e.ledger, j);
    if r.ledger != e.ledger {
      PutUniv(e.ledger, j, r.ledger.univs[j], r.ledger.rec);
      ActivateAccounted(e.ledger.rec);
    }
  }

  lemma {:induction false} EnableUnivsKeep(e: Enabling, j: nat, q: Request, replies: nat -> Reply)
    requires Consistent(e.ledger) && j <= |e.ledger.univs|
    ensures var r := EnableUnivs(e, j, q, replies);
            && Consistent(r.ledger) && Lost(r.ledger) == Lost(e.ledger) && Stray(r.ledger) == Stray(e.ledger)
            && (Exact(e.ledger) ==> Exact(r.ledger))
    decreases |e.ledger.univs| - j
  {
    hide EnableUniv, Consistent, Lost, Stray, Exact;
    if j < |e.ledger.univs| && e.ok {
      EnableUnivKeeps(e, j, q, replies(j));
      EnableUnivsKeep(EnableUniv(e, j, q, replies(j)), j + 1, q, replies);
    }
  }

  /** Everything a whole EnableGrammars call overwrites. */
  function OverwrittenBy(l: Ledger, op: Op): set<nat> {
    if op.EnableOp? then OverwrittenBelow(Enabling(l, true, false), |l.infos|, op.request, op.infoReplies) else {}
  }

  /** EnableGrammars keeps the invariant whatever fails on the way, and loses exactly the handles it
      overwrites. */
  lemma EnableKeeps(l: Ledger, q: Request, f: nat -> Reply, u: nat -> Reply)
    requires Consistent(l)
    ensures var r := Enable(l, q, f, u).ledger;
            Consistent(r) && Lost(r) == Lost(l) + OverwrittenBy(l, EnableOp(q, f, u))
  {
    hide Consistent, Lost, EnableInfos, EnableUnivs, OverwrittenBelow;
    EnableInfosKeep(Enabling(l, true, false), |l.infos|, q, f);
    EnableUnivsKeep(EnableInfos(Enabling(l, true, false), |l.infos|, q, f), 0, q, u);
  }

  // ----- Disabling -----

  lemma DisableInfoKeeps(l: Ledger, i: nat)
    requires Consistent(l) && i < |l.infos|
    ensures var r := DisableInfo(l, i);
            Consistent(r) && Lost(r) == Lost(l) && Stray(r) == Stray(l) && !r.infos[i].enabled
            && (l.infos[i].enabled && l.infos[i].dynamic ==> r.infos[i].handle.None?)
            && (!l.infos[i].enabled ==> r.infos[i] == l.infos[i])
            && r.infos[i].dynamic == l.infos[i].dynamic
  {
    hide Held, On, InfoHandles, UnivHandles, InfosOn, UnivsOn, Distinct, Accounted;
    var r := DisableInfo(l, i);
    HeldAt(l, i);
    if l.infos[i].enabled {
      var h := l.infos[i].handle.value;
      PutInfo(l, i, r.infos[i], r.rec);
      ActivateAccounted(l.rec);
      FreeAccounted(Deactivate(l.rec, h), h);
    }
  }

  lemma {:induction false} DisableInfosKeep(l: Ledger, n: nat)
    requires Consistent(l) && n <= |l.infos|
    ensures var r := DisableInfos(l, n);
            && Consistent(r) && Lost(r) == Lost(l) && Stray(r) == Stray(l)
            && (forall i :: 0 <= i < n ==> !r.infos[i].enabled && r.infos[i].dynamic == l.infos[i].dynamic)
            && (forall i :: 0 <= i < n && l.infos[i].enabled && l.infos[i].dynamic ==> r.infos[i].handle.None?)
            && (forall i :: 0 <= i < n && !l.infos[i].enabled ==> r.infos[i] == l.infos[i])
            && (forall i :: n <= i < |l.infos| ==> r.infos[i] == l.infos[i])
  {
    hide DisableInfo, Consistent, Lost, Stray;
    if n > 0 {
      DisableInfosKeep(l, n - 1);
      DisableInfoKeeps(DisableInfos(l, n - 1), n - 1);
    }
  }

  lemma DisableUnivKeeps(l: Ledger, j: nat)
    requires Consistent(l) && j < |l.univs|
    ensures var r := DisableUniv(l, j);
            Consistent(r) && Lost(r) == Lost(l) && Stray(r) == Stray(l) && !r.univs[j].enabled
  {
    hide Held, On, InfoHandles, UnivHandles, InfosOn, UnivsOn, Distinct, Accounted;
    var r := DisableUniv(l, j);
    UnivHeldAt(l, j);
    if l.univs[j].enabled {
      PutUniv(l, j, r.univs[j], r.rec);
      ActivateAccounted(l.rec);
    }
  }

  lemma {:induction false} DisableUnivsKeep(l: Ledger, n: nat)
    requires Consistent(l) && n <= |l.univs|
    ensures var r := DisableUnivs(l, n);
            && Consistent(r) && Lost(r) == Lost(l) && Stray(r) == Stray(l)
            && (forall j :: 0 <= j < n ==> !r.univs[j].enabled)
  {
    hide DisableUniv, Consistent, Lost, Stray;
    if n > 0 {
      DisableUnivsKeep(l, n - 1);
      DisableUnivKeeps(DisableUnivs(l, n - 1), n - 1);
    }
  }

  /** After DisableAllGrammars nothing is enabled and, of the held handles, none is active; what was
      lost or stray before still is. */
  lemma DisableKeeps(l: Ledger)
    requires Consistent(l)
    ensures var r := DisableAll(l);
            && Consistent(r) && Lost(r) == Lost(l) && Stray(r) == Stray(l) && On(r) == {}
            && r.rec.active == Stray(l)
            && (forall i :: 0 <= i < |l.infos| ==>
                  && !r.infos[i].enabled && r.infos[i].dynamic == l.infos[i].dynamic
                  && (l.infos[i].enabled && l.infos[i].dynamic ==> r.infos[i].handle.None?)
                  && (!l.infos[i].enabled ==> r.infos[i] == l.infos[i]))
  {
    hide DisableInfos, DisableUnivs, Distinct, Accounted, Held;
    DisableInfosKeep(l, |l.infos|);
    DisableUnivsKeep(DisableInfos(l, |l.infos|), |l.univs|);
    var r := DisableAll(l);
    assert On(r) == {};
    assert forall h :: h in r.rec.active && h in Held(r) ==> h in r.rec.active * Held(r);
    assert r.rec.active == Stray(r);
  }

  // ----- Releasing -----

  lemma ReleaseInfoKeeps(l: Ledger)
    requires Consistent(l) && l.infos != []
    ensures var r := ReleaseInfo(l); Consistent(r) && Lost(r) == Lost(l) && Stray(r) == Stray(l)
    ensures ReleaseInfo(l).rec.active * UnivHandles(l) == l.rec.active * UnivHandles(l)
  {
    hide Held, On, InfoHandles, UnivHandles, InfosOn, UnivsOn, Distinct, Accounted;
    var r := ReleaseInfo(l);
    OtherHandles(l);
    var i := |l.infos| - 1;
    HeldAt(l, i);
    DropInfo(l, r.rec);
    if l.infos[i].handle.Some? {
      ActivateAccounted(l.rec);
      FreeAccounted(l.rec, l.infos[i].handle.value);
      FreeAccounted(Deactivate(l.rec, l.infos[i].handle.value), l.infos[i].handle.value);
    }
  }

  lemma OtherHandles(l: Ledger)
    requires Distinct(l) && l.infos != []
    ensures AsSet(l.infos[|l.infos| - 1].handle) !! UnivHandles(l)
    ensures UnivHandles(ReleaseInfo(l)) == UnivHandles(l)
  {
    assert AsSet(l.infos[|l.infos| - 1].handle) <= InfoHandles(l);
  }

  lemma {:induction false} ReleaseInfosKeep(l: Ledger)
    requires Consistent(l)
    ensures var r := ReleaseInfos(l); Consistent(r) && Lost(r) == Lost(l) && Stray(r) == Stray(l)
    ensures ReleaseInfos(l).rec.active * UnivHandles(l) == l.rec.active * UnivHandles(l)
    decreases |l.infos|
  {
    hide ReleaseInfo, Consistent, Lost, Stray;
    if l.infos != [] {
      ReleaseInfoKeeps(l);
      assert UnivHandles(ReleaseInfo(l)) == UnivHandles(l);
      ReleaseInfosKeep(ReleaseInfo(l));
    }
  }

  lemma ReleaseUnivKeeps(l: Ledger)
    requires Consistent(l) && l.univs != []
    ensures var r := ReleaseUniv(l);
            var u := l.univs[|l.univs| - 1];
            Consistent(r) && Lost(r) == Lost(l) && Stray(r) == Stray(l) + l.rec.active * {u.handle}
            && r.rec.active == l.rec.active
  {
    hide Held, On, InfoHandles, UnivHandles, InfosOn, UnivsOn, Distinct, Accounted;
    var r := ReleaseUniv(l);
    var u := l.univs[|l.univs| - 1];
    UnivHeldAt(l, |l.univs| - 1);
    DropUniv(l, r.rec);
    FreeAccounted(l.rec, u.handle);
  }

  lemma {:induction false} ReleaseUnivsKeep(l: Ledger)
    requires Consistent(l)
    ensures var r := ReleaseUnivs(l); Consistent(r) && Lost(r) == Lost(l) && Stray(r) == Stray(l) + l.rec.active * UnivHandles(l)
    decreases |l.univs|
  {
    hide ReleaseUniv, Consistent, Lost, Stray;
    if l.univs != [] {
      ReleaseUnivKeeps(l);
      ReleaseUnivsKeep(ReleaseUniv(l));
      var n := |l.univs| - 1;
      var r := ReleaseUniv(l);
      assert forall k :: 0 <= k < n ==> r.univs[k] == l.univs[k];
      assert UnivHandles(l) == UnivHandles(r) + {l.univs[n].handle} by {
        forall h | h in UnivHandles(r) ensures h in UnivHandles(l) {
          var k :| 0 <= k < n && r.univs[k].handle == h;
          assert l.univs[k].handle == h;
        }
      }
    }
  }

  /** ReleaseGrammars frees every held handle and no other: what stays live is what was lost. A
      universal still active is freed all the same. */
  lemma ReleaseKeeps(l: Ledger)
    requires Consistent(l)
    ensures var r := Release(l);
            && Consistent(r) && r.rec.live == Lost(l) && r.rec.active == Stray(l) + l.rec.active * UnivHandles(l)
            && forall h: nat :: multiset(r.rec.freed)[h] == if h < r.rec.issued && h !in Lost(l) then 1 else 0
  {
    hide ReleaseInfos, ReleaseUnivs, Distinct, Accounted, Sequenced;
    ReleaseInfosKeep(l);
    var m := ReleaseInfos(l);
    ReleaseUnivsKeep(m);
    var r := Release(l);
    assert UnivHandles(m) == UnivHandles(l);
    assert m.rec.active * UnivHandles(m) == l.rec.active * UnivHandles(l);
    assert InfoHandles(r) == {} && UnivHandles(r) == {};
    assert r.rec.live == Lost(l);
    forall h: nat ensures multiset(r.rec.freed)[h] == if h < r.rec.issued && h !in Lost(l) then 1 else 0 {
      FreedOnce(r.rec, h);
    }
  }

  // ----- Runs -----

  lemma ApplyKeeps(l: Ledger, op: Op)
    requires Consistent(l)
    ensures Consistent(Apply(l, op)) && Lost(Apply(l, op)) == Lost(l) + OverwrittenBy(l, op)
  {
    hide Consistent, Lost, Enable, DisableAll, Release, OverwrittenBelow, AddStatic, AddDynamic, AddUniversal;
    match op {
      case EnableOp(q, f, u) => EnableKeeps(l, q, f, u);
      case DisableOp => DisableKeeps(l);
      case ReleaseOp =>
        ReleaseKeeps(l);
        LostAfterRelease(l);
      case LoadStatic(_) => LoadKeeps(l, op);
      case LoadDynamic(_) => LoadKeeps(l, op);
      case LoadUniversal(_) => LoadKeeps(l, op);
    }
  }

  lemma LostAfterRelease(l: Ledger)
    requires Release(l).rec.live == Lost(l)
    ensures Lost(Release(l)) == Lost(l)
  {
    assert Held(Release(l)) == {};
  }

  lemma EmptyConsistent()
    ensures Consistent(EMPTY) && Lost(EMPTY) == {}
  {
    assert InfoHandles(EMPTY) == {} && UnivHandles(EMPTY) == {} && On(EMPTY) == {};
  }

  /** Whatever the recogniser answers, every state of every run is consistent. */
  lemma {:induction false} RunConsistent(ops: seq<Op>)
    ensures Consistent(Run(EMPTY, ops))
  {
    hide Consistent;
    EmptyConsistent();
    if ops != [] {
      RunConsistent(ops[..|ops| - 1]);
      ApplyKeeps(Run(EMPTY, ops[..|ops| - 1]), ops[|ops| - 1]);
    }
  }

  /** No step of the run overwrites a handle. */
  ghost predicate Quiet(ops: seq<Op>) {
    forall k {:trigger ops[k]} :: 0 <= k < |ops| ==> OverwrittenBy(Run(EMPTY, ops[..k]), ops[k]) == {}
  }

  lemma QuietLast(ops: seq<Op>)
    requires ops != []
    ensures var n := |ops| - 1;
            Quiet(ops) <==> Quiet(ops[..n]) && OverwrittenBy(Run(EMPTY, ops[..n]), ops[n]) == {}
  {
    hide Run, OverwrittenBy;
    var n := |ops| - 1;
    assert forall k :: 0 <= k < n ==> ops[..n][k] == ops[k] && ops[..n][..k] == ops[..k];
  }

  lemma {:induction false} QuietLoses(ops: seq<Op>)
    ensures Lost(Run(EMPTY, ops)) == {} <==> Quiet(ops)
  {
    hide Consistent, Lost, Apply, OverwrittenBy, Quiet;
    if ops == [] {
      EmptyConsistent();
      assert Quiet(ops) by { NothingIsQuiet(); }
    } else {
      var n := |ops| - 1;
      QuietLoses(ops[..n]);
      RunConsistent(ops[..n]);
      ApplyKeeps(Run(EMPTY, ops[..n]), ops[n]);
      QuietLast(ops);
    }
  }

  lemma NothingIsQuiet()
    ensures Quiet([])
  {
  }

  /** A run loses a handle if and only if one of its EnableGrammars calls overwrote one. */
  lemma RunLoses(ops: seq<Op>)
    ensures Lost(Run(EMPTY, ops)) == {} <==>
            forall k {:trigger ops[k]} :: 0 <= k < |ops| ==> OverwrittenBy(Run(EMPTY, ops[..k]), ops[k]) == {}
  {
    hide Lost, Run, OverwrittenBy;
    QuietLoses(ops);
  }

  /** Disabling and releasing after any run: every handle the run was ever issued has been freed
      exactly once, except the lost ones, and only stray handles are left active. */
  lemma EveryHandleIsFreedOnce(ops: seq<Op>)
    ensures var l := Run(EMPTY, ops);
            var r := Run(EMPTY, ops + [DisableOp, ReleaseOp]);
            && r.rec.issued == l.rec.issued && r.rec.live == Lost(l) && r.rec.active == Stray(l)
            && forall h: nat :: multiset(r.rec.freed)[h] == if h < l.rec.issued && h !in Lost(l) then 1 else 0
  {
    hide Consistent, Lost, Stray, DisableAll, Release, On;
    var l := Run(EMPTY, ops);
    assert (ops + [DisableOp, ReleaseOp])[..|ops| + 1] == ops + [DisableOp];
    assert (ops + [DisableOp])[..|ops|] == ops;
    RunConsistent(ops);
    DisableKeeps(l);
    ReleaseKeeps(DisableAll(l));
    NothingOn(DisableAll(l));
    NoIssue(l);
  }

  lemma NothingOn(l: Ledger)
    requires Consistent(l) && On(l) == {}
    ensures l.rec.active * UnivHandles(l) == {}
  {
  }

  lemma NoIssue(l: Ledger)
    ensures Release(DisableAll(l)).rec.issued == l.rec.issued
  {
    DisableIssues(l, |l.infos|);
    DisableUnivsIssue(DisableInfos(l, |l.infos|), |l.univs|);
    ReleaseIssues(DisableAll(l));
    ReleaseUnivsIssue(ReleaseInfos(DisableAll(l)));
  }

  lemma DisableIssues(l: Ledger, n: nat)
    requires n <= |l.infos|
    ensures DisableInfos(l, n).rec.issued == l.rec.issued
  {
  }

  lemma DisableUnivsIssue(l: Ledger, n: nat)
    requires n <= |l.univs|
    ensures DisableUnivs(l, n).rec.issued == l.rec.issued
  {
  }

  lemma ReleaseIssues(l: Ledger)
    ensures ReleaseInfos(l).rec.issued == l.rec.issued
    decreases |l.infos|
  {
    if l.infos != [] { ReleaseIssues(ReleaseInfo(l)); }
  }

  lemma ReleaseUnivsIssue(l: Ledger)
    ensures ReleaseUnivs(l).rec.issued == l.rec.issued
    decreases |l.univs|
  {
    if l.univs != [] { ReleaseUnivsIssue(ReleaseUniv(l)); }
  }
}
