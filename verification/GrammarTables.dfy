/** The grammar tables as objects: infos whose handle and flags are set in place, and the loops that
    enable, disable and release them against the recogniser. */
module GrammarTables {
  import opened Wrappers
  import opened GrammarLedger
  import opened LedgerLaws
  import opened LedgerRuns
  import opened GrammarPrecedence

  /** The recogniser. Only live handles may be passed to it. */
  class VXIrecInterface {
    var state: Recogniser

    constructor ()
      ensures state == EMPTY.rec
    {
      state := EMPTY.rec;
    }

    method LoadGrammar() returns (h: nat)
      modifies this
      ensures h == old(state).issued && state == Issue(old(state))
    {
      h := state.issued;
      state := Issue(state);
    }

    method ActivateGrammar(h: nat)
      requires h in state.live
      modifies this
      ensures state == Activate(old(state), h)
    {
      state := Activate(state, h);
    }

    method DeactivateGrammar(h: nat)
      requires h in state.live
      modifies this
      ensures state == Deactivate(old(state), h)
    {
      state := Deactivate(state, h);
    }

    method FreeGrammar(h: nat)
      requires h in state.live
      modifies this
      ensures state == Free(old(state), h)
    {
      state := Free(state, h);
    }
  }

  class GrammarInfo {
    var recgrammar: Option<nat>
    var enabled: bool
    var activatedScope: Scope
    const scope: Scope
    const field: string
    const dialog: string
    const docID: string
    const dynamic: bool
    const grammarSeq: nat

    constructor (g: Info)
      ensures View() == g
    {
      recgrammar, enabled, activatedScope := g.handle, g.enabled, g.activated;
      scope, field, dialog, docID, dynamic, grammarSeq := g.scope, g.field, g.dialog, g.doc, g.dynamic, g.sequence;
    }

    function View(): Info
      reads this
    {
      Info(recgrammar, dynamic, scope, field, dialog, docID, grammarSeq, enabled, activatedScope)
    }
  }

  class GrammarInfoUniv {
    const recgrammar: nat
    const name: string
    const grammarSeq: nat
    var enabled: bool

    constructor (u: Univ)
      ensures View() == u
    {
      recgrammar, name, grammarSeq, enabled := u.handle, u.name, u.sequence, u.enabled;
    }

    function View(): Univ
      reads this
    {
      Univ(recgrammar, name, grammarSeq, enabled)
    }
  }

  class GrammarManager {
    const vxirec: VXIrecInterface
    var grammars: seq<GrammarInfo>
    var universals: seq<GrammarInfoUniv>
    var grammarSequence: nat

    ghost function View(): Ledger
      reads this, vxirec, grammars, universals
    {
      Ledger(vxirec.state,
             seq(|grammars|, i requires 0 <= i < |grammars| reads this, grammars => grammars[i].View()),
             seq(|universals|, j requires 0 <= j < |universals| reads this, universals => universals[j].View()),
             grammarSequence)
    }

    ghost predicate Valid()
      reads this, vxirec, grammars, universals
    {
      && (forall i, j :: 0 <= i < j < |grammars| ==> grammars[i] != grammars[j])
      && (forall i, j :: 0 <= i < j < |universals| ==> universals[i] != universals[j])
      && Consistent(View())
    }

    constructor ()
      ensures Valid() && View() == EMPTY && fresh(vxirec)
    {
      vxirec := new VXIrecInterface();
      grammars, universals, grammarSequence := [], [], 0;
      new;
      EmptyConsistent();
      assert View() == EMPTY;
    }

    /** A static grammar that the recogniser has loaded, or a dynamic one kept for later. */
    method AddGrammar(g: Info)
      requires Valid()
      modifies this, vxirec
      ensures Valid() && View() == Apply(old(View()), if g.dynamic then LoadDynamic(g) else LoadStatic(g))
      ensures |grammars| == |old(grammars)| + 1 && grammars[..|old(grammars)|] == old(grammars)
      ensures fresh(grammars[|old(grammars)|]) && universals == old(universals)
    {
      hide Consistent, Lost, Stray, Exact, On, Held;
      ghost var op := if g.dynamic then LoadDynamic(g) else LoadStatic(g);
      LoadKeeps(View(), op);
      var handle: Option<nat> := None;
      if !g.dynamic {
        var h := vxirec.LoadGrammar();
        handle := Some(h);
      }
      grammarSequence := grammarSequence + 1;
      var gp := new GrammarInfo(g.(handle := handle, sequence := grammarSequence, enabled := false, activated := NoScope));
      grammars := grammars + [gp];
      assert View() == Apply(old(View()), op);
    }

    method AddUniversalGrammar(name: string)
      requires Valid()
      modifies this, vxirec
      ensures Valid() && View() == Apply(old(View()), LoadUniversal(name))
      ensures |universals| == |old(universals)| + 1 && universals[..|old(universals)|] == old(universals)
      ensures fresh(universals[|old(universals)|]) && grammars == old(grammars)
    {
      hide Consistent, Lost, Stray, Exact, On, Held;
      LoadKeeps(View(), LoadUniversal(name));
      var h := vxirec.LoadGrammar();
      grammarSequence := grammarSequence + 1;
      var gp := new GrammarInfoUniv(Univ(h, name, grammarSequence, false));
      universals := universals + [gp];
      assert View() == Apply(old(View()), LoadUniversal(name));
    }

    /** One ordinary grammar: load it first if it is dynamic, activate it, and mark it. */
    // The field first, then the dialog, then the document; the last two not for a modal request.
    method MatchedScope(g: GrammarInfo, q: Request) returns (cScope: Scope)
      ensures cScope == Matched(g.View(), q)
    {
      var docsMatch := g.docID == q.doc;
      var dialogsMatch := docsMatch && g.dialog == q.dialog;
      var fieldsMatch := dialogsMatch && g.field == q.field;
      var fieldGram := q.field != "" && fieldsMatch;
      var dialogGram := !q.modal && g.scope == DialogScope && dialogsMatch;
      var docGram := !q.modal && g.scope == DocScope;
      cScope := NoScope;
      if fieldGram {
        cScope := FieldScope;
      } else if dialogGram {
        cScope := DialogScope;
      } else if docGram {
        cScope := DocScope;
      }
    }

    /** Nothing but one entry and the recogniser has changed. */
    twostate lemma OneInfoChanged(i: nat)
      requires i < |grammars| && grammars == old(grammars) && universals == old(universals)
      requires forall k, l :: 0 <= k < l < |grammars| ==> grammars[k] != grammars[l]
      requires forall k :: 0 <= k < |grammars| && k != i ==> unchanged(grammars[k])
      requires forall k :: 0 <= k < |universals| ==> unchanged(universals[k])
      requires grammarSequence == old(grammarSequence)
      ensures View() == old(View()).(rec := vxirec.state, infos := old(View()).infos[i := grammars[i].View()])
    {
      forall k | 0 <= k < |grammars| && k != i ensures grammars[k].View() == old(grammars[k].View()) {
        assert unchanged(grammars[k]);
      }
      forall j | 0 <= j < |universals| ensures universals[j].View() == old(universals[j].View()) {
        assert unchanged(universals[j]);
      }
      assert View().infos == old(View()).infos[i := grammars[i].View()];
    }

    method EnableGrammar(i: nat, q: Request, reply: Reply, ghost any: bool) returns (ok: bool, enabled: bool)
      requires Valid() && i < |grammars|
      modifies vxirec, grammars[i]
      ensures Valid()
      ensures Enabling(View(), ok, any || enabled) == EnableInfo(Enabling(old(View()), true, any), i, q, reply)
    {
      hide Consistent, Matched, Lost, Stray, Exact, On, Held, Overwritten, Deceives;
      EnableInfoKeeps(Enabling(View(), true, any), i, q, reply);
      InfoAt(View(), i);
      ok, enabled := true, false;
      var g := grammars[i];
      var cScope := MatchedScope(g, q);
      assert View().infos[i] == g.View();
      hide View;
      if cScope == NoScope { return; }
      if g.dynamic {
        if reply == EvalFails || reply == LoadFails { return false, false; }
        var vg := vxirec.LoadGrammar();
        g.recgrammar := Some(vg);
      }
      if reply == ActivateFails || g.recgrammar.None? {
        OneInfoChanged(i);
        return false, false;
      }
      vxirec.ActivateGrammar(g.recgrammar.value);
      g.enabled, g.activatedScope := true, cScope;
      enabled := true;
      OneInfoChanged(i);
    }

    method EnableUniversal(j: nat, q: Request, reply: Reply, ghost any: bool) returns (ok: bool, enabled: bool)
      requires Valid() && j < |universals|
      modifies vxirec, universals[j]
      ensures Valid()
      ensures Enabling(View(), ok, any || enabled) == EnableUniv(Enabling(old(View()), true, any), j, q, reply)
    {
      hide Consistent, Wants;
      EnableUnivKeeps(Enabling(View(), true, any), j, q, reply);
      UnivAt(View(), j);
      ok, enabled := true, false;
      var u := universals[j];
      assert View().univs[j] == u.View();
      if !Wants(q.universals, u.name) { return; }
      if reply != Fine { return false, false; }
      vxirec.ActivateGrammar(u.recgrammar);
      u.enabled := true;
      enabled := true;
      assert View() == EnableUniv(Enabling(old(View()), true, any), j, q, reply).ledger;
    }

    /** Activates, last loaded first, the grammars whose scope matches, then the universals asked
        for; false for ok when an event is thrown on the way. */
    method EnableGrammars(q: Request, infoReplies: nat -> Reply, univReplies: nat -> Reply) returns (ok: bool, enabled: bool)
      requires Valid()
      modifies vxirec, grammars, universals
      ensures Valid()
      ensures Enabling(View(), ok, enabled) == Enable(old(View()), q, infoReplies, univReplies)
    {
      hide Consistent, EnableInfo, EnableUniv;
      ok, enabled := true, false;
      ghost var afterInfos := EnableInfos(Enabling(View(), true, false), |grammars|, q, infoReplies);
      ghost var target := EnableUnivs(afterInfos, 0, q, univReplies);
      var i := |grammars|;
      while i != 0
        invariant 0 <= i <= |grammars| && Valid() && ok
        invariant EnableInfos(Enabling(View(), true, enabled), i, q, infoReplies) == afterInfos
      {
        i := i - 1;
        var more;
        ok, more := EnableGrammar(i, q, infoReplies(i), enabled);
        enabled := enabled || more;
        if !ok { return; }
      }
      var j := 0;
      while j < |universals|
        invariant 0 <= j <= |universals| && Valid() && ok
        invariant EnableUnivs(Enabling(View(), true, enabled), j, q, univReplies) == target
      {
        var more;
        ok, more := EnableUniversal(j, q, univReplies(j), enabled);
        enabled := enabled || more;
        j := j + 1;
        if !ok { return; }
      }
    }

    method DisableGrammar(i: nat)
      requires Valid() && i < |grammars|
      modifies vxirec, grammars[i]
      ensures Valid() && View() == DisableInfo(old(View()), i)
    {
      hide Consistent;
      assert Consistent(DisableInfo(View(), i)) by { DisableInfoKeeps(View(), i); }
      InfoAt(View(), i);
      var g := grammars[i];
      assert View().infos[i] == g.View();
      if g.enabled && g.recgrammar.Some? {
        vxirec.DeactivateGrammar(g.recgrammar.value);
        g.enabled, g.activatedScope := false, NoScope;
        if g.dynamic {
          vxirec.FreeGrammar(g.recgrammar.value);
          g.recgrammar := None;
        }
      }
      assert View() == DisableInfo(old(View()), i);
    }

    method DisableUniversal(j: nat)
      requires Valid() && j < |universals|
      modifies vxirec, universals[j]
      ensures Valid() && View() == DisableUniv(old(View()), j)
    {
      hide Consistent;
      DisableUnivKeeps(View(), j);
      UnivAt(View(), j);
      var u := universals[j];
      assert View().univs[j] == u.View();
      if u.enabled {
        vxirec.DeactivateGrammar(u.recgrammar);
        u.enabled := false;
      }
      assert View() == DisableUniv(old(View()), j);
    }

    method DisableAllGrammars()
      requires Valid()
      modifies vxirec, grammars, universals
      ensures Valid() && View() == DisableAll(old(View()))
    {
      hide Consistent, DisableInfo, DisableUniv;
      var i := 0;
      while i < |grammars|
        invariant 0 <= i <= |grammars| && Valid() && View() == DisableInfos(old(View()), i)
      {
        DisableGrammar(i);
        i := i + 1;
      }
      var j := 0;
      while j < |universals|
        invariant 0 <= j <= |universals| && Valid()
        invariant View() == DisableUnivs(DisableInfos(old(View()), |grammars|), j)
      {
        DisableUniversal(j);
        j := j + 1;
      }
    }

    method ReleaseLast()
      requires Valid() && grammars != []
      modifies this, vxirec
      ensures Valid() && View() == ReleaseInfo(old(View()))
      ensures grammars == old(grammars)[..|old(grammars)| - 1] && universals == old(universals)
    {
      hide Consistent;
      ReleaseInfoKeeps(View());
      InfoAt(View(), |grammars| - 1);
      var gp := grammars[|grammars| - 1];
      assert View().infos[|grammars| - 1] == gp.View();
      grammars := grammars[..|grammars| - 1];
      if gp.recgrammar.Some? {
        if gp.enabled { vxirec.DeactivateGrammar(gp.recgrammar.value); }
        vxirec.FreeGrammar(gp.recgrammar.value);
      }
      assert View() == ReleaseInfo(old(View()));
    }

    method ReleaseLastUniversal()
      requires Valid() && universals != []
      modifies this, vxirec
      ensures Valid() && View() == ReleaseUniv(old(View()))
      ensures universals == old(universals)[..|old(universals)| - 1] && grammars == old(grammars)
    {
      hide Consistent;
      ReleaseUnivKeeps(View());
      UnivAt(View(), |universals| - 1);
      var gp := universals[|universals| - 1];
      assert View().univs[|universals| - 1] == gp.View();
      universals := universals[..|universals| - 1];
      vxirec.FreeGrammar(gp.recgrammar);
      assert View() == ReleaseUniv(old(View()));
    }

    method ReleaseGrammars()
      requires Valid()
      modifies this, vxirec
      ensures Valid() && View() == Release(old(View()))
    {
      hide Consistent, ReleaseInfo, ReleaseUniv;
      while grammars != []
        invariant Valid() && ReleaseInfos(View()) == ReleaseInfos(old(View()))
        decreases |grammars|
      {
        ReleaseLast();
      }
      while universals != []
        invariant Valid() && grammars == [] && ReleaseUnivs(View()) == Release(old(View()))
        decreases |universals|
      {
        ReleaseLastUniversal();
      }
    }

    // The scan over the universals.
    method AreUniversal(grammar1: nat, grammar2: nat) returns (first: bool, second: bool)
      requires Valid()
      ensures (first <==> HasUniversal(View().univs, grammar1)) && (second <==> HasUniversal(View().univs, grammar2))
    {
      hide Consistent;
      first, second := false, false;
      var j := 0;
      while j < |universals|
        invariant 0 <= j <= |universals|
        invariant first <==> HasUniversal(View().univs[..j], grammar1)
        invariant second <==> HasUniversal(View().univs[..j], grammar2)
      {
        var temp := universals[j].grammarSeq;
        ghost var us := View().univs;
        assert us[..j + 1] == us[..j] + [us[j]] && us[j].sequence == temp;
        if temp == grammar1 { first := true; }
        if temp == grammar2 { second := true; }
        j := j + 1;
      }
      assert View().univs[..j] == View().univs;
    }

    // The scan over the other grammars; the last of equal numbers counts.
    method FindInfos(grammar1: nat, grammar2: nat) returns (info1: GrammarInfo?, info2: GrammarInfo?)
      requires Valid()
      ensures (if info1 == null then None else Some(info1.View())) == Find(View().infos, grammar1)
      ensures (if info2 == null then None else Some(info2.View())) == Find(View().infos, grammar2)
    {
      hide Consistent, Find, Found;
      info1, info2 := null, null;
      ghost var infos := View().infos;
      assert forall k :: 0 <= k < |grammars| ==> infos[k] == grammars[k].View();
      NoneFound(infos, grammar1);
      NoneFound(infos, grammar2);
      var i := 0;
      while i < |grammars|
        invariant 0 <= i <= |grammars|
        invariant Found(if info1 == null then None else Some(info1.View()), infos, i, grammar1)
        invariant Found(if info2 == null then None else Some(info2.View()), infos, i, grammar2)
      {
        var temp := grammars[i].grammarSeq;
        FoundStep(if info1 == null then None else Some(info1.View()), infos, i, grammar1);
        FoundStep(if info2 == null then None else Some(info2.View()), infos, i, grammar2);
        if temp == grammar1 { info1 := grammars[i]; }
        if temp == grammar2 { info2 := grammars[i]; }
        i := i + 1;
      }
      AllFound(if info1 == null then None else Some(info1.View()), infos, grammar1);
      AllFound(if info2 == null then None else Some(info2.View()), infos, grammar2);
    }

    /** 1 when the first grammar has precedence, -1 when the second has, 0 when that cannot be told. */
    method CompareGrammar(grammar1: nat, grammar2: nat) returns (r: int)
      requires Valid()
      ensures r == Compare(View(), grammar1, grammar2)
    {
      hide Consistent, HasUniversal, Find;
      var firstIsUniversal, secondIsUniversal := AreUniversal(grammar1, grammar2);
      if firstIsUniversal && secondIsUniversal {
        return if grammar1 < grammar2 then 1 else if grammar1 > grammar2 then -1 else 0;
      }
      if firstIsUniversal { return 1; }
      if secondIsUniversal { return -1; }

      var info1, info2 := FindInfos(grammar1, grammar2);
      if info1 != null && info2 != null {
        var s1, s2 := info1.activatedScope, info2.activatedScope;
        if info1 == info2 { return 0; }
        if s1 == NoScope || s2 == NoScope { return 0; }
        if ScopeRank(s1) < ScopeRank(s2) { return 1; }
        if ScopeRank(s1) > ScopeRank(s2) { return -1; }
        return if info1.grammarSeq < info2.grammarSeq then 1 else if info1.grammarSeq > info2.grammarSeq then -1 else 0;
      }
      r := 0;
    }

    /** The sequence number of the enabled grammar that holds the handle the recogniser matched. */
    method FindMatchedElement(bestGrammar: nat) returns (r: Option<nat>)
      requires Valid()
      ensures r.Some? <==> bestGrammar in On(View())
      ensures r.Some? ==> EnabledHolder(View(), bestGrammar, r.value)
    {
      ghost var l := View();
      var i := 0;
      while i < |grammars|
        invariant 0 <= i <= |grammars|
        invariant forall k :: 0 <= k < i ==> l.infos[k].handle != Some(bestGrammar)
      {
        assert l.infos[i] == grammars[i].View();
        if grammars[i].recgrammar == Some(bestGrammar) {
          HeldAt(l, i);
          return if grammars[i].enabled then Some(grammars[i].grammarSeq) else None;
        }
        i := i + 1;
      }
      assert bestGrammar !in InfosOn(l);
      var j := 0;
      while j < |universals|
        invariant 0 <= j <= |universals|
        invariant forall k :: 0 <= k < j ==> l.univs[k].handle != bestGrammar
      {
        assert l.univs[j] == universals[j].View();
        if universals[j].recgrammar == bestGrammar {
          UnivHeldAt(l, j);
          return if universals[j].enabled then Some(universals[j].grammarSeq) else None;
        }
        j := j + 1;
      }
      r := None;
    }
  }

  /** What the scan has found in the first i entries. */
  predicate Found(info: Option<Info>, infos: seq<Info>, i: nat, number: nat) {
    i <= |infos| && info == Find(infos[..i], number)
  }

  lemma NoneFound(infos: seq<Info>, number: nat)
    ensures Found(None, infos, 0, number)
  {
  }

  lemma FoundStep(info: Option<Info>, infos: seq<Info>, i: nat, number: nat)
    requires i < |infos| && Found(info, infos, i, number)
    ensures Found(if infos[i].sequence == number then Some(infos[i]) else info, infos, i + 1, number)
  {
    assert infos[..i + 1][..i] == infos[..i];
  }

  lemma AllFound(info: Option<Info>, infos: seq<Info>, number: nat)
    requires Found(info, infos, |infos|, number)
    ensures info == Find(infos, number)
  {
    assert infos[..|infos|] == infos;
  }

  lemma InfoAt(l: Ledger, i: nat)
    requires Consistent(l) && i < |l.infos|
    ensures l.infos[i].handle.Some? ==> l.infos[i].handle.value in l.rec.live
    ensures !l.infos[i].dynamic || l.infos[i].enabled ==> l.infos[i].handle.Some?
  {
    HeldAt(l, i);
  }

  lemma UnivAt(l: Ledger, j: nat)
    requires Consistent(l) && j < |l.univs|
    ensures l.univs[j].handle in l.rec.live
  {
    UnivHeldAt(l, j);
  }
}
