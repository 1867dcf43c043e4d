/** What every run of loads, enables, disables and releases keeps, and exactly when a handle is lost. */
module LedgerLaws {
  import opened Wrappers
  import opened GrammarLedger

  // ----- Holders -----

  function AsSet(h: Option<nat>): set<nat> {
    if h.Some? then {h.value} else {}
  }

  function InfoHandles(l: Ledger): set<nat> {
    set i | 0 <= i < |l.infos| && l.infos[i].handle.Some? :: l.infos[i].handle.value
  }

  function UnivHandles(l: Ledger): set<nat> {
    set j | 0 <= j < |l.univs| :: l.univs[j].handle
  }

  function Held(l: Ledger): set<nat> {
    InfoHandles(l) + UnivHandles(l)
  }

  function InfosOn(l: Ledger): set<nat> {
    set i | 0 <= i < |l.infos| && l.infos[i].handle.Some? && l.infos[i].enabled :: l.infos[i].handle.value
  }

  function UnivsOn(l: Ledger): set<nat> {
    set j | 0 <= j < |l.univs| && l.univs[j].enabled :: l.univs[j].handle
  }

  /** The handles of the enabled grammars. */
  function On(l: Ledger): set<nat> {
    InfosOn(l) + UnivsOn(l)
  }

  /** Live in the recogniser and held by nobody: these can never be freed. */
  function Lost(l: Ledger): set<nat> {
    l.rec.live - Held(l)
  }

  ghost predicate Distinct(l: Ledger) {
    && (forall i, j :: 0 <= i < j < |l.infos| && l.infos[i].handle.Some? ==> l.infos[i].handle != l.infos[j].handle)
    && (forall i, j :: 0 <= i < j < |l.univs| ==> l.univs[i].handle != l.univs[j].handle)
    && InfoHandles(l) !! UnivHandles(l)
  }

  /** Every handle issued is either live or freed, once. */
  ghost predicate Accounted(r: Recogniser) {
    && (forall h: nat :: h < r.issued <==> h in r.live || h in r.freed)
    && (forall h: nat :: !(h in r.live && h in r.freed))
    && (forall i, j :: 0 <= i < j < |r.freed| ==> r.freed[i] != r.freed[j])
    && (forall h :: h in r.active ==> h < r.issued)
  }

  ghost predicate Flags(g: Info) {
    && (g.enabled ==> g.handle.Some?)
    && (!g.dynamic ==> g.handle.Some?)
    && (g.enabled <==> g.activated != NoScope)
  }

  ghost predicate Sequenced(l: Ledger) {
    && (forall i, j :: 0 <= i < j < |l.infos| ==> l.infos[i].sequence < l.infos[j].sequence)
    && (forall i, j :: 0 <= i < j < |l.univs| ==> l.univs[i].sequence < l.univs[j].sequence)
    && (forall i, j :: 0 <= i < |l.infos| && 0 <= j < |l.univs| ==> l.infos[i].sequence != l.univs[j].sequence)
    && (forall i :: 0 <= i < |l.infos| ==> l.infos[i].sequence <= l.sequence)
    && (forall j :: 0 <= j < |l.univs| ==> l.univs[j].sequence <= l.sequence)
  }

  /** The invariant: each held handle is live and has one holder, and of the held handles only those
      of enabled grammars are active. */
  ghost predicate Consistent(l: Ledger) {
    && Distinct(l) && Accounted(l.rec) && Sequenced(l)
    && (forall i :: 0 <= i < |l.infos| ==> Flags(l.infos[i]))
    && Held(l) <= l.rec.live
    && l.rec.active * Held(l) <= On(l)
  }

  /** The stronger claim that the grammars flagged as enabled are the ones that are active. */
  ghost predicate Exact(l: Ledger) {
    On(l) <= l.rec.active
  }

  // ----- Changing one entry -----

  lemma PutInfo(l: Ledger, i: nat, g: Info, rec: Recogniser)
    requires Distinct(l) && i < |l.infos|
    requires g.handle.Some? ==> g.handle == l.infos[i].handle || g.handle.value !in Held(l)
    ensures var r := l.(rec := rec, infos := l.infos[i := g]);
            && Distinct(r)
            && Held(r) == Held(l) - AsSet(l.infos[i].handle) + AsSet(g.handle)
            && On(r) == On(l) - AsSet(l.infos[i].handle) + (if g.enabled then AsSet(g.handle) else {})
  {
    var r := l.(rec := rec, infos := l.infos[i := g]);
    PutHandle(l, i, g, r);
    PutOn(l, i, g, r);
    assert AsSet(l.infos[i].handle) <= InfoHandles(l) by {
      assert l.infos[i].handle.Some? ==> l.infos[i].handle.value in InfoHandles(l);
    }
    assert UnivHandles(r) == UnivHandles(l) && UnivsOn(r) == UnivsOn(l) <= UnivHandles(l);
    assert Distinct(r) by {
      hide UnivHandles, InfosOn, UnivsOn;
      assert forall k :: 0 <= k < |l.infos| && l.infos[k].handle.Some? ==> l.infos[k].handle.value in InfoHandles(l);
    }
  }

  lemma PutHandle(l: Ledger, i: nat, g: Info, r: Ledger)
    requires Distinct(l) && i < |l.infos| && r.infos == l.infos[i := g]
    ensures InfoHandles(r) == InfoHandles(l) - AsSet(l.infos[i].handle) + AsSet(g.handle)
  {
    hide UnivHandles;
    assert forall k :: 0 <= k < |l.infos| && k != i ==> r.infos[k] == l.infos[k];
    forall h | h in InfoHandles(l) - AsSet(l.infos[i].handle) + AsSet(g.handle) ensures h in InfoHandles(r) {
      if h in AsSet(g.handle) {
        assert r.infos[i].handle.value == h;
      } else {
        var k :| 0 <= k < |l.infos| && l.infos[k].handle == Some(h);
        assert r.infos[k].handle == Some(h);
      }
    }
  }

  lemma PutOn(l: Ledger, i: nat, g: Info, r: Ledger)
    requires Distinct(l) && i < |l.infos| && r.infos == l.infos[i := g]
    ensures InfosOn(r) == InfosOn(l) - AsSet(l.infos[i].handle) + (if g.enabled then AsSet(g.handle) else {})
  {
    hide UnivHandles, InfoHandles;
    assert forall k :: 0 <= k < |l.infos| && k != i ==> r.infos[k] == l.infos[k];
    forall h | h in InfosOn(l) - AsSet(l.infos[i].handle) + (if g.enabled then AsSet(g.handle) else {}) ensures h in InfosOn(r) {
      if g.enabled && h in AsSet(g.handle) {
        assert r.infos[i].handle.value == h;
      } else {
        var k :| 0 <= k < |l.infos| && l.infos[k].handle == Some(h) && l.infos[k].enabled;
        assert r.infos[k].handle == Some(h);
      }
    }
  }

  lemma PutUniv(l: Ledger, j: nat, u: Univ, rec: Recogniser)
    requires Distinct(l) && j < |l.univs| && u.handle == l.univs[j].handle
    ensures var r := l.(rec := rec, univs := l.univs[j := u]);
            && Distinct(r) && Held(r) == Held(l)
            && On(r) == On(l) - {u.handle} + (if u.enabled then {u.handle} else {})
  {
    var r := l.(rec := rec, univs := l.univs[j := u]);
    assert forall k :: 0 <= k < |l.univs| ==> r.univs[k].handle == l.univs[k].handle;
    assert UnivHandles(r) == UnivHandles(l) by {
      forall h | h in UnivHandles(l) ensures h in UnivHandles(r) {
        var k :| 0 <= k < |l.univs| && l.univs[k].handle == h;
        assert r.univs[k].handle == h;
      }
    }
    assert UnivsOn(r) == UnivsOn(l) - {u.handle} + (if u.enabled then {u.handle} else {}) by {
      assert r.univs[j] == u;
      forall h | h in UnivsOn(l) - {u.handle} ensures h in UnivsOn(r) {
        var k :| 0 <= k < |l.univs| && l.univs[k].handle == h && l.univs[k].enabled;
        assert r.univs[k] == l.univs[k];
      }
    }
    assert InfoHandles(r) == InfoHandles(l) && InfosOn(r) == InfosOn(l);
    assert l.univs[j].handle in UnivHandles(l);
    assert InfosOn(l) <= InfoHandles(l);
  }

  lemma AppendInfo(l: Ledger, g: Info, rec: Recogniser, sequence: nat)
    requires Distinct(l) && !g.enabled && (g.handle.Some? ==> g.handle.value !in Held(l))
    ensures var r := l.(rec := rec, infos := l.infos + [g], sequence := sequence);
            Distinct(r) && Held(r) == Held(l) + AsSet(g.handle) && On(r) == On(l)
  {
    var r := l.(rec := rec, infos := l.infos + [g], sequence := sequence);
    assert forall k :: 0 <= k < |l.infos| ==> r.infos[k] == l.infos[k];
    assert r.infos[|l.infos|] == g;
    assert forall k :: 0 <= k < |l.infos| && l.infos[k].handle.Some? ==> l.infos[k].handle.value in InfoHandles(l);
    assert InfoHandles(r) == InfoHandles(l) + AsSet(g.handle) by {
      forall h | h in InfoHandles(l) ensures h in InfoHandles(r) {
        var k :| 0 <= k < |l.infos| && l.infos[k].handle == Some(h);
        assert r.infos[k].handle == Some(h);
      }
    }
    assert InfosOn(r) == InfosOn(l) by {
      forall h | h in InfosOn(l) ensures h in InfosOn(r) {
        var k :| 0 <= k < |l.infos| && l.infos[k].handle == Some(h) && l.infos[k].enabled;
        assert r.infos[k].handle == Some(h);
      }
    }
    assert UnivHandles(r) == UnivHandles(l) && UnivsOn(r) == UnivsOn(l);
  }

  lemma AppendUniv(l: Ledger, u: Univ, rec: Recogniser, sequence: nat)
    requires Distinct(l) && !u.enabled && u.handle !in Held(l)
    ensures var r := l.(rec := rec, univs := l.univs + [u], sequence := sequence);
            Distinct(r) && Held(r) == Held(l) + {u.handle} && On(r) == On(l)
  {
    var r := l.(rec := rec, univs := l.univs + [u], sequence := sequence);
    assert forall k :: 0 <= k < |l.univs| ==> r.univs[k] == l.univs[k];
    assert r.univs[|l.univs|] == u;
    assert forall k :: 0 <= k < |l.univs| ==> l.univs[k].handle in UnivHandles(l);
    assert UnivHandles(r) == UnivHandles(l) + {u.handle} by {
      forall h | h in UnivHandles(l) ensures h in UnivHandles(r) {
        var k :| 0 <= k < |l.univs| && l.univs[k].handle == h;
        assert r.univs[k].handle == h;
      }
    }
    assert UnivsOn(r) == UnivsOn(l) by {
      forall h | h in UnivsOn(l) ensures h in UnivsOn(r) {
        var k :| 0 <= k < |l.univs| && l.univs[k].handle == h && l.univs[k].enabled;
        assert r.univs[k].handle == h;
      }
    }
    assert InfoHandles(r) == InfoHandles(l) && InfosOn(r) == InfosOn(l);
  }

  lemma DropInfo(l: Ledger, rec: Recogniser)
    requires Distinct(l) && l.infos != []
    ensures var g := l.infos[|l.infos| - 1];
            var r := l.(rec := rec, infos := l.infos[..|l.infos| - 1]);
            && Distinct(r) && Held(r) == Held(l) - AsSet(g.handle) && On(r) == On(l) - AsSet(g.handle)
  {
    var n := |l.infos| - 1;
    var r := l.(rec := rec, infos := l.infos[..n]);
    AppendBack(l, r);
    assert l.infos == r.infos + [l.infos[n]];
    assert forall h :: h in InfoHandles(r) ==> h in InfoHandles(l) && Some(h) != l.infos[n].handle by {
      forall h | h in InfoHandles(r) ensures h in InfoHandles(l) && Some(h) != l.infos[n].handle {
        var k :| 0 <= k < n && r.infos[k].handle == Some(h);
        assert l.infos[k].handle == Some(h);
      }
    }
    assert l.infos[n].handle.Some? ==> l.infos[n].handle.value in InfoHandles(l);
  }

  lemma AppendBack(l: Ledger, r: Ledger)
    requires l.infos != [] && r.infos == l.infos[..|l.infos| - 1] && r.univs == l.univs
    ensures InfoHandles(l) == InfoHandles(r) + AsSet(l.infos[|l.infos| - 1].handle)
    ensures InfosOn(r) <= InfosOn(l) <= InfosOn(r) + AsSet(l.infos[|l.infos| - 1].handle)
    ensures UnivHandles(r) == UnivHandles(l) && UnivsOn(r) == UnivsOn(l)
    ensures InfosOn(r) <= InfoHandles(r) && UnivsOn(r) <= UnivHandles(r)
  {
    var n := |l.infos| - 1;
    assert forall k :: 0 <= k < n ==> r.infos[k] == l.infos[k];
    forall h | h in InfoHandles(r) + AsSet(l.infos[n].handle) ensures h in InfoHandles(l) {
      if h in InfoHandles(r) {
        var k :| 0 <= k < n && r.infos[k].handle == Some(h);
        assert l.infos[k].handle == Some(h);
      } else {
        assert l.infos[n].handle == Some(h);
      }
    }
    forall h | h in InfosOn(r) ensures h in InfosOn(l) {
      var k :| 0 <= k < n && r.infos[k].handle == Some(h) && r.infos[k].enabled;
      assert l.infos[k].handle == Some(h);
    }
  }

  lemma DropUniv(l: Ledger, rec: Recogniser)
    requires Distinct(l) && l.univs != []
    ensures var u := l.univs[|l.univs| - 1];
            var r := l.(rec := rec, univs := l.univs[..|l.univs| - 1]);
            && Distinct(r) && Held(r) == Held(l) - {u.handle} && On(r) == On(l) - {u.handle} && u.handle in Held(l)
  {
    var n := |l.univs| - 1;
    var u := l.univs[n];
    var r := l.(rec := rec, univs := l.univs[..n]);
    assert forall k :: 0 <= k < n ==> r.univs[k] == l.univs[k];
    assert u.handle in UnivHandles(l);
    assert UnivHandles(r) == UnivHandles(l) - {u.handle} by {
      forall h | h in UnivHandles(l) - {u.handle} ensures h in UnivHandles(r) {
        var k :| 0 <= k < |l.univs| && l.univs[k].handle == h;
        assert r.univs[k].handle == h;
      }
    }
    assert UnivsOn(r) == UnivsOn(l) - {u.handle} by {
      forall h | h in UnivsOn(l) - {u.handle} ensures h in UnivsOn(r) {
        var k :| 0 <= k < |l.univs| && l.univs[k].handle == h && l.univs[k].enabled;
        assert r.univs[k].handle == h;
      }
    }
    assert InfoHandles(r) == InfoHandles(l) && InfosOn(r) == InfosOn(l);
    assert InfosOn(l) <= InfoHandles(l);
  }
}
