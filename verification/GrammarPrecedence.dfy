/** Precedence between matched grammars: universals first, then field, dialog and document scope, then
    document order. */
module GrammarPrecedence {
  import opened Wrappers
  import opened GrammarLedger
  import opened LedgerLaws
  import opened LedgerRuns

  ghost predicate HasUniversal(us: seq<Univ>, s: nat) {
    exists j :: 0 <= j < |us| && us[j].sequence == s
  }

  /** The last info with this sequence number. */
  function Find(infos: seq<Info>, s: nat): (r: Option<Info>)
    ensures r.Some? ==> r.value in infos && r.value.sequence == s
    ensures r.None? ==> forall g :: g in infos ==> g.sequence != s
  {
    if infos == [] then None
    else if infos[|infos| - 1].sequence == s then Some(infos[|infos| - 1])
    else Find(infos[..|infos| - 1], s)
  }

  const UNDETERMINED: nat := 4

  function ScopeRank(s: Scope): nat {
    match s
    case FieldScope => 1
    case DialogScope => 2
    case DocScope => 3
    case NoScope => UNDETERMINED
  }

  /** 0 for a universal, then the scope the grammar was activated for. */
  ghost function Rank(l: Ledger, s: nat): nat {
    if HasUniversal(l.univs, s) then 0
    else match Find(l.infos, s)
         case Some(g) => ScopeRank(g.activated)
         case None => UNDETERMINED
  }

  /** Lexicographic comparison of (rank, sequence), 1 for the higher precedence, where an undetermined
      rank compares only with a universal. */
  function Order(rankA: nat, a: nat, rankB: nat, b: nat): int {
    if (rankA == UNDETERMINED && rankB != 0) || (rankB == UNDETERMINED && rankA != 0) then 0
    else if rankA < rankB then 1
    else if rankA > rankB then -1
    else if a < b then 1
    else if a > b then -1
    else 0
  }

  ghost function Compare(l: Ledger, a: nat, b: nat): int {
    Order(Rank(l, a), a, Rank(l, b), b)
  }

  /** The number belongs to an enabled grammar. */
  ghost predicate EnabledNumber(l: Ledger, s: nat) {
    || (exists i :: 0 <= i < |l.infos| && l.infos[i].sequence == s && l.infos[i].enabled)
    || (exists j :: 0 <= j < |l.univs| && l.univs[j].sequence == s && l.univs[j].enabled)
  }

  /** The number belongs to the enabled grammar that holds the handle. */
  ghost predicate EnabledHolder(l: Ledger, h: nat, s: nat) {
    || (exists i :: 0 <= i < |l.infos| && l.infos[i].handle == Some(h) && l.infos[i].sequence == s && l.infos[i].enabled)
    || (exists j :: 0 <= j < |l.univs| && l.univs[j].handle == h && l.univs[j].sequence == s && l.univs[j].enabled)
  }

  lemma {:induction false} FindsOnly(infos: seq<Info>, i: nat)
    requires i < |infos| && forall j, k :: 0 <= j < k < |infos| ==> infos[j].sequence < infos[k].sequence
    ensures Find(infos, infos[i].sequence) == Some(infos[i])
  {
    if i < |infos| - 1 {
      FindsOnly(infos[..|infos| - 1], i);
    }
  }

  lemma EnabledIsRanked(l: Ledger, s: nat)
    requires Consistent(l) && EnabledNumber(l, s)
    ensures Rank(l, s) < UNDETERMINED
  {
    hide Held, On, Accounted, Distinct;
    if !HasUniversal(l.univs, s) {
      var i :| 0 <= i < |l.infos| && l.infos[i].sequence == s && l.infos[i].enabled;
      FindsOnly(l.infos, i);
      assert Flags(l.infos[i]);
    }
  }

  /** On the enabled grammars of a consistent ledger CompareGrammar is a strict total order. */
  lemma PrecedenceIsTotal(l: Ledger, a: nat, b: nat, c: nat)
    requires Consistent(l) && EnabledNumber(l, a) && EnabledNumber(l, b) && EnabledNumber(l, c)
    ensures Compare(l, a, b) == -Compare(l, b, a)
    ensures Compare(l, a, b) == 0 <==> a == b
    ensures Compare(l, a, b) == 1 && Compare(l, b, c) == 1 ==> Compare(l, a, c) == 1
    ensures Compare(l, a, b) == 1 <==> Rank(l, a) < Rank(l, b) || (Rank(l, a) == Rank(l, b) && a < b)
  {
    hide Consistent, Rank, EnabledNumber;
    EnabledIsRanked(l, a);
    EnabledIsRanked(l, b);
    EnabledIsRanked(l, c);
  }

  // ----- What the order is -----

  /** Field before dialog before document. */
  predicate Narrower(s: Scope, t: Scope) {
    (s == FieldScope && (t == DialogScope || t == DocScope)) || (s == DialogScope && t == DocScope)
  }

  lemma UniversalOrNot(l: Ledger, i: nat)
    requires Sequenced(l) && i < |l.infos|
    ensures !HasUniversal(l.univs, l.infos[i].sequence) && Find(l.infos, l.infos[i].sequence) == Some(l.infos[i])
  {
    FindsOnly(l.infos, i);
  }

  /** Between two ordinary grammars: the one activated for the narrower scope has precedence, and
      within one scope the one loaded first; nothing can be told while one is not activated. */
  lemma NarrowerScopeFirst(l: Ledger, i: nat, k: nat)
    requires Sequenced(l) && i < |l.infos| && k < |l.infos|
    ensures var g, h := l.infos[i], l.infos[k];
            var c := Compare(l, g.sequence, h.sequence);
            && (Narrower(g.activated, h.activated) ==> c == 1)
            && (Narrower(h.activated, g.activated) ==> c == -1)
            && (g.activated == h.activated != NoScope ==> c == if i < k then 1 else if i > k then -1 else 0)
            && (g.activated == NoScope || h.activated == NoScope ==> c == 0)
  {
    hide HasUniversal;
    UniversalOrNot(l, i);
    UniversalOrNot(l, k);
  }

  /** A universal has precedence over every ordinary grammar, activated or not. */
  lemma UniversalsFirst(l: Ledger, j: nat, i: nat)
    requires Sequenced(l) && j < |l.univs| && i < |l.infos|
    ensures Compare(l, l.univs[j].sequence, l.infos[i].sequence) == 1
    ensures Compare(l, l.infos[i].sequence, l.univs[j].sequence) == -1
  {
    UniversalOrNot(l, i);
    assert HasUniversal(l.univs, l.univs[j].sequence);
  }

  /** Among universals the one loaded first has precedence. */
  lemma TwoUniversals(l: Ledger, j: nat, k: nat)
    requires Sequenced(l) && j < |l.univs| && k < |l.univs|
    ensures Compare(l, l.univs[j].sequence, l.univs[k].sequence) == if j < k then 1 else if j > k then -1 else 0
  {
    assert HasUniversal(l.univs, l.univs[j].sequence) && HasUniversal(l.univs, l.univs[k].sequence);
  }

  /** a and b are numbers of grammars, and the grammar of a has precedence, said of their entries. */
  ghost predicate Before(l: Ledger, a: nat, b: nat) {
    || (exists j, k :: 0 <= j < k < |l.univs| && l.univs[j].sequence == a && l.univs[k].sequence == b)
    || (exists j, i :: 0 <= j < |l.univs| && 0 <= i < |l.infos| && l.univs[j].sequence == a && l.infos[i].sequence == b)
    || (exists i, k :: 0 <= i < |l.infos| && 0 <= k < |l.infos| && l.infos[i].sequence == a && l.infos[k].sequence == b
                       && (Narrower(l.infos[i].activated, l.infos[k].activated)
                           || (l.infos[i].activated == l.infos[k].activated != NoScope && i < k)))
  }

  /** On enabled grammars the comparison is exactly this order. */
  lemma CompareIsBefore(l: Ledger, a: nat, b: nat)
    requires Consistent(l) && EnabledNumber(l, a) && EnabledNumber(l, b)
    ensures Compare(l, a, b) == 1 <==> Before(l, a, b)
    ensures Compare(l, a, b) == -1 <==> Before(l, b, a)
  {
    hide Consistent, Compare, Distinct, Accounted, Held, On, EnabledNumber, Before;
    assert Sequenced(l) by { ConsistentIsSequenced(l); }
    if Before(l, a, b) { BeforeWins(l, a, b); }
    if Before(l, b, a) { BeforeWins(l, b, a); }
    PrecedenceIsTotal(l, a, b, a);
    if a != b { SomeWins(l, a, b); }
  }

  lemma ConsistentIsSequenced(l: Ledger)
    requires Consistent(l)
    ensures Sequenced(l)
  {
  }

  lemma BeforeWins(l: Ledger, a: nat, b: nat)
    requires Sequenced(l) && Before(l, a, b)
    ensures Compare(l, a, b) == 1
  {
    hide Compare, Narrower;
    if j, k :| 0 <= j < k < |l.univs| && l.univs[j].sequence == a && l.univs[k].sequence == b {
      TwoUniversals(l, j, k);
    } else if j, i :| 0 <= j < |l.univs| && 0 <= i < |l.infos| && l.univs[j].sequence == a && l.infos[i].sequence == b {
      UniversalsFirst(l, j, i);
    } else {
      var i, k :| 0 <= i < |l.infos| && 0 <= k < |l.infos| && l.infos[i].sequence == a && l.infos[k].sequence == b
                  && (Narrower(l.infos[i].activated, l.infos[k].activated)
                      || (l.infos[i].activated == l.infos[k].activated != NoScope && i < k));
      NarrowerScopeFirst(l, i, k);
    }
  }

  lemma SomeWins(l: Ledger, a: nat, b: nat)
    requires Consistent(l) && EnabledNumber(l, a) && EnabledNumber(l, b) && a != b
    ensures Before(l, a, b) || Before(l, b, a)
  {
    hide Distinct, Accounted, Sequenced, Held, On, Before, Narrower;
    if j :| 0 <= j < |l.univs| && l.univs[j].sequence == a {
      if k :| 0 <= k < |l.univs| && l.univs[k].sequence == b {
        UniversalsCompare(l, j, k);
      } else {
        var i :| 0 <= i < |l.infos| && l.infos[i].sequence == b && l.infos[i].enabled;
        UniversalCompares(l, j, i);
      }
    } else {
      var i :| 0 <= i < |l.infos| && l.infos[i].sequence == a && l.infos[i].enabled;
      if k :| 0 <= k < |l.univs| && l.univs[k].sequence == b {
        UniversalCompares(l, k, i);
      } else {
        var k :| 0 <= k < |l.infos| && l.infos[k].sequence == b && l.infos[k].enabled;
        assert Flags(l.infos[i]) && Flags(l.infos[k]);
        InfosCompare(l, i, k);
      }
    }
  }

  lemma UniversalsCompare(l: Ledger, j: nat, k: nat)
    requires j < |l.univs| && k < |l.univs| && j != k
    ensures Before(l, l.univs[j].sequence, l.univs[k].sequence) || Before(l, l.univs[k].sequence, l.univs[j].sequence)
  {
    assert j < k || k < j;
  }

  lemma UniversalCompares(l: Ledger, j: nat, i: nat)
    requires j < |l.univs| && i < |l.infos|
    ensures Before(l, l.univs[j].sequence, l.infos[i].sequence)
  {
  }

  lemma InfosCompare(l: Ledger, i: nat, k: nat)
    requires i < |l.infos| && k < |l.infos| && i != k && l.infos[i].activated != NoScope && l.infos[k].activated != NoScope
    ensures Before(l, l.infos[i].sequence, l.infos[k].sequence) || Before(l, l.infos[k].sequence, l.infos[i].sequence)
  {
    assert i < k || k < i;
  }

  /** So it is in every state that loads, enables, disables and releases can reach. */
  lemma PrecedenceIsTotalOnRuns(ops: seq<Op>, a: nat, b: nat, c: nat)
    requires var l := Run(EMPTY, ops); EnabledNumber(l, a) && EnabledNumber(l, b) && EnabledNumber(l, c)
    ensures var l := Run(EMPTY, ops);
            && Compare(l, a, b) == -Compare(l, b, a)
            && (Compare(l, a, b) == 0 <==> a == b)
            && (Compare(l, a, b) == 1 && Compare(l, b, c) == 1 ==> Compare(l, a, c) == 1)
  {
    hide Consistent, EnabledNumber, Compare, Run;
    RunConsistent(ops);
    PrecedenceIsTotal(Run(EMPTY, ops), a, b, c);
  }
}
