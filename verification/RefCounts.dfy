/** Shared documents: reference counts kept against a global list of the representations that exist.
    Each method of DocumentModel is one critical section of the document mutex. */
module RefCounts {

  class VXMLDocumentRep {
    var count: int

    constructor ()
      ensures count == 1
    {
      count := 1;
    }
  }

  /** A handle. */
  class VXMLDocument {
    var internals: VXMLDocumentRep?

    constructor ()
      ensures internals == null
    {
      internals := null;
    }
  }

  // ----- Counting references -----

  type Refs = map<VXMLDocument, VXMLDocumentRep?>

  ghost function Holders(refs: Refs, r: VXMLDocumentRep): set<VXMLDocument> {
    set h | h in refs && refs[h] == r
  }

  ghost function One(t: VXMLDocumentRep?, r: VXMLDocumentRep): nat {
    if t == r then 1 else 0
  }

  lemma Without(s: set<VXMLDocument>, x: VXMLDocument)
    ensures |s - {x}| == |s| - (if x in s then 1 else 0)
  {
  }

  lemma SetOne(refs: Refs, d: VXMLDocument, t: VXMLDocumentRep?, r: VXMLDocumentRep)
    ensures |Holders(refs[d := t], r)| == |Holders(refs, r)| - (if d in refs then One(refs[d], r) else 0) + One(t, r)
  {
    var now := refs[d := t];
    assert forall h :: h != d ==> (h in Holders(now, r) <==> h in Holders(refs, r));
    assert Holders(now, r) - {d} == Holders(refs, r) - {d};
    Without(Holders(now, r), d);
    Without(Holders(refs, r), d);
  }

  lemma DropOne(refs: Refs, d: VXMLDocument, r: VXMLDocumentRep)
    requires d in refs
    ensures |Holders(refs - {d}, r)| == |Holders(refs, r)| - One(refs[d], r)
  {
    assert Holders(refs - {d}, r) == Holders(refs, r) - {d};
  }

  /** How many references each listed representation has. */
  type Counts = map<VXMLDocumentRep, int>

  /** One state as values: the counts of the listed representations, the existing handles, the
      references held by builders, those that nothing holds any more, and what has been destroyed. */
  datatype State = State(
    counts: Counts, refs: Refs, owners: multiset<VXMLDocumentRep>, forgotten: multiset<VXMLDocumentRep>,
    destroyed: multiset<VXMLDocumentRep>)

  ghost function References(s: State, r: VXMLDocumentRep): int {
    |Holders(s.refs, r)| + s.owners[r] + s.forgotten[r]
  }

  /** The list names exactly what is referred to, with the exact number of references; handles never
      dangle; nothing is destroyed twice or while listed. */
  ghost predicate Exact(s: State) {
    && (forall r :: r in s.counts ==> s.counts[r] == References(s, r) && s.counts[r] > 0)
    && (forall h :: h in s.refs && s.refs[h] != null ==> s.refs[h] in s.counts)
    && (forall r :: r in s.owners ==> r in s.counts)
    && (forall r :: r in s.forgotten ==> r in s.counts)
    && (forall r :: r in s.destroyed ==> r !in s.counts && s.destroyed[r] == 1)
  }

  /** One reference to t fewer; the last one takes t off the list and destroys it. */
  ghost function Less(s: State, t: VXMLDocumentRep?): State {
    if t == null || t !in s.counts then s
    else if s.counts[t] == 1 then s.(counts := s.counts - {t}, destroyed := s.destroyed + multiset{t})
    else s.(counts := s.counts[t := s.counts[t] - 1])
  }

  ghost function More(s: State, t: VXMLDocumentRep?): State {
    if t == null || t !in s.counts then s else s.(counts := s.counts[t := s.counts[t] + 1])
  }

  lemma NoReferences(s: State, t: VXMLDocumentRep)
    ensures References(s, t) >= 0
    ensures References(s, t) == 0 ==> t !in s.owners && t !in s.forgotten && forall h :: h in s.refs ==> s.refs[h] != t
  {
    hide Holders;
    NothingDangles(s.refs, t);
  }

  lemma SetReference(s: State, d: VXMLDocument, u: VXMLDocumentRep?, r: VXMLDocumentRep)
    ensures References(s.(refs := s.refs[d := u]), r)
            == References(s, r) - (if d in s.refs then One(s.refs[d], r) else 0) + One(u, r)
  {
    hide Holders;
    SetOne(s.refs, d, u, r);
  }

  lemma DropReference(s: State, d: VXMLDocument, r: VXMLDocumentRep)
    requires d in s.refs
    ensures References(s.(refs := s.refs - {d}), r) == References(s, r) - One(s.refs[d], r)
  {
    hide Holders;
    DropOne(s.refs, d, r);
  }

  lemma SameReferences(s: State, e: State, r: VXMLDocumentRep)
    requires e.refs == s.refs
    ensures References(e, r) == References(s, r) - s.owners[r] - s.forgotten[r] + e.owners[r] + e.forgotten[r]
  {
    hide Holders;
  }

  lemma HandleIsListed(s: State, x: VXMLDocument)
    requires Exact(s) && x in s.refs && s.refs[x] != null
    ensures s.refs[x] in s.counts
  {
    hide Holders;
  }

  lemma DropsOwner(s: State, t: VXMLDocumentRep)
    requires Exact(s) && t in s.owners
    ensures Exact(Less(s, t).(owners := s.owners - multiset{t}))
  {
    hide Holders;
    NothingDangles(s.refs, t);
  }

  lemma DropsHandle(s: State, d: VXMLDocument)
    requires Exact(s) && d in s.refs
    ensures Exact(Less(s, s.refs[d]).(refs := s.refs - {d}))
  {
    hide References;
    var t := s.refs[d];
    var e := Less(s, t).(refs := s.refs - {d});
    forall r ensures References(e, r) == References(s, r) - One(t, r) {
      DropReference(s, d, r);
      SameReferences(s.(refs := s.refs - {d}), e, r);
    }
    if t != null { NoReferences(e, t); }
  }

  lemma MovesOwner(s: State, d: VXMLDocument, x: VXMLDocumentRep)
    requires Exact(s) && d !in s.refs && x in s.owners
    ensures Exact(s.(refs := s.refs[d := x], owners := s.owners - multiset{x}))
  {
    hide References;
    var e := s.(refs := s.refs[d := x], owners := s.owners - multiset{x});
    forall r ensures References(e, r) == References(s, r) {
      SetReference(s, d, x, r);
      SameReferences(s.(refs := s.refs[d := x]), e, r);
    }
  }

  lemma TakesTooMany(s: State, d: VXMLDocument, x: VXMLDocumentRep)
    requires Exact(s) && d !in s.refs && x in s.counts && x !in s.owners
    ensures !Exact(s.(refs := s.refs[d := x], owners := s.owners - multiset{x}))
  {
    hide Holders;
    var e := s.(refs := s.refs[d := x], owners := s.owners - multiset{x});
    SetOne(s.refs, d, x, x);
    assert e.counts[x] != References(e, x);
  }

  lemma AddsHandle(s: State, d: VXMLDocument, x: VXMLDocumentRep?)
    requires Exact(s) && d !in s.refs && (x != null ==> x in s.counts)
    ensures Exact(More(s, x).(refs := s.refs[d := x]))
  {
    hide References;
    var e := More(s, x).(refs := s.refs[d := x]);
    forall r ensures References(e, r) == References(s, r) + One(x, r) {
      SetReference(s, d, x, r);
      SameReferences(s.(refs := s.refs[d := x]), e, r);
    }
  }

  lemma AddsRep(s: State, r: VXMLDocumentRep)
    requires Exact(s) && r !in s.counts && r !in s.destroyed
    ensures Exact(s.(counts := s.counts[r := 1], owners := s.owners + multiset{r}))
  {
    hide Holders;
    NoHolder(s.refs, r);
  }

  /** The reference moves; t is destroyed only if d was all that referred to it, and never when t is u. */
  lemma MovesHandle(s: State, d: VXMLDocument, x: VXMLDocument)
    requires Exact(s) && d in s.refs && x in s.refs && d != x && s.refs[x] != null
    ensures var u := s.refs[x]; u in Less(s, s.refs[d]).counts
    ensures var u := s.refs[x]; Exact(More(Less(s, s.refs[d]), u).(refs := s.refs[d := u]))
  {
    hide Exact, Holders;
    var t, u := s.refs[d], s.refs[x];
    DropsHandle(s, d);
    var s1 := Less(s, t).(refs := s.refs - {d});
    HandleIsListed(s1, x);
    AddsHandle(s1, d, u);
    assert s1.refs[d := u] == s.refs[d := u];
  }

  lemma ForgetsHandle(s: State, d: VXMLDocument)
    requires Exact(s) && d in s.refs
    ensures var t := s.refs[d];
            Exact(s.(refs := s.refs[d := null], forgotten := s.forgotten + (if t == null then multiset{} else multiset{t})))
  {
    hide References;
    var t := s.refs[d];
    var e := s.(refs := s.refs[d := null], forgotten := s.forgotten + (if t == null then multiset{} else multiset{t}));
    forall r ensures References(e, r) == References(s, r) {
      SetReference(s, d, null, r);
      SameReferences(s.(refs := s.refs[d := null]), e, r);
    }
  }

  /** The global list; the other fields record who refers to what. */
  class DocumentModel {
    var gblDocRep: seq<VXMLDocumentRep>
    ghost var refs: Refs
    ghost var owners: multiset<VXMLDocumentRep>
    ghost var forgotten: multiset<VXMLDocumentRep>
    ghost var destroyed: multiset<VXMLDocumentRep>

    ghost function ListedCounts(): Counts
      reads this`gblDocRep, gblDocRep
    {
      map r | r in gblDocRep :: r.count
    }

    ghost function View(): State
      reads this, gblDocRep
    {
      State(ListedCounts(), refs, owners, forgotten, destroyed)
    }

    ghost predicate NoRepeats()
      reads this`gblDocRep
    {
      forall i, j :: 0 <= i < j < |gblDocRep| ==> gblDocRep[i] != gblDocRep[j]
    }

    ghost predicate Valid()
      reads this, gblDocRep, refs.Keys
    {
      NoRepeats() && Exact(View()) && forall h :: h in refs ==> h.internals == refs[h]
    }

    /** Sets a handle and its record, whatever it referred to before. */
    method Point(d: VXMLDocument, u: VXMLDocumentRep?)
      requires forall h :: h in refs && h != d ==> h.internals == refs[h]
      modifies this`refs, d
      ensures d.internals == u && View() == old(View()).(refs := old(refs)[d := u])
      ensures forall h :: h in refs ==> h.internals == refs[h]
    {
      hide ListedCounts;
      d.internals := u;
      refs := refs[d := u];
    }

    constructor ()
      ensures Valid() && View() == State(map[], map[], multiset{}, multiset{}, multiset{})
    {
      gblDocRep, refs, owners, forgotten, destroyed := [], map[], multiset{}, multiset{}, multiset{};
    }

    method IsValidDocRep(t: VXMLDocumentRep?) returns (rc: bool)
      ensures rc <==> t != null && t in View().counts
    {
      rc := false;
      if gblDocRep != [] && t != null {
        var i := 0;
        while i < |gblDocRep|
          invariant 0 <= i <= |gblDocRep| && t !in gblDocRep[..i]
        {
          if gblDocRep[i] == t { return true; }
          i := i + 1;
        }
      }
    }

    /** Takes a representation off the list. */
    method IfValidRemoveDocRep(t: VXMLDocumentRep)
      requires NoRepeats()
      modifies this`gblDocRep
      ensures NoRepeats() && forall r :: r in gblDocRep <==> r in old(gblDocRep) && r != t
    {
      var i := 0;
      while i < |gblDocRep|
        invariant 0 <= i <= |gblDocRep| && t !in gblDocRep[..i] && gblDocRep == old(gblDocRep)
      {
        if gblDocRep[i] == t {
          gblDocRep := gblDocRep[..i] + gblDocRep[i + 1..];
          return;
        }
        i := i + 1;
      }
    }

    method ReleaseAtomic(t: VXMLDocumentRep?) returns (rc: bool)
      requires NoRepeats()
      modifies this`gblDocRep, this`destroyed, t
      ensures NoRepeats() && View() == Less(old(View()), t)
      ensures rc <==> t != null && t in old(View()).counts
    {
      rc := IsValidDocRep(t);
      if rc {
        t.count := t.count - 1;
        if t.count == 0 {
          IfValidRemoveDocRep(t);
          destroyed := destroyed + multiset{t};
          assert ListedCounts() == old(ListedCounts()) - {t};
        } else {
          assert ListedCounts() == old(ListedCounts())[t := t.count];
        }
      }
    }

    method AddRefAtomic(t: VXMLDocumentRep?) returns (rc: bool)
      modifies t
      ensures View() == More(old(View()), t) && (rc <==> t != null && t in old(View()).counts)
    {
      rc := IsValidDocRep(t);
      if rc { t.count := t.count + 1; }
      assert View().counts == More(old(View()), t).counts;
    }

    /** A builder makes a representation for itself. */
    method NewRep() returns (r: VXMLDocumentRep)
      requires Valid()
      modifies this
      ensures Valid() && fresh(r)
      ensures View() == old(View()).(counts := old(View()).counts[r := 1], owners := old(owners) + multiset{r})
    {
      hide Exact, Holders;
      r := new VXMLDocumentRep();
      assert r !in destroyed;
      AddsRep(View(), r);
      gblDocRep := gblDocRep + [r];
      owners := owners + multiset{r};
      assert View().counts == old(View()).counts[r := 1];
    }

    /** A builder lets go of its representation. */
    method ReleaseOwner(t: VXMLDocumentRep)
      requires Valid() && t in owners
      modifies this, t
      ensures Valid() && View() == Less(old(View()), t).(owners := old(owners) - multiset{t})
    {
      hide Exact, Holders, Less, ListedCounts, NoRepeats;
      DropsOwner(View(), t);
      var rc := ReleaseAtomic(t);
      owners := owners - multiset{t};
    }

    /** A new handle on a listed representation, without counting. The counts stay exact if and only
        if a builder's reference was there to be taken over. */
    method TakeOver(r: VXMLDocumentRep) returns (d: VXMLDocument)
      requires Valid() && r in View().counts
      modifies this
      ensures fresh(d) && d.internals == r
      ensures View() == old(View()).(refs := old(refs)[d := r], owners := old(owners) - multiset{r})
      ensures Valid() <==> r in old(owners)
    {
      hide Exact, Holders, ListedCounts, NoRepeats;
      d := new VXMLDocument();
      if r in owners {
        MovesOwner(View(), d, r);
      } else {
        TakesTooMany(View(), d, r);
      }
      owners := owners - multiset{r};
      Point(d, r);
    }

    /** A new handle takes over a builder's reference, or starts a document of its own. Over a listed
        representation that no builder refers to it takes a reference nobody has: exactly then the
        counts are no longer exact. */
    method Wrap(x: VXMLDocumentRep?) returns (d: VXMLDocument)
      requires Valid()
      modifies this
      ensures fresh(d) && d.internals != null && refs == old(refs)[d := d.internals]
      ensures var s := old(View());
              && (if x != null && x in s.counts
                  then d.internals == x && View() == s.(refs := refs, owners := s.owners - multiset{x})
                  else fresh(d.internals) && View() == s.(refs := refs, counts := s.counts[d.internals := 1]))
              && (Valid() <==> !(x != null && x in s.counts && x !in s.owners))
    {
      hide Exact, Holders, NoRepeats;
      var r := x;
      var valid := IsValidDocRep(x);
      if !valid { r := NewRep(); }
      d := TakeOver(r);
    }

    /** The copy constructor; it throws when the original is not valid. */
    method Copy(x: VXMLDocument) returns (d: VXMLDocument, ok: bool)
      requires Valid() && x in refs
      modifies this, x.internals
      ensures Valid() && fresh(d) && (ok <==> old(x.internals) != null)
      ensures View() == More(old(View()), old(x.internals)).(refs := old(refs)[d := old(x.internals)])
    {
      hide Exact, Holders, More, ListedCounts, NoRepeats;
      d := new VXMLDocument();
      if x.internals != null { HandleIsListed(View(), x); }
      AddsHandle(View(), d, x.internals);
      var t := x.internals;
      ok := AddRefAtomic(t);
      if ok { d.internals := t; }
      refs := refs[d := d.internals];
    }

    /** The destructor. */
    method Destroy(d: VXMLDocument)
      requires Valid() && d in refs
      modifies this, d, d.internals
      ensures Valid() && View() == Less(old(View()), old(d.internals)).(refs := old(refs) - {d})
    {
      hide Exact, Holders, Less, ListedCounts, NoRepeats;
      DropsHandle(View(), d);
      var rc := ReleaseAtomic(d.internals);
      d.internals := null;
      refs := refs - {d};
    }

    /** operator=. Between different handles of valid documents the reference moves, and a document is
        never destroyed by assigning it to one of its own handles. Assigning a handle to itself, or
        an invalid one, throws and clears the target without dropping its reference, which nothing can
        drop any more. */
    method Assign(d: VXMLDocument, x: VXMLDocument) returns (ok: bool)
      requires Valid() && d in refs && x in refs
      modifies this, d, d.internals, x.internals
      ensures Valid() && (ok <==> d != x && old(x.internals) != null)
      ensures var s, t, u := old(View()), old(d.internals), old(x.internals);
              View() == if ok then More(Less(s, t), u).(refs := s.refs[d := u])
                        else s.(refs := s.refs[d := null],
                                forgotten := s.forgotten + (if t == null then multiset{} else multiset{t}))
    {
      hide Exact, Holders, Less, More, ListedCounts, NoRepeats;
      if x.internals != null { HandleIsListed(View(), x); }
      var valid := IsValidDocRep(x.internals);
      ok := d != x && valid;
      if ok {
        MoveReference(d, x);
      } else {
        ForgetReference(d);
      }
    }

    method MoveReference(d: VXMLDocument, x: VXMLDocument)
      requires Valid() && d in refs && x in refs && d != x && x.internals != null
      modifies this, d, d.internals, x.internals
      ensures Valid()
      ensures View() == More(Less(old(View()), old(d.internals)), old(x.internals)).(refs := old(refs)[d := old(x.internals)])
    {
      hide Exact, Holders, Less, More, ListedCounts, NoRepeats;
      MovesHandle(View(), d, x);
      var u := x.internals;
      var rc := ReleaseAtomic(d.internals);
      Point(d, u);
      rc := AddRefAtomic(u);
      LessMoreKeep(old(View()), old(d.internals), u, refs);
    }

    method ForgetReference(d: VXMLDocument)
      requires Valid() && d in refs
      modifies this, d
      ensures Valid()
      ensures var s, t := old(View()), old(d.internals);
              View() == s.(refs := s.refs[d := null], forgotten := s.forgotten + (if t == null then multiset{} else multiset{t}))
    {
      hide Exact, Holders, ListedCounts, NoRepeats;
      ForgetsHandle(View(), d);
      if d.internals != null { forgotten := forgotten + multiset{d.internals}; }
      assert forgotten == old(forgotten) + (if d.internals == null then multiset{} else multiset{d.internals});
      d.internals := null;
      refs := refs[d := null];
    }
  }

  lemma LessMoreKeep(s: State, t: VXMLDocumentRep?, u: VXMLDocumentRep?, refs: Refs)
    ensures More(Less(s, t).(refs := refs), u) == More(Less(s, t), u).(refs := refs)
    ensures Less(s, t).refs == s.refs
  {
  }

  lemma NoHolder(refs: Refs, r: VXMLDocumentRep)
    requires forall h :: h in refs ==> refs[h] != r
    ensures |Holders(refs, r)| == 0
  {
  }

  lemma NothingDangles(refs: Refs, t: VXMLDocumentRep)
    ensures |Holders(refs, t)| == 0 ==> forall h :: h in refs ==> refs[h] != t
  {
    if h :| h in refs && refs[h] == t {
      assert h in Holders(refs, t);
    }
  }

  /** A representation is listed exactly while a handle, a builder or a forgotten reference refers
      to it. */
  lemma ListedWhileReferred(s: State, r: VXMLDocumentRep)
    requires Exact(s)
    ensures r in s.counts <==> References(s, r) > 0
  {
    if References(s, r) > 0 && r !in s.owners && r !in s.forgotten {
      var h :| h in Holders(s.refs, r);
    }
  }

  /** Once no handle and no builder is left, only what an assignment forgot is still listed. */
  lemma OnlyForgottenIsLeft(s: State)
    requires Exact(s) && s.refs == map[] && s.owners == multiset{}
    ensures s.counts.Keys == set r | r in s.forgotten
  {
    forall r | r in s.counts ensures r in s.forgotten {
      NoHolder(s.refs, r);
    }
  }
}
