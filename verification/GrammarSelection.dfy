/** Which grammars a request enables, said of their fields and of the words of the universals
    property, for one grammar and for a whole call. */
module GrammarSelection {
  import opened Wrappers
  import opened GrammarLedger
  import opened LedgerLaws
  import opened LedgerRuns

  // ----- One grammar -----

  /** A grammar of the very field that asks. */
  predicate OfTheField(g: Info, q: Request) {
    q.field != "" && g.doc == q.doc && g.dialog == q.dialog && g.field == q.field
  }

  /** A dialog-scope grammar of the dialog that asks. */
  predicate OfTheDialog(g: Info, q: Request) {
    g.scope == DialogScope && g.doc == q.doc && g.dialog == q.dialog
  }

  /** A modal request takes the grammars of its field alone; any other also those of its dialog and
      all of document scope. */
  predicate Selected(g: Info, q: Request) {
    OfTheField(g, q) || (!q.modal && (OfTheDialog(g, q) || g.scope == DocScope))
  }

  /** The narrowest scope the grammar was selected for. */
  function SelectedFor(g: Info, q: Request): Scope {
    if OfTheField(g, q) then FieldScope else if OfTheDialog(g, q) then DialogScope else DocScope
  }

  /** One enabling step leaves every grammar alone that is not selected, and enables the others, with
      the scope they were selected for. */
  lemma EnableInfoSelects(e: Enabling, i: nat, q: Request, reply: Reply)
    requires i < |e.ledger.infos|
    ensures var g := e.ledger.infos[i];
            var r := EnableInfo(e, i, q, reply);
            && (!Selected(g, q) ==> r == e)
            && (Selected(g, q) && reply == Fine && (g.dynamic || g.handle.Some?) ==>
                  && r.ok && r.any
                  && r.ledger.infos[i].enabled && r.ledger.infos[i].activated == SelectedFor(g, q)
                  && r.ledger.infos[i].handle == (if g.dynamic then Some(e.ledger.rec.issued) else g.handle)
                  && r.ledger.rec.active == e.ledger.rec.active + {r.ledger.infos[i].handle.value})
  {
  }

  /** A modal request, such as a field's own, touches nothing but grammars of that field; without a
      field it touches nothing. */
  lemma ModalTouchesTheFieldOnly(e: Enabling, i: nat, q: Request, reply: Reply)
    requires i < |e.ledger.infos| && q.modal
    requires var g := e.ledger.infos[i];
             q.field == "" || g.doc != q.doc || g.dialog != q.dialog || g.field != q.field
    ensures EnableInfo(e, i, q, reply) == e
  {
  }

  // ----- A whole call -----

  lemma OneInfoSelected(e: Enabling, i: nat, q: Request)
    requires i < |e.ledger.infos| && (e.ledger.infos[i].dynamic || e.ledger.infos[i].handle.Some?) && e.ok
    ensures var r := EnableInfo(e, i, q, Fine);
            && r.ok && |r.ledger.infos| == |e.ledger.infos| && r.ledger.univs == e.ledger.univs
            && (r.any <==> e.any || Selected(e.ledger.infos[i], q))
            && (forall k :: 0 <= k < |e.ledger.infos| && k != i ==> r.ledger.infos[k] == e.ledger.infos[k])
            && Outcome(e.ledger.infos[i], r.ledger.infos[i], q)
  {
  }

  /** What a call without failures makes of one entry. */
  predicate Outcome(before: Info, after: Info, q: Request) {
    if Selected(before, q)
    then after.enabled && after.activated == SelectedFor(before, q) && after == before.(handle := after.handle, enabled := true, activated := after.activated)
    else after == before
  }

  lemma {:induction false} InfosSelected(e: Enabling, n: nat, q: Request, replies: nat -> Reply)
    requires n <= |e.ledger.infos| && e.ok
    requires forall i :: 0 <= i < n ==> (e.ledger.infos[i].dynamic || e.ledger.infos[i].handle.Some?) && replies(i) == Fine
    ensures var r := EnableInfos(e, n, q, replies);
            && r.ok && r.ledger.univs == e.ledger.univs
            && (r.any <==> e.any || exists i :: 0 <= i < n && Selected(e.ledger.infos[i], q))
            && (forall i :: 0 <= i < n ==> Outcome(e.ledger.infos[i], r.ledger.infos[i], q))
            && (forall i :: n <= i < |e.ledger.infos| ==> r.ledger.infos[i] == e.ledger.infos[i])
    decreases n
  {
    hide EnableInfo, Selected, Outcome;
    if n > 0 {
      OneInfoSelected(e, n - 1, q);
      InfosSelected(EnableInfo(e, n - 1, q, Fine), n - 1, q, replies);
    }
  }

  lemma {:induction false} UnivsSelected(e: Enabling, j: nat, q: Request, replies: nat -> Reply)
    requires j <= |e.ledger.univs| && e.ok
    requires forall i :: j <= i < |e.ledger.univs| ==> replies(i) == Fine
    ensures var r := EnableUnivs(e, j, q, replies);
            && r.ok && r.ledger.infos == e.ledger.infos && |r.ledger.univs| == |e.ledger.univs|
            && (forall i :: 0 <= i < |e.ledger.univs| ==>
                  r.ledger.univs[i] == if i >= j && Wants(q.universals, e.ledger.univs[i].name)
                                       then e.ledger.univs[i].(enabled := true) else e.ledger.univs[i])
            && (r.any <==> e.any || exists i :: j <= i < |e.ledger.univs| && Wants(q.universals, e.ledger.univs[i].name))
    decreases |e.ledger.univs| - j
  {
    hide Wants;
    if j < |e.ledger.univs| {
      UnivsSelected(EnableUniv(e, j, q, replies(j)), j + 1, q, replies);
    }
  }

  /** EnableGrammars when nothing fails: enabled afterwards are exactly the grammars that were and the
      selected ones, each with its scope, and the universals that were and those asked for. It reports
      whether there was any such. */
  lemma EnabledExactly(l: Ledger, q: Request, f: nat -> Reply, u: nat -> Reply)
    requires Consistent(l)
    requires (forall i :: 0 <= i < |l.infos| ==> f(i) == Fine) && (forall j :: 0 <= j < |l.univs| ==> u(j) == Fine)
    ensures var r := Enable(l, q, f, u);
            && r.ok && |r.ledger.infos| == |l.infos| && |r.ledger.univs| == |l.univs|
            && (forall i :: 0 <= i < |l.infos| ==>
                  && (r.ledger.infos[i].enabled <==> l.infos[i].enabled || Selected(l.infos[i], q))
                  && (Selected(l.infos[i], q) ==> r.ledger.infos[i].activated == SelectedFor(l.infos[i], q))
                  && (!Selected(l.infos[i], q) ==> r.ledger.infos[i] == l.infos[i]))
            && (forall j :: 0 <= j < |l.univs| ==>
                  (r.ledger.univs[j].enabled <==> l.univs[j].enabled || Wants(q.universals, l.univs[j].name)))
            && (r.any <==> (exists i :: 0 <= i < |l.infos| && Selected(l.infos[i], q))
                           || (exists j :: 0 <= j < |l.univs| && Wants(q.universals, l.univs[j].name)))
  {
    hide EnableInfos, EnableUnivs, Selected, Wants, Distinct, Accounted, Sequenced, Held, On;
    var e := Enabling(l, true, false);
    assert forall i :: 0 <= i < |l.infos| ==> Flags(l.infos[i]);
    InfosSelected(e, |l.infos|, q, f);
    UnivsSelected(EnableInfos(e, |l.infos|, q, f), 0, q, u);
  }

  // ----- Universals -----

  predicate IsSeparator(c: char) {
    c == ' ' || c == '\t' || c == '\r' || c == '\n' || c == '|'
  }

  predicate OneWord(s: string) {
    s != "" && forall i :: 0 <= i < |s| ==> !IsSeparator(s[i])
  }

  /** The pieces of s between separators; between neighbouring ones an empty piece. */
  function Pieces(s: string): (ps: seq<string>)
    ensures ps != []
  {
    if s == "" then [""]
    else
      var rest := Pieces(s[1..]);
      if IsSeparator(s[0]) then [""] + rest else [[s[0]] + rest[0]] + rest[1..]
  }

  lemma {:induction false} FirstPiece(w: string, s: string)
    requires forall i :: 0 <= i < |w| ==> !IsSeparator(w[i])
    ensures w + "|" <= Delimited(s) + "|" <==> w == Pieces(s)[0]
    decreases s
  {
    var d := Delimited(s) + "|";
    if s == "" {
      assert d == "|";
      if w != "" { assert (w + "|")[0] == w[0]; }
    } else {
      assert d[0] == if IsSeparator(s[0]) then '|' else s[0];
      if w == "" {
        assert w + "|" == "|";
      } else {
        assert w + "|" == [w[0]] + (w[1..] + "|") && d == [d[0]] + (Delimited(s[1..]) + "|");
        if !IsSeparator(s[0]) {
          FirstPiece(w[1..], s[1..]);
          assert w == [w[0]] + w[1..];
          assert w + "|" <= d <==> w[0] == d[0] && w[1..] + "|" <= Delimited(s[1..]) + "|" by {
            PrefixTail(w[0], w[1..] + "|", d[0], Delimited(s[1..]) + "|");
          }
        }
      }
    }
  }

  lemma PrefixTail(c: char, a: string, d: char, b: string)
    ensures [c] + a <= [d] + b <==> c == d && a <= b
  {
    if [c] + a <= [d] + b {
      assert ([c] + a)[0] == ([d] + b)[0];
      assert forall i :: 0 <= i < |a| ==> a[i] == ([c] + a)[i + 1] == ([d] + b)[i + 1] == b[i];
    }
  }

  lemma OccursStep(t: string, d: string)
    requires t != ""
    ensures Occurs(t, d) <==> d != "" && (t <= d || Occurs(t, d[1..]))
  {
  }

  lemma FirstDelimited(s: string)
    requires s != ""
    ensures Delimited(s) + "|" == [if IsSeparator(s[0]) then '|' else s[0]] + (Delimited(s[1..]) + "|")
    ensures Pieces(s)[1..] == if IsSeparator(s[0]) then Pieces(s[1..]) else Pieces(s[1..])[1..]
  {
  }

  lemma {:induction false} LaterPieces(w: string, s: string)
    requires OneWord(w)
    ensures Occurs("|" + w + "|", Delimited(s) + "|") <==> w in Pieces(s)[1..]
    decreases s
  {
    hide Occurs, Delimited, Pieces;
    var t, d := ['|'] + (w + "|"), Delimited(s) + "|";
    assert "|" + w + "|" == t;
    OccursStep(t, d);
    if s == "" {
      NoPieces();
      OccursStep(t, "");
      assert d == "|" && d[1..] == "" && |t| > 1;
    } else {
      var tail, ps := Delimited(s[1..]) + "|", Pieces(s[1..]);
      FirstDelimited(s);
      assert d[1..] == tail;
      LaterPieces(w, s[1..]);
      FirstPiece(w, s[1..]);
      PrefixTail('|', w + "|", d[0], tail);
      assert ps == [ps[0]] + ps[1..];
    }
  }

  lemma NoPieces()
    ensures Delimited("") == "" && Pieces("") == [""]
  {
  }

  lemma AnyPiece(w: string, s: string)
    requires OneWord(w)
    ensures Occurs("|" + w + "|", "|" + Delimited(s) + "|") <==> w in Pieces(s)
  {
    var d := "|" + Delimited(s) + "|";
    assert d == ['|'] + (Delimited(s) + "|") && d[1..] == Delimited(s) + "|";
    assert "|" + w + "|" == ['|'] + (w + "|");
    FirstPiece(w, s);
    LaterPieces(w, s);
    PrefixTail('|', w + "|", '|', Delimited(s) + "|");
    assert Pieces(s) == [Pieces(s)[0]] + Pieces(s)[1..];
  }

  lemma {:induction false} DelimitedIs(s: string, w: string)
    requires OneWord(w)
    ensures Delimited(s) == w <==> s == w
    decreases s
  {
    if s != "" {
      if |w| == 1 {
        assert w[1..] == "" && (Delimited(s[1..]) == "" <==> s[1..] == "");
      } else {
        assert OneWord(w[1..]);
        DelimitedIs(s[1..], w[1..]);
      }
      assert w == [w[0]] + w[1..] && s == [s[0]] + s[1..];
      assert Delimited(s)[1..] == Delimited(s[1..]);
    }
  }

  /** A universal is asked for when its name is one of the words of the property, or "all" is, unless
      the property is "none" alone; without the property none is. */
  lemma WantsIsAWord(universals: Option<string>, name: string)
    requires OneWord(name)
    ensures Wants(universals, name) <==>
            universals.Some? && universals.value != "none"
            && (name in Pieces(universals.value) || "all" in Pieces(universals.value))
  {
    if universals.Some? {
      var v := universals.value;
      hide Occurs, Delimited, Pieces;
      assert OneWord("all") && OneWord("none");
      assert "|" + "all" + "|" == "|all|" && "|" + "none" + "|" == "|none|";
      AnyPiece(name, v);
      AnyPiece("all", v);
      DelimitedIs(v, "none");
      Between(Delimited(v), "none");
    }
  }

  lemma Between(a: string, b: string)
    ensures "|" + a + "|" == "|" + b + "|" <==> a == b
  {
    assert ("|" + a + "|")[1..|a| + 1] == a && ("|" + b + "|")[1..|b| + 1] == b;
  }
}
