/** Who holds which recogniser grammar: loading, enabling, disabling and releasing grammars, with the
    recogniser's own view of what is live and active beside the manager's tables. */
module GrammarLedger {
  import opened Wrappers

  datatype Scope = NoScope | FieldScope | DialogScope | DocScope

  /** The recogniser: handles are numbered in the order they are issued. */
  datatype Recogniser = Recogniser(issued: nat, live: set<nat>, active: set<nat>, freed: seq<nat>)

  datatype Info = Info(
    handle: Option<nat>, dynamic: bool, scope: Scope, field: string, dialog: string, doc: string, sequence: nat,
    enabled: bool, activated: Scope)

  datatype Univ = Univ(handle: nat, name: string, sequence: nat, enabled: bool)

  datatype Ledger = Ledger(rec: Recogniser, infos: seq<Info>, univs: seq<Univ>, sequence: nat)

  const EMPTY := Ledger(Recogniser(0, {}, {}, []), [], [], 0)

  // ----- The recogniser's side -----

  function Issue(r: Recogniser): Recogniser {
    r.(issued := r.issued + 1, live := r.live + {r.issued})
  }

  function Activate(r: Recogniser, h: nat): Recogniser {
    r.(active := r.active + {h})
  }

  function Deactivate(r: Recogniser, h: nat): Recogniser {
    r.(active := r.active - {h})
  }

  function Free(r: Recogniser, h: nat): Recogniser {
    r.(live := r.live - {h}, freed := r.freed + [h])
  }

  // ----- Loading -----

  function AddStatic(l: Ledger, g: Info): Ledger {
    l.(rec := Issue(l.rec), sequence := l.sequence + 1,
       infos := l.infos + [g.(handle := Some(l.rec.issued), dynamic := false, sequence := l.sequence + 1, enabled := false, activated := NoScope)])
  }

  function AddDynamic(l: Ledger, g: Info): Ledger {
    l.(sequence := l.sequence + 1,
       infos := l.infos + [g.(handle := None, dynamic := true, sequence := l.sequence + 1, enabled := false, activated := NoScope)])
  }

  function AddUniversal(l: Ledger, name: string): Ledger {
    l.(rec := Issue(l.rec), sequence := l.sequence + 1,
       univs := l.univs + [Univ(l.rec.issued, name, l.sequence + 1, false)])
  }

  // ----- Enabling -----

  datatype Request = Request(doc: string, dialog: string, field: string, modal: bool, universals: Option<string>)

  /** How an attempt on one grammar goes: the source expression, the load, the activation. */
  datatype Reply = EvalFails | LoadFails | ActivateFails | Fine

  function Matched(g: Info, q: Request): Scope {
    var docsMatch := g.doc == q.doc;
    var dialogsMatch := docsMatch && g.dialog == q.dialog;
    var fieldsMatch := dialogsMatch && g.field == q.field;
    if q.field != "" && fieldsMatch then FieldScope
    else if !q.modal && g.scope == DialogScope && dialogsMatch then DialogScope
    else if !q.modal && g.scope == DocScope then DocScope
    else NoScope
  }

  datatype Enabling = Enabling(ledger: Ledger, ok: bool, any: bool)

  function EnableInfo(e: Enabling, i: nat, q: Request, reply: Reply): (r: Enabling)
    requires i < |e.ledger.infos|
    ensures |r.ledger.infos| == |e.ledger.infos| && r.ledger.univs == e.ledger.univs
  {
    var l := e.ledger;
    var g := l.infos[i];
    if Matched(g, q) == NoScope then e
    else if g.dynamic && (reply == EvalFails || reply == LoadFails) then e.(ok := false)
    else
      var rec := if g.dynamic then Issue(l.rec) else l.rec;
      var handle := if g.dynamic then Some(l.rec.issued) else g.handle;
      if reply == ActivateFails || handle.None? then
        Enabling(l.(rec := rec, infos := l.infos[i := g.(handle := handle)]), false, e.any)
      else
        Enabling(l.(rec := Activate(rec, handle.value),
                    infos := l.infos[i := g.(handle := handle, enabled := true, activated := Matched(g, q))]), true, true)
  }

  /** The infos below n, last first. */
  function EnableInfos(e: Enabling, n: nat, q: Request, replies: nat -> Reply): (r: Enabling)
    requires n <= |e.ledger.infos|
    ensures |r.ledger.infos| == |e.ledger.infos| && r.ledger.univs == e.ledger.univs
    decreases n
  {
    if n == 0 || !e.ok then e
    else EnableInfos(EnableInfo(e, n - 1, q, replies(n - 1)), n - 1, q, replies)
  }

  function Delimited(s: string): string {
    if s == [] then []
    else [if s[0] in {' ', '\t', '\r', '\n'} then '|' else s[0]] + Delimited(s[1..])
  }

  predicate Occurs(t: string, s: string) {
    t <= s || (s != [] && Occurs(t, s[1..]))
  }

  /** Whether the universals property asks for a name. */
  predicate Wants(universals: Option<string>, name: string) {
    universals.Some?
    && var request := "|" + Delimited(universals.value) + "|";
       request != "|none|" && (Occurs("|all|", request) || Occurs("|" + name + "|", request))
  }

  function EnableUniv(e: Enabling, j: nat, q: Request, reply: Reply): (r: Enabling)
    requires j < |e.ledger.univs|
    ensures |r.ledger.univs| == |e.ledger.univs| && r.ledger.infos == e.ledger.infos
  {
    var l := e.ledger;
    var u := l.univs[j];
    if !Wants(q.universals, u.name) then e
    else if reply != Fine then e.(ok := false)
    else Enabling(l.(rec := Activate(l.rec, u.handle), univs := l.univs[j := u.(enabled := true)]), true, true)
  }

  function EnableUnivs(e: Enabling, j: nat, q: Request, replies: nat -> Reply): (r: Enabling)
    requires j <= |e.ledger.univs|
    ensures |r.ledger.univs| == |e.ledger.univs| && r.ledger.infos == e.ledger.infos
    decreases |e.ledger.univs| - j
  {
    if j == |e.ledger.univs| || !e.ok then e
    else EnableUnivs(EnableUniv(e, j, q, replies(j)), j + 1, q, replies)
  }

  function Enable(l: Ledger, q: Request, infoReplies: nat -> Reply, univReplies: nat -> Reply): Enabling {
    EnableUnivs(EnableInfos(Enabling(l, true, false), |l.infos|, q, infoReplies), 0, q, univReplies)
  }

  // ----- Disabling -----

  function DisableInfo(l: Ledger, i: nat): (r: Ledger)
    requires i < |l.infos|
    ensures |r.infos| == |l.infos| && r.univs == l.univs && r.sequence == l.sequence
    ensures forall k :: 0 <= k < |l.infos| && k != i ==> r.infos[k] == l.infos[k]
  {
    var g := l.infos[i];
    if !g.enabled || g.handle.None? then l
    else
      var h := g.handle.value;
      var off := g.(enabled := false, activated := NoScope);
      if g.dynamic then l.(rec := Free(Deactivate(l.rec, h), h), infos := l.infos[i := off.(handle := None)])
      else l.(rec := Deactivate(l.rec, h), infos := l.infos[i := off])
  }

  function DisableInfos(l: Ledger, n: nat): (r: Ledger)
    requires n <= |l.infos|
    ensures |r.infos| == |l.infos| && r.univs == l.univs && r.sequence == l.sequence
  {
    if n == 0 then l else DisableInfo(DisableInfos(l, n - 1), n - 1)
  }

  function DisableUniv(l: Ledger, j: nat): (r: Ledger)
    requires j < |l.univs|
    ensures r.infos == l.infos && |r.univs| == |l.univs| && r.sequence == l.sequence
    ensures forall k :: 0 <= k < |l.univs| && k != j ==> r.univs[k] == l.univs[k]
  {
    var u := l.univs[j];
    if !u.enabled then l
    else l.(rec := Deactivate(l.rec, u.handle), univs := l.univs[j := u.(enabled := false)])
  }

  function DisableUnivs(l: Ledger, n: nat): (r: Ledger)
    requires n <= |l.univs|
    ensures r.infos == l.infos && |r.univs| == |l.univs| && r.sequence == l.sequence
  {
    if n == 0 then l else DisableUniv(DisableUnivs(l, n - 1), n - 1)
  }

  function DisableAll(l: Ledger): (r: Ledger)
    ensures |r.infos| == |l.infos| && |r.univs| == |l.univs| && r.sequence == l.sequence
  {
    DisableUnivs(DisableInfos(l, |l.infos|), |l.univs|)
  }

  // ----- Releasing -----

  function ReleaseInfo(l: Ledger): (r: Ledger)
    requires l.infos != []
    ensures r.infos == l.infos[..|l.infos| - 1] && r.univs == l.univs && r.sequence == l.sequence
  {
    var g := l.infos[|l.infos| - 1];
    var rest := l.(infos := l.infos[..|l.infos| - 1]);
    if g.handle.None? then rest
    else rest.(rec := Free(if g.enabled then Deactivate(l.rec, g.handle.value) else l.rec, g.handle.value))
  }

  function ReleaseInfos(l: Ledger): (r: Ledger)
    ensures r.infos == [] && r.univs == l.univs && r.sequence == l.sequence
    decreases |l.infos|
  {
    if l.infos == [] then l else ReleaseInfos(ReleaseInfo(l))
  }

  /** A universal is freed without being deactivated. */
  function ReleaseUniv(l: Ledger): (r: Ledger)
    requires l.univs != []
    ensures r.univs == l.univs[..|l.univs| - 1] && r.infos == l.infos && r.sequence == l.sequence
  {
    l.(univs := l.univs[..|l.univs| - 1], rec := Free(l.rec, l.univs[|l.univs| - 1].handle))
  }

  function ReleaseUnivs(l: Ledger): (r: Ledger)
    ensures r.univs == [] && r.infos == l.infos && r.sequence == l.sequence
    decreases |l.univs|
  {
    if l.univs == [] then l else ReleaseUnivs(ReleaseUniv(l))
  }

  function Release(l: Ledger): (r: Ledger)
    ensures r.infos == [] && r.univs == []
  {
    ReleaseUnivs(ReleaseInfos(l))
  }

  // ----- Runs -----

  datatype Op =
    | LoadStatic(info: Info)
    | LoadDynamic(info: Info)
    | LoadUniversal(name: string)
    | EnableOp(request: Request, infoReplies: nat -> Reply, univReplies: nat -> Reply)
    | DisableOp
    | ReleaseOp

  function Apply(l: Ledger, op: Op): Ledger {
    match op
    case LoadStatic(g) => AddStatic(l, g)
    case LoadDynamic(g) => AddDynamic(l, g)
    case LoadUniversal(name) => AddUniversal(l, name)
    case EnableOp(q, f, u) => Enable(l, q, f, u).ledger
    case DisableOp => DisableAll(l)
    case ReleaseOp => Release(l)
  }

  function Run(l: Ledger, ops: seq<Op>): Ledger {
    if ops == [] then l else Apply(Run(l, ops[..|ops| - 1]), ops[|ops| - 1])
  }
}
