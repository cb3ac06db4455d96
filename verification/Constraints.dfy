/** Instance and server constraints (engine/engine.go, ListEnabledConstraintsForServer in
    database/database.go, HandleServerConstraintSet in web/handler.go).

    The expression language is not modelled: a constraint carries the value its condition has
    for the action at hand. */
module Constraints {
  import opened Wrappers

  datatype Mode = Require | Exempt

  /** Broken stands for a condition that does not compile, fails, or is not boolean. */
  datatype Value = Passes | Fails | Broken

  datatype Constraint = Constraint(
    id: int, serverScoped: bool, mode: Mode, strategy: string, priority: int, value: Value)

  datatype Verdict = Allowed | Exempted(constraint: int) | Blocked(constraint: int, status: int)

  function StrategyStatus(strategy: string): int {
    if strategy == "deny" then 409
    else if strategy == "queue" then 202
    else if strategy == "stop_oldest" then 200
    else 409
  }

  // ---------------------------------------------------------------- the query and the evaluation

  /** ORDER BY priority DESC, server_id IS NOT NULL, id. */
  predicate Before(a: Constraint, b: Constraint) {
    || a.priority > b.priority
    || (a.priority == b.priority && !a.serverScoped && b.serverScoped)
    || (a.priority == b.priority && a.serverScoped == b.serverScoped && a.id < b.id)
  }

  function Insert(c: Constraint, rows: seq<Constraint>): seq<Constraint> {
    if rows == [] || Before(c, rows[0]) then [c] + rows else [rows[0]] + Insert(c, rows[1..])
  }

  function QueryOrder(rows: seq<Constraint>): seq<Constraint> {
    if rows == [] then [] else Insert(rows[0], QueryOrder(rows[1..]))
  }

  /** The first constraint that decides wins; a broken one is skipped. */
  function Evaluate(constraints: seq<Constraint>): Verdict {
    if constraints == [] then Allowed
    else
      var c := constraints[0];
      if c.value == Broken then Evaluate(constraints[1..])
      else if c.mode == Exempt && c.value == Passes then Exempted(c.id)
      else if c.mode != Exempt && c.value != Passes then Blocked(c.id, StrategyStatus(c.strategy))
      else Evaluate(constraints[1..])
  }

  function EvaluateConstraints(rows: seq<Constraint>): Verdict {
    Evaluate(QueryOrder(rows))
  }

  // ---------------------------------------------------------------- what decides, without an order of evaluation

  predicate Decides(c: Constraint) {
    if c.mode == Exempt then c.value == Passes else c.value == Fails
  }

  function Decision(c: Constraint): Verdict {
    if c.mode == Exempt then Exempted(c.id) else Blocked(c.id, StrategyStatus(c.strategy))
  }

  /** `c` is the deciding constraint that sorts before every other deciding one. */
  ghost predicate Foremost(rows: seq<Constraint>, c: Constraint) {
    c in rows && Decides(c) && forall d :: d in rows && d != c && Decides(d) ==> Before(c, d)
  }

  ghost predicate DistinctIds(rows: seq<Constraint>) {
    forall c, d :: c in rows && d in rows && c.id == d.id ==> c == d
  }

  ghost predicate InOrder(rows: seq<Constraint>) {
    rows != [] ==> (forall d :: d in rows[1..] ==> d == rows[0] || Before(rows[0], d)) && InOrder(rows[1..])
  }

  lemma {:induction false} InsertInOrder(c: Constraint, rows: seq<Constraint>)
    requires InOrder(rows) && DistinctIds([c] + rows)
    ensures InOrder(Insert(c, rows))
    ensures forall d :: d in Insert(c, rows) <==> d == c || d in rows
  {
    if rows == [] || Before(c, rows[0]) {
      assert ([c] + rows)[1..] == rows;
      forall d | d in rows ensures Before(c, d) {
        assert rows != [] && (d == rows[0] || d in rows[1..]);
      }
    } else {
      assert forall d :: d in [c] + rows <==> d == c || d in rows;
      assert forall d :: d in rows <==> d == rows[0] || d in rows[1..];
      assert forall d :: d in [c] + rows[1..] ==> d in [c] + rows;
      InsertInOrder(c, rows[1..]);
      assert Insert(c, rows)[1..] == Insert(c, rows[1..]);
    }
  }

  lemma {:induction false} QueryOrderInOrder(rows: seq<Constraint>)
    requires DistinctIds(rows)
    ensures InOrder(QueryOrder(rows))
    ensures forall d :: d in QueryOrder(rows) <==> d in rows
  {
    if rows != [] {
      assert forall d :: d in rows <==> d == rows[0] || d in rows[1..];
      QueryOrderInOrder(rows[1..]);
      assert forall d :: d in [rows[0]] + QueryOrder(rows[1..]) <==> d in rows;
      InsertInOrder(rows[0], QueryOrder(rows[1..]));
    }
  }

  lemma {:induction false} EvaluateInOrder(rows: seq<Constraint>, c: Constraint)
    requires InOrder(rows)
    ensures (forall d :: d in rows ==> !Decides(d)) ==> Evaluate(rows) == Allowed
    ensures Foremost(rows, c) ==> Evaluate(rows) == Decision(c)
  {
    if rows != [] {
      EvaluateInOrder(rows[1..], c);
      assert rows[0] in rows;
      assert forall d :: d in rows[1..] ==> d in rows;
      if Foremost(rows, c) && c != rows[0] { assert c in rows[1..]; }
    }
  }

  lemma {:induction false} SomeForemost(rows: seq<Constraint>) returns (c: Constraint)
    requires InOrder(rows) && exists d :: d in rows && Decides(d)
    ensures Foremost(rows, c)
  {
    assert forall d :: d in rows <==> d == rows[0] || d in rows[1..];
    if Decides(rows[0]) {
      c := rows[0];
    } else {
      c := SomeForemost(rows[1..]);
    }
  }

  /** The scan returns the decision of the foremost deciding constraint, or allows the action. */
  lemma ScanDecides(rows: seq<Constraint>, c: Constraint)
    requires DistinctIds(rows)
    ensures (forall d :: d in rows ==> !Decides(d)) ==> EvaluateConstraints(rows) == Allowed
    ensures Foremost(rows, c) ==> EvaluateConstraints(rows) == Decision(c)
    ensures !EvaluateConstraints(rows).Allowed? ==> exists f :: Foremost(rows, f)
  {
    var sorted := QueryOrder(rows);
    QueryOrderInOrder(rows);
    EvaluateInOrder(sorted, c);
    if Foremost(rows, c) { assert Foremost(sorted, c); }
    if exists d :: d in sorted && Decides(d) {
      var f := SomeForemost(sorted);
      assert Foremost(rows, f);
    }
  }

  lemma {:induction false} InOrderAt(rows: seq<Constraint>, i: nat, j: nat)
    requires InOrder(rows) && i < j < |rows|
    ensures rows[i] == rows[j] || Before(rows[i], rows[j])
  {
    if i > 0 { InOrderAt(rows[1..], i - 1, j - 1); } else { assert rows[j] == rows[1..][j - 1]; }
  }

  /** The evaluation goes through the constraints by falling priority, the instance's before the
      server's, and older before newer ones. */
  lemma QueryOrderPrecedes(rows: seq<Constraint>, i: nat, j: nat)
    requires DistinctIds(rows) && i < j < |QueryOrder(rows)|
    ensures var a, b := QueryOrder(rows)[i], QueryOrder(rows)[j];
            if a.priority != b.priority then a.priority > b.priority
            else if a.serverScoped != b.serverScoped then b.serverScoped
            else a.id <= b.id
  {
    QueryOrderInOrder(rows);
    InOrderAt(QueryOrder(rows), i, j);
  }

  /** The verdict, field by field.  A passing exemption or a failing requirement decides if every
      other one of these has a lower priority, or the same priority and belongs to the server while
      it does not, or the same priority and scope and a larger id. */
  lemma VerdictOfFields(rows: seq<Constraint>, c: Constraint)
    requires DistinctIds(rows) && c in rows
    requires if c.mode == Exempt then c.value == Passes else c.value == Fails
    requires forall d ::
      d in rows && d.id != c.id && ((d.mode == Exempt && d.value == Passes) || (d.mode == Require && d.value == Fails)) ==>
        || d.priority < c.priority
        || (d.priority == c.priority && d.serverScoped && !c.serverScoped)
        || (d.priority == c.priority && d.serverScoped == c.serverScoped && d.id > c.id)
    ensures EvaluateConstraints(rows) ==
              if c.mode == Exempt then Exempted(c.id)
              else Blocked(c.id, if c.strategy == "queue" then 202 else if c.strategy == "stop_oldest" then 200 else 409)
  {
    assert Foremost(rows, c);
    ScanDecides(rows, c);
  }

  /** With no passing exemption and no failing requirement the action is allowed, whatever else is
      broken. */
  lemma AllowedOfFields(rows: seq<Constraint>)
    requires DistinctIds(rows)
    requires forall d :: d in rows ==> if d.mode == Exempt then d.value != Passes else d.value != Fails
    ensures EvaluateConstraints(rows) == Allowed
  {
    if rows != [] { ScanDecides(rows, rows[0]); }
  }

  // ---------------------------------------------------------------- what server owners cannot override

  ghost predicate InstanceOnly(rows: seq<Constraint>) {
    forall c :: c in rows ==> !c.serverScoped
  }

  ghost predicate ServerSet(rows: seq<Constraint>, limit: int) {
    forall c :: c in rows ==> c.serverScoped && c.priority <= limit
  }

  /** A failing instance requirement at or above the limit blocks, whatever the server's own
      constraints are, unless a passing instance exemption sorts before it. */
  lemma RequirementStands(instance: seq<Constraint>, server: seq<Constraint>, limit: int, r: Constraint)
    requires InstanceOnly(instance) && ServerSet(server, limit) && DistinctIds(instance + server)
    requires r in instance && r.mode == Require && r.value == Fails && r.priority >= limit
    requires forall e :: e in instance && e.mode == Exempt && e.value == Passes ==> !Before(e, r)
    ensures EvaluateConstraints(instance + server).Blocked?
  {
    var rows := instance + server;
    assert forall d :: d in rows <==> d in instance || d in server;
    ScanDecides(rows, r);
    assert Decides(r) && r in rows;
    QueryOrderInOrder(rows);
    var f := SomeForemost(QueryOrder(rows));
    assert Foremost(rows, f);
    ScanDecides(rows, f);
  }

  /** The action is blocked under every admissible set of server constraints exactly when the
      instance constraints alone block it through one whose priority reaches the limit. */
  lemma BlockedForEveryServerSet(instance: seq<Constraint>, limit: int)
    requires InstanceOnly(instance) && DistinctIds(instance)
    ensures (forall server :: ServerSet(server, limit) && DistinctIds(instance + server) ==>
               EvaluateConstraints(instance + server).Blocked?)
            <==> exists r :: Foremost(instance, r) && r.mode == Require && r.priority >= limit
  {
    if r :| Foremost(instance, r) && r.mode == Require && r.priority >= limit {
      forall server | ServerSet(server, limit) && DistinctIds(instance + server)
        ensures EvaluateConstraints(instance + server).Blocked?
      {
        RequirementStands(instance, server, limit, r);
      }
    } else {
      var server := Loophole(instance, limit);
      assert ServerSet(server, limit) && DistinctIds(instance + server);
    }
  }

  lemma BlockedBy(rows: seq<Constraint>) returns (r: Constraint)
    requires DistinctIds(rows) && EvaluateConstraints(rows).Blocked?
    ensures Foremost(rows, r) && r.mode == Require
  {
    assert rows != [];
    ScanDecides(rows, rows[0]);
    r :| Foremost(rows, r);
    hide Foremost, EvaluateConstraints, DistinctIds;
    ScanDecides(rows, r);
  }

  /** A server exemption at the limit sorts before every deciding constraint below it. */
  lemma ExemptionAtLimit(instance: seq<Constraint>, limit: int, r: Constraint)
    requires DistinctIds(instance) && Foremost(instance, r) && r.priority < limit
    ensures var e := Constraint(FreshId(instance), true, Exempt, "deny", limit, Passes);
            DistinctIds(instance + [e]) && EvaluateConstraints(instance + [e]) == Exempted(e.id)
  {
    var e := Constraint(FreshId(instance), true, Exempt, "deny", limit, Passes);
    assert forall d :: d in instance + [e] <==> d in instance || d == e;
    assert forall d :: d in instance && Decides(d) ==> d.priority < limit;
    assert Foremost(instance + [e], e);
    hide EvaluateConstraints;
    ScanDecides(instance + [e], e);
  }

  /** Otherwise some admissible set of server constraints lets the action through. */
  lemma Loophole(instance: seq<Constraint>, limit: int) returns (server: seq<Constraint>)
    requires InstanceOnly(instance) && DistinctIds(instance)
    requires forall r :: Foremost(instance, r) && r.mode == Require ==> r.priority < limit
    ensures ServerSet(server, limit) && DistinctIds(instance + server)
    ensures !EvaluateConstraints(instance + server).Blocked?
  {
    assert instance + [] == instance;
    hide EvaluateConstraints, Foremost, DistinctIds;
    server := [];
    if EvaluateConstraints(instance).Blocked? {
      var r := BlockedBy(instance);
      ExemptionAtLimit(instance, limit, r);
      server := [Constraint(FreshId(instance), true, Exempt, "deny", limit, Passes)];
    }
  }

  function FreshId(rows: seq<Constraint>): (id: int)
    ensures forall c :: c in rows ==> c.id < id
  {
    if rows == [] then 0
    else
      var id := FreshId(rows[1..]);
      if rows[0].id < id then id else rows[0].id + 1
  }

  // ---------------------------------------------------------------- how server constraints are stored

  datatype Form = Form(id: Option<int>, mode: Option<Mode>, priority: int, named: bool, value: Value)

  datatype SaveError = PriorityTooHigh | BadMode | NameRequired | NotFound

  function Replace(rows: seq<Constraint>, c: Constraint): seq<Constraint> {
    if rows == [] then []
    else [if rows[0].id == c.id then c else rows[0]] + Replace(rows[1..], c)
  }

  /** The form a server's access managers submit; it may only touch that server's rows. */
  function SetServerConstraint(rows: seq<Constraint>, form: Form, limit: int): Result<seq<Constraint>, SaveError> {
    if form.priority > limit then Err(PriorityTooHigh)
    else if form.mode.None? then Err(BadMode)
    else if !form.named then Err(NameRequired)
    else if form.id.None? then
      Ok(rows + [Constraint(FreshId(rows), true, form.mode.value, "deny", form.priority, form.value)])
    else if exists c :: c in rows && c.id == form.id.value && c.serverScoped then
      Ok(Replace(rows, Constraint(form.id.value, true, form.mode.value, "deny", form.priority, form.value)))
    else Err(NotFound)
  }

  lemma {:induction false} ReplaceMembers(rows: seq<Constraint>, c: Constraint)
    ensures forall d :: d in Replace(rows, c) ==> d == c || (d in rows && d.id != c.id)
    ensures forall d :: d in rows && d.id != c.id ==> d in Replace(rows, c)
  {
    if rows != [] { ReplaceMembers(rows[1..], c); }
  }

  /** A form is refused for the first of these reasons, and otherwise it is what the row holds
      afterwards; every other row stays. */
  lemma FormSaved(rows: seq<Constraint>, form: Form, limit: int)
    requires DistinctIds(rows)
    ensures var r := SetServerConstraint(rows, form, limit);
            var known := exists c :: c in rows && form.id == Some(c.id) && c.serverScoped;
            && (r.Ok? <==> form.priority <= limit && form.mode.Some? && form.named && (form.id.None? || known))
            && (r.Err? ==> r.error == if form.priority > limit then PriorityTooHigh
                                      else if form.mode.None? then BadMode
                                      else if !form.named then NameRequired else NotFound)
            && (r.Ok? ==>
                  && (exists c :: c in r.value && c.serverScoped && c.mode == form.mode.value && c.priority == form.priority
                        && c.value == form.value && (form.id.Some? ==> c.id == form.id.value)
                        && (form.id.None? ==> forall d :: d in rows ==> d.id != c.id)
                        && forall d :: d in r.value <==> d == c || (d in rows && d.id != c.id)))
  {
    var r := SetServerConstraint(rows, form, limit);
    if r.Ok? {
      var id := if form.id.Some? then form.id.value else FreshId(rows);
      var c := Constraint(id, true, form.mode.value, "deny", form.priority, form.value);
      if form.id.Some? {
        ReplaceMembers(rows, c);
        ReplaceHas(rows, c);
      } else {
        assert r.value == rows + [c];
      }
      assert c in r.value;
    }
  }

  lemma {:induction false} ReplaceHas(rows: seq<Constraint>, c: Constraint)
    requires exists d :: d in rows && d.id == c.id
    ensures c in Replace(rows, c)
  {
    if rows[0].id != c.id {
      assert forall d :: d in rows <==> d == rows[0] || d in rows[1..];
      ReplaceHas(rows[1..], c);
      assert Replace(rows, c)[1..] == Replace(rows[1..], c);
    } else {
      assert Replace(rows, c)[0] == c;
    }
  }

  ghost function Saved(rows: seq<Constraint>, forms: seq<Form>, limit: int): seq<Constraint>
    decreases |forms|
  {
    if forms == [] then rows
    else
      var r := SetServerConstraint(rows, forms[0], limit);
      Saved(if r.Ok? then r.value else rows, forms[1..], limit)
  }

  /** No sequence of submitted forms puts a server row above the limit, or changes, adds or
      drops an instance row. */
  lemma {:induction false} FormsStayWithinLimit(rows: seq<Constraint>, forms: seq<Form>, limit: int)
    requires DistinctIds(rows) && forall c :: c in rows && c.serverScoped ==> c.priority <= limit
    ensures DistinctIds(Saved(rows, forms, limit))
    ensures forall c :: c in Saved(rows, forms, limit) && c.serverScoped ==> c.priority <= limit
    ensures forall c: Constraint :: !c.serverScoped ==> (c in Saved(rows, forms, limit) <==> c in rows)
    decreases |forms|
  {
    if forms != [] {
      var form := forms[0];
      var r := SetServerConstraint(rows, form, limit);
      if r.Ok? && form.id.Some? {
        ReplaceMembers(rows, Constraint(form.id.value, true, form.mode.value, "deny", form.priority, form.value));
      }
      FormsStayWithinLimit(if r.Ok? then r.value else rows, forms[1..], limit);
    }
  }
}
