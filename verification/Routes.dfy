/** Taking an account's users to a fallback and bringing them back. */
module Routes {
  import opened Wrappers
  import opened Catalog

  /** A user without a route row reads as the empty ID. */
  function Current(routes: map<User, Id>, user: User): Id {
    if user in routes then routes[user] else ""
  }

  ghost predicate HasUsers(routes: map<User, Id>, id: Id) {
    exists u :: u in routes && routes[u] == id
  }

  /** Assigned users are exactly where the caller expects them. */
  predicate AsExpected(routes: map<User, Id>, assignments: map<User, Id>, expected: map<User, Id>) {
    forall u :: u in assignments ==> u in expected && Current(routes, u) == expected[u]
  }

  /** The users routed to `source`, each assigned to the fallback. */
  function Evacuation(routes: map<User, Id>, source: Id, fallback: Id): map<User, Id> {
    map u | u in routes && routes[u] == source :: fallback
  }

  /** Every evacuated user on `target`. */
  function ReturnTo(routes: map<User, Id>, evacuated: map<User, Id>, target: Id): map<User, Id> {
    routes + map u | u in evacuated :: target
  }

  /** The user's route was changed by someone else during the operation. */
  predicate Foreign(routes: map<User, Id>, evacuated: map<User, Id>, target: Id, own: set<Id>, user: User) {
    user in evacuated &&
    var current := Current(routes, user);
    current != target && current != evacuated[user] && current !in own
  }

  /**
   * The assignments that bring the evacuated users to `target`, unless one of
   * them was moved by someone else.
   */
  method PlanReturn(routes: map<User, Id>, evacuated: map<User, Id>, target: Id, own: set<Id>)
    returns (ok: bool, assignments: map<User, Id>, expected: map<User, Id>)
    requires target != ""
    ensures ok <==> forall u :: !Foreign(routes, evacuated, target, own, u)
    ensures ok ==> AsExpected(routes, assignments, expected) && routes + assignments == ReturnTo(routes, evacuated, target)
    ensures ok && assignments == map[] ==> routes == ReturnTo(routes, evacuated, target)
  {
    assignments, expected := map[], map[];
    ok := true;
    var todo := evacuated.Keys;
    while todo != {} && ok
      invariant todo <= evacuated.Keys
      invariant assignments.Keys == expected.Keys
      invariant forall u :: u in assignments <==> u in evacuated && u !in todo && Current(routes, u) != target
      invariant forall u :: u in assignments ==> assignments[u] == target && expected[u] == Current(routes, u)
      invariant ok ==> forall u :: u in evacuated && u !in todo ==> !Foreign(routes, evacuated, target, own, u)
      invariant !ok ==> exists u :: Foreign(routes, evacuated, target, own, u)
      decreases |todo|, ok
    {
      var user :| user in todo;
      if Foreign(routes, evacuated, target, own, user) {
        ok := false;
      } else {
        todo := todo - {user};
        if Current(routes, user) != target {
          assignments, expected := assignments[user := target], expected[user := Current(routes, user)];
        }
      }
    }
    if ok {
      AssignedReturn(routes, evacuated, target, assignments);
    }
  }

  lemma AssignedReturn(routes: map<User, Id>, evacuated: map<User, Id>, target: Id, assignments: map<User, Id>)
    requires target != ""
    requires forall u :: u in assignments <==> u in evacuated && Current(routes, u) != target
    requires forall u :: u in assignments ==> assignments[u] == target
    ensures routes + assignments == ReturnTo(routes, evacuated, target)
    ensures assignments == map[] ==> routes == ReturnTo(routes, evacuated, target)
  {
    assert forall u :: u in evacuated && u !in assignments ==> u in routes && routes[u] == target;
    assert assignments == map[] ==> routes + assignments == routes;
  }

  /** The users routed to the source, found by scanning the route table. */
  method PlanEvacuation(routes: map<User, Id>, source: Id, fallback: Id)
    returns (assignments: map<User, Id>, expected: map<User, Id>)
    ensures assignments == Evacuation(routes, source, fallback)
    ensures expected == map u | u in assignments :: source
  {
    assignments, expected := map[], map[];
    var todo := routes.Keys;
    while todo != {}
      invariant todo <= routes.Keys
      invariant assignments == map u | u in routes && u !in todo && routes[u] == source :: fallback
      invariant expected == map u | u in assignments :: source
      decreases |todo|
    {
      var user :| user in todo;
      todo := todo - {user};
      if routes[user] == source {
        assignments, expected := assignments[user := fallback], expected[user := source];
      }
    }
  }

  /** Evacuating and returning to the source is the identity. */
  lemma ReturnUndoesEvacuation(routes: map<User, Id>, source: Id, fallback: Id)
    ensures
      var evacuated := Evacuation(routes, source, fallback);
      && ReturnTo(routes + evacuated, evacuated, source) == routes
      && (fallback != source ==> forall u :: u in (routes + evacuated) ==> (routes + evacuated)[u] != source)
  {
    var evacuated := Evacuation(routes, source, fallback);
    assert forall u :: u in routes ==> ReturnTo(routes + evacuated, evacuated, source)[u] == routes[u];
  }

  // ---------------------------------------------------------------- fallback

  /** Byte order of IDs. */
  predicate Before(a: Id, b: Id) {
    b != "" && (a == "" || a[0] < b[0] || (a[0] == b[0] && Before(a[1..], b[1..])))
  }

  lemma BeforeIsTotal(a: Id, b: Id)
    ensures a == b || Before(a, b) || Before(b, a)
    ensures !(Before(a, b) && Before(b, a)) && !Before(a, a)
  {
    if a != "" && b != "" {
      assert a == [a[0]] + a[1..] && b == [b[0]] + b[1..];
      BeforeIsTotal(a[1..], b[1..]);
    }
  }

  lemma BeforeIsTransitive(a: Id, b: Id, c: Id)
    requires Before(a, b) && Before(b, c)
    ensures Before(a, c)
  {
    if a != "" && a[0] == b[0] == c[0] {
      BeforeIsTransitive(a[1..], b[1..], c[1..]);
    }
  }

  /** What the failover controller reports of an account. */
  datatype AccountState = AccountState(eligible: bool, headroom: int)

  /** Accounts that may take more traffic; none are known when the states cannot be read. */
  function Eligible(states: Option<map<Id, AccountState>>): Option<set<Id>> {
    if states.None? then None
    else Some(set a | a in states.value && states.value[a].eligible && states.value[a].headroom > 0)
  }

  /** Other enabled accounts whose state is eligible with headroom. */
  function Candidates(accounts: map<Id, Account>, id: Id, eligible: set<Id>): set<Id> {
    set a | a in accounts && a != id && accounts[a].enabled && a in eligible
  }

  /** The default account first, then by ID. */
  predicate Preferred(accounts: map<Id, Account>, a: Id, b: Id)
    requires a in accounts && b in accounts
  {
    if accounts[a].isDefault != accounts[b].isDefault then accounts[a].isDefault else a == b || Before(a, b)
  }

  lemma PreferredIsTransitive(accounts: map<Id, Account>, a: Id, b: Id, c: Id)
    requires a in accounts && b in accounts && c in accounts
    requires Preferred(accounts, a, b) && Preferred(accounts, b, c)
    ensures Preferred(accounts, a, c)
  {
    if Before(a, b) && Before(b, c) {
      BeforeIsTransitive(a, b, c);
    }
  }

  /** The states can be read and leave a candidate, the requested one if there is a request. */
  ghost predicate HasFallback(accounts: map<Id, Account>, id: Id, requested: Option<Id>, eligible: Option<set<Id>>) {
    eligible.Some? && exists a :: CanServe(accounts, id, eligible.value, a) && (requested.Some? ==> a == requested.value)
  }

  /** The requested account, or else the default one if it can serve, or else the least by ID. */
  ghost predicate Chosen(accounts: map<Id, Account>, id: Id, requested: Option<Id>, eligible: Option<set<Id>>, f: Id) {
    && eligible.Some? && CanServe(accounts, id, eligible.value, f) && (requested.Some? ==> f == requested.value)
    && (requested.None? ==> forall a :: CanServe(accounts, id, eligible.value, a) && a != f ==>
          || (accounts[f].isDefault && !accounts[a].isDefault)
          || (accounts[f].isDefault == accounts[a].isDefault && Before(f, a)))
  }

  /** Another enabled account whose state is eligible with headroom. */
  ghost predicate CanServe(accounts: map<Id, Account>, id: Id, eligible: set<Id>, a: Id) {
    a in accounts && a != id && accounts[a].enabled && a in eligible
  }

  /** The requested account if it is a candidate, or else the preferred one; None without states. */
  method SelectFallback(accounts: map<Id, Account>, id: Id, requested: Option<Id>, eligible: Option<set<Id>>)
    returns (fallback: Option<Id>)
    ensures fallback.Some? <==> HasFallback(accounts, id, requested, eligible)
    ensures fallback.Some? ==> Chosen(accounts, id, requested, eligible, fallback.value)
    ensures fallback.Some? ==> fallback.value in EnabledOthers(accounts, id)
  {
    fallback := None;
    if eligible.Some? {
      var candidates := Candidates(accounts, id, eligible.value);
      assert forall a :: CanServe(accounts, id, eligible.value, a) <==> a in candidates;
      if requested.Some? {
        if requested.value in candidates {
          fallback := requested;
        }
      } else if candidates != {} {
        var best := BestOf(accounts, candidates);
        fallback := Some(best);
      }
    }
  }

  method BestOf(accounts: map<Id, Account>, candidates: set<Id>) returns (best: Id)
    requires candidates != {} && candidates <= accounts.Keys
    ensures best in candidates && forall a :: a in candidates ==> Preferred(accounts, best, a)
  {
    hide Before;
    best :| best in candidates;
    var todo := candidates - {best};
    while todo != {}
      invariant todo <= candidates && best in candidates
      invariant forall a :: a in candidates && a !in todo ==> Preferred(accounts, best, a)
      decreases |todo|
    {
      var next :| next in todo;
      BeforeIsTotal(best, next);
      if !Preferred(accounts, best, next) {
        forall a | a in candidates && a !in todo
          ensures Preferred(accounts, next, a)
        {
          PreferredIsTransitive(accounts, next, best, a);
        }
        best := next;
      }
      todo := todo - {next};
    }
  }
}
