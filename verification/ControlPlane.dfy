/**
 * The collaborators of the account lifecycle and their atomic steps.  Every
 * step may succeed, fail without effect, or be cut off by a crash of the
 * process before or after its effect.
 */
module ControlPlane {
  import opened Wrappers
  import opened Catalog
  import opened Journal
  import opened Routes
  import opened Files
  import opened Traffic
  import opened World

  function Rendered(c: Catalog, secrets: map<Id, string>): map<Id, Config> {
    map id | id in c.accounts :: ConfigOf(c, secrets, id)
  }

  /** `m` with the entries of `over` that are not left to do. */
  ghost function Overlaid<K, V>(m: map<K, V>, over: map<K, V>, todo: set<K>): map<K, V> {
    m + map k | k in over && k !in todo :: over[k]
  }

  lemma OverlaidNext<K, V>(m: map<K, V>, over: map<K, V>, todo: set<K>, k: K)
    requires k in todo && k in over
    ensures Overlaid(m, over, todo)[k := over[k]] == Overlaid(m, over, todo - {k})
  {
  }

  lemma OverlaidEnds<K, V>(m: map<K, V>, over: map<K, V>)
    ensures Overlaid(m, over, over.Keys) == m && Overlaid(m, over, {}) == m + over
  {
    assert (map k | k in over && k !in {} :: over[k]) == over;
  }

  datatype RuntimeKind = CreatedContainer | ReplacedContainer | RetiredContainer

  /** A prepared container change with its retained rollback candidate. */
  datatype RuntimeTransition = RuntimeTransition(kind: RuntimeKind, beforeId: Id, afterId: Id, previous: Option<Container>)

  function RolledBackContainers(containers: map<Id, Container>, t: RuntimeTransition): map<Id, Container> {
    match t.kind
    case CreatedContainer => containers - {t.afterId}
    case _ =>
      var left := if t.kind == ReplacedContainer then containers - {t.afterId} else containers;
      if t.previous.Some? then left[t.beforeId := t.previous.value] else left
  }

  class ControlPlane {
    const files: FileManager
    const validProxy: string -> bool
    var catalog: Catalog
    var secrets: map<Id, string>
    var containers: map<Id, Container>
    var active: map<User, Id>
    var journal: Option<Operation>
    ghost var monitor: Monitor

    /** An empty installation. */
    constructor (validProxy: string -> bool, calm: bool)
      ensures fresh(files) && files.calm == calm && journal == None
      ensures W() == World(Catalog(map[], map[], map[]), map[], Tree(map[], map[], map[]), map[], map[])
    {
      this.validProxy := validProxy;
      files := new FileManager(Tree(map[], map[], map[]), calm);
      catalog := Catalog(map[], map[], map[]);
      secrets, containers, active, journal, monitor := map[], map[], map[], None, UNWATCHED;
    }

    ghost function W(): World
      reads this, files
    {
      World(catalog, secrets, files.tree, containers, active)
    }

    // -------------------------------------------------------------- journal

    method WriteJournal(operation: Operation) returns (o: Outcome)
      modifies this`journal
      ensures journal == old(journal) || journal == Some(operation)
      ensures o.Done? ==> journal == Some(operation)
      ensures o.Failed? ==> journal == old(journal)
      ensures files.calm ==> o.Done?
    {
      o := files.Chance();
      var reached: bool := *;
      if o.Done? || (o.Crashed? && reached) {
        journal := Some(operation);
      }
    }

    method DeleteJournal() returns (o: Outcome)
      modifies this`journal
      ensures journal == old(journal) || journal == None
      ensures o.Done? ==> journal == None
      ensures o.Failed? ==> journal == old(journal)
      ensures files.calm ==> o.Done?
    {
      o := files.Chance();
      var reached: bool := *;
      if o.Done? || (o.Crashed? && reached) {
        journal := None;
      }
    }

    // ---------------------------------------------------------------- store

    /** One write transaction: all of `next`, or nothing. */
    method Transact(next: Catalog) returns (o: Outcome)
      modifies this`catalog
      ensures catalog == old(catalog) || catalog == next
      ensures o.Done? ==> catalog == next
      ensures o.Failed? ==> catalog == old(catalog)
      ensures files.calm ==> o.Done?
    {
      o := files.Chance();
      var reached: bool := *;
      if o.Done? || (o.Crashed? && reached) {
        catalog := next;
      }
    }

    /** All-or-nothing compare-and-set of several routes. */
    method ApplyRoutes(assignments: map<User, Id>, expected: map<User, Id>) returns (o: Outcome)
      modifies this`catalog
      ensures catalog == old(catalog) ||
        (AsExpected(old(catalog).routes, assignments, expected) &&
         catalog == old(catalog).(routes := old(catalog).routes + assignments))
      ensures o.Done? ==>
        AsExpected(old(catalog).routes, assignments, expected) &&
        catalog == old(catalog).(routes := old(catalog).routes + assignments)
      ensures o.Failed? ==> catalog == old(catalog)
      ensures files.calm && AsExpected(old(catalog).routes, assignments, expected) ==> o.Done?
    {
      if AsExpected(catalog.routes, assignments, expected) {
        o := Transact(catalog.(routes := catalog.routes + assignments));
      } else {
        o := Failed;
      }
    }

    method WriteSecret(id: Id, value: Option<string>) returns (o: Outcome)
      modifies this`secrets
      ensures secrets == old(secrets) || secrets == SecretWritten(old(secrets), id, value)
      ensures o.Done? ==> secrets == SecretWritten(old(secrets), id, value)
      ensures o.Failed? ==> secrets == old(secrets)
      ensures files.calm ==> o.Done?
    {
      o := files.Chance();
      var reached: bool := *;
      if o.Done? || (o.Crashed? && reached) {
        secrets := SecretWritten(secrets, id, value);
      }
    }

    // ----------------------------------------------- projection and snapshot

    /** Writes every account's config in turn; refused for a custom proxy without a secret. */
    method Render() returns (o: Outcome)
      modifies files
      ensures files.tree == old(files.tree).(config := files.tree.config)
      ensures forall id :: id in files.tree.config ==> id in old(files.tree).config || id in catalog.accounts
      ensures forall id :: id in old(files.tree).config ==> id in files.tree.config
      ensures o.Done? ==> CanRender(catalog, secrets)
      ensures o.Done? ==> files.tree.config == old(files.tree).config + Rendered(catalog, secrets)
      ensures files.calm && CanRender(catalog, secrets) ==> o.Done?
    {
      hide ConfigOf, Watch;
      o := Failed;
      if forall id :: id in catalog.accounts && catalog.accounts[id].mode == Custom ==> id in secrets {
        o := WriteConfigs(Rendered(catalog, secrets));
      }
    }

    method WriteConfigs(rendered: map<Id, Config>) returns (o: Outcome)
      modifies files
      ensures files.tree == old(files.tree).(config := files.tree.config)
      ensures forall id :: id in files.tree.config ==> id in old(files.tree).config || id in rendered
      ensures forall id :: id in old(files.tree).config ==> id in files.tree.config
      ensures o.Done? ==> files.tree.config == old(files.tree).config + rendered
      ensures files.calm ==> o.Done?
    {
      hide Overlaid, Watch;
      ghost var before := files.tree;
      OverlaidEnds(before.config, rendered);
      var todo := rendered.Keys;
      o := Done;
      while todo != {} && o.Done?
        invariant todo <= rendered.Keys
        invariant files.tree == before.(config := files.tree.config)
        invariant forall id :: id in files.tree.config ==> id in before.config || id in rendered
        invariant forall id :: id in before.config ==> id in files.tree.config
        invariant o.Done? ==> files.tree.config == Overlaid(before.config, rendered, todo)
        invariant files.calm ==> o.Done?
        decreases |todo|, o.Done?
      {
        var id :| id in todo;
        o := files.Step(files.tree.(config := files.tree.config[id := rendered[id]]));
        if o.Done? {
          OverlaidNext(before.config, rendered, todo, id);
          todo := todo - {id};
        }
      }
    }

    /** The Gateway switches to the control plane's routes, or stays where it is. */
    method Publish() returns (o: Outcome)
      modifies this`active, this`monitor
      ensures active == old(active) || active == catalog.routes
      ensures o.Done? ==> active == catalog.routes && monitor == Observe(old(monitor), Routed(catalog.routes.Values))
      ensures o.Failed? ==> active == old(active) && monitor == old(monitor)
      ensures OnlyHits(old(monitor), monitor, {}) && monitor.busy <= old(monitor.busy) + catalog.routes.Values
      ensures files.calm ==> o.Done?
    {
      hide Watch;
      o := files.Chance();
      var reached: bool := *;
      if o.Done? || (o.Crashed? && reached) {
        monitor := Observe(monitor, Routed(catalog.routes.Values));
        active := catalog.routes;
      }
    }

    // --------------------------------------------------------------- runtime

    /** Returns once no admitted request of the account is in flight. */
    method WaitDrained(id: Id) returns (o: Outcome)
      modifies this`monitor
      ensures o.Done? ==> monitor == Observe(old(monitor), Drained(id))
      ensures !o.Done? ==> monitor == old(monitor)
      ensures files.calm ==> o.Done?
    {
      o := files.Chance();
      if o.Done? {
        monitor := Observe(monitor, Drained(id));
      }
    }

    ghost method Disturb(id: Id)
      modifies this`monitor
      ensures monitor == Observe(old(monitor), Disrupted(id))
      ensures id in monitor.busy ==> Reports(old(monitor), monitor, id)
    {
      hide Watch;
      PlacesAreInside(monitor.trace);
      assert id in monitor.busy ==> Disruption(|monitor.trace|, id) in Observe(monitor, Disrupted(id)).undrained;
      monitor := Observe(monitor, Disrupted(id));
    }

    method SetContainers(next: map<Id, Container>) returns (o: Outcome)
      modifies this`containers
      ensures containers == old(containers) || containers == next
      ensures o.Done? ==> containers == next
      ensures o.Failed? ==> containers == old(containers)
      ensures files.calm ==> o.Done?
    {
      o := files.Chance();
      var reached: bool := *;
      if o.Done? || (o.Crashed? && reached) {
        containers := next;
      }
    }

    /** Removes both sides of an interrupted change and starts the desired container. */
    method ReconcileAccount(previousId: Id, desired: Option<Id>) returns (o: Outcome)
      requires desired.Some? ==> desired.value in catalog.accounts
      modifies this`containers, this`monitor
      ensures forall id :: (id != previousId || id == "") && desired != Some(id) ==> SameAt(containers, old(containers), id)
      ensures o.Done? && desired.None? ==> containers == WithoutContainer(old(containers), previousId)
      ensures o.Done? && desired.Some? ==>
        var left := if desired == Some(previousId) then old(containers) else WithoutContainer(old(containers), previousId);
        containers == left[desired.value := Container(catalog.accounts[desired.value].port, true)]
      ensures monitor.busy == old(monitor.busy)
      ensures OnlyHits(old(monitor), monitor, ({previousId} - {""} + if desired.Some? then {desired.value} else {}) * monitor.busy)
      ensures files.calm ==> o.Done?
    {
      hide Watch;
      o := Done;
      if previousId != "" && desired != Some(previousId) {
        Disturb(previousId);
        o := SetContainers(containers - {previousId});
      }
      ghost var left := containers;
      if desired.Some? && o.Done? {
        o := Recreate(desired.value);
      }
      assert forall id :: desired != Some(id) ==> SameAt(containers, left, id);
    }

    /** Starts the container of a new account; an existing one is a conflict. */
    method PrepareCreate(id: Id) returns (o: Outcome, t: Option<RuntimeTransition>)
      requires id in catalog.accounts
      modifies this`containers
      ensures forall other :: other != id ==> SameAt(containers, old(containers), other)
      ensures o.Done? ==> t == Some(RuntimeTransition(CreatedContainer, id, id, None))
      ensures o.Done? ==> id !in old(containers) && containers == old(containers)[id := Container(catalog.accounts[id].port, true)]
      ensures o.Failed? ==> containers == old(containers)
      ensures !o.Done? ==> t == None
      ensures files.calm && id !in old(containers) ==> o.Done?
    {
      t := None;
      if id in containers {
        o := Failed;
      } else {
        o := SetContainers(containers[id := Container(catalog.accounts[id].port, true)]);
        if o.Done? {
          t := Some(RuntimeTransition(CreatedContainer, id, id, None));
        }
      }
    }

    /** Removes the previous container and starts the new one; a failure in between leaves the transition to roll back. */
    method PrepareUpdate(beforeId: Id, afterId: Id) returns (o: Outcome, t: Option<RuntimeTransition>)
      requires afterId in catalog.accounts
      modifies this`containers, this`monitor
      ensures forall other :: other != beforeId && other != afterId ==> SameAt(containers, old(containers), other)
      ensures o.Done? ==> t.Some?
      ensures t.Some? ==> t.value == RuntimeTransition(ReplacedContainer, beforeId, afterId, Get(old(containers), beforeId))
      ensures o.Done? ==> containers == (old(containers) - {beforeId})[afterId := Container(catalog.accounts[afterId].port, true)]
      ensures o.Failed? ==> containers == if t.Some? then old(containers) - {beforeId} else old(containers)
      ensures monitor.busy == old(monitor.busy)
      ensures OnlyHits(old(monitor), monitor, {beforeId} * monitor.busy)
      ensures files.calm && (afterId == beforeId || afterId !in old(containers)) ==> o.Done?
    {
      hide Watch;
      t := None;
      ghost var before := containers;
      var previous := Get(containers, beforeId);
      o := Done;
      if beforeId in containers {
        Disturb(beforeId);
        o := SetContainers(containers - {beforeId});
      }
      assert o.Done? ==> containers == before - {beforeId};
      if o.Done? {
        t := Some(RuntimeTransition(ReplacedContainer, beforeId, afterId, previous));
        if afterId in containers {
          o := Failed;
        } else {
          o := SetContainers(containers[afterId := Container(catalog.accounts[afterId].port, true)]);
        }
      }
    }

    /** Keeps the container until the commit. */
    method PrepareDelete(id: Id) returns (o: Outcome, t: Option<RuntimeTransition>)
      ensures o.Done? ==> t == Some(RuntimeTransition(RetiredContainer, id, id, Get(containers, id)))
      ensures !o.Done? ==> t == None
      ensures files.calm ==> o.Done?
    {
      o := files.Chance();
      t := if o.Done? then Some(RuntimeTransition(RetiredContainer, id, id, Get(containers, id))) else None;
    }

    method CommitRuntime(t: RuntimeTransition) returns (o: Outcome)
      modifies this`containers, this`monitor
      ensures forall other :: other != t.beforeId ==> SameAt(containers, old(containers), other)
      ensures !t.kind.RetiredContainer? ==> o.Done? && containers == old(containers) && monitor == old(monitor)
      ensures o.Done? && t.kind.RetiredContainer? ==> containers == old(containers) - {t.beforeId}
      ensures monitor.busy == old(monitor.busy)
      ensures OnlyHits(old(monitor), monitor, {t.beforeId} * monitor.busy)
      ensures files.calm ==> o.Done?
    {
      hide Watch;
      o := Done;
      if t.kind.RetiredContainer? {
        Disturb(t.beforeId);
        o := SetContainers(containers - {t.beforeId});
      }
    }

    /** Removes the new container and brings the retained one back, going on past a failure. */
    method RollbackRuntime(t: RuntimeTransition) returns (o: Outcome)
      modifies this`containers, this`monitor
      ensures forall other :: other != t.beforeId && other != t.afterId ==> SameAt(containers, old(containers), other)
      ensures o.Done? ==> containers == RolledBackContainers(old(containers), t)
      ensures monitor.busy == old(monitor.busy)
      ensures OnlyHits(old(monitor), monitor, {t.afterId} * monitor.busy)
      ensures t.kind.RetiredContainer? ==> monitor == old(monitor)
      ensures !t.kind.RetiredContainer? && t.afterId in old(containers) && t.afterId in monitor.busy ==>
        Reports(old(monitor), monitor, t.afterId)
      ensures files.calm ==> o.Done?
    {
      hide Watch;
      o := Done;
      if !t.kind.RetiredContainer? && t.afterId in containers {
        Disturb(t.afterId);
        o := SetContainers(containers - {t.afterId});
      }
      assert !t.kind.RetiredContainer? && o.Done? ==> containers == old(containers) - {t.afterId};
      if !o.Crashed? && !t.kind.CreatedContainer? && t.previous.Some? {
        var failed := o.Failed?;
        o := SetContainers(containers[t.beforeId := t.previous.value]);
        if o.Done? && failed {
          o := Failed;
        }
      }
    }

    /** Restarts a container in place; a failed restart may leave it stopped. */
    method RestartAccount(id: Id) returns (o: Outcome)
      modifies this`containers, this`monitor
      ensures forall other :: other != id ==> SameAt(containers, old(containers), other)
      ensures id in containers <==> id in old(containers)
      ensures id in containers ==> containers[id].port == old(containers)[id].port
      ensures o.Done? ==> id in containers && containers[id].running
      ensures monitor.busy == old(monitor.busy)
      ensures OnlyHits(old(monitor), monitor, {id} * monitor.busy)
      ensures files.calm && id in old(containers) ==> o.Done?
    {
      hide Watch;
      o := Failed;
      if id in containers {
        Disturb(id);
        o := SetContainers(containers[id := containers[id].(running := false)]);
        if o.Done? {
          o := SetContainers(containers[id := containers[id].(running := true)]);
        }
      }
    }

    method Recreate(id: Id) returns (o: Outcome)
      requires id in catalog.accounts
      modifies this`containers, this`monitor
      ensures forall other :: other != id ==> SameAt(containers, old(containers), other)
      ensures o.Done? ==> containers == old(containers)[id := Container(catalog.accounts[id].port, true)]
      ensures monitor.busy == old(monitor.busy)
      ensures OnlyHits(old(monitor), monitor, {id} * monitor.busy)
      ensures files.calm ==> o.Done?
    {
      hide Watch;
      ghost var before := containers;
      Disturb(id);
      o := SetContainers(containers - {id});
      if o.Done? {
        assert containers[id := Container(catalog.accounts[id].port, true)] == before[id := Container(catalog.accounts[id].port, true)];
        o := SetContainers(containers[id := Container(catalog.accounts[id].port, true)]);
      }
    }
  }

  /** The empty ID names no container. */
  function WithoutContainer(containers: map<Id, Container>, id: Id): map<Id, Container> {
    if id == "" then containers else containers - {id}
  }

  function SecretWritten(secrets: map<Id, string>, id: Id, value: Option<string>): map<Id, string> {
    if value.Some? then secrets[id := value.value] else secrets - {id}
  }
}
