/**
 * Changing an account's selection policy: enabled and default.  Rows and
 * routes commit together, then configs and snapshot follow; no file or
 * container is touched, so requests already admitted finish where they are.
 */
module Policy {
  import opened Wrappers
  import opened Catalog
  import opened CatalogLaws
  import opened Journal
  import opened Routes
  import opened Files
  import opened Traffic
  import opened World
  import opened ControlPlane
  import opened Steps
  import opened TransactionLaws
  import U = Update

  datatype Request = Request(id: Id, enabled: Option<bool>, isDefault: Option<bool>, fallback: Option<Id>)

  /** The transaction behind the request. */
  function Stated(stored: Account, request: Request, fallback: Option<Id>): UpdateRequest {
    var enabled := if request.enabled.Some? then request.enabled.value else stored.enabled;
    UpdateRequest(request.id, request.id, stored.email, stored.mode, request.enabled,
                  if !enabled && request.isDefault.None? then Some(false) else request.isDefault,
                  fallback)
  }

  /** An account that leaves service or gives up the default needs another one to take over. */
  predicate NeedsFallback(stored: Account, request: Request) {
    var enabled := if request.enabled.Some? then request.enabled.value else stored.enabled;
    !enabled || (stored.isDefault && Stated(stored, request, None).isDefault == Some(false))
  }

  /** What is refused before the journal is opened. */
  ghost predicate Admissible(request: Request, accounts: map<Id, Account>, eligible: Option<set<Id>>) {
    && (request.enabled.Some? || request.isDefault.Some?) && ValidId(request.id) && request.id in accounts
    && (StepsAside(accounts[request.id], request) ==> HasFallback(accounts, request.id, request.fallback, eligible))
  }

  /** The account is to be out of service, or to be no longer the default. */
  ghost predicate StepsAside(stored: Account, request: Request) {
    !Wanted(request.enabled, stored.enabled) || (stored.isDefault && request.isDefault == Some(false))
  }

  /** The update behind the request: flags alone, a disabled account is no default, and a chosen account takes over. */
  ghost predicate IsPolicy(change: UpdateRequest, accounts: map<Id, Account>, request: Request, eligible: Option<set<Id>>)
    requires request.id in accounts
  {
    var stored := accounts[request.id];
    && change == UpdateRequest(
         request.id, request.id, stored.email, stored.mode, request.enabled,
         if !Wanted(request.enabled, stored.enabled) && request.isDefault.None? then Some(false) else request.isDefault,
         change.fallback)
    && if StepsAside(stored, request) then
         change.fallback.Some? && Chosen(accounts, request.id, request.fallback, eligible, change.fallback.value)
       else change.fallback.None?
  }

  /** An update that changes neither ID nor proxy mode. */
  ghost predicate KeepsIdentity(c: Catalog, change: UpdateRequest) {
    change.id in c.accounts && change.newId == change.id && change.mode == c.accounts[change.id].mode
  }

  lemma PolicyShape(c: Catalog, change: UpdateRequest, order: seq<Id>)
    requires KeepsIdentity(c, change) && ApplyUpdate(c, change, order).Ok?
    ensures
      var next := ApplyUpdate(c, change, order).value.0;
      && next.accounts.Keys == c.accounts.Keys
      && forall id :: id in c.accounts ==> next.accounts[id].port == c.accounts[id].port && next.accounts[id].mode == c.accounts[id].mode
  {
    hide ValidId, AutoFallback, UpdateChanges, UpdatedRoutes, UpdatedRow, DesiredEnabled, DesiredDefault, EnabledOthers;
  }

  lemma PolicyKeepsPart(w: World, next: Catalog)
    requires PolicyPart(w) && Invariant(next) && next.accounts.Keys == w.catalog.accounts.Keys
    requires forall id :: id in next.accounts ==>
      next.accounts[id].port == w.catalog.accounts[id].port && next.accounts[id].mode == w.catalog.accounts[id].mode
    ensures PolicyPart(w.(catalog := next))
  {
    hide Invariant, HasDirs;
  }

  lemma PolicyFacts(start: World, change: UpdateRequest, order: seq<Id>)
    requires Synced(start) && KeepsIdentity(start.catalog, change) && ApplyUpdate(start.catalog, change, order).Ok?
    ensures
      var (next, update) := ApplyUpdate(start.catalog, change, order).value;
      && RestoreUpdate(next, update) == Ok(start.catalog) && PolicyPart(start.(catalog := next)) && Invariant(next)
      && SameUsers(next.rows, start.catalog.rows)
  {
    hide ActiveUsers, UserSecrets;
    UpdateKeepsUsers(start.catalog, change, order);
    StartIsPart(start);
    hide Synced, Invariant, PolicyPart, ApplyUpdate, RestoreUpdate, KeepsIdentity;
    UpdateKeepsInvariant(start.catalog, change, order);
    U.UpdateRestores(start.catalog, change, order);
    PolicyShape(start.catalog, change, order);
    PolicyKeepsPart(start, ApplyUpdate(start.catalog, change, order).value.0);
  }

  lemma StartIsPart(start: World)
    requires Synced(start)
    ensures PolicyPart(start) && Invariant(start.catalog)
  {
    hide Invariant, CanRender, ConfigOf, DirsMatch, ContainersMatch;
  }

  /** The journal of a policy change may be found at any phase. */
  lemma PolicyIsSound(journal: Option<Operation>, w: World, operation: Operation)
    requires journal.Some? && journal.value == operation.(phase := journal.value.phase) && operation.kind == ChangePolicy
    requires ValidOperation(operation) && PolicyPart(w)
    ensures Sound(journal, w)
  {
    hide PolicyPart, ValidId;
  }

  lemma RenderedPolicy(w: World, config: map<Id, Config>)
    requires PolicyPart(w) && CanRender(w.catalog, w.secrets) && w.active == w.catalog.routes
    requires config.Keys <= w.catalog.accounts.Keys && w.tree.config == config + Rendered(w.catalog, w.secrets)
    ensures Synced(w)
  {
    hide Invariant, CanRender, ConfigOf, DirsMatch, ContainersMatch;
    assert w.tree.config.Keys == w.catalog.accounts.Keys;
  }

  /** Configs, then the snapshot. */
  method RenderAndPublish(cp: ControlPlane) returns (o: Outcome)
    requires PolicyPart(cp.W())
    modifies cp.files, cp`active, cp`monitor
    ensures PolicyPart(cp.W()) && cp.files.tree == old(cp.files.tree).(config := cp.files.tree.config)
    ensures o.Done? ==> Synced(cp.W())
    ensures OnlyHits(old(cp.monitor), cp.monitor, {})
    ensures cp.files.calm ==> o.Done?
  {
    hide PolicyPart, Rendered, CanRender, Watch, Synced;
    ghost var w := cp.W();
    PartKeys(w);
    o := cp.Render();
    RenderKeepsPart(w, cp.files.tree.config, w.active);
    ghost var config := cp.files.tree.config;
    if o.Done? {
      o := cp.Publish();
    }
    RenderKeepsPart(w, config, cp.active);
    if o.Done? {
      RenderedPolicy(cp.W(), w.tree.config);
    }
  }

  lemma PartKeys(w: World)
    requires PolicyPart(w)
    ensures w.tree.config.Keys == w.catalog.accounts.Keys && CanRender(w.catalog, w.secrets)
  {
  }

  lemma RenderKeepsPart(w: World, config: map<Id, Config>, active: map<User, Id>)
    requires PolicyPart(w)
    requires forall id :: id in config ==> id in w.tree.config || id in w.catalog.accounts
    requires forall id :: id in w.tree.config ==> id in config
    ensures PolicyPart(w.(tree := w.tree.(config := config), active := active))
  {
    hide Invariant, CanRender, DirsMatch, ContainersMatch;
  }

  method RollbackPolicy(cp: ControlPlane, update: AccountUpdate, ghost start: World) returns (e: Ending)
    requires PolicyPart(cp.W()) && Synced(start) && RestoreUpdate(cp.catalog, update) == Ok(start.catalog)
    requires cp.W() == start.(catalog := cp.catalog, tree := start.tree.(config := cp.files.tree.config), active := cp.active)
    modifies cp.files, cp`catalog, cp`active, cp`monitor
    ensures cp.catalog.rows == old(cp.catalog.rows) || cp.catalog.rows == start.catalog.rows
    ensures PolicyPart(cp.W()) && e in {Undone, Stuck, CutOff}
    ensures cp.files.tree == old(cp.files.tree).(config := cp.files.tree.config)
    ensures e.Undone? ==> Restored(cp.W(), start)
    ensures OnlyHits(old(cp.monitor), cp.monitor, {})
    ensures cp.files.calm ==> e.Undone?
  {
    hide PolicyPart, RestoreUpdate, Synced, Watch;
    PartOfStart(cp.W(), start);
    var o := U.StoreRestoration(cp, update);
    if o.Done? {
      o := RenderAndPublish(cp);
    }
    e := EndOf(o, false);
    if e.Undone? {
      StartKeys(start);
      StartKeys(cp.W());
    }
  }

  /** Between the rows of the start and those of the change only the catalog differs. */
  lemma PartOfStart(w: World, start: World)
    requires PolicyPart(w) && Synced(start)
    requires w == start.(catalog := w.catalog, tree := start.tree.(config := w.tree.config), active := w.active)
    ensures PolicyPart(w.(catalog := start.catalog))
  {
    assert w.catalog.accounts.Keys == w.containers.Keys == start.catalog.accounts.Keys;
    hide Invariant, CanRender, ConfigOf, HasDirs, ContainersMatch;
  }

  // --------------------------------------------------------------- operation

  /** From the accepted journal on; the journal is left for Finalize to clear. */
  method PolicyAccepted(cp: ControlPlane, operation: Operation, change: UpdateRequest) returns (e: Ending, ghost order: seq<Id>)
    requires Synced(cp.W()) && cp.journal == Some(operation) && ValidOperation(operation) && operation.kind == ChangePolicy
    requires KeepsIdentity(cp.catalog, change)
    modifies cp.files, cp`catalog, cp`active, cp`monitor, cp`journal
    ensures SameUsers(cp.catalog.rows, old(cp.catalog.rows))
    ensures cp.journal.Some? && Sound(cp.journal, cp.W()) && e in {Succeeded, Undone, Stuck, CutOff}
    ensures cp.W() == old(cp.W()).(catalog := cp.catalog, tree := old(cp.files.tree).(config := cp.files.tree.config), active := cp.active)
    ensures e.Undone? ==> Restored(cp.W(), old(cp.W()))
    ensures e.Succeeded? ==>
      && Synced(cp.W()) && Lists(order, old(cp.catalog).accounts)
      && ApplyUpdate(old(cp.catalog), change, order).Ok?
      && cp.catalog == ApplyUpdate(old(cp.catalog), change, order).value.0
    ensures OnlyHits(old(cp.monitor), cp.monitor, {})
    ensures cp.files.calm ==> e == if MayUpdate(old(cp.catalog).accounts, change) then Succeeded else Undone
  {
    hide SameUsers, PolicyPart, RestoreUpdate, Synced, Sound, ApplyUpdate, Lists, KeepsIdentity, ValidOperation, Restored, Watch;
    UsersStay(cp.catalog.rows);
    ghost var start := cp.W();
    StartIsPart(start);
    BackupsAside(start, start.tree);
    var o, update;
    o, update, order := U.StoreUpdate(cp, change);
    UpdateAcceptedIff(start.catalog, change, order);
    if ApplyUpdate(start.catalog, change, order).Ok? {
      PolicyFacts(start, change, order);
    }
    e := Undone;
    if o.Crashed? {
      e := CutOff;
    } else if o.Done? {
      o := Advance(cp, operation, ControlApplied);
      if o.Done? {
        o := RenderAndPublish(cp);
      }
      e := if o.Crashed? then CutOff else Succeeded;
      if o.Failed? {
        e := RollbackPolicy(cp, update.value, start);
      }
    }
    PolicyIsSound(cp.journal, cp.W(), operation);
  }

  method UpdatePolicy(cp: ControlPlane, request: Request, operationId: string, eligible: Option<set<Id>>)
    returns (e: Ending, ghost change: UpdateRequest, ghost order: seq<Id>)
    requires Sound(cp.journal, cp.W())
    modifies cp, cp.files
    ensures SameUsers(cp.catalog.rows, old(cp.catalog.rows))
    ensures Sound(cp.journal, cp.W())
    ensures old(cp.journal).Some? ==> e.Refused?
    ensures e.Refused? ==> cp.journal == old(cp.journal) && cp.W() == old(cp.W())
    ensures e.Stuck? ==> cp.journal.Some?
    ensures e.Undone? ==> cp.journal.None? && Restored(cp.W(), old(cp.W()))
    ensures e.Succeeded? ==>
      && cp.journal.None? && request.id in old(cp.catalog).accounts && Lists(order, old(cp.catalog).accounts)
      && ApplyUpdate(old(cp.catalog), change, order).Ok?
      && cp.catalog == ApplyUpdate(old(cp.catalog), change, order).value.0
    ensures !e.Refused? ==> request.id in old(cp.catalog).accounts && IsPolicy(change, old(cp.catalog).accounts, request, eligible)
    ensures cp.W() == old(cp.W()).(catalog := cp.catalog, tree := old(cp.files.tree).(config := cp.files.tree.config), active := cp.active)
    ensures OnlyHits(old(cp.monitor), cp.monitor, {})
    ensures cp.files.calm && old(cp.journal).None? ==>
      e == if !Admissible(request, old(cp.catalog).accounts, eligible) then Refused
           else if MayUpdate(old(cp.catalog).accounts, change) then Succeeded else Undone
  {
    hide SameUsers, Recoverable, Synced, ApplyUpdate, Lists, ValidId, Restored, PolicyPart, Watch;
    UsersStay(cp.catalog.rows);
    e, change, order := Refused, UpdateRequest("", "", "", Inherit, None, None, None), [];
    if (request.enabled.Some? || request.isDefault.Some?) && ValidId(request.id) && request.id in cp.catalog.accounts {
      var stored := cp.catalog.accounts[request.id];
      var stated := Stated(stored, request, None);
      var fallback: Option<Id> := None;
      var needed := NeedsFallback(stored, request);
      if needed {
        fallback := SelectFallback(cp.catalog.accounts, request.id, request.fallback, eligible);
      }
      if !needed || fallback.Some? {
        change := stated.(fallback := fallback);
        e, order := PolicyJournaled(cp, stated.(fallback := fallback), operationId);
      }
    }
  }

  method PolicyJournaled(cp: ControlPlane, change: UpdateRequest, operationId: string) returns (e: Ending, ghost order: seq<Id>)
    requires Sound(cp.journal, cp.W()) && KeepsIdentity(cp.catalog, change)
    modifies cp, cp.files
    ensures SameUsers(cp.catalog.rows, old(cp.catalog.rows))
    ensures Sound(cp.journal, cp.W())
    ensures old(cp.journal).Some? ==> e.Refused?
    ensures e.Refused? ==> cp.journal == old(cp.journal) && cp.W() == old(cp.W())
    ensures e.Stuck? ==> cp.journal.Some?
    ensures e.Undone? ==> cp.journal.None? && Restored(cp.W(), old(cp.W()))
    ensures e.Succeeded? ==>
      && cp.journal.None? && Lists(order, old(cp.catalog).accounts) && ApplyUpdate(old(cp.catalog), change, order).Ok?
      && cp.catalog == ApplyUpdate(old(cp.catalog), change, order).value.0
    ensures cp.W() == old(cp.W()).(catalog := cp.catalog, tree := old(cp.files.tree).(config := cp.files.tree.config), active := cp.active)
    ensures OnlyHits(old(cp.monitor), cp.monitor, {})
    ensures cp.files.calm && old(cp.journal).None? && ValidId(change.id) ==>
      e == if MayUpdate(old(cp.catalog).accounts, change) then Succeeded else Undone
  {
    hide SameUsers, Recoverable, Synced, ApplyUpdate, Lists, ValidOperation, KeepsIdentity, PolicyPart, Watch;
    UsersStay(cp.catalog.rows);
    e, order := Refused, [];
    ghost var start := cp.W();
    if ValidId(change.id) { NamedIsValid(Operation(operationId, ChangePolicy, Accepted, change.id, "", map[])); }
    var o, operation := Begin(cp, ChangePolicy, change.id, "", operationId);
    if cp.journal != old(cp.journal) {
      StartIsPart(start);
      PolicyIsSound(cp.journal, start, operation);
    }
    if o.Crashed? {
      e := CutOff;
    } else if o.Done? {
      e, order := PolicyAccepted(cp, operation, change);
      e := Finalize(cp, e);
    }
  }
}
