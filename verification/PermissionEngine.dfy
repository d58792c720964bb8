/**
 * The permission engine (runtime/internal/permission/engine.go, clients.go:218-281, store.go:364-853): its
 * tables changed in place, with the audit entries it emits. Any database operation may fail; an audit write
 * that fails changes nothing else.
 */
module PermissionEngine {
  import opened Wrappers
  import opened ScopeMatch
  import opened Permission
  import opened Strings
  import P = Pairing
  import T = Tokens

  datatype ApprovalState = Pending | Granted | Denied | Expired

  datatype Approval = Approval(id: nat, grant: nat, principal: Principal, capability: string, attempt: Scope,
                               state: ApprovalState, decidedBy: string)

  datatype Event =
    | CheckAllowed(principal: Principal, capability: string, grant: nat)
    | CheckDenied(principal: Principal, capability: string, attempt: Scope)
    | ApprovalRequested(principal: Principal, capability: string, grant: nat, approval: nat)
    | ApprovalResolved(principal: Principal, capability: string, grant: nat, approval: nat, granted: bool, actor: string)
    | GrantCreated(actor: string, grant: nat, capability: string, principal: Principal)
    | GrantRevoked(actor: string, grant: nat, capability: string, principal: Principal, reason: string)
    | ClientRevoked(actor: string, client: string, cascaded: nat)
    | AuthFailed(client: string, reason: string)

  datatype Error = CapabilityNotFound | CapabilityDiffers | ReservedNamespace | DatabaseFailed | UnknownScopeField | GrantNotFound | ApprovalNotFound
                 | AlreadyResolved | InvalidResolution | ClientNotFound

  datatype CheckResult = CheckResult(decision: Decision, approval: Option<nat>)

  /** Which of the database operations of one Check fail. */
  datatype CheckFaults = CheckFaults(lookup: bool, list: bool, enqueue: bool)

  /** Which of the two database operations of a registration, an issue or a revocation fail: the read or the write. */
  datatype Trouble = Trouble(reading: bool, writing: bool)

  const NO_TROUBLE: Trouble := Trouble(false, false)

  /** Which database operations of one resolution fail: the update, the look at why it missed, the reading back. */
  datatype ResolveFaults = ResolveFaults(update: bool, look: bool, reload: bool)

  /** Which database operations of one client's revocation fail. */
  datatype CascadeFaults = CascadeFaults(lookup: bool, list: bool, revoke: nat -> bool, mark: bool)

  /** Whether the audit log takes an entry. */
  type Writes = Event -> bool

  const CASCADE_LIMIT: nat := 10000

  // ---------------------------------------------------------------- specification

  function Kept(events: seq<Event>, writes: Writes): seq<Event> {
    if events == [] then []
    else (if writes(events[0]) then [events[0]] else []) + Kept(events[1..], writes)
  }

  lemma {:induction false} KeptAppend(a: seq<Event>, b: seq<Event>, writes: Writes)
    ensures Kept(a + b, writes) == Kept(a, writes) + Kept(b, writes)
  {
    hide Kept;
    if a == [] {
      KeptNone(writes);
      assert a + b == b;
    } else {
      KeptAppend(a[1..], b, writes);
      KeptStep(a, writes);
      KeptStep(a + b, writes);
      assert (a + b)[1..] == a[1..] + b;
    }
  }

  lemma KeptNone(writes: Writes)
    ensures Kept([], writes) == []
  {
  }

  lemma KeptStep(events: seq<Event>, writes: Writes)
    requires events != []
    ensures Kept(events, writes) == (if writes(events[0]) then [events[0]] else []) + Kept(events[1..], writes)
  {
  }

  /** One entry is kept exactly if the log takes it; with KeptAppend this says what is kept of any entries. */
  lemma KeptOne(e: Event, writes: Writes)
    ensures Kept([e], writes) == if writes(e) then [e] else []
  {
    assert [e][1..] == [];
  }

  /** When the log takes every entry, all are kept, in order. */
  lemma {:induction false} KeptAll(events: seq<Event>, writes: Writes)
    requires forall e :: e in events ==> writes(e)
    ensures Kept(events, writes) == events
  {
    if events != [] {
      assert events == [events[0]] + events[1..];
      KeptAll(events[1..], writes);
    }
  }

  /** A grant that a listing for a principal, and possibly one capability, selects. */
  predicate Selected(g: Grant, principal: Principal, capability: Option<string>, later: Later, now: int) {
    g.principal == principal && (capability.Some? ==> g.capability == capability.value) && Active(later, g, now)
  }

  predicate DistinctIds(listing: seq<Grant>) {
    forall i, j :: 0 <= i < j < |listing| ==> listing[i].id != listing[j].id
  }

  /** Rows of the table, each at most once, and only selected ones. */
  predicate ListsSome(listing: seq<Grant>, grants: map<nat, Grant>, principal: Principal, capability: Option<string>,
                      later: Later, now: int) {
    && DistinctIds(listing)
    && forall i :: 0 <= i < |listing| ==>
         listing[i].id in grants && grants[listing[i].id] == listing[i] && Selected(listing[i], principal, capability, later, now)
  }

  /** Rows of the table, each at most once, that nobody has revoked. */
  predicate UnrevokedRows(listing: seq<Grant>, grants: map<nat, Grant>) {
    && DistinctIds(listing)
    && forall i :: 0 <= i < |listing| ==>
         listing[i].id in grants && grants[listing[i].id] == listing[i] && listing[i].revokedAt.None?
  }

  predicate ListsEvery(listing: seq<Grant>, grants: map<nat, Grant>, principal: Principal, capability: Option<string>,
                       later: Later, now: int) {
    forall id | id in grants && Selected(grants[id], principal, capability, later, now) :: grants[id] in listing
  }

  /** The listing is newest first, and no selected row that it leaves out is newer than one it has. */
  ghost predicate ListsNewest(listing: seq<Grant>, grants: map<nat, Grant>, principal: Principal, later: Later, now: int) {
    && Sorted(NewestFirst(later), listing)
    && forall id, i | id in grants && Selected(grants[id], principal, None, later, now) && grants[id] !in listing
                      && 0 <= i < |listing| :: !NewestFirst(later)(grants[id], listing[i])
  }

  /** What one listing of the cascade holds: the newest active grants, all of them unless the limit is reached. */
  ghost predicate CascadeListing(listing: seq<Grant>, grants: map<nat, Grant>, principal: Principal, later: Later, now: int) {
    && ListsSome(listing, grants, principal, None, later, now)
    && |listing| <= CASCADE_LIMIT
    && (|listing| < CASCADE_LIMIT ==> ListsEvery(listing, grants, principal, None, later, now))
    && ListsNewest(listing, grants, principal, later, now)
  }

  /**
   * A complete listing for one capability holds exactly the grants of the principal for it that are neither
   * revoked nor, by the texts of the instants, expired.
   */
  lemma ListingIs(listing: seq<Grant>, grants: map<nat, Grant>, principal: Principal, capability: string, later: Later, now: int)
    requires ListsSome(listing, grants, principal, Some(capability), later, now)
    requires ListsEvery(listing, grants, principal, Some(capability), later, now)
    requires forall id | id in grants :: grants[id].id == id
    ensures forall g :: g in listing <==>
              && g.id in grants && grants[g.id] == g && g.principal == principal && g.capability == capability
              && g.revokedAt.None? && (g.expiresAt.Some? ==> later(g.expiresAt.value, now))
    ensures forall i, j :: 0 <= i < j < |listing| ==> listing[i].id != listing[j].id
  {
  }

  /**
   * What a cascade lists: active grants of the principal, newest first, at most ten thousand of them; all if they
   * are fewer, and otherwise none that it leaves out is newer than one it has.
   */
  lemma CascadeListingIs(listing: seq<Grant>, grants: map<nat, Grant>, principal: Principal, later: Later, now: int)
    requires CascadeListing(listing, grants, principal, later, now)
    ensures |listing| <= 10000
    ensures forall g :: g in listing ==>
              && g.id in grants && grants[g.id] == g && g.principal == principal
              && g.revokedAt.None? && (g.expiresAt.Some? ==> later(g.expiresAt.value, now))
    ensures forall i, j :: 0 <= i < j < |listing| ==> listing[i].id != listing[j].id && !later(listing[j].issuedAt, listing[i].issuedAt)
    ensures forall id | id in grants ::
              && grants[id].principal == principal && grants[id].revokedAt.None?
              && (grants[id].expiresAt.Some? ==> later(grants[id].expiresAt.value, now)) ==>
                grants[id] in listing || (|listing| == 10000 && forall g :: g in listing ==> !later(grants[id].issuedAt, g.issuedAt))
  {
    forall id | id in grants && Selected(grants[id], principal, None, later, now) && grants[id] !in listing
      ensures |listing| == 10000 && forall g :: g in listing ==> !later(grants[id].issuedAt, g.issuedAt)
    {
      forall g | g in listing ensures !later(grants[id].issuedAt, g.issuedAt) {
        var i :| 0 <= i < |listing| && listing[i] == g;
        assert !NewestFirst(later)(grants[id], listing[i]);
      }
    }
  }

  /** k is the first index below n at which a step fails, or n. */
  predicate StopsAt(fails: nat -> bool, n: nat, k: nat) {
    k <= n && (forall i :: 0 <= i < k ==> !fails(i)) && (k < n ==> fails(k))
  }

  method FirstFailure(fails: nat -> bool, n: nat) returns (k: nat)
    ensures StopsAt(fails, n, k)
  {
    k := 0;
    while k < n && !fails(k)
      invariant k <= n && forall i :: 0 <= i < k ==> !fails(i)
    {
      k := k + 1;
    }
  }

  function Ids(listing: seq<Grant>): set<nat> {
    set g | g in listing :: g.id
  }

  function ActiveIds(grants: map<nat, Grant>, principal: Principal, later: Later, now: int): set<nat> {
    set id | id in grants && Selected(grants[id], principal, None, later, now)
  }

  function RevokeAll(grants: map<nat, Grant>, ids: set<nat>, now: int): map<nat, Grant> {
    map id | id in grants :: if id in ids then grants[id].(revokedAt := Some(now)) else grants[id]
  }

  function RevokeEvents(listing: seq<Grant>, actor: string, reason: string): (events: seq<Event>)
    ensures |events| == |listing|
    ensures forall i :: 0 <= i < |listing| ==>
              events[i] == GrantRevoked(actor, listing[i].id, listing[i].capability, listing[i].principal, reason)
  {
    if listing == [] then []
    else
      [GrantRevoked(actor, listing[0].id, listing[0].capability, listing[0].principal, reason)]
      + RevokeEvents(listing[1..], actor, reason)
  }

  function Defaulted(s: string): string {
    if s == "" then "user" else s
  }

  function CascadeReason(client: string, reason: string): string {
    if reason == "" then "client " + client + " revoked" else "client " + client + " revoked: " + reason
  }

  /** The entries of a cascade: one per grant, in order, with the actor, or "user", and the augmented reason. */
  lemma CascadeEntries(listing: seq<Grant>, actor: string, client: string, reason: string)
    ensures var why := "client " + client + " revoked" + (if reason == "" then "" else ": " + reason);
            && |RevokeEvents(listing, Defaulted(actor), CascadeReason(client, reason))| == |listing|
            && forall i :: 0 <= i < |listing| ==>
                 RevokeEvents(listing, Defaulted(actor), CascadeReason(client, reason))[i] ==
                 GrantRevoked(if actor != "" then actor else "user", listing[i].id, listing[i].capability, listing[i].principal, why)
  {
    ReasonIs(client, reason);
    hide RevokeEvents, CascadeReason;
  }

  lemma ReasonIs(client: string, reason: string)
    ensures CascadeReason(client, reason) == "client " + client + " revoked" + (if reason == "" then "" else ": " + reason)
  {
    if reason != "" {
      assert "client " + client + " revoked: " + reason == "client " + client + " revoked" + (": " + reason);
    }
  }

  /** After a cascade exactly the listed grants are stamped; the others are what they were. */
  lemma RevokedRows(grants: map<nat, Grant>, listing: seq<Grant>, now: int)
    ensures var after := RevokeAll(grants, Ids(listing), now);
            && after.Keys == grants.Keys
            && forall id | id in grants ::
                 after[id] == if exists i :: 0 <= i < |listing| && listing[i].id == id then grants[id].(revokedAt := Some(now)) else grants[id]
  {
  }

  function TokenClient(token: string): string {
    if T.SplitToken(token).Some? then T.SplitToken(token).value.0 else ""
  }

  /** Grants are filed under their ids and none relaxes its capability's default approval. */
  predicate GrantsHold(capabilities: map<string, Capability>, grants: map<nat, Grant>, nextId: nat) {
    forall id | id in grants ::
      && id < nextId && grants[id].id == id
      && grants[id].capability in capabilities
      && (capabilities[grants[id].capability].defaultApproval ==> grants[id].requiresApproval)
  }

  // ---------------------------------------------------------------- what changes capabilities and grants

  const RESERVED: seq<string> := ["runtime.", "loamss.", "audit.", "permission.", "pairing."]

  predicate Reserved(name: string) {
    name != "audit.read" && exists prefix :: prefix in RESERVED && prefix <= name
  }

  /** The part of a name before its first dot. */
  function NamespaceOf(name: string): string {
    name[..IndexOf(name, '.', 0)]
  }

  /** The definition as it is stored: a missing namespace is taken from the name. */
  function Stored(c: Capability): Capability {
    c.(namespace := if c.namespace == "" then NamespaceOf(c.name) else c.namespace)
  }

  /** The namespace a definition is stored with: its own, or the part of its name before the first dot. */
  predicate StoredNamespace(c: Capability, ns: string) {
    if c.namespace != "" then ns == c.namespace
    else '.' !in ns && ns <= c.name && (|ns| < |c.name| ==> c.name[|ns|] == '.')
  }

  lemma StoredIs(c: Capability)
    ensures Stored(c) == c.(namespace := Stored(c).namespace) && StoredNamespace(c, Stored(c).namespace)
  {
  }

  lemma ReservedIs(name: string)
    ensures Reserved(name) <==>
            && name != "audit.read"
            && ("runtime." <= name || "loamss." <= name || "audit." <= name || "permission." <= name || "pairing." <= name)
  {
    assert RESERVED[0] in RESERVED && RESERVED[1] in RESERVED && RESERVED[2] in RESERVED && RESERVED[3] in RESERVED && RESERVED[4] in RESERVED;
    forall prefix | prefix in RESERVED ensures prefix in {"runtime.", "loamss.", "audit.", "permission.", "pairing."} {
      var i :| 0 <= i < |RESERVED| && RESERVED[i] == prefix;
      assert i == 0 || i == 1 || i == 2 || i == 3 || i == 4;
    }
  }

  function Registration(capabilities: map<string, Capability>, c: Capability): (r: Result<(), Error>)
  {
    if c.declaredBy != "" && Reserved(c.name) then Failure(ReservedNamespace)
    else if c.name in capabilities && capabilities[c.name] != c then Failure(CapabilityDiffers)
    else Success(())
  }

  datatype Registry = Registry(capabilities: map<string, Capability>, grants: map<nat, Grant>, nextId: nat)

  datatype Change =
    | Register(c: Capability)
    | Issue(principal: Principal, capability: string, scope: Scope, requiresApproval: bool, expiresAt: Option<int>, now: int)
    | RevokeOne(id: nat, now: int)
    | TakeId

  function Changed(s: Registry, change: Change): Registry {
    match change
    case Register(c) =>
      if Registration(s.capabilities, c).Success? && c.name !in s.capabilities
      then s.(capabilities := s.capabilities[c.name := Stored(c)]) else s
    case Issue(principal, capability, scope, requiresApproval, expiresAt, now) =>
      if capability !in s.capabilities || !(scope.Keys <= s.capabilities[capability].schema.Keys) then s
      else
        var c := s.capabilities[capability];
        s.(grants := s.grants[s.nextId := Grant(s.nextId, principal, capability, scope, requiresApproval || c.defaultApproval,
                                                now, expiresAt, None)],
           nextId := s.nextId + 1)
    case RevokeOne(id, now) =>
      if id !in s.grants || s.grants[id].revokedAt.Some? then s
      else s.(grants := s.grants[id := s.grants[id].(revokedAt := Some(now))])
    case TakeId => s.(nextId := s.nextId + 1)
  }

  function ChangedBy(s: Registry, changes: seq<Change>): Registry
    decreases |changes|
  {
    if changes == [] then s else ChangedBy(Changed(s, changes[0]), changes[1..])
  }

  lemma ChangeKeeps(s: Registry, change: Change)
    requires GrantsHold(s.capabilities, s.grants, s.nextId)
    ensures GrantsHold(Changed(s, change).capabilities, Changed(s, change).grants, Changed(s, change).nextId)
  {
    hide Reserved, NamespaceOf;
  }

  lemma {:induction false} ChangesKeep(s: Registry, changes: seq<Change>)
    requires GrantsHold(s.capabilities, s.grants, s.nextId)
    ensures var t := ChangedBy(s, changes); GrantsHold(t.capabilities, t.grants, t.nextId)
    decreases |changes|
  {
    hide Changed, GrantsHold;
    if changes != [] {
      ChangeKeeps(s, changes[0]);
      ChangesKeep(Changed(s, changes[0]), changes[1..]);
    }
  }

  /**
   * After any registrations, issues and revocations, no stored grant relaxes its capability's default approval,
   * and no listing of grants for a capability with one lets an access through without the user.
   */
  lemma DefaultIsKept(env: Env, changes: seq<Change>, capability: string, listing: seq<Grant>, attempt: Scope)
    requires var t := ChangedBy(Registry(map[], map[], 0), changes);
             && capability in t.capabilities && t.capabilities[capability].defaultApproval
             && forall g :: g in listing ==> g.id in t.grants && t.grants[g.id] == g && g.capability == capability
    ensures var t := ChangedBy(Registry(map[], map[], 0), changes);
            && (forall g :: g in listing ==> g.requiresApproval)
            && !Decide(env, t.capabilities[capability], listing, attempt).Allow?
  {
    hide Decide, ChangedBy;
    var t := ChangedBy(Registry(map[], map[], 0), changes);
    ChangesKeep(Registry(map[], map[], 0), changes);
    DefaultNeverAllows(env, t.capabilities[capability], listing, attempt);
  }

  /** Registering a new capability a second time succeeds exactly if its namespace was given or is empty anyway. */
  lemma RegisteredAgain(capabilities: map<string, Capability>, c: Capability)
    requires Registration(capabilities, c).Success? && c.name !in capabilities
    ensures Registration(capabilities[c.name := Stored(c)], c).Success? <==> c.namespace != "" || NamespaceOf(c.name) == ""
  {
    hide Reserved, NamespaceOf;
  }

  // ---------------------------------------------------------------- the engine

  /** What a decision leaves: one audit entry and, when the user is asked, one new pending approval. */
  predicate Recorded(approvals: map<nat, Approval>, log: seq<Event>, approvals': map<nat, Approval>, log': seq<Event>,
                     principal: Principal, capability: string, attempt: Scope, r: CheckResult, writes: Writes)
  {
    match r.decision
    case Deny => approvals' == approvals && log' == log + Kept([CheckDenied(principal, capability, attempt)], writes)
    case Allow(g) => approvals' == approvals && log' == log + Kept([CheckAllowed(principal, capability, g)], writes)
    case NeedsApproval(g) =>
      && r.approval.Some? && r.approval.value !in approvals
      && approvals' == approvals[r.approval.value :=
           Approval(r.approval.value, g, principal, capability, attempt, Pending, "")]
      && log' == log + Kept([ApprovalRequested(principal, capability, g, r.approval.value)], writes)
  }

  /** The loop over a listing: the first grant whose scope encloses the attempt. */
  method FindMatch(env: Env, c: Capability, listing: seq<Grant>, attempt: Scope) returns (found: Option<Grant>)
    ensures found == FirstMatch(env, c, listing, attempt)
  {
    hide Matches;
    for i := 0 to |listing|
      invariant FirstMatch(env, c, listing, attempt) == FirstMatch(env, c, listing[i..], attempt)
    {
      var g := listing[i];
      assert listing[i..][0] == g && listing[i..][1..] == listing[i + 1..];
      var ok, reason := MatchScope(env, c.schema, g.scope, attempt);
      MatchesIs(env, c, g, attempt);
      if ok {
        return Some(g);
      }
    }
    return None;
  }

  class Engine {
    var capabilities: map<string, Capability>
    var grants: map<nat, Grant>
    var approvals: map<nat, Approval>
    var clients: map<string, P.Client>
    var log: seq<Event>
    var nextId: nat

    ghost predicate Valid()
      reads this
    {
      && GrantsHold(capabilities, grants, nextId)
      && (forall id | id in approvals :: id < nextId && approvals[id].id == id)
    }

    function Tables(): Registry
      reads this
    {
      Registry(capabilities, grants, nextId)
    }

    constructor ()
      ensures Valid() && capabilities == map[] && grants == map[] && approvals == map[] && clients == map[] && log == []
    {
      capabilities, grants, approvals, clients := map[], map[], map[], map[];
      log, nextId := [], 0;
    }

    method Emit(e: Event, writes: Writes)
      modifies this`log
      ensures log == old(log) + Kept([e], writes)
      ensures log == if writes(e) then old(log) + [e] else old(log)
    {
      assert Kept([e], writes) == if writes(e) then [e] else [];
      if writes(e) {
        log := log + [e];
      }
    }

    /**
     * A capability is defined once: the same definition again is accepted, a different one refused, and so is
     * one that a capsule declares in a reserved namespace.
     */
    method RegisterCapability(c: Capability, trouble: Trouble) returns (r: Result<(), Error>)
      requires Valid()
      modifies this`capabilities
      ensures Valid()
      ensures var wanted := Registration(old(capabilities), c);
              r == if wanted == Failure(ReservedNamespace) then wanted
                   else if trouble.reading || (trouble.writing && c.name !in old(capabilities)) then Failure(DatabaseFailed)
                   else wanted
      ensures Tables() == if r == Failure(DatabaseFailed) then old(Tables()) else Changed(old(Tables()), Register(c))
      ensures r == Failure(ReservedNamespace) <==>
                && c.declaredBy != "" && c.name != "audit.read"
                && ("runtime." <= c.name || "loamss." <= c.name || "audit." <= c.name || "permission." <= c.name || "pairing." <= c.name)
      ensures r == Failure(CapabilityDiffers) ==> c.name in old(capabilities) && old(capabilities)[c.name] != c
      ensures r.Success? ==>
                if c.name in old(capabilities) then old(capabilities)[c.name] == c && capabilities == old(capabilities)
                else exists ns :: capabilities == old(capabilities)[c.name := c.(namespace := ns)] && StoredNamespace(c, ns)
      ensures r.Failure? ==> capabilities == old(capabilities)
    {
      hide GrantsHold, Reserved, NamespaceOf, StoredNamespace;
      ReservedIs(c.name);
      StoredIs(c);
      ChangeKeeps(Tables(), Register(c));
      if c.declaredBy != "" && Reserved(c.name) {
        return Failure(ReservedNamespace);
      }
      if trouble.reading {
        return Failure(DatabaseFailed);
      }
      if c.name in capabilities {
        return if capabilities[c.name] == c then Success(()) else Failure(CapabilityDiffers);
      }
      if trouble.writing {
        return Failure(DatabaseFailed);
      }
      capabilities := capabilities[c.name := Stored(c)];
      return Success(());
    }

    /** The selected rows, in any order. */
    method Select(principal: Principal, capability: Option<string>, later: Later, now: int) returns (rows: seq<Grant>)
      requires Valid()
      ensures ListsSome(rows, grants, principal, capability, later, now)
      ensures ListsEvery(rows, grants, principal, capability, later, now)
    {
      hide Selected;
      rows := [];
      var todo := grants.Keys;
      while todo != {}
        invariant todo <= grants.Keys
        invariant ListsSome(rows, grants, principal, capability, later, now)
        invariant forall g :: g in rows ==> g.id !in todo
        invariant forall id | id in grants && id !in todo && Selected(grants[id], principal, capability, later, now) ::
                    grants[id] in rows
      {
        var id :| id in todo;
        todo := todo - {id};
        if Selected(grants[id], principal, capability, later, now) {
          rows := rows + [grants[id]];
        }
      }
    }

    /** The active grants for a check, each once, in the order of the texts of their issue times, ties in any order. */
    method ListForCheck(principal: Principal, capability: string, later: Later, now: int) returns (listing: seq<Grant>)
      requires Valid() && TextOrder(later)
      ensures ListsSome(listing, grants, principal, Some(capability), later, now)
      ensures ListsEvery(listing, grants, principal, Some(capability), later, now)
      ensures Sorted(Older(later), listing)
      ensures forall i, j :: 0 <= i < j < |listing| ==> !later(listing[i].issuedAt, listing[j].issuedAt)
    {
      hide ListsSome, ListsEvery, TextOrder, Older, SortBy, Sorted, WeakOrder;
      var rows := Select(principal, Some(capability), later, now);
      OldestFirstOrders(later);
      SortedLists(Older(later), rows, grants, principal, Some(capability), later, now);
      listing := SortBy(Older(later), rows);
      OldestFirstIs(later, listing);
    }

    /** The active grants of a principal, newest first, up to a limit. */
    method ListGrants(principal: Principal, later: Later, now: int, limit: nat) returns (listing: seq<Grant>)
      requires Valid() && TextOrder(later)
      ensures ListsSome(listing, grants, principal, None, later, now) && |listing| <= limit
      ensures |listing| < limit ==> ListsEvery(listing, grants, principal, None, later, now)
      ensures ListsNewest(listing, grants, principal, later, now)
    {
      hide ListsSome, ListsEvery, ListsNewest, TextOrder, NewestFirst, SortBy, Sorted, WeakOrder;
      var rows := Select(principal, None, later, now);
      NewestFirstOrders(later);
      SortedLists(NewestFirst(later), rows, grants, principal, None, later, now);
      var all := SortBy(NewestFirst(later), rows);
      listing := if |all| <= limit then all else all[..limit];
      PrefixLists(all, |listing|, grants, principal, later, now);
      assert |all| <= limit ==> listing == all;
      assert listing == all[..|listing|];
    }

    /**
     * The decision is the first match of a listing of all the active grants of the principal for the
     * capability; it is audited, and asking the user files an approval. Nothing else changes.
     */
    method Check(env: Env, principal: Principal, capability: string, attempt: Scope, later: Later, now: int,
                 faults: CheckFaults, writes: Writes)
      returns (r: Result<CheckResult, Error>, ghost listing: seq<Grant>)
      requires Valid() && TextOrder(later)
      modifies this`log, this`approvals, this`nextId
      ensures Valid()
      ensures capability in capabilities && !faults.lookup && !faults.list ==>
                && ListsSome(listing, grants, principal, Some(capability), later, now)
                && ListsEvery(listing, grants, principal, Some(capability), later, now)
                && Sorted(Older(later), listing)
      ensures var decision := if capability in capabilities then Decide(env, capabilities[capability], listing, attempt) else Deny;
              if faults.lookup || (capability in capabilities && (faults.list || (faults.enqueue && decision.NeedsApproval?)))
              then r == Failure(DatabaseFailed) && approvals == old(approvals) && log == old(log)
              else
                && r.Success? && r.value.decision == decision
                && (decision.NeedsApproval? <==> r.value.approval.Some?)
                && Recorded(old(approvals), old(log), approvals, log, principal, capability, attempt, r.value, writes)
      ensures r.Success? && capability !in capabilities ==> r.value.decision.Deny?
      ensures r.Success? && capability in capabilities ==>
                && (r.value.decision.Deny? <==>
                    forall g :: g in listing ==> !ScopeMatches(env, capabilities[capability].schema, g.scope, attempt))
                && forall i :: IsFirstMatch(env, capabilities[capability], listing, attempt, i) ==>
                     r.value.decision == if !capabilities[capability].defaultApproval && !listing[i].requiresApproval
                                         then Allow(listing[i].id) else NeedsApproval(listing[i].id)
    {
      hide IsFirstMatch, Kept, Matches, Selected, ListsSome, ListsEvery, Sorted, Older;
      listing := [];
      if faults.lookup {
        return Failure(DatabaseFailed), listing;
      }
      if capability !in capabilities {
        Emit(CheckDenied(principal, capability, attempt), writes);
        return Success(CheckResult(Deny, None)), listing;
      }
      if faults.list {
        return Failure(DatabaseFailed), listing;
      }
      var all := ListForCheck(principal, capability, later, now);
      listing := all;
      var c := capabilities[capability];
      var found := FindMatch(env, c, all, attempt);
      DecisionIs(env, c, all, attempt);
      if found.None? {
        Emit(CheckDenied(principal, capability, attempt), writes);
        return Success(CheckResult(Deny, None)), listing;
      }
      var g := found.value;
      if c.defaultApproval || g.requiresApproval {
        var id := nextId;
        nextId := nextId + 1;
        if faults.enqueue {
          return Failure(DatabaseFailed), listing;
        }
        approvals := approvals[id := Approval(id, g.id, principal, capability, attempt, Pending, "")];
        Emit(ApprovalRequested(principal, capability, g.id, id), writes);
        return Success(CheckResult(NeedsApproval(g.id), Some(id))), listing;
      }
      Emit(CheckAllowed(principal, capability, g.id), writes);
      return Success(CheckResult(Allow(g.id), None)), listing;
    }

    /** A grant is stored under a new id, tightened to the capability's default approval. */
    method IssueGrant(principal: Principal, capability: string, scope: Scope, requiresApproval: bool,
                      expiresAt: Option<int>, actor: string, now: int, trouble: Trouble, writes: Writes)
      returns (r: Result<Grant, Error>)
      requires Valid()
      modifies this`grants, this`nextId, this`log
      ensures Valid()
      ensures r.Success? ==>
                Tables() == Changed(old(Tables()), Issue(principal, capability, scope, requiresApproval, expiresAt, now))
      ensures r.Success? <==>
              && capability in capabilities && scope.Keys <= capabilities[capability].schema.Keys
              && !trouble.reading && !trouble.writing
      ensures r.Failure? ==>
                && grants == old(grants) && log == old(log) && nextId == old(nextId)
                && r.error == if trouble.reading then DatabaseFailed
                              else if capability !in capabilities then CapabilityNotFound
                              else if !(scope.Keys <= capabilities[capability].schema.Keys) then UnknownScopeField
                              else DatabaseFailed
      ensures r.Success? ==>
                && r.value == Grant(old(nextId), principal, capability, scope,
                                    requiresApproval || capabilities[capability].defaultApproval, now, expiresAt, None)
                && r.value.id !in old(grants) && nextId == old(nextId) + 1
                && grants == old(grants)[r.value.id := r.value]
                && log == old(log) + Kept([GrantCreated(Defaulted(actor), r.value.id, capability, principal)], writes)
    {
      hide Kept;
      if trouble.reading {
        return Failure(DatabaseFailed);
      }
      if capability !in capabilities {
        return Failure(CapabilityNotFound);
      }
      var c := capabilities[capability];
      var approval := requiresApproval;
      if c.defaultApproval && !approval {
        approval := true;
      }
      if !(scope.Keys <= c.schema.Keys) {
        return Failure(UnknownScopeField);
      }
      if trouble.writing {
        return Failure(DatabaseFailed);
      }
      var g := Grant(nextId, principal, capability, scope, approval, now, expiresAt, None);
      grants := grants[g.id := g];
      nextId := nextId + 1;
      Emit(GrantCreated(Defaulted(actor), g.id, capability, principal), writes);
      return Success(g);
    }

    /** Revokes once: a second call changes nothing and emits nothing. */
    method RevokeGrant(id: nat, actor: string, reason: string, now: int, trouble: Trouble, writes: Writes)
      returns (r: Result<(), Error>)
      requires Valid()
      modifies this`grants, this`log
      ensures Valid()
      ensures r.Success? ==> Tables() == Changed(old(Tables()), RevokeOne(id, now))
      ensures r == if trouble.reading then Failure(DatabaseFailed)
                   else if id !in old(grants) then Failure(GrantNotFound)
                   else if trouble.writing && old(grants)[id].revokedAt.None? then Failure(DatabaseFailed)
                   else Success(())
      ensures grants.Keys == old(grants).Keys
      ensures if r.Success? && old(grants)[id].revokedAt.None?
              then
                && grants == old(grants)[id := old(grants)[id].(revokedAt := Some(now))]
                && log == old(log) + Kept([GrantRevoked(Defaulted(actor), id, old(grants)[id].capability,
                                                        old(grants)[id].principal, reason)], writes)
              else grants == old(grants) && log == old(log)
    {
      hide Kept;
      if trouble.reading {
        return Failure(DatabaseFailed);
      }
      if id !in grants {
        return Failure(GrantNotFound);
      }
      var g := grants[id];
      if g.revokedAt.Some? {
        return Success(());
      }
      if trouble.writing {
        return Failure(DatabaseFailed);
      }
      grants := grants[id := g.(revokedAt := Some(now))];
      Emit(GrantRevoked(Defaulted(actor), id, g.capability, g.principal, reason), writes);
      return Success(());
    }

    /**
     * A pending approval is decided once. When it cannot be read back afterwards it stays decided, but the call
     * fails and nothing is audited.
     */
    method ResolveApproval(id: nat, decision: ApprovalState, actor: string, faults: ResolveFaults, writes: Writes)
      returns (r: Result<(), Error>)
      requires Valid()
      modifies this`approvals, this`log
      ensures Valid()
      ensures var valid := decision.Granted? || decision.Denied?;
              var pending := id in old(approvals) && old(approvals)[id].state.Pending?;
              && r == (if !valid then Failure(InvalidResolution)
                       else if faults.update || (pending && faults.reload) || (!pending && faults.look) then Failure(DatabaseFailed)
                       else if pending then Success(())
                       else if id !in old(approvals) then Failure(ApprovalNotFound) else Failure(AlreadyResolved))
              && approvals == (if valid && !faults.update && pending
                               then old(approvals)[id := old(approvals)[id].(state := decision, decidedBy := actor)]
                               else old(approvals))
      ensures r.Failure? ==> log == old(log)
      ensures r.Success? ==>
                var a := old(approvals)[id];
                log == old(log) + Kept([ApprovalResolved(a.principal, a.capability, a.grant, id, decision.Granted?, actor)], writes)
    {
      hide Kept;
      if !decision.Granted? && !decision.Denied? {
        return Failure(InvalidResolution);
      }
      if faults.update {
        return Failure(DatabaseFailed);
      }
      if id !in approvals || !approvals[id].state.Pending? {
        if faults.look {
          return Failure(DatabaseFailed);
        }
        return Failure(if id !in approvals then ApprovalNotFound else AlreadyResolved);
      }
      approvals := approvals[id := approvals[id].(state := decision, decidedBy := actor)];
      if faults.reload {
        return Failure(DatabaseFailed);
      }
      var a := approvals[id];
      Emit(ApprovalResolved(a.principal, a.capability, a.grant, id, decision.Granted?, actor), writes);
      return Success(());
    }

    /** Revokes listed grants one after the other, each with its own audit entry. */
    method RevokeEach(all: seq<Grant>, actor: string, why: string, now: int, writes: Writes)
      requires Valid() && UnrevokedRows(all, grants)
      modifies this`grants, this`log
      ensures Valid() && grants == RevokeAll(old(grants), Ids(all), now)
      ensures log == old(log) + Kept(RevokeEvents(all, Defaulted(actor), why), writes)
    {
      hide Kept, RevokeAll, RevokeEvents, GrantsHold, UnrevokedRows;
      ghost var before, beforeLog := grants, log;
      NoneRevoked(before, now, all, Defaulted(actor), why, writes);
      for i := 0 to |all|
        invariant Valid()
        invariant grants == RevokeAll(before, Ids(all[..i]), now)
        invariant log == beforeLog + Kept(RevokeEvents(all[..i], Defaulted(actor), why), writes)
      {
        OneRevoked(before, all, i, now, Defaulted(actor), why, writes);
        var done := RevokeGrant(all[i].id, actor, why, now, NO_TROUBLE, writes);
      }
      assert all[..|all|] == all;
    }

    /**
     * Revokes the client's active grants, newest first and at most the limit of one listing, each with its own
     * audit entry, then the client, with an entry that carries their number. A database error stops it there:
     * what was revoked stays revoked and the client is not marked. Idempotent.
     */
    method RevokeClient(id: string, actor: string, reason: string, later: Later, now: int, faults: CascadeFaults, writes: Writes)
      returns (r: Result<(), Error>, ghost listing: seq<Grant>, ghost revoked: nat)
      requires Valid() && TextOrder(later)
      modifies this`grants, this`clients, this`log
      ensures Valid()
      ensures faults.lookup ==> r == Failure(DatabaseFailed)
      ensures !faults.lookup && id !in old(clients) ==> r == Failure(ClientNotFound)
      ensures !faults.lookup && id in old(clients) && old(clients)[id].revoked ==> r.Success?
      ensures !faults.lookup && id in old(clients) && !old(clients)[id].revoked && faults.list ==> r == Failure(DatabaseFailed)
      ensures faults.lookup || faults.list || id !in old(clients) || old(clients)[id].revoked ==>
                grants == old(grants) && clients == old(clients) && log == old(log)
      ensures !faults.lookup && !faults.list && id in old(clients) && !old(clients)[id].revoked ==>
                && CascadeListing(listing, old(grants), Principal(ClientPrincipal, id), later, now)
                && StopsAt(faults.revoke, |listing|, revoked)
                && r == (if revoked == |listing| && !faults.mark then Success(()) else Failure(DatabaseFailed))
                && grants == RevokeAll(old(grants), Ids(listing[..revoked]), now)
                && clients == (if r.Success? then old(clients)[id := old(clients)[id].(revoked := true)] else old(clients))
                && log == old(log) + Kept(RevokeEvents(listing[..revoked], Defaulted(actor), CascadeReason(id, reason))
                                          + (if r.Success? then [ClientRevoked(Defaulted(actor), id, |listing|)] else []), writes)
    {
      hide Kept, ListsSome, ListsEvery, ListsNewest, RevokeAll, RevokeEvents, GrantsHold, UnrevokedRows, TextOrder, Ids;
      listing, revoked := [], 0;
      if faults.lookup {
        return Failure(DatabaseFailed), listing, revoked;
      }
      if id !in clients {
        return Failure(ClientNotFound), listing, revoked;
      }
      if clients[id].revoked {
        return Success(()), listing, revoked;
      }
      if faults.list {
        return Failure(DatabaseFailed), listing, revoked;
      }
      var principal := Principal(ClientPrincipal, id);
      var all := ListGrants(principal, later, now, CASCADE_LIMIT);
      listing := all;
      ListedRows(all, grants, principal, later, now);
      var n := FirstFailure(faults.revoke, |all|);
      revoked := n;
      PrefixRows(all, grants, n);
      var why := CascadeReason(id, reason);
      ghost var events := RevokeEvents(all[..n], Defaulted(actor), why);
      RevokeEach(all[..n], actor, why, now, writes);
      assert events + [] == events;
      if n < |all| {
        return Failure(DatabaseFailed), listing, revoked;
      }
      if faults.mark {
        return Failure(DatabaseFailed), listing, revoked;
      }
      clients := clients[id := clients[id].(revoked := true)];
      KeptAppend(events, [ClientRevoked(Defaulted(actor), id, |all|)], writes);
      Emit(ClientRevoked(Defaulted(actor), id, |all|), writes);
      return Success(()), listing, revoked;
    }

    /** Maps a token to its client; every failure but one of the database is audited with its reason. */
    method AuthenticateClient(env: P.Env, token: string, lookupFails: bool, writes: Writes) returns (r: Result<P.Authentication, Error>)
      modifies this`log
      ensures r == if T.SplitToken(token).Some? && lookupFails then Failure(DatabaseFailed)
                   else Success(P.Authenticate(env, clients, token))
      ensures log == old(log) +
                if r.Failure? then []
                else
                  match r.value
                  case Authenticated(_) => []
                  case ClientRevoked => Kept([AuthFailed(TokenClient(token), "client revoked")], writes)
                  case InvalidCredential(reason) => Kept([AuthFailed(TokenClient(token), reason)], writes)
    {
      hide Kept, T.SplitToken, T.EqualHex, T.HashSecret;
      var parts := T.SplitToken(token);
      if parts.None? {
        Emit(AuthFailed("", "malformed token"), writes);
        return Success(P.InvalidCredential("malformed token"));
      }
      var (id, secret) := parts.value;
      if lookupFails {
        return Failure(DatabaseFailed);
      }
      if id !in clients {
        Emit(AuthFailed(id, "unknown client"), writes);
        return Success(P.InvalidCredential("unknown client"));
      }
      if clients[id].revoked {
        Emit(AuthFailed(id, "client revoked"), writes);
        return Success(P.Authentication.ClientRevoked);
      }
      if !T.EqualHex(clients[id].hash, T.HashSecret(env.sha, secret)) {
        Emit(AuthFailed(id, "credential mismatch"), writes);
        return Success(P.InvalidCredential("credential mismatch"));
      }
      return Success(P.Authenticated(id));
    }
  }

  lemma DecisionIs(env: Env, c: Capability, listing: seq<Grant>, attempt: Scope)
    ensures var d := Decide(env, c, listing, attempt);
            && (d.Deny? <==> forall g :: g in listing ==> !ScopeMatches(env, c.schema, g.scope, attempt))
            && forall i :: IsFirstMatch(env, c, listing, attempt, i) ==>
                 d == if !c.defaultApproval && !listing[i].requiresApproval then Allow(listing[i].id) else NeedsApproval(listing[i].id)
  {
    hide Decide, ScopeMatches, IsFirstMatch;
    DeniedIffNoMatch(env, c, listing, attempt);
    forall g ensures Matches(env, c, g, attempt) == ScopeMatches(env, c.schema, g.scope, attempt) {
      MatchesIs(env, c, g, attempt);
    }
    hide Matches;
    forall i | IsFirstMatch(env, c, listing, attempt, i)
      ensures 0 <= i < |listing|
              && Decide(env, c, listing, attempt) ==
                 if !c.defaultApproval && !listing[i].requiresApproval then Allow(listing[i].id) else NeedsApproval(listing[i].id)
    {
      FirstMatchDecides(env, c, listing, attempt, i);
      FirstInListing(env, c, listing, attempt, i);
    }
  }

  lemma FirstInListing(env: Env, c: Capability, listing: seq<Grant>, attempt: Scope, i: int)
    requires IsFirstMatch(env, c, listing, attempt, i)
    ensures 0 <= i < |listing|
  {
  }

  lemma MatchesIs(env: Env, c: Capability, g: Grant, attempt: Scope)
    ensures Matches(env, c, g, attempt) == ScopeMatches(env, c.schema, g.scope, attempt)
  {
  }

  lemma OldestFirstIs(later: Later, listing: seq<Grant>)
    requires Sorted(Older(later), listing)
    ensures forall i, j :: 0 <= i < j < |listing| ==> !later(listing[i].issuedAt, listing[j].issuedAt)
  {
    forall i, j | 0 <= i < j < |listing| ensures !later(listing[i].issuedAt, listing[j].issuedAt) {
      assert !Older(later)(listing[j], listing[i]);
    }
  }

  lemma PrefixRows(listing: seq<Grant>, grants: map<nat, Grant>, n: nat)
    requires UnrevokedRows(listing, grants) && n <= |listing|
    ensures UnrevokedRows(listing[..n], grants)
  {
  }

  /** Sorting the selected rows keeps them the selected rows. */
  lemma SortedLists(before: Precedes, rows: seq<Grant>, grants: map<nat, Grant>, principal: Principal,
                    capability: Option<string>, later: Later, now: int)
    requires WeakOrder(before) && ListsSome(rows, grants, principal, capability, later, now)
    requires ListsEvery(rows, grants, principal, capability, later, now)
    ensures var all := SortBy(before, rows);
            && ListsSome(all, grants, principal, capability, later, now)
            && ListsEvery(all, grants, principal, capability, later, now) && Sorted(before, all)
  {
    hide WeakOrder, SortBy, Sorted, Selected;
    var all := SortBy(before, rows);
    assert Distinct(rows);
    SortSorts(before, rows);
    SortDistinct(before, rows);
    forall i | 0 <= i < |all|
      ensures all[i].id in grants && grants[all[i].id] == all[i] && Selected(all[i], principal, capability, later, now)
    {
      assert all[i] in rows;
    }
    forall i, j | 0 <= i < j < |all| ensures all[i].id != all[j].id {
      assert all[i] != all[j] && grants[all[i].id] == all[i] && grants[all[j].id] == all[j];
    }
  }

  lemma PrefixLists(all: seq<Grant>, n: nat, grants: map<nat, Grant>, principal: Principal, later: Later, now: int)
    requires n <= |all| && Sorted(NewestFirst(later), all)
    requires ListsSome(all, grants, principal, None, later, now) && ListsEvery(all, grants, principal, None, later, now)
    ensures ListsSome(all[..n], grants, principal, None, later, now) && ListsNewest(all[..n], grants, principal, later, now)
  {
    hide NewestFirst, Selected;
    forall id, i | id in grants && Selected(grants[id], principal, None, later, now) && grants[id] !in all[..n] && 0 <= i < n
      ensures !NewestFirst(later)(grants[id], all[i])
    {
      assert all == all[..n] + all[n..];
      assert grants[id] in all[n..];
      var j :| 0 <= j < |all[n..]| && all[n..][j] == grants[id];
      assert all[n + j] == grants[id];
    }
  }

  lemma ListedRows(listing: seq<Grant>, grants: map<nat, Grant>, principal: Principal, later: Later, now: int)
    requires ListsSome(listing, grants, principal, None, later, now)
    ensures UnrevokedRows(listing, grants)
  {
  }

  lemma NoneRevoked(grants: map<nat, Grant>, now: int, listing: seq<Grant>, actor: string, why: string, writes: Writes)
    ensures RevokeAll(grants, Ids(listing[..0]), now) == grants
    ensures Kept(RevokeEvents(listing[..0], actor, why), writes) == []
  {
    assert listing[..0] == [];
  }

  /** What revoking the next listed grant adds. */
  lemma OneRevoked(grants: map<nat, Grant>, listing: seq<Grant>, i: nat, now: int, actor: string, why: string, writes: Writes)
    requires i < |listing| && UnrevokedRows(listing, grants)
    ensures var g := listing[i];
            var so := RevokeAll(grants, Ids(listing[..i]), now);
            && g.id in so && so[g.id] == g && g.revokedAt.None?
            && so[g.id := g.(revokedAt := Some(now))] == RevokeAll(grants, Ids(listing[..i + 1]), now)
            && Kept(RevokeEvents(listing[..i + 1], actor, why), writes) ==
               Kept(RevokeEvents(listing[..i], actor, why), writes)
               + Kept([GrantRevoked(actor, g.id, g.capability, g.principal, why)], writes)
  {
    hide Kept, Ids, RevokeAll, RevokeEvents;
    var g := listing[i];
    var event := GrantRevoked(actor, g.id, g.capability, g.principal, why);
    NextIds(listing, i);
    NextEvent(listing, i, actor, why);
    KeptAppend(RevokeEvents(listing[..i], actor, why), [event], writes);
    RevokeNext(grants, Ids(listing[..i]), g.id, now);
  }

  lemma NextIds(listing: seq<Grant>, i: nat)
    requires i < |listing| && DistinctIds(listing)
    ensures Ids(listing[..i + 1]) == Ids(listing[..i]) + {listing[i].id} && listing[i].id !in Ids(listing[..i])
  {
    assert listing[..i + 1] == listing[..i] + [listing[i]];
  }

  lemma NextEvent(listing: seq<Grant>, i: nat, actor: string, why: string)
    requires i < |listing|
    ensures var g := listing[i];
            RevokeEvents(listing[..i + 1], actor, why) ==
            RevokeEvents(listing[..i], actor, why) + [GrantRevoked(actor, g.id, g.capability, g.principal, why)]
  {
    hide RevokeEvents;
  }

  lemma RevokeNext(grants: map<nat, Grant>, ids: set<nat>, id: nat, now: int)
    requires id in grants && id !in ids
    ensures var so := RevokeAll(grants, ids, now);
            id in so && so[id] == grants[id] && so[id := grants[id].(revokedAt := Some(now))] == RevokeAll(grants, ids + {id}, now)
  {
  }

  // ---------------------------------------------------------------- the cascade's limit

  lemma {:induction false} IdsCount(listing: seq<Grant>)
    requires DistinctIds(listing)
    ensures |Ids(listing)| == |listing|
  {
    if listing == [] {
      assert Ids(listing) == {};
    } else {
      var rest := listing[1..];
      assert listing == [listing[0]] + rest;
      IdsCount(rest);
      assert Ids(listing) == {listing[0].id} + Ids(rest);
      assert listing[0].id !in Ids(rest);
    }
  }

  /**
   * After the cascade the client has no active grant left if and only if it had at most the limit of one
   * listing before.
   */
  lemma CascadeComplete(grants: map<nat, Grant>, listing: seq<Grant>, principal: Principal, later: Later, now: int)
    requires ListsSome(listing, grants, principal, None, later, now) && |listing| <= CASCADE_LIMIT
    requires |listing| < CASCADE_LIMIT ==> ListsEvery(listing, grants, principal, None, later, now)
    requires forall id | id in grants :: grants[id].id == id
    ensures var after := RevokeAll(grants, Ids(listing), now);
            && (ActiveIds(after, principal, later, now) == {} <==> |ActiveIds(grants, principal, later, now)| <= CASCADE_LIMIT)
            && ActiveIds(after, principal, later, now) == ActiveIds(grants, principal, later, now) - Ids(listing)
  {
    var all, ids := ActiveIds(grants, principal, later, now), Ids(listing);
    var after := RevokeAll(grants, ids, now);
    IdsCount(listing);
    forall id | id in ids ensures id in all {
      var i :| 0 <= i < |listing| && listing[i].id == id;
    }
    assert ActiveIds(after, principal, later, now) == all - ids;
    if |listing| < CASCADE_LIMIT {
      forall id | id in all ensures id in ids {
        assert grants[id] in listing && grants[id].id in ids;
        var i :| 0 <= i < |listing| && listing[i] == grants[id];
      }
      SubsetCount(all, ids);
    } else if |all| <= CASCADE_LIMIT {
      SubsetFull(ids, all);
    } else if all - ids == {} {
      forall id | id in all ensures id in ids {
        assert id !in all - ids;
      }
      SubsetCount(all, ids);
    }
  }

  lemma {:induction false} SubsetCount(a: set<nat>, b: set<nat>)
    requires a <= b
    ensures |a| <= |b|
    decreases |a|
  {
    if a != {} {
      var x :| x in a;
      SubsetCount(a - {x}, b - {x});
    }
  }

  lemma SubsetFull(a: set<nat>, b: set<nat>)
    requires a <= b && |b| <= |a|
    ensures a == b
  {
    if b - a != {} {
      var x :| x in b - a;
      SubsetCount(a, b - {x});
    }
  }
}
