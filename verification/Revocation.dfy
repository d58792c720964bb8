/**
 * Revoking a client while others use the tables (runtime/internal/permission/clients.go:223-281,
 * engine.go:103-168, 214-242): the statements of one RevokeClient interleaved with any number of Checks, each
 * of which reads its listing in one statement and decides later, and with whatever others issue and revoke.
 * Any step of the revocation may fail. The clock reads anything; expiry is a comparison of stored texts, a
 * parameter.
 */
module Revocation {
  import opened Wrappers
  import opened ScopeMatch
  import opened Permission
  import opened PermissionEngine
  import P = Pairing

  /** Where the revocation is. `skipped` are the listed grants it found revoked already. */
  datatype Phase =
    | Idle
    | Found
    | Cascading(all: seq<Grant>, i: nat, skipped: set<nat>)
    | Loaded(all: seq<Grant>, i: nat, skipped: set<nat>)
    | Updated(all: seq<Grant>, i: nat, skipped: set<nat>)
    | Announcing(all: seq<Grant>, skipped: set<nat>)
    | Finished(all: seq<Grant>, skipped: set<nat>)
    | Stopped(all: seq<Grant>, i: nat, skipped: set<nat>)

  datatype CheckState =
    | Listed(capability: Capability, attempt: Scope, listing: seq<Grant>)
    | Decided(decision: Decision)

  /** `elsewhere` are the grants that others revoked; the log holds what this revocation wrote. */
  datatype State = State(client: string, grants: map<nat, Grant>, clients: map<string, P.Client>, now: int,
                         phase: Phase, elsewhere: set<nat>, checks: map<nat, CheckState>, log: seq<Event>)

  /** The fixed inputs: how stored instants compare, and the revocation's arguments. */
  datatype Order = Order(env: Env, later: Later, actor: string, reason: string, writes: Writes)

  datatype Step =
    | Tick(n: int)
    | Issue(g: Grant)
    | RevokeElsewhere(id: nat)
    | MarkElsewhere
    | Find
    | ListGrants(listing: seq<Grant>)
    | Load
    | Update
    | Record
    | MarkClient
    | Announce
    | Fail
    | CheckList(k: nat, capability: Capability, attempt: Scope, seen: seq<Grant>)
    | CheckDecide(k: nat)

  function Owner(s: State): Principal {
    Principal(ClientPrincipal, s.client)
  }

  ghost predicate Enabled(order: Order, s: State, step: Step) {
    match step
    case Tick(_) => true
    case Issue(g) => g.id !in s.grants && g.revokedAt.None?
    case RevokeElsewhere(id) => id in s.grants && s.grants[id].revokedAt.None?
    case MarkElsewhere => s.client in s.clients
    case Find => s.phase.Idle? && s.client in s.clients && !s.clients[s.client].revoked
    case ListGrants(listing) => s.phase.Found? && CascadeListing(listing, s.grants, Owner(s), order.later, s.now)
    case Load => s.phase.Cascading? && s.phase.i < |s.phase.all| && s.phase.all[s.phase.i].id in s.grants
    case Update => s.phase.Loaded? && s.phase.i < |s.phase.all| && s.phase.all[s.phase.i].id in s.grants
    case Record => s.phase.Updated? && s.phase.i < |s.phase.all|
    case MarkClient => s.phase.Cascading? && s.phase.i == |s.phase.all| && s.client in s.clients
    case Announce => s.phase.Announcing?
    case Fail => s.phase.Idle? || s.phase.Found? || s.phase.Cascading? || s.phase.Loaded?
    case CheckList(k, capability, _, seen) =>
      && k !in s.checks
      && ListsSome(seen, s.grants, Owner(s), Some(capability.name), order.later, s.now)
      && ListsEvery(seen, s.grants, Owner(s), Some(capability.name), order.later, s.now)
      && Sorted(Older(order.later), seen)
    case CheckDecide(k) => k in s.checks && s.checks[k].Listed?
  }

  function Why(order: Order, client: string): string {
    CascadeReason(client, order.reason)
  }

  function RevokedEvent(order: Order, client: string, g: Grant): Event {
    GrantRevoked(Defaulted(order.actor), g.id, g.capability, g.principal, Why(order, client))
  }

  function ClosingEvent(order: Order, client: string, all: seq<Grant>): Event {
    ClientRevoked(Defaulted(order.actor), client, |all|)
  }

  ghost function Apply(order: Order, s: State, step: Step): State
    requires Enabled(order, s, step)
  {
    match step
    case Tick(n) => s.(now := n)
    case Issue(g) => s.(grants := s.grants[g.id := g])
    case RevokeElsewhere(id) =>
      s.(grants := s.grants[id := s.grants[id].(revokedAt := Some(s.now))], elsewhere := s.elsewhere + {id})
    case MarkElsewhere => s.(clients := s.clients[s.client := s.clients[s.client].(revoked := true)])
    case Find => s.(phase := Found)
    case ListGrants(listing) => s.(phase := Cascading(listing, 0, {}))
    case Load =>
      var id := s.phase.all[s.phase.i].id;
      if s.grants[id].revokedAt.Some? then s.(phase := Cascading(s.phase.all, s.phase.i + 1, s.phase.skipped + {id}))
      else s.(phase := Loaded(s.phase.all, s.phase.i, s.phase.skipped))
    case Update =>
      var id := s.phase.all[s.phase.i].id;
      var g := s.grants[id];
      s.(grants := if g.revokedAt.None? then s.grants[id := g.(revokedAt := Some(s.now))] else s.grants,
         phase := Updated(s.phase.all, s.phase.i, s.phase.skipped))
    case Record =>
      s.(log := s.log + Kept([RevokedEvent(order, s.client, s.phase.all[s.phase.i])], order.writes),
         phase := Cascading(s.phase.all, s.phase.i + 1, s.phase.skipped))
    case MarkClient =>
      s.(clients := s.clients[s.client := s.clients[s.client].(revoked := true)],
         phase := Announcing(s.phase.all, s.phase.skipped))
    case Announce =>
      s.(log := s.log + Kept([ClosingEvent(order, s.client, s.phase.all)], order.writes),
         phase := Finished(s.phase.all, s.phase.skipped))
    case Fail =>
      s.(phase := if s.phase.Idle? || s.phase.Found? then Stopped([], 0, {}) else Stopped(s.phase.all, s.phase.i, s.phase.skipped))
    case CheckList(k, capability, attempt, seen) => s.(checks := s.checks[k := Listed(capability, attempt, seen)])
    case CheckDecide(k) =>
      var c := s.checks[k];
      s.(checks := s.checks[k := Decided(Decide(order.env, c.capability, c.listing, c.attempt))])
  }

  ghost predicate Runs(order: Order, s: State, steps: seq<Step>, t: State)
    decreases |steps|
  {
    if steps == [] then s == t
    else Enabled(order, s, steps[0]) && Runs(order, Apply(order, s, steps[0]), steps[1..], t)
  }

  lemma {:induction false} RunsJoin(order: Order, s: State, a: seq<Step>, t: State, b: seq<Step>, u: State)
    requires Runs(order, s, a, t) && Runs(order, t, b, u)
    ensures Runs(order, s, a + b, u)
    decreases |a|
  {
    hide Enabled, Apply;
    if a == [] {
      assert a + b == b;
    } else {
      RunsJoin(order, Apply(order, s, a[0]), a[1..], t, b, u);
      assert (a + b)[1..] == a[1..] + b;
    }
  }

  lemma RunsOne(order: Order, s: State, step: Step)
    requires Enabled(order, s, step)
    ensures Runs(order, s, [step], Apply(order, s, step))
  {
    hide Enabled, Apply;
    assert [step][1..] == [];
  }

  // ---------------------------------------------------------------- what only moves forward

  /** Rows stay as they are but for being revoked once. */
  predicate Forward(s: State, t: State) {
    && t.client == s.client && s.elsewhere <= t.elsewhere
    && forall id | id in s.grants :: id in t.grants && KeptOrRevoked(s.grants[id], t.grants[id])
  }

  predicate KeptOrRevoked(g: Grant, h: Grant) {
    h == g || (g.revokedAt.None? && h.revokedAt.Some? && h == g.(revokedAt := h.revokedAt))
  }

  lemma ForwardTransitive(s: State, t: State, u: State)
    requires Forward(s, t) && Forward(t, u)
    ensures Forward(s, u)
  {
  }

  lemma StepForward(order: Order, s: State, step: Step)
    requires Enabled(order, s, step)
    ensures Forward(s, Apply(order, s, step))
  {
    hide Decide, ListsSome, ListsEvery, CascadeListing, Sorted, Kept, RevokedEvent, ClosingEvent;
  }

  lemma {:induction false} RunForward(order: Order, s: State, steps: seq<Step>, t: State)
    requires Runs(order, s, steps, t)
    ensures Forward(s, t)
    decreases |steps|
  {
    hide Enabled, Apply;
    if steps != [] {
      var u := Apply(order, s, steps[0]);
      StepForward(order, s, steps[0]);
      RunForward(order, u, steps[1..], t);
      ForwardTransitive(s, u, t);
    }
  }

  // ---------------------------------------------------------------- the cascade

  /** The listing, how many of its grants are handled, and how many have their entry written or need none. */
  function ListedBy(phase: Phase): seq<Grant> {
    match phase
    case Idle => []
    case Found => []
    case Cascading(all, _, _) => all
    case Loaded(all, _, _) => all
    case Updated(all, _, _) => all
    case Announcing(all, _) => all
    case Finished(all, _) => all
    case Stopped(all, _, _) => all
  }

  function Told(phase: Phase): nat {
    match phase
    case Idle => 0
    case Found => 0
    case Cascading(_, i, _) => i
    case Loaded(_, i, _) => i
    case Updated(_, i, _) => i
    case Announcing(all, _) => |all|
    case Finished(all, _) => |all|
    case Stopped(_, i, _) => i
  }

  function Done(phase: Phase): nat {
    if phase.Updated? then phase.i + 1 else Told(phase)
  }

  function Skipped(phase: Phase): set<nat> {
    if phase.Idle? || phase.Found? then {} else phase.skipped
  }

  /** The listed grants that were not found revoked already. */
  function Unskipped(listing: seq<Grant>, skipped: set<nat>): seq<Grant> {
    if listing == [] then []
    else
      var n := |listing| - 1;
      Unskipped(listing[..n], skipped) + (if listing[n].id in skipped then [] else [listing[n]])
  }

  function Events(order: Order, client: string, listing: seq<Grant>): seq<Event> {
    RevokeEvents(listing, Defaulted(order.actor), Why(order, client))
  }

  /** The entries of the cascade so far. */
  function Written(order: Order, client: string, phase: Phase): seq<Event>
    requires Told(phase) <= |ListedBy(phase)|
  {
    Events(order, client, Unskipped(ListedBy(phase)[..Told(phase)], Skipped(phase)))
    + if phase.Finished? then [ClosingEvent(order, client, phase.all)] else []
  }

  /** Each listed grant is still a row, the same but for having been revoked. */
  predicate RowsListed(grants: map<nat, Grant>, all: seq<Grant>) {
    forall j :: 0 <= j < |all| ==>
      all[j].id in grants && all[j].revokedAt.None? && grants[all[j].id] == all[j].(revokedAt := grants[all[j].id].revokedAt)
  }

  /** The first n listed grants are revoked; another one is only if somebody else did it. */
  predicate Accounted(grants: map<nat, Grant>, all: seq<Grant>, n: nat, elsewhere: set<nat>)
    requires RowsListed(grants, all)
  {
    forall j :: 0 <= j < |all| ==>
      && (j < n ==> grants[all[j].id].revokedAt.Some?)
      && (n <= j && grants[all[j].id].revokedAt.Some? ==> all[j].id in elsewhere)
  }

  predicate ClientMarked(s: State) {
    s.phase.Announcing? || s.phase.Finished? ==> s.client in s.clients && s.clients[s.client].revoked
  }

  predicate InRange(phase: Phase) {
    && DistinctIds(ListedBy(phase)) && Told(phase) <= Done(phase) <= |ListedBy(phase)|
    && Skipped(phase) <= Ids(ListedBy(phase)[..Told(phase)])
  }

  ghost predicate Inv(order: Order, s: State) {
    && (forall id | id in s.grants :: s.grants[id].id == id)
    && InRange(s.phase) && ClientMarked(s)
    && RowsListed(s.grants, ListedBy(s.phase))
    && Accounted(s.grants, ListedBy(s.phase), Done(s.phase), s.elsewhere)
    && Skipped(s.phase) <= s.elsewhere
    && s.log == Kept(Written(order, s.client, s.phase), order.writes)
  }

  // ---------------------------------------------------------------- one grant more

  lemma {:induction false} SkipOther(listing: seq<Grant>, skipped: set<nat>, id: nat)
    requires id !in Ids(listing)
    ensures Unskipped(listing, skipped + {id}) == Unskipped(listing, skipped)
    decreases |listing|
  {
    if listing != [] {
      var n := |listing| - 1;
      assert listing == listing[..n] + [listing[n]];
      assert listing[n] in listing;
      forall x | x in Ids(listing[..n]) ensures x in Ids(listing) {
      }
      SkipOther(listing[..n], skipped, id);
    }
  }

  lemma NextUnskipped(all: seq<Grant>, i: nat, skipped: set<nat>)
    requires i < |all|
    ensures Unskipped(all[..i + 1], skipped) ==
            Unskipped(all[..i], skipped) + (if all[i].id in skipped then [] else [all[i]])
  {
    assert all[..i + 1][..i] == all[..i];
  }

  lemma OneSkipped(all: seq<Grant>, i: nat, skipped: set<nat>)
    requires i < |all| && DistinctIds(all)
    ensures Unskipped(all[..i + 1], skipped + {all[i].id}) == Unskipped(all[..i], skipped)
  {
    hide Unskipped, Ids;
    NextIds(all, i);
    NextUnskipped(all, i, skipped + {all[i].id});
    SkipOther(all[..i], skipped, all[i].id);
  }

  lemma {:induction false} MoreEvents(listing: seq<Grant>, g: Grant, actor: string, why: string)
    ensures RevokeEvents(listing + [g], actor, why) ==
            RevokeEvents(listing, actor, why) + [GrantRevoked(actor, g.id, g.capability, g.principal, why)]
  {
    hide RevokeEvents;
  }

  lemma OneTold(order: Order, client: string, all: seq<Grant>, i: nat, skipped: set<nat>)
    requires i < |all| && DistinctIds(all) && skipped <= Ids(all[..i])
    ensures Kept(Events(order, client, Unskipped(all[..i + 1], skipped)), order.writes) ==
            Kept(Events(order, client, Unskipped(all[..i], skipped)), order.writes)
            + Kept([RevokedEvent(order, client, all[i])], order.writes)
  {
    hide Unskipped, Ids, Kept, RevokeEvents, Why;
    NextIds(all, i);
    NextUnskipped(all, i, skipped);
    var so := Unskipped(all[..i], skipped);
    MoreEvents(so, all[i], Defaulted(order.actor), Why(order, client));
    KeptAppend(Events(order, client, so), [RevokedEvent(order, client, all[i])], order.writes);
  }

  // ---------------------------------------------------------------- every step keeps the invariant

  lemma ListKeeps(order: Order, s: State, step: Step)
    requires Inv(order, s) && Enabled(order, s, step) && step.ListGrants?
    ensures Inv(order, Apply(order, s, step))
  {
    hide Decide, ListsEvery, ListsNewest, Kept, RevokeEvents;
    assert DistinctIds(step.listing);
  }

  lemma OthersKeep(order: Order, s: State, step: Step)
    requires Inv(order, s) && Enabled(order, s, step)
    requires step.Tick? || step.Issue? || step.RevokeElsewhere? || step.MarkElsewhere? || step.CheckList? || step.CheckDecide?
    ensures Inv(order, Apply(order, s, step))
  {
    hide Decide, ListsEvery, ListsSome, Sorted, Older, Kept, Written, InRange;
  }

  lemma LoadKeeps(order: Order, s: State)
    requires Inv(order, s)
    requires Enabled(order, s, Load)
    ensures Inv(order, Apply(order, s, Load))
  {
    hide Kept, Events, Unskipped, Ids;
    if s.grants[s.phase.all[s.phase.i].id].revokedAt.Some? {
      SkipKeeps(order, s);
    }
  }

  lemma SkipKeeps(order: Order, s: State)
    requires Inv(order, s)
    requires Enabled(order, s, Load)
    requires s.grants[s.phase.all[s.phase.i].id].revokedAt.Some?
    ensures Inv(order, Apply(order, s, Load))
  {
    hide Kept, Events, Unskipped, Ids;
    NextIds(s.phase.all, s.phase.i);
    OneSkipped(s.phase.all, s.phase.i, s.phase.skipped);
  }

  lemma UpdateKeeps(order: Order, s: State)
    requires Inv(order, s)
    requires Enabled(order, s, Update)
    ensures Inv(order, Apply(order, s, Update))
  {
    hide Kept, Events, Unskipped, Ids;
  }

  lemma RecordKeeps(order: Order, s: State)
    requires Inv(order, s)
    requires Enabled(order, s, Record)
    ensures Inv(order, Apply(order, s, Record))
  {
    hide Kept, Events, Unskipped, Ids, RevokedEvent;
    NextIds(s.phase.all, s.phase.i);
    OneTold(order, s.client, s.phase.all, s.phase.i, s.phase.skipped);
    NothingMore(Events(order, s.client, Unskipped(s.phase.all[..s.phase.i], s.phase.skipped)));
    NothingMore(Events(order, s.client, Unskipped(s.phase.all[..s.phase.i + 1], s.phase.skipped)));
  }

  lemma NothingMore(events: seq<Event>)
    ensures events + [] == events
  {
  }

  lemma BeginKeeps(order: Order, s: State, step: Step)
    requires Inv(order, s) && Enabled(order, s, step) && (step.Find? || step.Fail?)
    ensures Inv(order, Apply(order, s, step))
  {
    hide Kept, Events, Unskipped, Ids;
    NoneUnskipped({});
    assert s.phase.Idle? || s.phase.Found? ==> ListedBy(s.phase)[..0] == [];
  }

  lemma NoneUnskipped(skipped: set<nat>)
    ensures Unskipped([], skipped) == []
  {
  }

  lemma CloseKeeps(order: Order, s: State, step: Step)
    requires Inv(order, s) && Enabled(order, s, step) && (step.MarkClient? || step.Announce?)
    ensures Inv(order, Apply(order, s, step))
  {
    hide Kept, Events, Unskipped, Ids, ClosingEvent;
    if step.MarkClient? {
      assert s.phase.all[..s.phase.i] == s.phase.all[..|s.phase.all|];
    } else {
      var events := Events(order, s.client, Unskipped(s.phase.all[..|s.phase.all|], s.phase.skipped));
      NothingMore(events);
      KeptAppend(events, [ClosingEvent(order, s.client, s.phase.all)], order.writes);
    }
  }

  lemma StepKeeps(order: Order, s: State, step: Step)
    requires Inv(order, s) && Enabled(order, s, step)
    ensures Inv(order, Apply(order, s, step))
  {
    hide *;
    match step
    case ListGrants(_) => ListKeeps(order, s, step);
    case Load => LoadKeeps(order, s);
    case Update => UpdateKeeps(order, s);
    case Record => RecordKeeps(order, s);
    case Find => BeginKeeps(order, s, step);
    case MarkClient => CloseKeeps(order, s, step);
    case Announce => CloseKeeps(order, s, step);
    case Fail => BeginKeeps(order, s, step);
    case _ => OthersKeep(order, s, step);
  }

  lemma {:induction false} RunKeeps(order: Order, s: State, steps: seq<Step>, t: State)
    requires Inv(order, s) && Runs(order, s, steps, t)
    ensures Inv(order, t) && Forward(s, t)
    decreases |steps|
  {
    hide Inv, Enabled, Apply, Forward;
    RunForward(order, s, steps, t);
    if steps != [] {
      StepKeeps(order, s, steps[0]);
      RunKeeps(order, Apply(order, s, steps[0]), steps[1..], t);
    }
  }

  /** A state in which the revocation has not begun. */
  ghost predicate Ready(s: State) {
    s.phase.Idle? && s.log == [] && s.elsewhere == {} && forall id | id in s.grants :: s.grants[id].id == id
  }

  lemma ReadyHolds(order: Order, s: State)
    requires Ready(s)
    ensures Inv(order, s)
  {
  }

  // ---------------------------------------------------------------- the moment of the listing

  lemma ListingStays(order: Order, s: State, step: Step)
    requires Enabled(order, s, step) && !s.phase.Idle? && !s.phase.Found?
    ensures var t := Apply(order, s, step);
            && !t.phase.Idle? && !t.phase.Found? && ListedBy(t.phase) == ListedBy(s.phase)
            && (s.phase.Finished? ==> t.phase == s.phase)
  {
    hide Decide, ListsSome, ListsEvery, CascadeListing, Sorted, Kept, RevokedEvent, ClosingEvent;
  }

  lemma {:induction false} FinishedStays(order: Order, s: State, steps: seq<Step>, t: State)
    requires Runs(order, s, steps, t) && s.phase.Finished?
    ensures t.phase == s.phase
    decreases |steps|
  {
    hide Enabled, Apply, ListedBy;
    if steps != [] {
      ListingStays(order, s, steps[0]);
      FinishedStays(order, Apply(order, s, steps[0]), steps[1..], t);
    }
  }

  lemma {:induction false} ListingKept(order: Order, s: State, steps: seq<Step>, t: State)
    requires Runs(order, s, steps, t) && !s.phase.Idle? && !s.phase.Found?
    ensures ListedBy(t.phase) == ListedBy(s.phase)
    decreases |steps|
  {
    hide Enabled, Apply, ListedBy;
    if steps != [] {
      ListingStays(order, s, steps[0]);
      ListingKept(order, Apply(order, s, steps[0]), steps[1..], t);
    }
  }

  lemma BeforeListing(order: Order, s: State, step: Step)
    requires Enabled(order, s, step) && (s.phase.Idle? || s.phase.Found?) && !step.ListGrants?
    ensures var t := Apply(order, s, step); t.phase.Idle? || t.phase.Found? || (step.Fail? && t.phase.Stopped?)
  {
    hide Decide, ListsSome, ListsEvery, CascadeListing, Sorted, Kept, RevokedEvent, ClosingEvent;
  }

  lemma {:induction false} StoppedStays(order: Order, s: State, steps: seq<Step>, t: State)
    requires Runs(order, s, steps, t) && s.phase.Stopped?
    ensures t.phase.Stopped?
    decreases |steps|
  {
    hide Enabled, Apply;
    if steps != [] {
      StoppedStep(order, s, steps[0]);
      StoppedStays(order, Apply(order, s, steps[0]), steps[1..], t);
    }
  }

  lemma StoppedStep(order: Order, s: State, step: Step)
    requires Enabled(order, s, step) && s.phase.Stopped?
    ensures Apply(order, s, step).phase.Stopped?
  {
    hide Decide, ListsSome, ListsEvery, CascadeListing, Sorted, Kept, RevokedEvent, ClosingEvent;
  }

  /** From u, in which the grants are listed, the steps lead to the finished t. */
  ghost predicate ListsInto(order: Order, u: State, after: seq<Step>, t: State) {
    t.phase.Finished? && after != [] && after[0] == ListGrants(t.phase.all) && Runs(order, u, after, t)
  }

  /** A revocation that finished listed the grants once. */
  lemma {:induction false} ListingMoment(order: Order, s: State, steps: seq<Step>, t: State)
      returns (before: seq<Step>, u: State, after: seq<Step>)
    requires Runs(order, s, steps, t) && (s.phase.Idle? || s.phase.Found?) && t.phase.Finished?
    ensures Runs(order, s, before, u) && ListsInto(order, u, after, t) && steps == before + after
    decreases |steps|
  {
    hide Enabled, Apply, ListedBy, Kept;
    var step, next := steps[0], Apply(order, s, steps[0]);
    if step.ListGrants? {
      ListingBegins(order, s, step);
      ListingKept(order, next, steps[1..], t);
      Listings(next.phase, t.phase);
      before, u, after := [], s, steps;
    } else {
      BeforeListing(order, s, step);
      if next.phase.Stopped? {
        StoppedStays(order, next, steps[1..], t);
      }
      before, u, after := ListingMoment(order, next, steps[1..], t);
      assert ([step] + before)[1..] == before;
      before := [step] + before;
    }
  }

  lemma ListingBegins(order: Order, s: State, step: Step)
    requires Enabled(order, s, step) && step.ListGrants?
    ensures Apply(order, s, step).phase == Cascading(step.listing, 0, {})
  {
    hide CascadeListing;
  }

  lemma Listings(a: Phase, b: Phase)
    requires a.Cascading? && b.Finished?
    ensures ListedBy(a) == a.all && ListedBy(b) == b.all
  {
  }

  // ---------------------------------------------------------------- what is left when it returns

  predicate Unexpired(later: Later, g: Grant, now: int) {
    g.expiresAt.Some? ==> later(g.expiresAt.value, now)
  }

  /** The client's unrevoked grants in t that were not there when u was listed, or had expired by its reading. */
  function Overlooked(later: Later, u: State, t: State): set<nat> {
    set id | id in t.grants && t.grants[id].principal == Owner(t) && t.grants[id].revokedAt.None?
             && (id in u.grants ==> !Unexpired(later, u.grants[id], u.now))
  }

  function UnexpiredOf(later: Later, grants: map<nat, Grant>, ids: set<nat>, now: int): set<nat> {
    set id | id in ids && id in grants && Unexpired(later, grants[id], now)
  }

  /** A listing of all the active grants leaves no other active at that reading. */
  lemma ListedCover(listing: seq<Grant>, grants: map<nat, Grant>, owner: Principal, later: Later, now: int)
    requires CascadeListing(listing, grants, owner, later, now)
    requires forall id | id in grants :: grants[id].id == id
    requires |ActiveIds(grants, owner, later, now)| <= CASCADE_LIMIT
    ensures ActiveIds(grants, owner, later, now) <= Ids(listing)
  {
    hide ListsSome, ListsEvery, ListsNewest, RevokeAll, ActiveIds, Ids;
    CascadeComplete(grants, listing, owner, later, now);
    var active := ActiveIds(grants, owner, later, now);
    assert active - Ids(listing) == {};
    forall id | id in active ensures id in Ids(listing) {
      assert id !in active - Ids(listing);
    }
  }

  /** In a state the revocation has finished in, no listed grant is active. */
  lemma ListedInactive(order: Order, t: State, n: int)
    requires Inv(order, t) && t.phase.Finished?
    ensures ActiveIds(t.grants, Owner(t), order.later, n) * Ids(t.phase.all) == {}
  {
    hide Kept, Written, DistinctIds;
    var active := ActiveIds(t.grants, Owner(t), order.later, n);
    forall id | id in Ids(t.phase.all) ensures id !in active {
      var j :| 0 <= j < |t.phase.all| && t.phase.all[j].id == id;
    }
  }

  /** Once the revocation has finished, the active grants are, at any reading, those it overlooked that are unexpired. */
  lemma LeftActive(order: Order, u: State, after: seq<Step>, t: State, rest: seq<Step>, w: State, n: int)
    requires Inv(order, u) && ListsInto(order, u, after, t) && Runs(order, t, rest, w)
    requires |ActiveIds(u.grants, Owner(u), order.later, u.now)| <= CASCADE_LIMIT
    ensures ActiveIds(w.grants, Owner(w), order.later, n) == UnexpiredOf(order.later, w.grants, Overlooked(order.later, u, w), n)
  {
    hide Runs, Apply, Inv, Ids, ListsSome, ListsEvery, ListsNewest;
    var all, active := t.phase.all, ActiveIds(w.grants, Owner(w), order.later, n);
    ListsThen(order, u, after, t);
    ListedCover(all, u.grants, Owner(u), order.later, u.now);
    RunKeeps(order, u, after, t);
    RunKeeps(order, t, rest, w);
    ForwardTransitive(u, t, w);
    FinishedStays(order, t, rest, w);
    ListedInactive(order, w, n);
    forall id | id in active ensures id in Overlooked(order.later, u, w) {
      assert id !in Ids(all) by {
        assert id !in active * Ids(all);
      }
      assert id in u.grants ==> id !in ActiveIds(u.grants, Owner(u), order.later, u.now);
    }
  }

  lemma ListsThen(order: Order, u: State, after: seq<Step>, t: State)
    requires Inv(order, u) && ListsInto(order, u, after, t)
    ensures CascadeListing(t.phase.all, u.grants, Owner(u), order.later, u.now)
    ensures forall id | id in u.grants :: u.grants[id].id == id
  {
    hide ListsSome, ListsEvery, ListsNewest, Apply, Kept;
  }

  /**
   * When a revocation returns, whatever was checked, issued and revoked meanwhile: the client is marked revoked,
   * the log holds an entry for each listed grant that others had not revoked and one that carries the number of
   * all, and at any reading of the clock no listed grant is active. If the client had at most the limit of active
   * grants when they were listed, those active at a reading are exactly the unrevoked ones that are unexpired
   * at it and were issued since, or had expired by the reading of the listing.
   */
  lemma CascadeOnReturn(order: Order, s: State, steps: seq<Step>, t: State) returns (before: seq<Step>, u: State, after: seq<Step>)
    requires Ready(s) && Runs(order, s, steps, t) && t.phase.Finished?
    ensures Runs(order, s, before, u) && ListsInto(order, u, after, t) && steps == before + after
    ensures t.client in t.clients && t.clients[t.client].revoked
    ensures t.phase.skipped <= t.elsewhere
    ensures t.log == Kept(Events(order, t.client, Unskipped(t.phase.all, t.phase.skipped))
                          + [ClosingEvent(order, t.client, t.phase.all)], order.writes)
    ensures t.elsewhere == {} ==> Unskipped(t.phase.all, t.phase.skipped) == t.phase.all
    ensures forall n :: ActiveIds(t.grants, Owner(t), order.later, n) * Ids(t.phase.all) == {}
    ensures |ActiveIds(u.grants, Owner(u), order.later, u.now)| <= CASCADE_LIMIT ==>
              forall n :: ActiveIds(t.grants, Owner(t), order.later, n)
                          == UnexpiredOf(order.later, t.grants, Overlooked(order.later, u, t), n)
  {
    ReadyHolds(order, s);
    RunKeeps(order, s, steps, t);
    FinishedWritten(order, t);
    hide Runs, ActiveIds, Events, ListsInto, Inv, UnexpiredOf, Overlooked, Ids, Unskipped, Kept, ClosingEvent, Forward, Ready;
    before, u, after := ListingMoment(order, s, steps, t);
    forall n ensures ActiveIds(t.grants, Owner(t), order.later, n) * Ids(t.phase.all) == {} {
      ListedInactive(order, t, n);
    }
    if |ActiveIds(u.grants, Owner(u), order.later, u.now)| <= CASCADE_LIMIT {
      RunKeeps(order, s, before, u);
      NoSteps(order, t);
      forall n ensures ActiveIds(t.grants, Owner(t), order.later, n)
                       == UnexpiredOf(order.later, t.grants, Overlooked(order.later, u, t), n)
      {
        LeftActive(order, u, after, t, [], t, n);
      }
    }
  }

  lemma NoSteps(order: Order, t: State)
    ensures Runs(order, t, [], t)
  {
  }

  lemma FinishedWritten(order: Order, t: State)
    requires Inv(order, t) && t.phase.Finished?
    ensures t.client in t.clients && t.clients[t.client].revoked && t.phase.skipped <= t.elsewhere
    ensures t.log == Kept(Events(order, t.client, Unskipped(t.phase.all, t.phase.skipped))
                          + [ClosingEvent(order, t.client, t.phase.all)], order.writes)
    ensures t.elsewhere == {} ==> Unskipped(t.phase.all, t.phase.skipped) == t.phase.all
  {
    hide Kept, Events, Unskipped, ClosingEvent;
    assert t.phase.all[..|t.phase.all|] == t.phase.all;
    if t.elsewhere == {} {
      assert t.phase.skipped == {};
      NoneSkipped(t.phase.all);
    }
  }

  lemma {:induction false} NoneSkipped(listing: seq<Grant>)
    ensures Unskipped(listing, {}) == listing
    decreases |listing|
  {
    if listing != [] {
      var n := |listing| - 1;
      NoneSkipped(listing[..n]);
      assert listing == listing[..n] + [listing[n]];
    }
  }

  // ---------------------------------------------------------------- where texts sort as instants

  /** The clock never reads less than before. */
  predicate ClockForward(now: int, steps: seq<Step>)
    decreases |steps|
  {
    if steps == [] then true
    else if steps[0].Tick? then now <= steps[0].n && ClockForward(steps[0].n, steps[1..])
    else ClockForward(now, steps[1..])
  }

  predicate NothingIssued(steps: seq<Step>) {
    forall step | step in steps :: !step.Issue?
  }

  lemma TimeStep(order: Order, s: State, step: Step)
    requires Enabled(order, s, step)
    ensures Apply(order, s, step).now == (if step.Tick? then step.n else s.now)
    ensures !step.Issue? ==> Apply(order, s, step).grants.Keys == s.grants.Keys
  {
    hide Decide, ListsSome, ListsEvery, CascadeListing, Sorted, Kept, RevokedEvent, ClosingEvent;
  }

  lemma {:induction false} RunTime(order: Order, s: State, a: seq<Step>, u: State, b: seq<Step>)
    requires Runs(order, s, a, u) && ClockForward(s.now, a + b) && NothingIssued(a + b)
    ensures s.now <= u.now && ClockForward(u.now, b) && NothingIssued(b) && u.grants.Keys == s.grants.Keys
    decreases |a|
  {
    hide Enabled, Apply;
    if a == [] {
      assert a + b == b;
    } else {
      assert (a + b)[0] == a[0] && (a + b)[1..] == a[1..] + b;
      TimeStep(order, s, a[0]);
      forall step | step in a[1..] + b ensures !step.Issue? {
        assert step in a + b;
      }
      RunTime(order, Apply(order, s, a[0]), a[1..], u, b);
    }
  }

  lemma ActiveShrinks(later: Later, s: State, t: State)
    requires Forward(s, t) && t.grants.Keys == s.grants.Keys
    requires forall e :: later(e, t.now) ==> later(e, s.now)
    ensures ActiveIds(t.grants, Owner(t), later, t.now) <= ActiveIds(s.grants, Owner(s), later, s.now)
  {
    forall id | id in ActiveIds(t.grants, Owner(t), later, t.now) ensures id in ActiveIds(s.grants, Owner(s), later, s.now) {
      assert id in s.grants.Keys && id in s.grants;
      assert KeptOrRevoked(s.grants[id], t.grants[id]);
      assert t.grants[id] == s.grants[id];
      assert s.grants[id].principal == Owner(s);
      if s.grants[id].expiresAt.Some? {
        var e := s.grants[id].expiresAt.value;
        assert later(e, t.now);
        assert later(e, s.now);
      }
      assert Active(later, s.grants[id], s.now);
    }
  }

  /**
   * So if stored texts sort as the instants do, the clock goes forward and nothing is issued, a client with at
   * most the limit of active grants has none left when its revocation returns, and none ever again.
   */
  lemma CascadeInTime(order: Order, s: State, steps: seq<Step>, t: State, n: int)
    requires Ready(s) && Runs(order, s, steps, t) && t.phase.Finished?
    requires order.later == CHRONOLOGICAL && ClockForward(s.now, steps) && NothingIssued(steps) && t.now <= n
    requires |ActiveIds(s.grants, Owner(s), CHRONOLOGICAL, s.now)| <= CASCADE_LIMIT
    ensures ActiveIds(t.grants, Owner(t), CHRONOLOGICAL, n) == {}
  {
    hide *;
    var before, u, after := CascadeOnReturn(order, s, steps, t);
    TimelyListing(order, s, before, u, after, t, n);
  }

  lemma TimelyListing(order: Order, s: State, before: seq<Step>, u: State, after: seq<Step>, t: State, n: int)
    requires Runs(order, s, before, u) && ListsInto(order, u, after, t)
    requires ClockForward(s.now, before + after) && NothingIssued(before + after) && t.now <= n
    requires |ActiveIds(s.grants, Owner(s), CHRONOLOGICAL, s.now)| <= CASCADE_LIMIT
    ensures |ActiveIds(u.grants, Owner(u), CHRONOLOGICAL, u.now)| <= CASCADE_LIMIT
    ensures UnexpiredOf(CHRONOLOGICAL, t.grants, Overlooked(CHRONOLOGICAL, u, t), n) == {}
  {
    hide Runs, ActiveIds, UnexpiredOf, Overlooked, NothingIssued, Owner;
    RunTime(order, s, before, u, after);
    RunForward(order, s, before, u);
    RunForward(order, u, after, t);
    assert after + [] == after;
    RunTime(order, u, after, t, []);
    ActiveShrinks(CHRONOLOGICAL, s, u);
    SubsetCount(ActiveIds(u.grants, Owner(u), CHRONOLOGICAL, u.now), ActiveIds(s.grants, Owner(s), CHRONOLOGICAL, s.now));
    NoneRevives(u, t, n);
  }

  lemma NoneRevives(u: State, t: State, n: int)
    requires t.grants.Keys == u.grants.Keys && u.now <= n
    requires forall id | id in u.grants :: t.grants[id].expiresAt == u.grants[id].expiresAt
    ensures UnexpiredOf(CHRONOLOGICAL, t.grants, Overlooked(CHRONOLOGICAL, u, t), n) == {}
  {
  }

  /** From then on no token authenticates as the client. */
  lemma RevokedClientNeverAuthenticates(env: P.Env, clients: map<string, P.Client>, client: string, token: string)
    requires client in clients && clients[client].revoked
    ensures P.Authenticate(env, clients, token) != P.Authenticated(client)
  {
    P.AuthenticatesIff(env, clients, token, client);
    hide P.Authenticate;
  }

  // ---------------------------------------------------------------- checks

  /** The grant a decision rests on. */
  function Decider(d: Decision): Option<nat> {
    match d
    case Deny => None
    case Allow(g) => Some(g)
    case NeedsApproval(g) => Some(g)
  }

  lemma CheckStays(order: Order, s: State, step: Step, k: nat)
    requires Enabled(order, s, step) && k in s.checks
    ensures var t := Apply(order, s, step);
            && k in t.checks
            && (s.checks[k].Decided? ==> t.checks[k] == s.checks[k])
            && (s.checks[k].Listed? && t.checks[k] != s.checks[k] ==>
                 t.checks[k] == Decided(Decide(order.env, s.checks[k].capability, s.checks[k].listing, s.checks[k].attempt)))
  {
    hide Decide, ListsSome, ListsEvery, CascadeListing, Sorted, Kept, RevokedEvent, ClosingEvent;
  }

  /** Whatever runs meanwhile, a check decides by the listing it has read, and then stays decided. */
  lemma {:induction false} CheckKeepsListing(order: Order, s: State, steps: seq<Step>, t: State, k: nat)
    requires Runs(order, s, steps, t) && k in s.checks
    ensures k in t.checks
    ensures s.checks[k].Decided? ==> t.checks[k] == s.checks[k]
    ensures s.checks[k].Listed? && t.checks[k] != s.checks[k] ==>
              t.checks[k] == Decided(Decide(order.env, s.checks[k].capability, s.checks[k].listing, s.checks[k].attempt))
    decreases |steps|
  {
    hide Enabled, Apply, Decide;
    if steps != [] {
      CheckStays(order, s, steps[0], k);
      CheckKeepsListing(order, Apply(order, s, steps[0]), steps[1..], t, k);
    }
  }

  /**
   * A check that has read its listing, decided at any later time, in particular after the revocation has
   * returned: it denies if and only if no grant of that listing matches, and rests on a grant if and only if
   * that is the listing's first match, whatever was revoked since.
   */
  lemma StaleCheckExactly(order: Order, s: State, steps: seq<Step>, t: State, k: nat)
    requires Runs(order, s, steps, t) && k in s.checks && s.checks[k].Listed? && k in t.checks && t.checks[k].Decided?
    ensures var c, listing, attempt := s.checks[k].capability, s.checks[k].listing, s.checks[k].attempt;
            var first := FirstMatch(order.env, c, listing, attempt);
            && (t.checks[k].decision.Deny? <==> forall g :: g in listing ==> !Matches(order.env, c, g, attempt))
            && (forall id :: Decider(t.checks[k].decision) == Some(id) <==> first.Some? && first.value.id == id)
            && (t.checks[k].decision.Allow? <==> first.Some? && !c.defaultApproval && !first.value.requiresApproval)
  {
    hide Runs, FirstMatch, Matches;
    CheckKeepsListing(order, s, steps, t, k);
    DeniedIffNoMatch(order.env, s.checks[k].capability, s.checks[k].listing, s.checks[k].attempt);
  }

  /** The step by which check k read its listing, in state w. */
  ghost predicate Reads(order: Order, w: State, step: Step, k: nat) {
    step.CheckList? && step.k == k && Enabled(order, w, step)
  }

  lemma {:induction false} DecidedWasListed(order: Order, s: State, steps: seq<Step>, t: State, k: nat)
      returns (before: seq<Step>, w: State, step: Step, after: seq<Step>)
    requires Runs(order, s, steps, t) && k !in s.checks && k in t.checks
    ensures Runs(order, s, before, w) && Reads(order, w, step, k)
    ensures Runs(order, Apply(order, w, step), after, t) && steps == before + [step] + after
    decreases |steps|
  {
    hide Enabled, Apply;
    var next := Apply(order, s, steps[0]);
    if k in next.checks {
      OnlyListingBegins(order, s, steps[0], k);
      before, w, step, after := [], s, steps[0], steps[1..];
    } else {
      before, w, step, after := DecidedWasListed(order, next, steps[1..], t, k);
      assert ([steps[0]] + before)[1..] == before;
      before := [steps[0]] + before;
    }
  }

  lemma OnlyListingBegins(order: Order, s: State, step: Step, k: nat)
    requires Enabled(order, s, step) && k !in s.checks && k in Apply(order, s, step).checks
    ensures step.CheckList? && step.k == k
  {
    hide Decide, ListsSome, ListsEvery, CascadeListing, Sorted, Kept, RevokedEvent, ClosingEvent;
  }

  /** A grant of the client for the capability that is active in w and matches the attempt. */
  predicate Permits(order: Order, w: State, c: Capability, attempt: Scope, id: nat) {
    && id in ActiveIds(w.grants, Owner(w), order.later, w.now)
    && w.grants[id].capability == c.name && Matches(order.env, c, w.grants[id], attempt)
  }

  /**
   * In every run a check decides by what was active at the reading of its one listing: it denies if and only if
   * no active grant matched, and otherwise rests on one that did and than which none that did sorts earlier.
   */
  lemma CheckExactly(order: Order, s: State, steps: seq<Step>, t: State, k: nat)
      returns (before: seq<Step>, w: State, step: Step, after: seq<Step>)
    requires Runs(order, s, steps, t) && (forall id | id in s.grants :: s.grants[id].id == id)
    requires k !in s.checks && k in t.checks && t.checks[k].Decided?
    ensures Runs(order, s, before, w) && Reads(order, w, step, k)
    ensures Runs(order, Apply(order, w, step), after, t) && steps == before + [step] + after
    ensures t.checks[k].decision.Deny? <==> forall id :: !Permits(order, w, step.capability, step.attempt, id)
    ensures forall id :: Decider(t.checks[k].decision) == Some(id) ==>
              && Permits(order, w, step.capability, step.attempt, id)
              && forall other :: Permits(order, w, step.capability, step.attempt, other) ==>
                   !order.later(w.grants[id].issuedAt, w.grants[other].issuedAt) || other == id
  {
    hide Runs, Permits, Decide, Enabled, Apply, Reads;
    before, w, step, after := DecidedWasListed(order, s, steps, t, k);
    ReadsInto(order, w, step, k);
    var u := Apply(order, w, step);
    RunFiles(order, s, before, w);
    CheckKeepsListing(order, u, after, t, k);
    SeenDecides(order, w, step, k);
  }

  lemma ReadsInto(order: Order, w: State, step: Step, k: nat)
    requires Reads(order, w, step, k)
    ensures Enabled(order, w, step) && k in Apply(order, w, step).checks
    ensures Apply(order, w, step).checks[k] == Listed(step.capability, step.attempt, step.seen)
  {
    hide ListsSome, ListsEvery, Sorted;
  }

  lemma {:induction false} RunFiles(order: Order, s: State, steps: seq<Step>, t: State)
    requires Runs(order, s, steps, t) && (forall id | id in s.grants :: s.grants[id].id == id)
    ensures forall id | id in t.grants :: t.grants[id].id == id
    decreases |steps|
  {
    hide Enabled, Apply;
    if steps != [] {
      StepFiles(order, s, steps[0]);
      RunFiles(order, Apply(order, s, steps[0]), steps[1..], t);
    }
  }

  lemma StepFiles(order: Order, s: State, step: Step)
    requires Enabled(order, s, step) && (forall id | id in s.grants :: s.grants[id].id == id)
    ensures var t := Apply(order, s, step); forall id | id in t.grants :: t.grants[id].id == id
  {
    hide Decide, ListsSome, ListsEvery, CascadeListing, Sorted, Kept, RevokedEvent, ClosingEvent;
  }

  lemma SeenDecides(order: Order, w: State, step: Step, k: nat)
    requires Reads(order, w, step, k) && forall id | id in w.grants :: w.grants[id].id == id
    ensures var d := Decide(order.env, step.capability, step.seen, step.attempt);
            && (d.Deny? <==> forall id :: !Permits(order, w, step.capability, step.attempt, id))
            && forall id :: Decider(d) == Some(id) ==>
                 && Permits(order, w, step.capability, step.attempt, id)
                 && forall other :: Permits(order, w, step.capability, step.attempt, other) ==>
                      !order.later(w.grants[id].issuedAt, w.grants[other].issuedAt) || other == id
  {
    var c, seen, attempt := step.capability, step.seen, step.attempt;
    hide Matches, DistinctIds;
    forall id | Permits(order, w, c, attempt, id) ensures w.grants[id] in seen {
    }
    forall g | g in seen && Matches(order.env, c, g, attempt) ensures Permits(order, w, c, attempt, g.id) && w.grants[g.id] == g {
      var i :| 0 <= i < |seen| && seen[i] == g;
    }
    FirstMatchIs(order.env, c, seen, attempt);
    DeniedIffNoMatch(order.env, c, seen, attempt);
    hide FirstMatch, Permits, ListsSome, ListsEvery;
    var d := Decide(order.env, c, seen, attempt);
    forall id, other | Decider(d) == Some(id) && Permits(order, w, c, attempt, other)
      ensures !order.later(w.grants[id].issuedAt, w.grants[other].issuedAt) || other == id
    {
      EarliestDecides(order.env, c, order.later, seen, attempt, w.grants[other]);
    }
  }

  lemma EarliestDecides(env: Env, c: Capability, later: Later, seen: seq<Grant>, attempt: Scope, h: Grant)
    requires Sorted(Older(later), seen) && h in seen && Matches(env, c, h, attempt)
    ensures var first := FirstMatch(env, c, seen, attempt);
            first.Some? && (!later(first.value.issuedAt, h.issuedAt) || first.value == h)
  {
    hide Matches;
    FirstMatchIs(env, c, seen, attempt);
    hide FirstMatch;
    var j :| 0 <= j < |seen| && seen[j] == h;
    var i :| 0 <= i < |seen| && Some(seen[i]) == FirstMatch(env, c, seen, attempt)
             && forall m :: 0 <= m < i ==> !Matches(env, c, seen[m], attempt);
  }

  /**
   * A check that begins after the revocation has returned denies if and only if no matching grant was overlooked,
   * that is, issued since the listing or expired by its reading, and is unexpired at the reading of the check.
   */
  lemma LaterChecksExactly(order: Order, s: State, steps: seq<Step>, t: State, after: seq<Step>, v: State, k: nat)
      returns (before: seq<Step>, u: State, rest: seq<Step>, first: seq<Step>, w: State, step: Step, last: seq<Step>)
    requires Ready(s) && Runs(order, s, steps, t) && t.phase.Finished? && Runs(order, t, after, v)
    requires k !in t.checks && k in v.checks && v.checks[k].Decided?
    ensures Runs(order, s, before, u) && ListsInto(order, u, rest, t) && steps == before + rest
    ensures Runs(order, t, first, w) && Reads(order, w, step, k) && after == first + [step] + last
    ensures |ActiveIds(u.grants, Owner(u), order.later, u.now)| <= CASCADE_LIMIT ==>
              (v.checks[k].decision.Deny? <==>
               forall id | id in UnexpiredOf(order.later, w.grants, Overlooked(order.later, u, w), w.now) ::
                 w.grants[id].capability == step.capability.name ==>
                   !Matches(order.env, step.capability, w.grants[id], step.attempt))
  {
    hide *;
    ReadyHolds(order, s);
    RunKeeps(order, s, steps, t);
    ReadyIdle(s);
    before, u, rest := ListingMoment(order, s, steps, t);
    RunKeeps(order, s, before, u);
    InvFiles(order, t);
    first, w, step, last := CheckExactly(order, t, after, v, k);
    if |ActiveIds(u.grants, Owner(u), order.later, u.now)| <= CASCADE_LIMIT {
      LeftActive(order, u, rest, t, first, w, w.now);
      NonePermitted(order, w, step, k, UnexpiredOf(order.later, w.grants, Overlooked(order.later, u, w), w.now));
    }
  }

  lemma ReadyIdle(s: State)
    requires Ready(s)
    ensures s.phase.Idle?
  {
  }

  lemma NonePermitted(order: Order, w: State, step: Step, k: nat, ids: set<nat>)
    requires Reads(order, w, step, k) && ActiveIds(w.grants, Owner(w), order.later, w.now) == ids
    ensures ids <= w.grants.Keys
    ensures (forall id :: !Permits(order, w, step.capability, step.attempt, id)) <==>
            forall id | id in ids :: w.grants[id].capability == step.capability.name ==>
              !Matches(order.env, step.capability, w.grants[id], step.attempt)
  {
    hide Matches, Enabled, Selected;
    if forall id :: !Permits(order, w, step.capability, step.attempt, id) {
      forall id | id in ids && w.grants[id].capability == step.capability.name
        ensures !Matches(order.env, step.capability, w.grants[id], step.attempt)
      {
        assert !Permits(order, w, step.capability, step.attempt, id);
      }
    }
  }

  lemma InvFiles(order: Order, t: State)
    requires Inv(order, t)
    ensures forall id | id in t.grants :: t.grants[id].id == id
  {
  }

  /** Where texts sort as instants, every check that begins after the revocation has returned denies. */
  lemma LaterChecksDeny(order: Order, s: State, steps: seq<Step>, t: State, after: seq<Step>, v: State, k: nat)
    requires Ready(s) && Runs(order, s, steps, t) && t.phase.Finished? && Runs(order, t, after, v)
    requires k !in t.checks && k in v.checks && v.checks[k].Decided?
    requires order.later == CHRONOLOGICAL && ClockForward(s.now, steps + after) && NothingIssued(steps + after)
    requires |ActiveIds(s.grants, Owner(s), CHRONOLOGICAL, s.now)| <= CASCADE_LIMIT
    ensures v.checks[k].decision.Deny?
  {
    hide *;
    ReadyHolds(order, s);
    RunKeeps(order, s, steps, t);
    InvFiles(order, t);
    var before, w, step, rest := CheckExactly(order, t, after, v, k);
    RunsJoin(order, s, steps, t, before, w);
    assert steps + after == (steps + before) + ([step] + rest);
    RunTime(order, s, steps + before, w, [step] + rest);
    PrefixTime(s.now, steps + before, [step] + rest);
    FinishedStays(order, t, before, w);
    CascadeInTime(order, s, steps + before, w, w.now);
    NonePermitted(order, w, step, k, {});
  }

  lemma {:induction false} PrefixTime(now: int, a: seq<Step>, b: seq<Step>)
    requires ClockForward(now, a + b) && NothingIssued(a + b)
    ensures ClockForward(now, a) && NothingIssued(a)
    decreases |a|
  {
    forall step | step in a ensures !step.Issue? {
      assert step in a + b;
    }
    if a != [] {
      assert (a + b)[0] == a[0] && (a + b)[1..] == a[1..] + b;
      forall step | step in a[1..] + b ensures !step.Issue? {
        assert step in a + b;
      }
      PrefixTime(if a[0].Tick? then a[0].n else now, a[1..], b);
    }
  }

  /** No check that begins after a grant was revoked rests on it. */
  lemma RevokedNeverMatched(order: Order, s: State, steps: seq<Step>, t: State, id: nat, k: nat)
    requires Runs(order, s, steps, t) && (forall i | i in s.grants :: s.grants[i].id == i)
    requires id in s.grants && s.grants[id].revokedAt.Some? && k !in s.checks
    requires k in t.checks && t.checks[k].Decided?
    ensures Decider(t.checks[k].decision) != Some(id)
  {
    hide Runs, Apply, Enabled, Matches, Decider;
    var before, w, step, after := CheckExactly(order, s, steps, t, k);
    RunForward(order, s, before, w);
    assert KeptOrRevoked(s.grants[id], w.grants[id]);
    assert !Permits(order, w, step.capability, step.attempt, id);
  }

  // ---------------------------------------------------------------- a whole revocation at once

  /** Handling the first n listed grants without a pause. */
  lemma {:induction false} CascadeRun(order: Order, s: State, all: seq<Grant>, n: nat) returns (steps: seq<Step>, t: State)
    requires s.phase == Cascading(all, 0, {}) && UnrevokedRows(all, s.grants) && n <= |all|
    ensures Runs(order, s, steps, t)
    ensures t == s.(grants := RevokeAll(s.grants, Ids(all[..n]), s.now), phase := Cascading(all, n, {}),
                    log := s.log + Kept(Events(order, s.client, all[..n]), order.writes))
  {
    hide Kept, RevokeAll, RevokeEvents, UnrevokedRows, Runs, Apply, Enabled, Why, RevokedEvent, Ids;
    if n == 0 {
      NoneRevoked(s.grants, s.now, all, Defaulted(order.actor), Why(order, s.client), order.writes);
      NothingMore(s.log);
      NoSteps(order, s);
      steps, t := [], s;
    } else {
      var so, m := CascadeRun(order, s, all, n - 1);
      OneRevoked(s.grants, all, n - 1, s.now, Defaulted(order.actor), Why(order, s.client), order.writes);
      var next := CascadeRound(order, m, all, n - 1);
      steps, t := so + [Load, Update, Record], next;
      RunsJoin(order, s, so, m, [Load, Update, Record], next);
      LogGrows(s.log, Kept(Events(order, s.client, all[..n - 1]), order.writes),
               Kept([RevokedEvent(order, s.client, all[n - 1])], order.writes));
      RevokedEventIs(order, s.client, all[n - 1]);
    }
  }

  lemma LogGrows(a: seq<Event>, b: seq<Event>, c: seq<Event>)
    ensures (a + b) + c == a + (b + c)
  {
  }

  lemma RevokedEventIs(order: Order, client: string, g: Grant)
    ensures RevokedEvent(order, client, g) == GrantRevoked(Defaulted(order.actor), g.id, g.capability, g.principal, Why(order, client))
  {
  }

  lemma CascadeRound(order: Order, s: State, all: seq<Grant>, i: nat) returns (t: State)
    requires s.phase == Cascading(all, i, {}) && i < |all|
    requires all[i].id in s.grants && s.grants[all[i].id] == all[i] && all[i].revokedAt.None?
    ensures Runs(order, s, [Load, Update, Record], t)
    ensures t == s.(grants := s.grants[all[i].id := all[i].(revokedAt := Some(s.now))], phase := Cascading(all, i + 1, {}),
                    log := s.log + Kept([RevokedEvent(order, s.client, all[i])], order.writes))
  {
    hide Kept, RevokedEvent, Runs;
    var a := Apply(order, s, Load);
    var b := Apply(order, a, Update);
    t := Apply(order, b, Record);
    RunsOne(order, s, Load);
    RunsOne(order, a, Update);
    RunsOne(order, b, Record);
    RunsJoin(order, a, [Update], b, [Record], t);
    RunsJoin(order, s, [Load], a, [Update] + [Record], t);
    assert [Load] + ([Update] + [Record]) == [Load, Update, Record];
  }

  /**
   * One call of the engine's RevokeClient is a run of these steps, with the tables and entries that its contract
   * gives, whether it stops at a failing revocation, at the marking of the client, or not at all.
   */
  lemma RevokeClientIsRun(order: Order, s: State, all: seq<Grant>, n: nat, markFails: bool) returns (steps: seq<Step>, t: State)
    requires s.phase.Idle? && s.client in s.clients && !s.clients[s.client].revoked
    requires CascadeListing(all, s.grants, Owner(s), order.later, s.now) && n <= |all|
    ensures Runs(order, s, steps, t)
    ensures var done := n == |all| && !markFails;
            && t.phase == (if done then Finished(all, {}) else Stopped(all, n, {}))
            && t.grants == RevokeAll(s.grants, Ids(all[..n]), s.now)
            && t.clients == (if done then s.clients[s.client := s.clients[s.client].(revoked := true)] else s.clients)
            && t.log == s.log + Kept(RevokeEvents(all[..n], Defaulted(order.actor), CascadeReason(s.client, order.reason))
                                     + (if done then [ClientRevoked(Defaulted(order.actor), s.client, |all|)] else []), order.writes)
            && t.client == s.client && t.elsewhere == s.elsewhere && t.checks == s.checks && t.now == s.now
  {
    hide Kept, RevokeAll, RevokeEvents, UnrevokedRows, Runs, ListsSome, ListsEvery, ListsNewest, CascadeReason, Ids;
    var u := s.(phase := Cascading(all, 0, {}));
    BeginRun(order, s, all, u);
    ListedRows(all, s.grants, Owner(s), order.later, s.now);
    var so, m := CascadeRun(order, u, all, n);
    RunsJoin(order, s, [Find, ListGrants(all)], u, so, m);
    var done := n == |all| && !markFails;
    var last := EndRun(order, m, all, n, done);
    var ends := if done then [MarkClient, Announce] else [Fail];
    RunsJoin(order, s, [Find, ListGrants(all)] + so, m, ends, last);
    steps, t := ([Find, ListGrants(all)] + so) + ends, last;
    var events := RevokeEvents(all[..n], Defaulted(order.actor), CascadeReason(s.client, order.reason));
    NothingMore(events);
    if done {
      KeptAppend(events, [ClientRevoked(Defaulted(order.actor), s.client, |all|)], order.writes);
      LogGrows(s.log, Kept(events, order.writes), Kept([ClientRevoked(Defaulted(order.actor), s.client, |all|)], order.writes));
    }
  }

  lemma BeginRun(order: Order, s: State, all: seq<Grant>, u: State)
    requires s.phase.Idle? && s.client in s.clients && !s.clients[s.client].revoked
    requires CascadeListing(all, s.grants, Owner(s), order.later, s.now) && u == s.(phase := Cascading(all, 0, {}))
    ensures Runs(order, s, [Find, ListGrants(all)], u)
  {
    hide ListsSome, ListsEvery, ListsNewest, Runs;
    var f := Apply(order, s, Find);
    assert Owner(f) == Owner(s);
    RunsOne(order, s, Find);
    RunsOne(order, f, ListGrants(all));
    RunsJoin(order, s, [Find], f, [ListGrants(all)], u);
    assert [Find] + [ListGrants(all)] == [Find, ListGrants(all)];
  }

  lemma EndRun(order: Order, s: State, all: seq<Grant>, n: nat, done: bool) returns (t: State)
    requires s.phase == Cascading(all, n, {}) && n <= |all| && (done ==> n == |all| && s.client in s.clients)
    ensures Runs(order, s, if done then [MarkClient, Announce] else [Fail], t)
    ensures t == if done
                 then s.(clients := s.clients[s.client := s.clients[s.client].(revoked := true)], phase := Finished(all, {}),
                         log := s.log + Kept([ClientRevoked(Defaulted(order.actor), s.client, |all|)], order.writes))
                 else s.(phase := Stopped(all, n, {}))
  {
    hide Kept, Runs;
    if done {
      var m := Apply(order, s, MarkClient);
      t := Apply(order, m, Announce);
      RunsOne(order, s, MarkClient);
      RunsOne(order, m, Announce);
      RunsJoin(order, s, [MarkClient], m, [Announce], t);
      assert [MarkClient] + [Announce] == [MarkClient, Announce];
    } else {
      t := Apply(order, s, Fail);
      RunsOne(order, s, Fail);
    }
  }

  // ---------------------------------------------------------------- what the revocation does not stop

  /**
   * Whatever a check would decide when it reads its listing just before a client is revoked, it can decide after
   * the revocation has returned.
   */
  lemma StaleCheckStillDecides(order: Order, s: State, all: seq<Grant>, k: nat, c: Capability, attempt: Scope, seen: seq<Grant>)
      returns (steps: seq<Step>, t: State)
    requires s.phase.Idle? && s.client in s.clients && !s.clients[s.client].revoked
    requires CascadeListing(all, s.grants, Owner(s), order.later, s.now)
    requires Enabled(order, s, CheckList(k, c, attempt, seen))
    ensures Runs(order, s, steps, t) && t.phase.Finished? && t.grants == RevokeAll(s.grants, Ids(all), s.now)
    ensures Enabled(order, t, CheckDecide(k))
    ensures Apply(order, t, CheckDecide(k)).checks[k] == Decided(Decide(order.env, c, seen, attempt))
  {
    hide Runs, ListsSome, ListsEvery, ListsNewest, RevokeAll, RevokeEvents, Kept, Sorted, Ids, Decide;
    var u := Apply(order, s, CheckList(k, c, attempt, seen));
    assert Owner(u) == Owner(s);
    RunsOne(order, s, CheckList(k, c, attempt, seen));
    var rest;
    rest, t := RevokeClientIsRun(order, u, all, |all|, false);
    assert all[..|all|] == all;
    steps := [CheckList(k, c, attempt, seen)] + rest;
    RunsJoin(order, s, [CheckList(k, c, attempt, seen)], u, rest, t);
  }

  /** A client with one grant, which may expire. */
  function Holding(g: Grant, now: int): State {
    State("cli-a", map[g.id := g], map["cli-a" := P.Client("cli-a", "a", "", false)], now, Idle, {}, map[], [])
  }

  function HeldGrant(expiresAt: Option<int>): Grant {
    Grant(7, Principal(ClientPrincipal, "cli-a"), "files.read", map[], false, 0, expiresAt, None)
  }

  lemma HeldAllows(env: Env, g: Grant)
    requires g == HeldGrant(g.expiresAt)
    ensures Decide(env, ReadFiles(), [g], map[]) == Allow(7)
  {
  }

  lemma HeldListed(order: Order, g: Grant, now: int, k: nat)
    requires g == HeldGrant(g.expiresAt) && Unexpired(order.later, g, now)
    ensures Enabled(order, Holding(g, now), CheckList(k, ReadFiles(), map[], [g]))
  {
  }

  /** So access that a revoked client no longer has can still be allowed after the revocation has returned. */
  lemma StaleCheckMayAllow(order: Order)
    ensures exists s, steps, t ::
              Ready(s) && Runs(order, s, steps, t) && t.phase.Finished? && ActiveIds(t.grants, Owner(t), order.later, t.now) == {}
              && Enabled(order, t, CheckDecide(0)) && Apply(order, t, CheckDecide(0)).checks[0] == Decided(Allow(7))
  {
    var g := HeldGrant(None);
    var s := Holding(g, 0);
    assert Ready(s) && s.client in s.clients && !s.clients[s.client].revoked;
    assert CascadeListing([g], s.grants, Owner(s), order.later, 0);
    HeldListed(order, g, 0, 0);
    HeldAllows(order.env, g);
    hide Runs, CascadeListing, Decide, Enabled, Apply, Ready;
    var steps, t := StaleCheckStillDecides(order, s, [g], 0, ReadFiles(), map[], [g]);
    assert g in [g];
    assert ActiveIds(t.grants, Owner(t), order.later, t.now) == {};
  }

  /**
   * A grant that had expired by the text of the listing's reading can be active again by the text of a later one,
   * so a check that begins after the revocation has returned can allow.
   */
  lemma ExpiredGrantReturns(order: Order)
    requires order.later == TextLater(FractionText)
    ensures exists s, steps, t, after, v ::
              && Ready(s) && Runs(order, s, steps, t) && t.phase.Finished?
              && ActiveIds(t.grants, Owner(t), order.later, t.now) == {}
              && Runs(order, t, after, v) && ClockForward(t.now, after) && NothingIssued(after)
              && 0 !in t.checks && 0 in v.checks && v.checks[0] == Decided(Allow(7))
  {
    var g := HeldGrant(Some(35));
    var s := Holding(g, 30);
    FractionsMisorder();
    assert Ready(s);
    assert ActiveIds(s.grants, Owner(s), order.later, 30) == {} && CascadeListing([], s.grants, Owner(s), order.later, 30);
    hide FractionText, TextLater, CascadeListing, Runs;
    var none: seq<Grant> := [];
    var steps, t := RevokeClientIsRun(order, s, none, 0, false);
    assert none[..0] == none;
    assert t.grants == s.grants && t.now == 30 && t.checks == map[] && Owner(t) == Owner(s);
    var after, v := CheckAt(order, t, g, 31);
  }

  lemma CheckAt(order: Order, t: State, g: Grant, n: int) returns (after: seq<Step>, v: State)
    requires g == HeldGrant(g.expiresAt) && t.grants == map[7 := g] && t.client == "cli-a" && 0 !in t.checks
    requires t.now <= n && Unexpired(order.later, g, n)
    ensures Runs(order, t, after, v) && ClockForward(t.now, after) && NothingIssued(after)
    ensures 0 in v.checks && v.checks[0] == Decided(Allow(7))
  {
    HeldAllows(order.env, g);
    hide Runs, Decide;
    var begin := CheckList(0, ReadFiles(), map[], [g]);
    var a := Apply(order, t, Tick(n));
    RunsOne(order, t, Tick(n));
    assert Enabled(order, a, begin);
    var b := Apply(order, a, begin);
    RunsOne(order, a, begin);
    v := Apply(order, b, CheckDecide(0));
    RunsOne(order, b, CheckDecide(0));
    RunsJoin(order, a, [begin], b, [CheckDecide(0)], v);
    RunsJoin(order, t, [Tick(n)], a, [begin] + [CheckDecide(0)], v);
    after := [Tick(n)] + ([begin] + [CheckDecide(0)]);
    hide Enabled, Apply;
    var rest := [begin] + [CheckDecide(0)];
    assert after[1..] == rest && rest[1..] == [CheckDecide(0)];
    assert ClockForward(n, rest);
  }
}
