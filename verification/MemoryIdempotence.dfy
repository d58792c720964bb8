/**
 * Upserting an entry again (runtime/internal/memory/layer.go:232-275): the second upsert changes nothing in
 * the derived tables exactly when the instants it stamps lie in the windows the first one left; for a dated
 * entry they always do. Deleting an entry takes its links and counts back.
 */
module MemoryIdempotence {
  import opened Wrappers
  import opened Strings
  import opened MemoryTables
  import opened MemoryInvariant
  import opened MemoryRuns

  /** The entity of an item's first alias already holds all the item says, but for the instant. */
  predicate Absorbed(t: Tables, e: Entry, item: Extracted) {
    && item.aliases != []
    && var k := RowKey(item.aliases[0], e.namespace);
    && k in t.aliases && t.aliases[k] in t.entities
    && AbsorbedBy(t.entities[t.aliases[k]], item)
    && EntityLink(t.aliases[k], e.namespace, e.id, item.role) in t.entityLinks
  }

  predicate AbsorbedBy(x: Entity, item: Extracted) {
    (forall a :: a in item.aliases ==> a in x.aliases) && !ShouldUpgradeCanonical(x.canonical, item.canonical)
  }

  /** The window of the item's entity holds an instant. */
  predicate Covers(t: Tables, e: Entry, item: Extracted, at: int) {
    && item.aliases != []
    && var k := RowKey(item.aliases[0], e.namespace);
    && k in t.aliases && t.aliases[k] in t.entities
    && t.entities[t.aliases[k]].firstSeen <= at <= t.entities[t.aliases[k]].lastSeen
  }

  predicate ThreadAbsorbed(t: Tables, e: Entry) {
    e.threadId != "" ==>
      && ThreadKey(e.namespace, e.threadId) in t.threads
      && var thread := t.threads[ThreadKey(e.namespace, e.threadId)];
      && (e.subject == "" || thread.subject == e.subject)
      && ThreadLink(thread.id, e.namespace, e.id) in t.threadLinks
  }

  predicate ThreadCovers(t: Tables, e: Entry, at: int) {
    e.threadId != "" ==>
      && ThreadKey(e.namespace, e.threadId) in t.threads
      && var thread := t.threads[ThreadKey(e.namespace, e.threadId)];
      && thread.firstSeen <= at <= thread.lastSeen
  }

  /** Every instant an upsert of the entry would stamp lies in the window it would widen. */
  predicate AllCovered(t: Tables, e: Entry, clock: nat -> int) {
    var items := ExtractEntities(e);
    && (forall i :: 0 <= i < |items| ==> Covers(t, e, items[i], Stamp(e.date, clock(i))))
    && ThreadCovers(t, e, Stamp(e.date, clock(|items|)))
  }

  // ---------------------------------------------------------------- what derivations add

  predicate ListsGrow(x: Entities, y: Entities) {
    forall id | id in x :: id in y && forall a :: a in x[id].aliases ==> a in y[id].aliases
  }

  /** What writes other than unlinking do: widen windows, raise names, add aliases and links. */
  predicate Deepens(t: Tables, u: Tables) {
    && Widens(t, u) && NamesRise(t.entities, u.entities) && ListsGrow(t.entities, u.entities)
    && t.entityLinks.Keys <= u.entityLinks.Keys
  }

  lemma ListsTransitive(x: Entities, y: Entities, z: Entities)
    requires ListsGrow(x, y) && ListsGrow(y, z)
    ensures ListsGrow(x, z)
  {
  }

  lemma DeepensTransitive(t: Tables, u: Tables, v: Tables)
    requires Deepens(t, u) && Deepens(u, v)
    ensures Deepens(t, v)
  {
    hide Widens, NamesRise, ListsGrow;
    WidensTransitive(t, u, v);
    NamesTransitive(t.entities, u.entities, v.entities);
    ListsTransitive(t.entities, u.entities, v.entities);
  }

  lemma DeepensSame(t: Tables)
    ensures Deepens(t, t)
  {
  }

  lemma UpgradeStays(x: string, y: string, c: string)
    requires !ShouldUpgradeCanonical(x, c) && Rank(x) < Rank(y)
    ensures !ShouldUpgradeCanonical(y, c)
  {
  }

  /** Once absorbed, an item stays absorbed, and its window keeps covering what it covers. */
  lemma AbsorbedStays(t: Tables, u: Tables, e: Entry, item: Extracted)
    requires Absorbed(t, e, item) && Deepens(t, u)
    ensures Absorbed(u, e, item)
  {
    hide ShouldUpgradeCanonical, Rank, ThreadsWiden;
    var id := t.aliases[RowKey(item.aliases[0], e.namespace)];
    var x, y := t.entities[id], u.entities[id];
    if x.canonical != y.canonical {
      UpgradeStays(x.canonical, y.canonical, item.canonical);
    }
  }

  lemma CoversStays(t: Tables, u: Tables, e: Entry, item: Extracted, at: int)
    requires Covers(t, e, item, at) && Widens(t, u)
    ensures Covers(u, e, item, at)
  {
    hide ThreadsWiden;
  }

  // ---------------------------------------------------------------- one item

  lemma MergeAbsorbs(x: Entity, p: Proposal)
    ensures var m := MergeEntity(x, p);
            && (forall a :: a in p.aliases || a in x.aliases ==> a in m.aliases)
            && !ShouldUpgradeCanonical(m.canonical, p.canonical)
  {
    UnionKeeps(x.aliases, p.aliases);
  }

  lemma UpsertAbsorbs(t: Tables, p: Proposal)
    requires Sound(t) && p.aliases != []
    ensures var u, id := UpsertEntity(t, p), ResolvedId(t, p);
            && ListsGrow(t.entities, u.entities)
            && id in u.entities && (forall a :: a in p.aliases ==> a in u.entities[id].aliases)
            && !ShouldUpgradeCanonical(u.entities[id].canonical, p.canonical)
  {
    UpsertLists(t, p);
    hide Sound, ResolvedId, UpsertedEntity, InsertAliases, Lookup, ListsGrow, ShouldUpgradeCanonical;
    var id, x := ResolvedId(t, p), UpsertedEntity(t, p);
    if id in t.entities {
      MergeAbsorbs(t.entities[id], p);
    } else {
      NewNeedsNoUpgrade(p.canonical);
    }
    hide MergeEntity;
    OneListGrows(t.entities, id, x);
  }

  lemma NoStale(id: nat)
    ensures {} - {id} == {}
  {
  }

  lemma NewNeedsNoUpgrade(c: string)
    ensures !ShouldUpgradeCanonical(c, c)
  {
  }

  lemma OneListGrows(x: Entities, id: nat, e: Entity)
    requires id in x ==> forall a :: a in x[id].aliases ==> a in e.aliases
    ensures ListsGrow(x, x[id := e])
  {
  }

  lemma CountsKeepLists(x: Entities, y: Entities)
    requires SameButCounts(x, y)
    ensures ListsGrow(x, y)
    ensures forall id | id in x :: y[id].aliases == x[id].aliases && y[id].canonical == x[id].canonical
  {
  }

  /** One round of the derivation loop keeps the tables consistent and leaves its item absorbed. */
  lemma DeriveOneAbsorbs(t: Tables, e: Entry, item: Extracted, now: int)
    requires Inv(t) && item in ExtractEntities(e)
    ensures var u := DeriveOne(t, e, item, now);
            Inv(u) && Deepens(t, u) && Absorbed(u, e, item) && Covers(u, e, item, Stamp(e.date, now))
  {
    hide InvBut, ExtractEntities, UpsertEntity, LinkEntity, ResolvedId, ListsGrow, Widens, NamesRise, AbsorbedBy;
    ItemHasEmail(e, item);
    DeriveOneKeeps(t, e, item, now);
    var p := ItemProposal(e, item, now);
    var m, id := UpsertEntity(t, p), ResolvedId(t, p);
    var l := EntityLink(id, e.namespace, e.id, item.role);
    var u := LinkEntity(m, l, e.date);
    IsSound(t, {}, {});
    UpsertAbsorbs(t, p);
    FirstAliasResolves(t, p);
    UpsertEntityKeeps(t, p, {}, {});
    UpsertLeavesLinks(t, p);
    LinkEntityCounts(m, l, e.date);
    LinkEntityWidens(m, l, e.date);
    hide SameButCounts;
    CountsKeepLists(m.entities, u.entities);
    ListsTransitive(t.entities, m.entities, u.entities);
    WindowKept(m, u, id);
    LinkedAbsorbs(m.entities[id], u.entities[id], item);
  }

  lemma LinkedAbsorbs(x: Entity, y: Entity, item: Extracted)
    requires y.aliases == x.aliases && y.canonical == x.canonical
    requires (forall a :: a in item.aliases ==> a in x.aliases) && !ShouldUpgradeCanonical(x.canonical, item.canonical)
    ensures AbsorbedBy(y, item)
  {
  }

  lemma WindowKept(t: Tables, u: Tables, id: nat)
    requires Widens(t, u) && id in t.entities
    ensures id in u.entities
    ensures u.entities[id].firstSeen <= t.entities[id].firstSeen && t.entities[id].lastSeen <= u.entities[id].lastSeen
  {
  }

  lemma UpsertLeavesLinks(t: Tables, p: Proposal)
    ensures UpsertEntity(t, p).entityLinks == t.entityLinks
  {
  }

  /** One round keeps what is stale at most as stale. */
  lemma RoundKeeps(t: Tables, e: Entry, item: Extracted, now: int, es: set<nat>, ts: set<nat>)
    requires InvBut(t, es, ts) && item in ExtractEntities(e) && item.aliases != []
    ensures var u := DeriveOne(t, e, item, now);
            InvBut(u, es, ts) && Widens(t, u) && NamesRise(t.entities, u.entities)
  {
    hide InvBut, ExtractEntities, UpsertEntity, LinkEntity, ResolvedId, Widens, NamesRise;
    var p := ItemProposal(e, item, now);
    var m := UpsertEntity(t, p);
    var l := EntityLink(ResolvedId(t, p), e.namespace, e.id, item.role);
    UpsertEntityKeeps(t, p, es, ts);
    IsSound(t, es, ts);
    UpsertEntityWidens(t, p);
    LinkEntityKeeps(m, l, e.date, es, ts);
    MoreStale(LinkEntity(m, l, e.date), es - {l.entity}, es, ts, ts);
    LinkEntityWidens(m, l, e.date);
    WidensTransitive(t, m, LinkEntity(m, l, e.date));
    NamesTransitive(t.entities, m.entities, LinkEntity(m, l, e.date).entities);
  }

  lemma MoreStale(t: Tables, es: set<nat>, es': set<nat>, ts: set<nat>, ts': set<nat>)
    requires InvBut(t, es, ts) && es <= es' && ts <= ts'
    ensures InvBut(t, es', ts')
  {
    hide Sound, LinkTexts, ThreadLinksOf;
  }

  lemma DeriveOneKeeps(t: Tables, e: Entry, item: Extracted, now: int)
    requires Inv(t) && item in ExtractEntities(e) && item.aliases != []
    ensures var u := DeriveOne(t, e, item, now);
            Inv(u) && Widens(t, u) && NamesRise(t.entities, u.entities)
  {
    hide InvBut, ExtractEntities, DeriveOne, Widens, NamesRise;
    RoundKeeps(t, e, item, now, {}, {});
  }

  // ---------------------------------------------------------------- doing nothing

  lemma {:induction false} UnionIdle(existing: seq<Alias>, incoming: seq<Alias>)
    requires forall a :: a in incoming ==> a in existing
    ensures UnionAliases(existing, incoming) == existing
    decreases |incoming|
  {
    if incoming != [] {
      assert incoming == [incoming[0]] + incoming[1..];
      UnionIdle(existing, incoming[1..]);
    }
  }

  lemma {:induction false} InsertIdle(rows: Rows, wanted: seq<Alias>, namespace: string, id: nat)
    requires forall a :: a in wanted ==> RowKey(a, namespace) in rows
    ensures InsertAliases(rows, wanted, namespace, id) == rows
    decreases |wanted|
  {
    if wanted != [] {
      assert wanted[0] in wanted && wanted == [wanted[0]] + wanted[1..];
      InsertIdle(rows, wanted[1..], namespace, id);
    }
  }

  lemma UpsertIdle(t: Tables, p: Proposal)
    requires Sound(t) && p.aliases != []
    requires RowKey(p.aliases[0], p.namespace) in t.aliases
    requires var id := t.aliases[RowKey(p.aliases[0], p.namespace)];
             && id in t.entities && (forall a :: a in p.aliases ==> a in t.entities[id].aliases)
             && !ShouldUpgradeCanonical(t.entities[id].canonical, p.canonical)
             && t.entities[id].firstSeen <= p.firstSeen && p.lastSeen <= t.entities[id].lastSeen
    ensures UpsertEntity(t, p) == t
  {
    var id := t.aliases[RowKey(p.aliases[0], p.namespace)];
    FirstRowDecides(t, p);
    UpsertLists(t, p);
    UnionIdle(t.entities[id].aliases, p.aliases);
    InsertIdle(t.aliases, t.entities[id].aliases, p.namespace, id);
    hide InvBut, Lookup, InsertAliases, UnionAliases, ShouldUpgradeCanonical;
    assert t.entities[id := t.entities[id]] == t.entities;
  }

  lemma LinkIdle(t: Tables, l: EntityLink, date: Option<int>)
    requires EntityCountsHold(t.entities, t.entityLinks, {}) && l in t.entityLinks && l.entity in t.entities
    ensures LinkEntity(t, l, date) == t
  {
    hide LinkTexts;
    assert t.entities[l.entity := t.entities[l.entity]] == t.entities;
  }

  lemma DeriveOneIdle(t: Tables, e: Entry, item: Extracted, now: int)
    requires Inv(t) && Absorbed(t, e, item) && Covers(t, e, item, Stamp(e.date, now))
    ensures DeriveOne(t, e, item, now) == t
  {
    hide UpsertEntity, LinkEntity, ResolvedId, ShouldUpgradeCanonical, AliasesAgree, EntityLinksHold, EntityCountsHold,
         ThreadsKeyed, ThreadLinksHold, ThreadCountsHold, IdsBelow;
    var p := ItemProposal(e, item, now);
    UpsertIdle(t, p);
    FirstRowDecides(t, p);
    LinkIdle(t, EntityLink(ResolvedId(t, p), e.namespace, e.id, item.role), e.date);
  }

  // ---------------------------------------------------------------- all items

  /** The loop absorbs every item it handles, in any order and with any repetition of addresses. */
  lemma {:induction false} DeriveFromAbsorbs(t: Tables, e: Entry, i: nat, clock: nat -> int)
    requires Inv(t) && i <= |ExtractEntities(e)|
    requires forall j :: 0 <= j < i ==>
               Absorbed(t, e, ExtractEntities(e)[j]) && Covers(t, e, ExtractEntities(e)[j], Stamp(e.date, clock(j)))
    ensures var items, u := ExtractEntities(e), DeriveFrom(t, e, ExtractEntities(e), i, clock);
            && Inv(u) && Deepens(t, u)
            && forall j :: 0 <= j < |items| ==> Absorbed(u, e, items[j]) && Covers(u, e, items[j], Stamp(e.date, clock(j)))
    decreases |ExtractEntities(e)| - i
  {
    hide InvBut, ExtractEntities, Absorbed, Covers, DeriveOne, Deepens;
    var items := ExtractEntities(e);
    if i == |items| {
      DeepensSame(t);
    } else {
      var m := DeriveOne(t, e, items[i], clock(i));
      DeriveOneAbsorbs(t, e, items[i], clock(i));
      forall j | 0 <= j < i ensures Absorbed(m, e, items[j]) && Covers(m, e, items[j], Stamp(e.date, clock(j))) {
        StaysBoth(t, m, e, items[j], Stamp(e.date, clock(j)));
      }
      DeriveFromAbsorbs(m, e, i + 1, clock);
      DeepensTransitive(t, m, DeriveFrom(m, e, items, i + 1, clock));
    }
  }

  lemma StaysBoth(t: Tables, u: Tables, e: Entry, item: Extracted, at: int)
    requires Absorbed(t, e, item) && Covers(t, e, item, at) && Deepens(t, u)
    ensures Absorbed(u, e, item) && Covers(u, e, item, at)
  {
    hide Widens, Covers, Absorbed, NamesRise, ListsGrow;
    AbsorbedStays(t, u, e, item);
    CoversStays(t, u, e, item, at);
  }

  lemma {:induction false} DeriveFromIdle(t: Tables, e: Entry, items: seq<Extracted>, i: nat, clock: nat -> int)
    requires Inv(t) && i <= |items|
    requires forall j :: i <= j < |items| ==> Absorbed(t, e, items[j]) && Covers(t, e, items[j], Stamp(e.date, clock(j)))
    ensures DeriveFrom(t, e, items, i, clock) == t
    decreases |items| - i
  {
    hide InvBut, Absorbed, Covers, DeriveOne;
    if i < |items| {
      DeriveOneIdle(t, e, items[i], clock(i));
      DeriveFromIdle(t, e, items, i + 1, clock);
    }
  }

  // ---------------------------------------------------------------- the thread

  lemma DeriveThreadAbsorbs(t: Tables, e: Entry, now: int)
    requires Inv(t)
    ensures var u := DeriveThread(t, e, now);
            && Inv(u) && Widens(t, u) && ThreadAbsorbed(u, e) && ThreadCovers(u, e, Stamp(e.date, now))
            && u.entities == t.entities && u.aliases == t.aliases && u.entityLinks == t.entityLinks
  {
    if e.threadId == "" {
      DeepensSame(t);
      hide *;
    } else {
      hide InvBut, Widens, UpsertThread, LinkThread, UpsertedThread;
      var p := TopicProposal(e, now);
      var m := UpsertThread(t, p);
      var l := ThreadLink(UpsertedThread(t, p).id, e.namespace, e.id);
      UpsertThreadKeeps(t, p, {}, {});
      UpsertThreadWidens(t, p);
      ThreadUpserted(t, p);
      LinkThreadKeeps(m, p.key, l, e.date, {}, {});
      NoStale(l.thread);
      LinkThreadWidens(m, l, e.date);
      ThreadLinked(m, p.key, l, e.date);
      WidensTransitive(t, m, LinkThread(m, l, e.date));
    }
  }

  lemma ThreadUpserted(t: Tables, p: ThreadProposal)
    ensures var u := UpsertThread(t, p);
            && p.key in u.threads && u.threads[p.key].id == UpsertedThread(t, p).id
            && (p.subject != "" ==> u.threads[p.key].subject == p.subject)
            && u.entities == t.entities && u.aliases == t.aliases && u.entityLinks == t.entityLinks
  {
  }

  lemma ThreadLinked(t: Tables, k: ThreadKey, l: ThreadLink, date: Option<int>)
    requires k in t.threads
    ensures var u := LinkThread(t, l, date);
            && l in u.threadLinks && k in u.threads
            && u.threads[k] == t.threads[k].(entryCount := u.threads[k].entryCount)
            && u.entities == t.entities && u.aliases == t.aliases && u.entityLinks == t.entityLinks
  {
    hide ThreadLinksOf;
  }

  lemma DeriveThreadIdle(t: Tables, e: Entry, now: int)
    requires Inv(t) && ThreadAbsorbed(t, e) && ThreadCovers(t, e, Stamp(e.date, now))
    ensures DeriveThread(t, e, now) == t
  {
    hide AliasesAgree, EntityLinksHold, EntityCountsHold, ThreadLinksHold, ThreadLinksOf;
    if e.threadId != "" {
      var p := TopicProposal(e, now);
      assert UpsertedThread(t, p) == t.threads[p.key];
      assert t.threads[p.key := t.threads[p.key]] == t.threads;
      assert UpsertThread(t, p) == t;
      hide UpsertThread, UpsertedThread;
      var l := ThreadLink(t.threads[p.key].id, e.namespace, e.id);
      assert WithThreadCount(t, l.thread).threads == t.threads;
    }
  }

  // ---------------------------------------------------------------- the whole upsert

  /** An upsert keeps the tables consistent and leaves everything it extracted absorbed and covered. */
  lemma DeriveAbsorbs(t: Tables, e: Entry, clock: nat -> int)
    requires Inv(t)
    ensures var u := Derive(t, e, clock);
            && Inv(u) && Widens(t, u) && AllAbsorbed(u, e) && AllCovered(u, e, clock)
  {
    hide InvBut, ExtractEntities, Absorbed, Covers, DeriveOne, DeriveThread, Deepens, Widens, ThreadAbsorbed, ThreadCovers;
    var items := ExtractEntities(e);
    var m := DeriveFrom(t, e, items, 0, clock);
    DeriveFromAbsorbs(t, e, 0, clock);
    DeriveThreadAbsorbs(m, e, clock(|items|));
    var u := DeriveThread(m, e, clock(|items|));
    forall j | 0 <= j < |items| ensures Absorbed(u, e, items[j]) && Covers(u, e, items[j], Stamp(e.date, clock(j))) {
      SameEntities(m, u, e, items[j], Stamp(e.date, clock(j)));
    }
    DeepensWidens(t, m);
    WidensTransitive(t, m, u);
  }

  lemma DeepensWidens(t: Tables, u: Tables)
    requires Deepens(t, u)
    ensures Widens(t, u)
  {
  }

  predicate AllAbsorbed(t: Tables, e: Entry) {
    (forall j :: 0 <= j < |ExtractEntities(e)| ==> Absorbed(t, e, ExtractEntities(e)[j])) && ThreadAbsorbed(t, e)
  }

  lemma SameEntities(t: Tables, u: Tables, e: Entry, item: Extracted, at: int)
    requires u.entities == t.entities && u.aliases == t.aliases && u.entityLinks == t.entityLinks
    ensures Absorbed(t, e, item) == Absorbed(u, e, item) && Covers(t, e, item, at) == Covers(u, e, item, at)
  {
  }

  lemma DeriveIdle(t: Tables, e: Entry, clock: nat -> int)
    requires Inv(t) && AllAbsorbed(t, e) && AllCovered(t, e, clock)
    ensures Derive(t, e, clock) == t
  {
    hide InvBut, ExtractEntities, Absorbed, Covers, DeriveOne, DeriveThread, ThreadAbsorbed, ThreadCovers;
    DeriveFromIdle(t, e, ExtractEntities(e), 0, clock);
    DeriveThreadIdle(t, e, clock(|ExtractEntities(e)|));
  }

  /**
   * A second upsert of an entry changes nothing if and only if every instant it stamps lies in the window
   * the first upsert left.
   */
  lemma UpsertTwice(t: Tables, e: Entry, first: nat -> int, second: nat -> int)
    requires Inv(t)
    ensures var u := Derive(t, e, first);
            Derive(u, e, second) == u <==> AllCovered(u, e, second)
  {
    hide *;
    var u := Derive(t, e, first);
    DeriveAbsorbs(t, e, first);
    DeriveAbsorbs(u, e, second);
    if AllCovered(u, e, second) {
      DeriveIdle(u, e, second);
    }
  }

  /** For a dated entry the second upsert never changes anything. */
  lemma DatedUpsertIdempotent(t: Tables, e: Entry, first: nat -> int, second: nat -> int)
    requires Inv(t) && e.date.Some?
    ensures Derive(Derive(t, e, first), e, second) == Derive(t, e, first)
  {
    hide InvBut, Derive, ExtractEntities, Covers, ThreadCovers;
    DeriveAbsorbs(t, e, first);
    UpsertTwice(t, e, first, second);
  }


  /** The entry names an address or a thread, so that upserting it derives something. */
  predicate Derives(e: Entry) {
    ExtractEntities(e) != [] || e.threadId != ""
  }

  /** An instant past the window of the first address, or of the thread when there is no address. */
  function PastWindow(t: Tables, e: Entry): int
    requires AllAbsorbed(t, e) && Derives(e)
  {
    1 + if ExtractEntities(e) != [] then t.entities[t.aliases[RowKey(ExtractEntities(e)[0].aliases[0], e.namespace)]].lastSeen
        else t.threads[ThreadKey(e.namespace, e.threadId)].lastSeen
  }

  /**
   * Without a date some clock reading makes the second upsert move a window, if and only if the entry names an
   * address or a thread at all.
   */
  lemma UndatedUpsertMoves(t: Tables, e: Entry, first: nat -> int)
    requires Inv(t) && e.date.None?
    ensures (exists second: nat -> int :: Derive(Derive(t, e, first), e, second) != Derive(t, e, first)) <==> Derives(e)
  {
    hide InvBut, Derive, ExtractEntities, ThreadCovers, ThreadAbsorbed, Covers, Absorbed;
    var u := Derive(t, e, first);
    DeriveAbsorbs(t, e, first);
    if Derives(e) {
      var later := PastWindow(u, e);
      var second := (i: nat) => later;
      LaterUncovered(u, e, second);
      UpsertTwice(t, e, first, second);
    } else {
      forall second: nat -> int ensures Derive(u, e, second) == u {
        NothingCovered(u, e, second);
        UpsertTwice(t, e, first, second);
      }
    }
  }

  lemma LaterUncovered(t: Tables, e: Entry, clock: nat -> int)
    requires AllAbsorbed(t, e) && Derives(e) && e.date.None?
    requires forall i: nat :: clock(i) == PastWindow(t, e)
    ensures !AllCovered(t, e, clock)
  {
    hide ExtractEntities, AbsorbedBy;
    var items := ExtractEntities(e);
    if items != [] {
      assert Absorbed(t, e, items[0]);
      assert Stamp(e.date, clock(0)) == PastWindow(t, e);
      assert !Covers(t, e, items[0], Stamp(e.date, clock(0)));
    } else {
      assert Stamp(e.date, clock(|items|)) == PastWindow(t, e);
      assert !ThreadCovers(t, e, Stamp(e.date, clock(|items|)));
    }
  }

  lemma NothingCovered(t: Tables, e: Entry, clock: nat -> int)
    requires !Derives(e)
    ensures AllCovered(t, e, clock)
  {
    hide ExtractEntities;
  }

  // ---------------------------------------------------------------- trying again

  /** A prefix of items that are absorbed and covered is passed over. */
  lemma {:induction false} DeriveSkips(t: Tables, e: Entry, items: seq<Extracted>, i: nat, n: nat, clock: nat -> int)
    requires Inv(t) && i <= n <= |items|
    requires forall j :: i <= j < n ==> Absorbed(t, e, items[j]) && Covers(t, e, items[j], Stamp(e.date, clock(j)))
    ensures DeriveFrom(t, e, items, i, clock) == DeriveFrom(t, e, items, n, clock)
    decreases n - i
  {
    hide InvBut, Absorbed, Covers, DeriveOne;
    if i < n {
      DeriveOneIdle(t, e, items[i], clock(i));
      DeriveSkips(t, e, items, i + 1, n, clock);
    }
  }

  /** What an entity upsert whose link then failed leaves: the next round is as if it had not been made. */
  lemma UpsertFirst(t: Tables, e: Entry, item: Extracted, first: int, second: int)
    requires Inv(t) && e.date.Some? && item in ExtractEntities(e)
    ensures var u := UpsertEntity(t, ItemProposal(e, item, first));
            Inv(u) && Deepens(t, u) && DeriveOne(u, e, item, second) == DeriveOne(t, e, item, first)
  {
    hide InvBut, ExtractEntities, UpsertEntity, LinkEntity, ResolvedId, ListsGrow, Widens, NamesRise, ShouldUpgradeCanonical;
    ItemHasEmail(e, item);
    var p := ItemProposal(e, item, first);
    var u := UpsertEntity(t, p);
    assert ItemProposal(e, item, second) == p;
    IsSound(t, {}, {});
    UpsertAbsorbs(t, p);
    UpsertEntityKeeps(t, p, {}, {});
    UpsertEntityWidens(t, p);
    UpsertLeavesLinks(t, p);
    FirstAliasResolves(t, p);
    FirstRowDecides(u, p);
    IsSound(u, {}, {});
    UpsertIdle(u, p);
  }

  /** Tables in which only the count of entity id may be off. */
  lemma UncountedSound(u: Tables, h: Tables, id: nat)
    requires h == WithEntityCount(u, id) && Sound(h)
    ensures Sound(u)
  {
    hide AliasesAgree, EntityLinksHold, ThreadsKeyed, ThreadLinksHold, LinkTexts;
    if id in u.entities {
      OneCount(u.entities, id, |LinkTexts(u.entityLinks, id)|);
      SameBack(u.entities, h.entities);
      CountsKeepAliases(h.entities, u.entities, h.aliases);
      CountsKeepLinks(h.entities, u.entities, h.entityLinks);
    }
  }

  lemma SameBack(e: Entities, f: Entities)
    requires SameButCounts(e, f)
    ensures SameButCounts(f, e)
  {
  }

  /** The item's first alias names entity id. */
  predicate Resolves(t: Tables, e: Entry, item: Extracted, id: nat) {
    && item.aliases != []
    && var k := RowKey(item.aliases[0], e.namespace);
    && k in t.aliases && t.aliases[k] == id
  }

  /** A round for an item that is absorbed refreshes the count that is off, if it is of its entity, and does nothing else. */
  lemma StaleRound(u: Tables, h: Tables, id: nat, e: Entry, item: Extracted, now: int)
    requires h == WithEntityCount(u, id) && Inv(h) && Absorbed(h, e, item) && Covers(h, e, item, Stamp(e.date, now))
    ensures DeriveOne(u, e, item, now) == if Resolves(h, e, item, id) then h else u
  {
    var p := ItemProposal(e, item, now);
    UncountedSound(u, h, id);
    AbsorbedBack(u, h, id, e, item, Stamp(e.date, now));
    hide UpsertEntity, LinkEntity, ResolvedId, ShouldUpgradeCanonical, Sound, ThreadCountsHold;
    UpsertIdle(u, p);
    FirstRowDecides(u, p);
    StaleLink(u, h, id, EntityLink(ResolvedId(u, p), e.namespace, e.id, item.role), e.date);
  }

  lemma AbsorbedBack(u: Tables, h: Tables, id: nat, e: Entry, item: Extracted, at: int)
    requires h == WithEntityCount(u, id) && Absorbed(h, e, item) && Covers(h, e, item, at)
    ensures Absorbed(u, e, item) && Covers(u, e, item, at)
  {
    hide LinkTexts, ShouldUpgradeCanonical;
  }

  lemma StaleLink(u: Tables, h: Tables, id: nat, l: EntityLink, date: Option<int>)
    requires h == WithEntityCount(u, id) && EntityCountsHold(h.entities, h.entityLinks, {})
    requires l in u.entityLinks && l.entity in u.entities
    ensures LinkEntity(u, l, date) == if l.entity == id then h else u
  {
    hide LinkTexts;
    if l.entity != id {
      assert h.entities[l.entity] == u.entities[l.entity];
      assert u.entities[l.entity := u.entities[l.entity]] == u.entities;
    }
  }

  /** Going over absorbed items, one of them of the entity whose count is off, heals that count. */
  lemma {:induction false} StaleSkips(u: Tables, h: Tables, id: nat, e: Entry, items: seq<Extracted>, i: nat, n: nat, k: nat,
                                      clock: nat -> int)
    requires h == WithEntityCount(u, id) && Inv(h) && i <= k < n <= |items|
    requires forall j :: i <= j < n ==> Absorbed(h, e, items[j]) && Covers(h, e, items[j], Stamp(e.date, clock(j)))
    requires Resolves(h, e, items[k], id)
    ensures DeriveFrom(u, e, items, i, clock) == DeriveFrom(h, e, items, n, clock)
    decreases n - i
  {
    hide InvBut, Absorbed, Covers, DeriveOne, WithEntityCount, Resolves;
    StaleRound(u, h, id, e, items[i], clock(i));
    if Resolves(h, e, items[i], id) {
      DeriveSkips(h, e, items, i + 1, n, clock);
    } else {
      StaleSkips(u, h, id, e, items, i + 1, n, k, clock);
    }
  }

  /** A round whose refresh fails leaves what a whole round leaves, but for that count. */
  lemma UncountedRound(t: Tables, e: Entry, item: Extracted, now: int)
    requires Inv(t) && item in ExtractEntities(e)
    ensures item.aliases != []
    ensures var u, h, id := DeriveUncounted(t, e, item, now), DeriveOne(t, e, item, now), ResolvedId(t, ItemProposal(e, item, now));
            && h == WithEntityCount(u, id) && Sound(u) && Widens(t, u)
            && Resolves(h, e, item, id)
  {
    hide InvBut, ExtractEntities, UpsertEntity, ResolvedId, Widens, NamesRise, LinkTexts, Sound;
    ItemHasEmail(e, item);
    var p := ItemProposal(e, item, now);
    var m := UpsertEntity(t, p);
    var l := EntityLink(ResolvedId(t, p), e.namespace, e.id, item.role);
    IsSound(t, {}, {});
    FirstAliasResolves(t, p);
    UpsertEntityKeeps(t, p, {}, {});
    UpsertEntityWidens(t, p);
    InsertLinkKeeps(m, l, e.date, {}, {});
    IsSound(InsertLink(m, l, e.date), {} + {l.entity}, {});
    InsertWidens(m, l, ThreadLink(0, "", ""), e.date);
    WidensTransitive(t, m, InsertLink(m, l, e.date));
  }

  /**
   * Deriving the entities of a dated entry again after a derivation that failed anywhere, also between a link and
   * its count, gives exactly the tables that one derivation without failures gives.
   */
  lemma {:induction false} RetryCompletes(t: Tables, e: Entry, i: nat, first: nat -> int, outcomes: nat -> Outcome, second: nat -> int)
    requires Inv(t) && e.date.Some? && i <= |ExtractEntities(e)|
    requires forall j :: 0 <= j < i ==>
               Absorbed(t, e, ExtractEntities(e)[j]) && Covers(t, e, ExtractEntities(e)[j], Stamp(e.date, second(j)))
    ensures var items := ExtractEntities(e);
            var u := DeriveSome(t, e, items, i, first, outcomes);
            Sound(u) && Widens(t, u) && DeriveFrom(u, e, items, 0, second) == DeriveFrom(t, e, items, i, first)
    decreases |ExtractEntities(e)| - i
  {
    hide InvBut, ExtractEntities, Absorbed, Covers, DeriveOne, DeriveUncounted, Deepens, UpsertEntity, Widens, Sound, WithEntityCount,
         ResolvedId;
    var items := ExtractEntities(e);
    DeepensSame(t);
    DeepensWidens(t, t);
    IsSound(t, {}, {});
    DeriveSkips(t, e, items, 0, i, second);
    if i < |items| {
      var item := items[i];
      SameRound(t, e, item, first(i), second(i));
      match outcomes(i)
      case UpsertFails =>
        DatedClock(t, e, items, i, first, second);
      case LinkFails =>
        var u := UpsertEntity(t, ItemProposal(e, item, first(i)));
        UpsertFirst(t, e, item, first(i), second(i));
        DeepensWidens(t, u);
        IsSound(u, {}, {});
        forall j | 0 <= j < i ensures Absorbed(u, e, items[j]) && Covers(u, e, items[j], Stamp(e.date, second(j))) {
          StaysBoth(t, u, e, items[j], Stamp(e.date, second(j)));
        }
        DeriveSkips(u, e, items, 0, i, second);
        DatedClock(DeriveOne(t, e, item, first(i)), e, items, i + 1, first, second);
      case CountFails =>
        CountRetried(t, e, i, first, second);
      case Works =>
        var m := DeriveOne(t, e, item, first(i));
        DeriveOneAbsorbs(t, e, item, first(i));
        DeepensWidens(t, m);
        forall j | 0 <= j < i ensures Absorbed(m, e, items[j]) && Covers(m, e, items[j], Stamp(e.date, second(j))) {
          StaysBoth(t, m, e, items[j], Stamp(e.date, second(j)));
        }
        RetryCompletes(m, e, i + 1, first, outcomes, second);
        WidensTransitive(t, m, DeriveSome(m, e, items, i + 1, first, outcomes));
    }
  }

  /** The case that the link was written and its count not refreshed. */
  lemma CountRetried(t: Tables, e: Entry, i: nat, first: nat -> int, second: nat -> int)
    requires Inv(t) && e.date.Some? && i < |ExtractEntities(e)|
    requires forall j :: 0 <= j < i ==>
               Absorbed(t, e, ExtractEntities(e)[j]) && Covers(t, e, ExtractEntities(e)[j], Stamp(e.date, second(j)))
    ensures var items := ExtractEntities(e);
            var u := DeriveUncounted(t, e, items[i], first(i));
            Sound(u) && Widens(t, u) && DeriveFrom(u, e, items, 0, second) == DeriveFrom(t, e, items, i, first)
  {
    hide InvBut, ExtractEntities, Absorbed, Covers, DeriveOne, DeriveUncounted, Deepens, Widens, Sound, WithEntityCount, ResolvedId;
    var items := ExtractEntities(e);
    var item := items[i];
    var u, h := DeriveUncounted(t, e, item, first(i)), DeriveOne(t, e, item, first(i));
    UncountedRound(t, e, item, first(i));
    DeriveOneAbsorbs(t, e, item, first(i));
    SameRound(t, e, item, first(i), second(i));
    forall j | 0 <= j < i + 1 ensures Absorbed(h, e, items[j]) && Covers(h, e, items[j], Stamp(e.date, second(j))) {
      if j < i {
        StaysBoth(t, h, e, items[j], Stamp(e.date, second(j)));
      }
    }
    StaleSkips(u, h, ResolvedId(t, ItemProposal(e, item, first(i))), e, items, 0, i + 1, i, second);
    DatedClock(h, e, items, i + 1, first, second);
  }

  lemma SameRound(t: Tables, e: Entry, item: Extracted, first: int, second: int)
    requires e.date.Some?
    ensures DeriveOne(t, e, item, first) == DeriveOne(t, e, item, second)
    ensures Stamp(e.date, first) == Stamp(e.date, second)
  {
    hide UpsertEntity, LinkEntity, ResolvedId;
  }

  lemma {:induction false} DatedClock(t: Tables, e: Entry, items: seq<Extracted>, i: nat, first: nat -> int, second: nat -> int)
    requires e.date.Some? && i <= |items|
    ensures DeriveFrom(t, e, items, i, first) == DeriveFrom(t, e, items, i, second)
    decreases |items| - i
  {
    hide DeriveOne;
    if i < |items| {
      SameRound(t, e, items[i], first(i), second(i));
      DatedClock(DeriveOne(t, e, items[i], first(i)), e, items, i + 1, first, second);
    }
  }

  /** The same for the thread. */
  lemma RetryCompletesThread(t: Tables, e: Entry, first: int, outcome: Outcome, second: int)
    requires Inv(t) && e.date.Some?
    ensures var u := DeriveSomeThread(t, e, first, outcome);
            Sound(u) && Widens(t, u) && DeriveThread(u, e, second) == DeriveThread(t, e, first)
  {
    hide InvBut, Widens, UpsertThread, LinkThread, UpsertedThread, InsertTopic, Sound;
    DeepensSame(t);
    DeepensWidens(t, t);
    IsSound(t, {}, {});
    if e.threadId != "" {
      var p := TopicProposal(e, first);
      var m := UpsertThread(t, p);
      UpsertThreadKeeps(t, p, {}, {});
      UpsertThreadWidens(t, p);
      IsSound(m, {}, {});
      ThreadUpsertIdle(t, p);
      DeriveThreadAbsorbs(t, e, first);
      assert TopicProposal(e, second) == p;
      if outcome.Works? {
        IsSound(DeriveThread(t, e, first), {}, {});
        DeriveThreadIdle(DeriveThread(t, e, first), e, second);
      } else if outcome.CountFails? {
        var l := ThreadLink(UpsertedThread(t, p).id, e.namespace, e.id);
        ThreadUpserted(t, p);
        InsertTopicKeeps(m, p.key, l, e.date, {}, {});
        IsSound(InsertTopic(m, l, e.date), {}, {} + {l.thread});
        InsertWidens(m, EntityLink(0, "", "", From), l, e.date);
        WidensTransitive(t, m, InsertTopic(m, l, e.date));
        TopicRetried(m, p, l, e.date);
      }
    }
  }

  lemma TopicRetried(m: Tables, p: ThreadProposal, l: ThreadLink, date: Option<int>)
    requires UpsertThread(m, p) == m
    ensures var u := InsertTopic(m, l, date);
            && UpsertThread(u, p) == u && UpsertedThread(u, p) == UpsertedThread(m, p)
            && LinkThread(u, l, date) == LinkThread(m, l, date)
  {
    hide WithThreadCount;
  }

  lemma ThreadUpsertIdle(t: Tables, p: ThreadProposal)
    ensures var u := UpsertThread(t, p);
            UpsertThread(u, p) == u && UpsertedThread(u, p).id == UpsertedThread(t, p).id
  {
    var u := UpsertThread(t, p);
    assert UpsertedThread(u, p) == u.threads[p.key];
    assert u.threads[p.key := u.threads[p.key]] == u.threads;
  }

  // ---------------------------------------------------------------- what a failing derivation leaves

  /** The entity whose count a failing derivation leaves stale. */
  function StaleAfter(t: Tables, e: Entry, items: seq<Extracted>, i: nat, clock: nat -> int, outcomes: nat -> Outcome): (ids: set<nat>)
    requires i <= |items|
    ensures |ids| <= 1
    decreases |items| - i
  {
    if i == |items| then {}
    else
      match outcomes(i)
      case CountFails => {ResolvedId(t, ItemProposal(e, items[i], clock(i)))}
      case Works => StaleAfter(DeriveOne(t, e, items[i], clock(i)), e, items, i + 1, clock, outcomes)
      case _ => {}
  }

  function StaleThreadAfter(t: Tables, e: Entry, now: int, outcome: Outcome): set<nat> {
    if e.threadId != "" && outcome.CountFails? then {UpsertedThread(t, TopicProposal(e, now)).id} else {}
  }

  /**
   * Wherever derivation fails, the tables stay consistent but for the count of at most one entity and one thread,
   * whose refreshes failed; without failures it is the plain derivation.
   */
  lemma DeriveWithKeeps(t: Tables, e: Entry, clock: nat -> int, outcomes: Outcomes, es: set<nat>, ts: set<nat>)
    requires InvBut(t, es, ts)
    ensures var items, u := ExtractEntities(e), DeriveWith(t, e, clock, outcomes);
            var m := DeriveSome(t, e, items, 0, clock, outcomes.items);
            && InvBut(u, es + StaleAfter(t, e, items, 0, clock, outcomes.items),
                      ts + StaleThreadAfter(m, e, clock(|items|), outcomes.thread))
            && Widens(t, u)
            && ((forall i: nat :: outcomes.items(i).Works?) && outcomes.thread.Works? ==> u == Derive(t, e, clock))
  {
    hide InvBut, Widens, ExtractEntities, DeriveSome, DeriveFrom, DeriveSomeThread, DeriveThread, StaleAfter, StaleThreadAfter;
    var items := ExtractEntities(e);
    var m := DeriveSome(t, e, items, 0, clock, outcomes.items);
    DeriveSomeKeeps(t, e, items, 0, clock, outcomes.items, es, ts);
    DeriveSomeThreadKeeps(m, e, clock(|items|), outcomes.thread, es + StaleAfter(t, e, items, 0, clock, outcomes.items), ts);
    WidensTransitive(t, m, DeriveWith(t, e, clock, outcomes));
  }

  lemma {:induction false} DeriveSomeKeeps(t: Tables, e: Entry, items: seq<Extracted>, i: nat, clock: nat -> int,
                                           outcomes: nat -> Outcome, es: set<nat>, ts: set<nat>)
    requires InvBut(t, es, ts) && items == ExtractEntities(e) && i <= |items|
    ensures var u := DeriveSome(t, e, items, i, clock, outcomes);
            && InvBut(u, es + StaleAfter(t, e, items, i, clock, outcomes), ts) && Widens(t, u)
            && ((forall j: nat :: outcomes(j).Works?) ==> u == DeriveFrom(t, e, items, i, clock))
    decreases |items| - i
  {
    hide InvBut, ExtractEntities, DeriveOne, UpsertEntity, Widens, Deepens, NamesRise, ResolvedId, InsertLink;
    DeepensSame(t);
    DeepensWidens(t, t);
    NothingStale(es);
    if i < |items| {
      var p := ItemProposal(e, items[i], clock(i));
      ItemHasEmail(e, items[i]);
      UpsertEntityKeeps(t, p, es, ts);
      IsSound(t, es, ts);
      UpsertEntityWidens(t, p);
      match outcomes(i)
      case Works =>
        var m := DeriveOne(t, e, items[i], clock(i));
        RoundKeeps(t, e, items[i], clock(i), es, ts);
        DeriveSomeKeeps(m, e, items, i + 1, clock, outcomes, es, ts);
        WidensTransitive(t, m, DeriveSome(m, e, items, i + 1, clock, outcomes));
      case CountFails =>
        UncountedKeeps(t, e, items[i], clock(i), es, ts);
      case _ =>
    }
  }

  lemma NothingStale(es: set<nat>)
    ensures es + {} == es
  {
  }

  lemma UncountedKeeps(t: Tables, e: Entry, item: Extracted, now: int, es: set<nat>, ts: set<nat>)
    requires InvBut(t, es, ts) && item in ExtractEntities(e) && item.aliases != []
    ensures var u := DeriveUncounted(t, e, item, now);
            InvBut(u, es + {ResolvedId(t, ItemProposal(e, item, now))}, ts) && Widens(t, u)
  {
    hide InvBut, ExtractEntities, UpsertEntity, InsertLink, ResolvedId, Widens, NamesRise;
    var p := ItemProposal(e, item, now);
    var m := UpsertEntity(t, p);
    var l := EntityLink(ResolvedId(t, p), e.namespace, e.id, item.role);
    UpsertEntityKeeps(t, p, es, ts);
    IsSound(t, es, ts);
    UpsertEntityWidens(t, p);
    InsertLinkKeeps(m, l, e.date, es, ts);
    InsertWidens(m, l, ThreadLink(0, "", ""), e.date);
    WidensTransitive(t, m, InsertLink(m, l, e.date));
  }

  lemma DeriveSomeThreadKeeps(t: Tables, e: Entry, now: int, outcome: Outcome, es: set<nat>, ts: set<nat>)
    requires InvBut(t, es, ts)
    ensures var u := DeriveSomeThread(t, e, now, outcome);
            && InvBut(u, es, ts + StaleThreadAfter(t, e, now, outcome)) && Widens(t, u)
            && (outcome.Works? ==> u == DeriveThread(t, e, now))
  {
    hide InvBut, Widens, UpsertThread, LinkThread, InsertTopic, UpsertedThread, NamesRise;
    DeepensSame(t);
    DeepensWidens(t, t);
    NothingStale(ts);
    if e.threadId != "" {
      var p := TopicProposal(e, now);
      var m, l := UpsertThread(t, p), ThreadLink(UpsertedThread(t, p).id, e.namespace, e.id);
      UpsertThreadKeeps(t, p, es, ts);
      UpsertThreadWidens(t, p);
      ThreadUpserted(t, p);
      LinkThreadKeeps(m, p.key, l, e.date, es, ts);
      MoreStale(LinkThread(m, l, e.date), es, es, ts - {l.thread}, ts);
      LinkThreadWidens(m, l, e.date);
      InsertTopicKeeps(m, p.key, l, e.date, es, ts);
      InsertWidens(m, EntityLink(0, "", "", From), l, e.date);
      WidensTransitive(t, m, LinkThread(m, l, e.date));
      WidensTransitive(t, m, InsertTopic(m, l, e.date));
    }
  }

  // ---------------------------------------------------------------- deleting it again

  /** Apart from the links of one entry the two tables link the same, at the same dates. */
  predicate SameOthers(t: Tables, u: Tables, e: Entry) {
    && DropLinks(u, e.namespace, e.id).entityLinks == DropLinks(t, e.namespace, e.id).entityLinks
    && DropLinks(u, e.namespace, e.id).threadLinks == DropLinks(t, e.namespace, e.id).threadLinks
  }

  lemma DeriveOneOthers(t: Tables, e: Entry, item: Extracted, now: int)
    ensures var u := DeriveOne(t, e, item, now);
            SameOthers(t, u, e) && u.threads == t.threads && u.threadLinks == t.threadLinks
  {
    var p := ItemProposal(e, item, now);
    var m, l := UpsertEntity(t, p), EntityLink(ResolvedId(t, p), e.namespace, e.id, item.role);
    UpsertLeavesLinks(t, p);
    hide UpsertEntity, ResolvedId, SameButCounts;
    LinkEntityCounts(m, l, e.date);
    assert LinkEntity(m, l, e.date).threadLinks == m.threadLinks == t.threadLinks && m.threads == t.threads by {
      UpsertLeavesThreads(t, p);
    }
    hide LinkEntity;
    OneLinkMore(t, DeriveOne(t, e, item, now), l, e.date);
  }

  lemma UpsertLeavesThreads(t: Tables, p: Proposal)
    ensures UpsertEntity(t, p).threads == t.threads && UpsertEntity(t, p).threadLinks == t.threadLinks
  {
  }

  lemma OneLinkMore(t: Tables, u: Tables, l: EntityLink, date: Option<int>)
    requires u.threadLinks == t.threadLinks
    requires u.entityLinks == if l in t.entityLinks then t.entityLinks else t.entityLinks[l := date]
    ensures DropLinks(u, l.namespace, l.entry).entityLinks == DropLinks(t, l.namespace, l.entry).entityLinks
    ensures DropLinks(u, l.namespace, l.entry).threadLinks == DropLinks(t, l.namespace, l.entry).threadLinks
  {
  }

  lemma {:induction false} DeriveFromOthers(t: Tables, e: Entry, items: seq<Extracted>, i: nat, clock: nat -> int)
    requires i <= |items|
    ensures var u := DeriveFrom(t, e, items, i, clock);
            SameOthers(t, u, e) && u.threads == t.threads && u.threadLinks == t.threadLinks
    decreases |items| - i
  {
    hide DeriveOne, DropLinks;
    if i < |items| {
      DeriveOneOthers(t, e, items[i], clock(i));
      DeriveFromOthers(DeriveOne(t, e, items[i], clock(i)), e, items, i + 1, clock);
    }
  }

  /** Deriving the thread adds one link of the entry at most; a thread it creates has no other. */
  lemma DeriveThreadOthers(t: Tables, e: Entry, now: int)
    requires IdsBelow(t)
    ensures var u := DeriveThread(t, e, now);
            && SameOthers(t, u, e)
            && (forall k | k in u.threads && k !in t.threads :: forall l | l in t.threadLinks :: l.thread != u.threads[k].id)
  {
    if e.threadId != "" {
      var p := TopicProposal(e, now);
      var m, l := UpsertThread(t, p), ThreadLink(UpsertedThread(t, p).id, e.namespace, e.id);
      OneTopicMore(t, LinkThread(m, l, e.date), l, e.date);
      hide ThreadLinksOf, DropLinks;
    }
  }

  lemma OneTopicMore(t: Tables, u: Tables, l: ThreadLink, date: Option<int>)
    requires u.entityLinks == t.entityLinks
    requires u.threadLinks == if l in t.threadLinks then t.threadLinks else t.threadLinks[l := date]
    ensures DropLinks(u, l.namespace, l.entry).entityLinks == DropLinks(t, l.namespace, l.entry).entityLinks
    ensures DropLinks(u, l.namespace, l.entry).threadLinks == DropLinks(t, l.namespace, l.entry).threadLinks
  {
  }

  lemma UnlinkIs(t: Tables, namespace: string, entry: string)
    ensures var u, d := Unlink(t, namespace, entry), DropLinks(t, namespace, entry);
            && u.entityLinks == d.entityLinks && u.threadLinks == d.threadLinks
            && d.entityLinks.Keys <= t.entityLinks.Keys && d.threadLinks.Keys <= t.threadLinks.Keys
            && u.entities.Keys == t.entities.Keys && u.threads.Keys == t.threads.Keys
            && forall k | k in t.threads :: u.threads[k].id == t.threads[k].id
  {
    hide LinkTexts, ThreadLinksOf, EntitiesOf, ThreadsOf;
  }

  /**
   * Deleting an entry takes back all that upserting it counted: the links are those that deleting it from the
   * tables before the upsert leaves, and so is every count; entities and threads the upsert created count
   * nothing, but they, their alias rows and the widened windows stay.
   */
  lemma DeleteUndoesUpsert(t: Tables, e: Entry, clock: nat -> int)
    requires Inv(t)
    ensures var v, w := Unlink(Derive(t, e, clock), e.namespace, e.id), Unlink(t, e.namespace, e.id);
            && v.entityLinks == w.entityLinks && v.threadLinks == w.threadLinks
            && (forall id | id in v.entities ::
                 v.entities[id].entryCount == if id in w.entities then w.entities[id].entryCount else 0)
            && (forall k | k in v.threads ::
                 v.threads[k].entryCount == if k in w.threads then w.threads[k].entryCount else 0)
            && Widens(t, v) && v.entities.Keys == Derive(t, e, clock).entities.Keys
  {
    hide InvBut, Unlink, DropLinks, Widens, ExtractEntities, DeriveFrom, DeriveThread, AllAbsorbed, AllCovered, SameOthers;
    var ns, id, items := e.namespace, e.id, ExtractEntities(e);
    var u := Derive(t, e, clock);
    DeriveAbsorbs(t, e, clock);
    DeriveOthers(t, e, clock);
    UnlinkIs(t, ns, id);
    UnlinkIs(u, ns, id);
    UnlinkWidens(u, ns, id);
    WidensTransitive(t, u, Unlink(u, ns, id));
    UnlinkWidens(t, ns, id);
    UnlinkKeeps(t, ns, id);
    UnlinkKeeps(u, ns, id);
    var v, w := Unlink(u, ns, id), Unlink(t, ns, id);
    SameLinks(t, u, e);
    KeysStay(t, u);
    SameEntityCounts(v, w);
    forall k | k in v.threads && k !in w.threads ensures forall l | l in w.threadLinks :: l.thread != v.threads[k].id {
      assert v.threads[k].id == u.threads[k].id;
    }
    forall k | k in w.threads ensures k in v.threads && v.threads[k].id == w.threads[k].id {
      SameThread(t, u, k);
    }
    SameThreadCounts(v, w);
  }

  lemma SameLinks(t: Tables, u: Tables, e: Entry)
    requires SameOthers(t, u, e)
    ensures DropLinks(u, e.namespace, e.id).entityLinks == DropLinks(t, e.namespace, e.id).entityLinks
    ensures DropLinks(u, e.namespace, e.id).threadLinks == DropLinks(t, e.namespace, e.id).threadLinks
  {
  }

  lemma KeysStay(t: Tables, u: Tables)
    requires Widens(t, u)
    ensures t.entities.Keys <= u.entities.Keys
  {
  }

  lemma SameThread(t: Tables, u: Tables, k: ThreadKey)
    requires Widens(t, u) && k in t.threads
    ensures k in u.threads && u.threads[k].id == t.threads[k].id
  {
  }

  lemma DeriveOthers(t: Tables, e: Entry, clock: nat -> int)
    requires Inv(t)
    ensures var u := Derive(t, e, clock);
            && SameOthers(t, u, e)
            && (forall k | k in u.threads && k !in t.threads :: forall l | l in t.threadLinks :: l.thread != u.threads[k].id)
  {
    hide AliasesAgree, EntityLinksHold, EntityCountsHold, ThreadsKeyed, ThreadLinksHold, ThreadCountsHold, IdsBelow,
         ExtractEntities, DeriveFrom, DeriveThread, DropLinks, Absorbed, Covers, Deepens;
    var items := ExtractEntities(e);
    DeriveFromOthers(t, e, items, 0, clock);
    DeriveFromAbsorbs(t, e, 0, clock);
    DeriveThreadOthers(DeriveFrom(t, e, items, 0, clock), e, clock(|items|));
  }

  /** Tables with the same entity links count the same, and nothing for an entity only one of them has. */
  lemma SameEntityCounts(v: Tables, w: Tables)
    requires Inv(v) && Inv(w) && v.entityLinks == w.entityLinks && w.entities.Keys <= v.entities.Keys
    ensures forall id | id in v.entities ::
              v.entities[id].entryCount == if id in w.entities then w.entities[id].entryCount else 0
  {
    hide AliasesAgree, ThreadsKeyed, ThreadLinksHold, ThreadCountsHold, IdsBelow;
    forall id | id in v.entities && id !in w.entities ensures v.entities[id].entryCount == 0 {
      assert LinkTexts(w.entityLinks, id) == {};
    }
    hide LinkTexts;
  }

  lemma SameThreadCounts(v: Tables, w: Tables)
    requires Inv(v) && Inv(w) && v.threadLinks == w.threadLinks
    requires forall k | k in w.threads :: k in v.threads && v.threads[k].id == w.threads[k].id
    requires forall k | k in v.threads && k !in w.threads :: forall l | l in w.threadLinks :: l.thread != v.threads[k].id
    ensures forall k | k in v.threads ::
              v.threads[k].entryCount == if k in w.threads then w.threads[k].entryCount else 0
  {
    hide AliasesAgree, EntityLinksHold, EntityCountsHold, ThreadsKeyed, ThreadLinksHold, IdsBelow;
    forall k | k in v.threads && k !in w.threads ensures v.threads[k].entryCount == 0 {
      assert ThreadLinksOf(w.threadLinks, v.threads[k].id) == {};
    }
    hide ThreadLinksOf;
  }
}
