/**
 * Runs of the memory layer (runtime/internal/memory/layer.go): every interleaving of the store calls that
 * concurrent Upserts and Deletes make, with their statements failing anywhere, keeps the derived tables
 * consistent but for counts not refreshed since, resolves an e-mail address to one entity for ever, and
 * upgrades a canonical name at most twice.
 */
module MemoryRuns {
  import opened Wrappers
  import opened Strings
  import opened MemoryTables
  import opened MemoryInvariant

  /**
   * The tables, and the links some caller has upserted the entity or thread of: it holds the id, and may write
   * the link whenever it is scheduled. Several callers can hold one link, so writing it releases nothing. Stale
   * are the entities and threads whose counts a failing call left unrefreshed.
   */
  datatype State = State(tables: Tables, entityHeld: set<(EntityLink, Option<int>)>, threadHeld: set<(ThreadLink, Option<int>)>,
                         staleEntities: set<nat>, staleThreads: set<nat>)

  const INITIAL: State := State(EMPTY, {}, {}, {}, {})

  /**
   * One call into the store; each holds the store's mutex throughout. A link that is inserted but not counted,
   * and an unlink that leaves the thread links or refreshes only some counts, are calls that failed on the way.
   */
  datatype Step =
    | UpsertItem(e: Entry, item: Extracted, now: int)
    | LinkItem(link: EntityLink, date: Option<int>, counted: bool)
    | UpsertTopic(e: Entry, now: int)
    | LinkTopic(topic: ThreadLink, date: Option<int>, counted: bool)
    | UnlinkAll(namespace: string, entry: string, threadsToo: bool, entities: set<nat>, threads: set<nat>)

  /** A caller links only what it has just upserted. */
  predicate Enabled(s: State, step: Step) {
    match step
    case UpsertItem(e, item, now) => item in ExtractEntities(e)
    case LinkItem(link, date, _) => (link, date) in s.entityHeld
    case UpsertTopic(e, now) => e.threadId != ""
    case LinkTopic(topic, date, _) => (topic, date) in s.threadHeld
    case UnlinkAll(_, _, _, _, _) => true
  }

  function Apply(s: State, step: Step): State
    requires Enabled(s, step)
  {
    match step
    case UpsertItem(e, item, now) =>
      var p := ItemProposal(e, item, now);
      s.(tables := UpsertEntity(s.tables, p),
         entityHeld := s.entityHeld + {(EntityLink(ResolvedId(s.tables, p), e.namespace, e.id, item.role), e.date)})
    case LinkItem(link, date, counted) =>
      if counted then s.(tables := LinkEntity(s.tables, link, date), staleEntities := s.staleEntities - {link.entity})
      else s.(tables := InsertLink(s.tables, link, date), staleEntities := s.staleEntities + {link.entity})
    case UpsertTopic(e, now) =>
      var p := TopicProposal(e, now);
      s.(tables := UpsertThread(s.tables, p),
         threadHeld := s.threadHeld + {(ThreadLink(UpsertedThread(s.tables, p).id, e.namespace, e.id), e.date)})
    case LinkTopic(topic, date, counted) =>
      if counted then s.(tables := LinkThread(s.tables, topic, date), staleThreads := s.staleThreads - {topic.thread})
      else s.(tables := InsertTopic(s.tables, topic, date), staleThreads := s.staleThreads + {topic.thread})
    case UnlinkAll(namespace, entry, threadsToo, entities, threads) =>
      s.(tables := UnlinkSome(s.tables, namespace, entry, threadsToo, entities, threads),
         staleEntities := s.staleEntities + EntitiesOf(s.tables, namespace, entry) - entities,
         staleThreads := s.staleThreads + Loosened(s.tables, namespace, entry, threadsToo) - threads)
  }

  predicate Runs(s: State, steps: seq<Step>, t: State)
    decreases |steps|
  {
    if steps == [] then s == t
    else Enabled(s, steps[0]) && Runs(Apply(s, steps[0]), steps[1..], t)
  }

  // ---------------------------------------------------------------- the resolver's items

  lemma ExtractedHasEmail(addresses: seq<Address>, role: Role, item: Extracted)
    requires item in ExtractAll(addresses, role)
    ensures item.aliases != [] && item.aliases[0].kind.Email?
  {
    hide Trim, Lower, LocalPart;
    var i :| 0 <= i < |ExtractAll(addresses, role)| && ExtractAll(addresses, role)[i] == item;
    assert item == MakeExtraction(addresses[i], role);
  }

  /** Every proposal leads with the e-mail alias. */
  lemma ItemHasEmail(e: Entry, item: Extracted)
    requires item in ExtractEntities(e)
    ensures item.aliases != [] && item.aliases[0].kind.Email?
  {
    hide ExtractAll;
    var role := if item in ExtractAll(e.from, From) then From
                else if item in ExtractAll(e.to, To) then To
                else if item in ExtractAll(e.cc, Cc) then Cc
                else Bcc;
    ExtractedHasEmail(match role case From => e.from case To => e.to case Cc => e.cc case _ => e.bcc, role, item);
  }

  // ---------------------------------------------------------------- consistency

  /** A held link fits the entity or thread it is for. */
  predicate HeldFit(s: State) {
    && (forall x | x in s.entityHeld ::
         && x.0.entity in s.tables.entities
         && x.0.namespace == s.tables.entities[x.0.entity].namespace
         && Within(x.1, s.tables.entities[x.0.entity].firstSeen, s.tables.entities[x.0.entity].lastSeen))
    && (forall x | x in s.threadHeld ::
         exists k | k in s.tables.threads :: s.tables.threads[k].id == x.0.thread && Fits(s.tables.threads[k], k, x.0, x.1))
  }

  predicate Fits(thread: Thread, k: ThreadKey, l: ThreadLink, date: Option<int>) {
    l.namespace == k.namespace && Within(date, thread.firstSeen, thread.lastSeen)
  }

  /** Entities stay, in their namespace, and their windows only widen. */
  predicate EntitiesWiden(e: Entities, f: Entities) {
    forall id | id in e ::
      && id in f && f[id].namespace == e[id].namespace
      && f[id].firstSeen <= e[id].firstSeen && e[id].lastSeen <= f[id].lastSeen
  }

  predicate ThreadsWiden(e: Threads, f: Threads) {
    forall k | k in e ::
      && k in f && f[k].id == e[k].id
      && f[k].firstSeen <= e[k].firstSeen && e[k].lastSeen <= f[k].lastSeen
  }

  predicate Widens(t: Tables, u: Tables) {
    EntitiesWiden(t.entities, u.entities) && ThreadsWiden(t.threads, u.threads) && Extends(t.aliases, u.aliases)
  }

  /** A canonical name changes only upwards: none, then one without a space, then one with. */
  function Rank(canonical: string): nat {
    if canonical == "" then 0 else if HasSpace(canonical) then 2 else 1
  }

  predicate NamesRise(e: Entities, f: Entities) {
    forall id | id in e ::
      id in f && (f[id].canonical == e[id].canonical || Rank(e[id].canonical) < Rank(f[id].canonical))
  }

  lemma HeldKept(s: State, u: Tables)
    requires HeldFit(s) && Widens(s.tables, u)
    ensures HeldFit(s.(tables := u))
  {
    forall x | x in s.threadHeld
      ensures exists k | k in u.threads :: u.threads[k].id == x.0.thread && Fits(u.threads[k], k, x.0, x.1)
    {
      var k :| k in s.tables.threads && s.tables.threads[k].id == x.0.thread && Fits(s.tables.threads[k], k, x.0, x.1);
      assert k in u.threads && Fits(u.threads[k], k, x.0, x.1);
    }
  }

  lemma MergeRises(e: Entity, p: Proposal)
    ensures var m := MergeEntity(e, p);
            && m.namespace == e.namespace && m.firstSeen <= e.firstSeen && e.lastSeen <= m.lastSeen
            && (m.canonical == e.canonical || Rank(e.canonical) < Rank(m.canonical))
  {
    hide UnionAliases;
  }

  lemma UpsertEntityWidens(t: Tables, p: Proposal)
    requires Sound(t) && p.aliases != []
    ensures Widens(t, UpsertEntity(t, p)) && NamesRise(t.entities, UpsertEntity(t, p).entities)
  {
    hide EntitiesWiden, ThreadsWiden, NamesRise, ResolvedId, UpsertedEntity, AliasesAgree, EntityLinksHold,
         ThreadsKeyed, ThreadLinksHold, IdsBelow, InsertAliases, Lookup, Extends;
    UpsertAliases(t, p);
    UpsertLists(t, p);
    var id, e := ResolvedId(t, p), UpsertedEntity(t, p);
    if id in t.entities {
      MergeRises(t.entities[id], p);
    }
    hide MergeEntity;
    OneEntityWidens(t.entities, id, e);
    ThreadsStay(t.threads);
  }

  lemma OneEntityWidens(entities: Entities, id: nat, e: Entity)
    requires id in entities ==>
               && e.namespace == entities[id].namespace
               && e.firstSeen <= entities[id].firstSeen && entities[id].lastSeen <= e.lastSeen
               && (e.canonical == entities[id].canonical || Rank(entities[id].canonical) < Rank(e.canonical))
    ensures EntitiesWiden(entities, entities[id := e]) && NamesRise(entities, entities[id := e])
  {
    hide Rank;
  }

  lemma ThreadsStay(threads: Threads)
    ensures ThreadsWiden(threads, threads)
  {
  }

  lemma CountsWiden(e: Entities, f: Entities)
    requires e.Keys <= f.Keys && forall id | id in e :: f[id] == e[id].(entryCount := f[id].entryCount)
    ensures EntitiesWiden(e, f) && NamesRise(e, f)
  {
  }

  lemma ThreadCountsWiden(e: Threads, f: Threads)
    requires e.Keys <= f.Keys && forall k | k in e :: f[k] == e[k].(entryCount := f[k].entryCount)
    ensures ThreadsWiden(e, f)
  {
  }

  lemma LinkEntityCounts(t: Tables, l: EntityLink, date: Option<int>)
    ensures var u := LinkEntity(t, l, date);
            && SameButCounts(t.entities, u.entities) && u.aliases == t.aliases && u.threads == t.threads
            && u.entityLinks == if l in t.entityLinks then t.entityLinks else t.entityLinks[l := date]
  {
    hide LinkTexts, SameButCounts;
    var u := LinkEntity(t, l, date);
    if l.entity in t.entities {
      OneCount(t.entities, l.entity, |LinkTexts(u.entityLinks, l.entity)|);
    } else {
      SameCounts(t.entities);
    }
  }

  lemma OneCount(entities: Entities, id: nat, count: nat)
    requires id in entities
    ensures SameButCounts(entities, entities[id := entities[id].(entryCount := count)])
  {
  }

  lemma SameCounts(entities: Entities)
    ensures SameButCounts(entities, entities)
  {
  }

  lemma LinkEntityWidens(t: Tables, l: EntityLink, date: Option<int>)
    ensures Widens(t, LinkEntity(t, l, date)) && NamesRise(t.entities, LinkEntity(t, l, date).entities)
  {
    hide LinkEntity, EntitiesWiden, ThreadsWiden, NamesRise;
    LinkEntityCounts(t, l, date);
    CountsWiden(t.entities, LinkEntity(t, l, date).entities);
    ThreadsStay(t.threads);
  }

  lemma UpsertThreadWidens(t: Tables, p: ThreadProposal)
    ensures Widens(t, UpsertThread(t, p)) && NamesRise(t.entities, UpsertThread(t, p).entities)
  {
  }

  lemma LinkThreadWidens(t: Tables, l: ThreadLink, date: Option<int>)
    ensures Widens(t, LinkThread(t, l, date)) && NamesRise(t.entities, LinkThread(t, l, date).entities)
  {
    hide ThreadLinksOf, EntitiesWiden, ThreadsWiden, NamesRise;
    ThreadCountsWiden(t.threads, LinkThread(t, l, date).threads);
    CountsWiden(t.entities, t.entities);
  }

  lemma InsertWidens(t: Tables, l: EntityLink, m: ThreadLink, date: Option<int>)
    ensures Widens(t, InsertLink(t, l, date)) && NamesRise(t.entities, InsertLink(t, l, date).entities)
    ensures Widens(t, InsertTopic(t, m, date)) && NamesRise(t.entities, InsertTopic(t, m, date).entities)
  {
    hide EntitiesWiden, ThreadsWiden, NamesRise;
    CountsWiden(t.entities, t.entities);
    ThreadsStay(t.threads);
  }

  lemma UnlinkSomeWidens(t: Tables, namespace: string, entry: string, threadsToo: bool, entities: set<nat>, threads: set<nat>)
    ensures var u := UnlinkSome(t, namespace, entry, threadsToo, entities, threads); Widens(t, u) && NamesRise(t.entities, u.entities)
  {
    hide LinkTexts, ThreadLinksOf, EntitiesWiden, ThreadsWiden, NamesRise;
    var u := UnlinkSome(t, namespace, entry, threadsToo, entities, threads);
    CountsWiden(t.entities, u.entities);
    ThreadCountsWiden(t.threads, u.threads);
  }

  lemma UnlinkWidens(t: Tables, namespace: string, entry: string)
    ensures Widens(t, Unlink(t, namespace, entry)) && NamesRise(t.entities, Unlink(t, namespace, entry).entities)
  {
    hide Widens, NamesRise, WithCounts, DropLinks, EntitiesOf, ThreadsOf;
    UnlinkSomeWidens(t, namespace, entry, true, EntitiesOf(t, namespace, entry), ThreadsOf(t, namespace, entry));
  }

  ghost predicate Holds(s: State) {
    InvBut(s.tables, s.staleEntities, s.staleThreads) && HeldFit(s)
  }

  /** What one step must bring about. */
  ghost predicate Advances(s: State, t: State) {
    Holds(t) && Widens(s.tables, t.tables) && NamesRise(s.tables.entities, t.tables.entities)
  }

  lemma StepKeeps(s: State, step: Step)
    requires Holds(s) && Enabled(s, step)
    ensures Advances(s, Apply(s, step))
  {
    hide *;
    match step
    case UpsertItem(e, item, now) => UpsertItemKeeps(s, e, item, now);
    case LinkItem(link, date, counted) => LinkItemKeeps(s, link, date, counted);
    case UpsertTopic(e, now) => UpsertTopicKeeps(s, e, now);
    case LinkTopic(topic, date, counted) => LinkTopicKeeps(s, topic, date, counted);
    case UnlinkAll(_, _, _, _, _) => UnlinkAllKeeps(s, step);
  }

  lemma LinkItemKeeps(s: State, link: EntityLink, date: Option<int>, counted: bool)
    requires Holds(s) && Enabled(s, LinkItem(link, date, counted))
    ensures Advances(s, Apply(s, LinkItem(link, date, counted)))
  {
    hide InvBut, LinkEntity, InsertLink, Widens, NamesRise;
    HeldInSound(s);
    if counted {
      LinkEntityKeeps(s.tables, link, date, s.staleEntities, s.staleThreads);
      LinkEntityWidens(s.tables, link, date);
      HeldKept(s, LinkEntity(s.tables, link, date));
    } else {
      InsertLinkKeeps(s.tables, link, date, s.staleEntities, s.staleThreads);
      InsertWidens(s.tables, link, ThreadLink(0, "", ""), date);
      HeldKept(s, InsertLink(s.tables, link, date));
    }
  }

  lemma HeldInSound(s: State)
    requires Holds(s)
    ensures HeldFit(s) && InvBut(s.tables, s.staleEntities, s.staleThreads)
  {
  }

  lemma LinkTopicKeeps(s: State, topic: ThreadLink, date: Option<int>, counted: bool)
    requires Holds(s) && Enabled(s, LinkTopic(topic, date, counted))
    ensures Advances(s, Apply(s, LinkTopic(topic, date, counted)))
  {
    hide InvBut, LinkThread, InsertTopic, Widens, NamesRise;
    var k :| k in s.tables.threads && s.tables.threads[k].id == topic.thread && Fits(s.tables.threads[k], k, topic, date);
    if counted {
      LinkThreadKeeps(s.tables, k, topic, date, s.staleEntities, s.staleThreads);
      LinkThreadWidens(s.tables, topic, date);
      HeldKept(s, LinkThread(s.tables, topic, date));
    } else {
      InsertTopicKeeps(s.tables, k, topic, date, s.staleEntities, s.staleThreads);
      InsertWidens(s.tables, EntityLink(0, "", "", From), topic, date);
      HeldKept(s, InsertTopic(s.tables, topic, date));
    }
  }

  lemma UnlinkAllKeeps(s: State, step: Step)
    requires Holds(s) && Enabled(s, step) && step.UnlinkAll?
    ensures Advances(s, Apply(s, step))
  {
    hide InvBut, UnlinkSome, Widens, NamesRise, EntitiesOf, Loosened;
    UnlinkSomeKeeps(s.tables, step.namespace, step.entry, step.threadsToo, step.entities, step.threads,
                    s.staleEntities, s.staleThreads);
    UnlinkSomeWidens(s.tables, step.namespace, step.entry, step.threadsToo, step.entities, step.threads);
    HeldKept(s, UnlinkSome(s.tables, step.namespace, step.entry, step.threadsToo, step.entities, step.threads));
  }

  lemma UpsertItemKeeps(s: State, e: Entry, item: Extracted, now: int)
    requires Holds(s) && Enabled(s, UpsertItem(e, item, now))
    ensures Advances(s, Apply(s, UpsertItem(e, item, now)))
  {
    hide InvBut, UpsertEntity, NamesRise, ResolvedId, ExtractEntities, Widens, HeldFit;
    ItemHasEmail(e, item);
    var p := ItemProposal(e, item, now);
    UpsertEntityKeeps(s.tables, p, s.staleEntities, s.staleThreads);
    IsSound(s.tables, s.staleEntities, s.staleThreads);
    UpsertEntityWidens(s.tables, p);
    var u := UpsertEntity(s.tables, p);
    HeldKept(s, u);
    HoldEntity(s.(tables := u), EntityLink(ResolvedId(s.tables, p), e.namespace, e.id, item.role), e.date);
  }

  lemma IsSound(t: Tables, es: set<nat>, ts: set<nat>)
    requires InvBut(t, es, ts)
    ensures Sound(t)
  {
  }

  lemma HoldEntity(s: State, l: EntityLink, date: Option<int>)
    requires HeldFit(s) && l.entity in s.tables.entities && l.namespace == s.tables.entities[l.entity].namespace
    requires Within(date, s.tables.entities[l.entity].firstSeen, s.tables.entities[l.entity].lastSeen)
    ensures HeldFit(s.(entityHeld := s.entityHeld + {(l, date)}))
  {
  }

  lemma HoldThread(s: State, k: ThreadKey, l: ThreadLink, date: Option<int>)
    requires HeldFit(s) && k in s.tables.threads && s.tables.threads[k].id == l.thread
    requires Fits(s.tables.threads[k], k, l, date)
    ensures HeldFit(s.(threadHeld := s.threadHeld + {(l, date)}))
  {
    hide Fits;
  }

  lemma UpsertTopicKeeps(s: State, e: Entry, now: int)
    requires Holds(s)
    requires Enabled(s, UpsertTopic(e, now))
    ensures Advances(s, Apply(s, UpsertTopic(e, now)))
  {
    hide InvBut, NamesRise, Widens, HeldFit, UpsertThread, UpsertedThread;
    var p := TopicProposal(e, now);
    UpsertThreadKeeps(s.tables, p, s.staleEntities, s.staleThreads);
    UpsertThreadWidens(s.tables, p);
    var u := UpsertThread(s.tables, p);
    HeldKept(s, u);
    UpsertHasThread(s.tables, p);
    HoldThread(s.(tables := u), p.key,
                  ThreadLink(UpsertedThread(s.tables, p).id, e.namespace, e.id), e.date);
  }

  lemma UpsertHasThread(t: Tables, p: ThreadProposal)
    ensures p.key in UpsertThread(t, p).threads
  {
  }

  lemma NamesTransitive(x: Entities, y: Entities, z: Entities)
    requires NamesRise(x, y) && NamesRise(y, z)
    ensures NamesRise(x, z)
  {
    hide Rank;
  }

  /**
   * Every reachable state of every interleaving: the cached counts, the windows and the alias rows agree
   * with the links and the entities; rows are never repointed, entities keep their place, and a canonical name
   * is replaced only by one of higher rank.
   */
  lemma {:induction false} RunKeeps(s: State, steps: seq<Step>, t: State)
    requires Holds(s) && Runs(s, steps, t)
    ensures Holds(t) && Widens(s.tables, t.tables) && NamesRise(s.tables.entities, t.tables.entities)
    decreases |steps|
  {
    if steps != [] {
      hide Holds, Enabled, Apply, NamesRise, Widens;
      var u := Apply(s, steps[0]);
      StepKeeps(s, steps[0]);
      RunKeeps(u, steps[1..], t);
      WidensTransitive(s.tables, u.tables, t.tables);
      NamesTransitive(s.tables.entities, u.tables.entities, t.tables.entities);
    }
  }

  lemma WidensTransitive(t: Tables, u: Tables, v: Tables)
    requires Widens(t, u) && Widens(u, v)
    ensures Widens(t, v)
  {
  }

  lemma InitialHolds()
    ensures Holds(INITIAL)
  {
  }

  /**
   * In every reachable state the cached count of an entity is the number of entries linked to it, unless its last
   * refresh failed, and so for threads; linked dates lie in the windows, and alias rows agree with the entities.
   */
  lemma ReachableCounts(steps: seq<Step>, t: State)
    requires Runs(INITIAL, steps, t)
    ensures forall id | id in t.tables.entities && id !in t.staleEntities ::
              t.tables.entities[id].entryCount == |LinkedEntries(t.tables.entityLinks, id)|
    ensures forall k | k in t.tables.threads && t.tables.threads[k].id !in t.staleThreads ::
              t.tables.threads[k].entryCount == |ThreadLinksOf(t.tables.threadLinks, t.tables.threads[k].id)|
    ensures EntityLinksHold(t.tables.entities, t.tables.entityLinks)
    ensures ThreadLinksHold(t.tables.threads, t.tables.threadLinks)
    ensures AliasesAgree(t.tables.entities, t.tables.aliases)
  {
    InitialHolds();
    RunKeeps(INITIAL, steps, t);
    hide AliasesAgree, EntityLinksHold, ThreadLinksHold, LinkTexts, LinkedEntries, Runs, HeldFit;
    forall id | id in t.tables.entities && id !in t.staleEntities
      ensures t.tables.entities[id].entryCount == |LinkedEntries(t.tables.entityLinks, id)|
    {
      CountIsExact(t.tables, id);
    }
  }

  /** Calls that do not fail on the way. */
  predicate Whole(s: State, step: Step) {
    match step
    case LinkItem(_, _, counted) => counted
    case LinkTopic(_, _, counted) => counted
    case UnlinkAll(namespace, entry, threadsToo, entities, threads) =>
      threadsToo && EntitiesOf(s.tables, namespace, entry) <= entities && ThreadsOf(s.tables, namespace, entry) <= threads
    case _ => true
  }

  /** A whole call makes no count stale, and heals those it refreshes: a link its entity's or thread's, whatever failed before. */
  lemma WholeCallsHeal(s: State, step: Step)
    requires Enabled(s, step) && Whole(s, step)
    ensures var t := Apply(s, step);
            && t.staleEntities <= s.staleEntities && t.staleThreads <= s.staleThreads
            && (step.LinkItem? ==> step.link.entity !in t.staleEntities)
            && (step.LinkTopic? ==> step.topic.thread !in t.staleThreads)
            && (step.UnlinkAll? ==> t.staleEntities !! step.entities && t.staleThreads !! step.threads)
  {
    hide EntitiesOf, ThreadsOf, LinkEntity, LinkThread, UnlinkSome;
  }

  /** So in a run of whole calls from a state without stale counts every count is right throughout. */
  lemma {:induction false} WholeRunCounts(s: State, steps: seq<Step>, t: State)
    requires Holds(s) && s.staleEntities == {} && s.staleThreads == {} && Runs(s, steps, t) && AllWhole(s, steps)
    ensures Inv(t.tables)
    decreases |steps|
  {
    if steps != [] {
      StepKeeps(s, steps[0]);
      WholeCallsHeal(s, steps[0]);
      hide Whole, Enabled, Apply, InvBut, HeldFit;
      WholeRunCounts(Apply(s, steps[0]), steps[1..], t);
    }
  }

  predicate AllWhole(s: State, steps: seq<Step>)
    decreases |steps|
  {
    steps != [] && Enabled(s, steps[0]) ==> Whole(s, steps[0]) && AllWhole(Apply(s, steps[0]), steps[1..])
  }

  // ---------------------------------------------------------------- one entity per address

  /** After an upsert the first alias names the entity it returned. */
  lemma FirstAliasResolves(t: Tables, p: Proposal)
    requires Sound(t) && p.aliases != []
    ensures var u := UpsertEntity(t, p);
            RowKey(p.aliases[0], p.namespace) in u.aliases
            && u.aliases[RowKey(p.aliases[0], p.namespace)] == ResolvedId(t, p)
  {
    UpsertLists(t, p);
    var e := UpsertedEntity(t, p);
    InsertAliasesAdds(t.aliases, e.aliases, e.namespace, ResolvedId(t, p));
    assert p.aliases[0] in p.aliases;
    var k := RowKey(p.aliases[0], p.namespace);
    if k in t.aliases {
      assert Lookup(t.aliases, p.aliases, p.namespace) == Some(t.aliases[k]);
    }
    hide Sound, UpsertedEntity, InsertAliases;
  }

  /**
   * Once an address has been upserted in a namespace, every later upsert that leads with it returns the
   * same entity, whatever ran in between.
   */
  lemma SameAddressSameEntity(s: State, p: Proposal, steps: seq<Step>, t: State, q: Proposal)
    requires Holds(s) && p.aliases != [] && q.aliases != []
    requires p.aliases[0] == q.aliases[0] && p.namespace == q.namespace
    requires Runs(s.(tables := UpsertEntity(s.tables, p)), steps, t)
    ensures ResolvedId(t.tables, q) == ResolvedId(s.tables, p)
  {
    hide InvBut, UpsertEntity, HeldFit, Runs, ResolvedId, EntitiesWiden, ThreadsWiden, NamesRise;
    IsSound(s.tables, s.staleEntities, s.staleThreads);
    FirstAliasResolves(s.tables, p);
    UpsertEntityKeeps(s.tables, p, s.staleEntities, s.staleThreads);
    UpsertEntityWidens(s.tables, p);
    HeldKept(s, UpsertEntity(s.tables, p));
    RunKeeps(s.(tables := UpsertEntity(s.tables, p)), steps, t);
    FirstRowDecides(t.tables, q);
  }

  lemma FirstRowDecides(t: Tables, q: Proposal)
    requires q.aliases != [] && RowKey(q.aliases[0], q.namespace) in t.aliases
    ensures ResolvedId(t, q) == t.aliases[RowKey(q.aliases[0], q.namespace)]
  {
  }

  // ---------------------------------------------------------------- canonical names

  /** What an upsert makes of a name: one that is there is replaced exactly when only the new one has a space. */
  lemma UpgradesExactly(t: Tables, p: Proposal)
    requires Sound(t) && ResolvedId(t, p) in t.entities
    ensures var id := ResolvedId(t, p);
            var was, now := t.entities[id].canonical, UpsertEntity(t, p).entities[id].canonical;
            && (now == was || now == p.canonical)
            && (was == "" ==> now == p.canonical)
            && (was != "" ==> (now != was <==> ' ' !in was && ' ' in p.canonical))
  {
    UpsertLists(t, p);
    hide Sound, ResolvedId, InsertAliases, UnionAliases, Lookup;
  }

  /** A name without a space, whatever letters it has, replaces no name that is there, in any run. */
  lemma NamesNeedSpaces(s: State, steps: seq<Step>, t: State, id: nat)
    requires Holds(s) && Runs(s, steps, t) && id in s.tables.entities && s.tables.entities[id].canonical != ""
    ensures id in t.tables.entities
    ensures t.tables.entities[id].canonical == s.tables.entities[id].canonical
            || (!HasSpace(s.tables.entities[id].canonical) && HasSpace(t.tables.entities[id].canonical))
  {
    hide Runs, Holds, EntitiesWiden, ThreadsWiden;
    RunKeeps(s, steps, t);
  }

  /** How often the canonical name of an entity changes along a run. */
  function NameChanges(s: State, steps: seq<Step>, t: State, id: nat): nat
    requires Runs(s, steps, t)
    decreases |steps|
  {
    if steps == [] then 0
    else
      var u := Apply(s, steps[0]);
      (if id in s.tables.entities && id in u.tables.entities && s.tables.entities[id].canonical != u.tables.entities[id].canonical
       then 1 else 0)
      + NameChanges(u, steps[1..], t, id)
  }

  /** An entity's canonical name changes at most twice in any run. */
  lemma {:induction false} NameChangesAtMostTwice(s: State, steps: seq<Step>, t: State, id: nat)
    requires Holds(s) && Runs(s, steps, t)
    ensures NameChanges(s, steps, t, id) <= 2
    ensures id in s.tables.entities ==> NameChanges(s, steps, t, id) <= 2 - Rank(s.tables.entities[id].canonical)
    decreases |steps|
  {
    hide Holds, Enabled, Apply, Widens;
    if steps != [] {
      StepKeeps(s, steps[0]);
      NameChangesAtMostTwice(Apply(s, steps[0]), steps[1..], t, id);
    }
  }

  // ---------------------------------------------------------------- one upsert alone

  /** The store calls of one uninterrupted upsert, from item i on. */
  function UpsertSteps(t: Tables, e: Entry, i: nat, clock: nat -> int): seq<Step>
    requires i <= |ExtractEntities(e)|
    decreases |ExtractEntities(e)| - i
  {
    var items := ExtractEntities(e);
    if i < |items| then
      var id := ResolvedId(t, ItemProposal(e, items[i], clock(i)));
      [UpsertItem(e, items[i], clock(i)), LinkItem(EntityLink(id, e.namespace, e.id, items[i].role), e.date, true)]
      + UpsertSteps(DeriveOne(t, e, items[i], clock(i)), e, i + 1, clock)
    else if e.threadId == "" then []
    else
      var id := UpsertedThread(t, TopicProposal(e, clock(i))).id;
      [UpsertTopic(e, clock(i)), LinkTopic(ThreadLink(id, e.namespace, e.id), e.date, true)]
  }

  /** Two enabled steps in front of a run. */
  lemma RunsTwo(s: State, a: Step, b: Step, rest: seq<Step>, t: State)
    requires Enabled(s, a) && Enabled(Apply(s, a), b) && Runs(Apply(Apply(s, a), b), rest, t)
    ensures Runs(s, [a, b] + rest, t)
  {
    hide Apply, Enabled;
    var steps := [a, b] + rest;
    assert steps[1..] == [b] + rest && steps[1..][1..] == rest;
  }

  lemma ItemRound(s: State, e: Entry, item: Extracted, now: int)
    requires item in ExtractEntities(e)
    ensures var p := ItemProposal(e, item, now);
            var a := UpsertItem(e, item, now);
            var b := LinkItem(EntityLink(ResolvedId(s.tables, p), e.namespace, e.id, item.role), e.date, true);
            Enabled(s, a) && Enabled(Apply(s, a), b) && Apply(Apply(s, a), b).tables == DeriveOne(s.tables, e, item, now)
  {
    hide ExtractEntities, ResolvedId, UpsertEntity, LinkEntity;
  }

  lemma TopicRound(s: State, e: Entry, now: int)
    requires e.threadId != ""
    ensures var p := TopicProposal(e, now);
            var a, b := UpsertTopic(e, now), LinkTopic(ThreadLink(UpsertedThread(s.tables, p).id, e.namespace, e.id), e.date, true);
            Enabled(s, a) && Enabled(Apply(s, a), b) && Apply(Apply(s, a), b).tables == DeriveThread(s.tables, e, now)
  {
    hide UpsertedThread, UpsertThread, LinkThread;
  }

  /** From any state, what one uninterrupted upsert does is a run, so everything proved of runs holds of it. */
  lemma {:induction false} UpsertIsRun(s: State, e: Entry, i: nat, clock: nat -> int) returns (f: State)
    requires i <= |ExtractEntities(e)|
    ensures Runs(s, UpsertSteps(s.tables, e, i, clock), f)
    ensures f.tables == DeriveThread(DeriveFrom(s.tables, e, ExtractEntities(e), i, clock), e, clock(|ExtractEntities(e)|))
    decreases |ExtractEntities(e)| - i
  {
    hide ExtractEntities, ResolvedId, DeriveOne, Apply, Enabled, UpsertedThread, UpsertThread, LinkThread;
    var items, t := ExtractEntities(e), s.tables;
    if i < |items| {
      ItemRound(s, e, items[i], clock(i));
      var id := ResolvedId(t, ItemProposal(e, items[i], clock(i)));
      var a := UpsertItem(e, items[i], clock(i));
      var b := LinkItem(EntityLink(id, e.namespace, e.id, items[i].role), e.date, true);
      var m := Apply(Apply(s, a), b);
      f := UpsertIsRun(m, e, i + 1, clock);
      RunsTwo(s, a, b, UpsertSteps(m.tables, e, i + 1, clock), f);
    } else if e.threadId != "" {
      TopicRound(s, e, clock(i));
      var steps := UpsertSteps(t, e, i, clock);
      f := Apply(Apply(s, steps[0]), steps[1]);
      RunsTwo(s, steps[0], steps[1], [], f);
      assert [steps[0], steps[1]] + [] == steps;
    } else {
      f := s;
    }
  }

  /** And one delete whose statements work is a step: no link of the entry is left, every other is, and nothing goes stale. */
  lemma DeleteIsStep(s: State, namespace: string, entry: string)
    ensures var step := UnlinkAll(namespace, entry, true,
                                  set l | l in s.tables.entityLinks && l.namespace == namespace && l.entry == entry :: l.entity,
                                  set l | l in s.tables.threadLinks && l.namespace == namespace && l.entry == entry :: l.thread);
            && Enabled(s, step)
            && var t := Apply(s, step);
            && t.tables == Unlink(s.tables, namespace, entry)
            && (forall l :: l in t.tables.entityLinks <==> l in s.tables.entityLinks && !(l.namespace == namespace && l.entry == entry))
            && (forall l :: l in t.tables.threadLinks <==> l in s.tables.threadLinks && !(l.namespace == namespace && l.entry == entry))
            && t.staleEntities <= s.staleEntities && t.staleThreads <= s.staleThreads
  {
    UnlinkRefreshes(s.tables, namespace, entry);
    var entities := set l | l in s.tables.entityLinks && l.namespace == namespace && l.entry == entry :: l.entity;
    var threads := set l | l in s.tables.threadLinks && l.namespace == namespace && l.entry == entry :: l.thread;
    UnlinkSomeLeaves(s.tables, namespace, entry, true, entities, threads);
    assert EntitiesOf(s.tables, namespace, entry) == entities && ThreadsOf(s.tables, namespace, entry) == threads;
    hide UnlinkSome, Unlink;
  }
}
