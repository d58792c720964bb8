/**
 * The memory store and layer as objects (runtime/internal/memory/store.go, layer.go): each method changes
 * the tables in place, with the loops of the source, and is proved to leave the tables that the value-level
 * specification in MemoryTables gives.
 */
module MemoryStore {
  import opened Wrappers
  import opened Strings
  import opened MemoryTables
  import opened MemoryInvariant
  import opened MemoryRuns
  import opened MemoryIdempotence
  import opened MemoryHeaders

  // ---------------------------------------------------------------- merging

  lemma SeenKeyInjective(a: Alias, b: Alias)
    requires SeenKey(a) == SeenKey(b)
    ensures a == b
  {
    var s, t := ":" + KindText(a.kind), ":" + KindText(b.kind);
    Assoc(a.value, ":", KindText(a.kind));
    Assoc(b.value, ":", KindText(b.kind));
    assert a.value + s == SeenKey(a) && b.value + t == SeenKey(b);
    assert s[|s| - 1] == SeenKey(a)[|SeenKey(a)| - 1] == t[|t| - 1];
    assert a.kind == b.kind;
    ConcatInjective(a.value, b.value, s);
  }

  /** The merge's loops over a set of seen texts compute the union of the alias lists. */
  method MergeAliases(existing: seq<Alias>, incoming: seq<Alias>) returns (merged: seq<Alias>)
    ensures merged == UnionAliases(existing, incoming) && ListedInOrder(existing, incoming, merged)
  {
    hide UnionAliases, SeenKey, ListedInOrder;
    var seen: set<string> := {};
    for i := 0 to |existing|
      invariant seen == set a | a in existing[..i] :: SeenKey(a)
    {
      assert existing[..i + 1] == existing[..i] + [existing[i]];
      seen := seen + {SeenKey(existing[i])};
    }
    assert existing[..|existing|] == existing;
    merged := existing;
    for i := 0 to |incoming|
      invariant seen == set a | a in merged :: SeenKey(a)
      invariant UnionAliases(merged, incoming[i..]) == UnionAliases(existing, incoming)
    {
      var a := incoming[i];
      SeenTells(seen, merged, a);
      UnionStep(merged, incoming[i..]);
      assert incoming[i..][1..] == incoming[i + 1..];
      if SeenKey(a) !in seen {
        merged := merged + [a];
        seen := seen + {SeenKey(a)};
      }
    }
    UnionEnds(merged, incoming[|incoming|..]);
    UnionInOrder(existing, incoming);
  }

  lemma UnionStep(merged: seq<Alias>, incoming: seq<Alias>)
    requires incoming != []
    ensures UnionAliases(merged, incoming) ==
            UnionAliases(if incoming[0] in merged then merged else merged + [incoming[0]], incoming[1..])
  {
  }

  lemma UnionEnds(merged: seq<Alias>, incoming: seq<Alias>)
    requires incoming == []
    ensures UnionAliases(merged, incoming) == merged
  {
  }

  lemma SeenTells(seen: set<string>, merged: seq<Alias>, a: Alias)
    requires seen == set b | b in merged :: SeenKey(b)
    ensures SeenKey(a) in seen <==> a in merged
  {
    hide SeenKey;
    if SeenKey(a) in seen {
      var b :| b in merged && SeenKey(b) == SeenKey(a);
      SeenKeyInjective(a, b);
    }
  }

  // ---------------------------------------------------------------- the store

  /** Which statements of one unlink fail: the reads, the two deletions, the refreshes in their order. */
  datatype UnlinkFaults = UnlinkFaults(reading: bool, dropping: bool, threads: bool, refresh: nat -> bool)

  class Store {
    var entities: map<nat, Entity>
    var aliases: map<AliasKey, nat>
    var threads: map<ThreadKey, Thread>
    var entityLinks: map<EntityLink, Option<int>>
    var threadLinks: map<ThreadLink, Option<int>>
    var nextId: nat

    function View(): Tables
      reads this
    {
      Tables(entities, aliases, threads, entityLinks, threadLinks, nextId)
    }

    constructor ()
      ensures View() == EMPTY
    {
      entities, aliases, threads := map[], map[], map[];
      entityLinks, threadLinks := map[], map[];
      nextId := 0;
    }

    /** The entity of the first of the aliases that has a row. */
    method FindByAliases(wanted: seq<Alias>, namespace: string) returns (found: Option<nat>)
      ensures found == Lookup(aliases, wanted, namespace)
    {
      for i := 0 to |wanted|
        invariant Lookup(aliases, wanted, namespace) == Lookup(aliases, wanted[i..], namespace)
      {
        var k := RowKey(wanted[i], namespace);
        assert wanted[i..][1..] == wanted[i + 1..];
        if k in aliases {
          return Some(aliases[k]);
        }
      }
      return None;
    }

    method InsertAliasRows(wanted: seq<Alias>, namespace: string, id: nat)
      modifies this`aliases
      ensures aliases == InsertAliases(old(aliases), wanted, namespace, id)
    {
      for i := 0 to |wanted|
        invariant InsertAliases(aliases, wanted[i..], namespace, id) == InsertAliases(old(aliases), wanted, namespace, id)
      {
        var k := RowKey(wanted[i], namespace);
        assert wanted[i..][1..] == wanted[i + 1..];
        if k !in aliases {
          aliases := aliases[k := id];
        }
      }
    }

    /**
     * Refuses a proposal without namespace, kind or alias, and one whose alias row names no entity;
     * otherwise stores the new or merged entity and the alias rows that are missing.
     */
    method UpsertEntity(kind: Option<EntityKind>, canonical: string, namespace: string, wanted: seq<Alias>,
                        date: Option<int>, now: int) returns (r: Result<Entity, string>)
      modifies this
      ensures r.Success? <==>
              && namespace != "" && kind.Some? && wanted != []
              && (Lookup(old(aliases), wanted, namespace).Some? ==> Lookup(old(aliases), wanted, namespace).value in old(entities))
      ensures r.Failure? ==> View() == old(View())
      ensures r.Success? ==>
                var p := Proposal(kind.value, canonical, namespace, wanted, Stamp(date, now), Stamp(date, now));
                View() == MemoryTables.UpsertEntity(old(View()), p) && r.value == UpsertedEntity(old(View()), p)
    {
      hide Lookup, InsertAliases, UnionAliases;
      if namespace == "" {
        return Failure("Namespace required");
      }
      if kind.None? {
        return Failure("Kind required");
      }
      if wanted == [] {
        return Failure("at least one Alias required");
      }
      var found := FindByAliases(wanted, namespace);
      var at := Stamp(date, now);
      var e: Entity;
      if found.None? {
        e := Entity(nextId, kind.value, canonical, namespace, wanted, at, at, 0);
        nextId := nextId + 1;
      } else {
        if found.value !in entities {
          return Failure("entity not found");
        }
        var existing := entities[found.value];
        var merged := MergeAliases(existing.aliases, wanted);
        e := existing.(aliases := merged);
        if ShouldUpgradeCanonical(existing.canonical, canonical) {
          e := e.(canonical := canonical);
        }
        if at < existing.firstSeen {
          e := e.(firstSeen := at);
        }
        if at > existing.lastSeen {
          e := e.(lastSeen := at);
        }
      }
      entities := entities[if found.None? then e.id else found.value := e];
      InsertAliasRows(e.aliases, e.namespace, if found.None? then e.id else found.value);
      return Success(e);
    }

    method UpsertThread(namespace: string, externalId: string, subject: string, date: Option<int>, now: int)
      returns (r: Result<Thread, string>)
      modifies this`threads, this`nextId
      ensures r.Success? <==> namespace != "" && externalId != ""
      ensures r.Failure? ==> View() == old(View())
      ensures r.Success? ==>
                var p := ThreadProposal(ThreadKey(namespace, externalId), subject, Stamp(date, now), Stamp(date, now));
                View() == MemoryTables.UpsertThread(old(View()), p) && r.value == UpsertedThread(old(View()), p)
    {
      if namespace == "" || externalId == "" {
        return Failure("Namespace + ExternalID required");
      }
      var at := Stamp(date, now);
      var k := ThreadKey(namespace, externalId);
      var thread: Thread;
      if k !in threads {
        thread := Thread(nextId, namespace, externalId, subject, at, at, 0);
        nextId := nextId + 1;
      } else {
        thread := threads[k];
        if subject != "" {
          thread := thread.(subject := subject);
        }
        if at < thread.firstSeen {
          thread := thread.(firstSeen := at);
        }
        if at > thread.lastSeen {
          thread := thread.(lastSeen := at);
        }
      }
      threads := threads[k := thread];
      return Success(thread);
    }

    method RefreshEntity(id: nat)
      modifies this`entities
      ensures View() == WithEntityCount(old(View()), id)
    {
      if id in entities {
        entities := entities[id := entities[id].(entryCount := |LinkTexts(entityLinks, id)|)];
      }
    }

    method RefreshThread(id: nat)
      modifies this`threads
      ensures View() == WithThreadCount(old(View()), id)
    {
      hide ThreadLinksOf;
      var count := |ThreadLinksOf(threadLinks, id)|;
      threads := map k | k in threads :: if threads[k].id == id then threads[k].(entryCount := count) else threads[k];
    }

    /** A new link needs its entity to exist: the foreign key is enforced. The refresh of the count may fail. */
    method LinkEntityEntry(l: EntityLink, date: Option<int>, counts: bool) returns (ok: bool)
      modifies this`entityLinks, this`entities
      ensures ok <==> (l in old(entityLinks) || l.entity in old(entities)) && counts
      ensures View() == if ok then LinkEntity(old(View()), l, date)
                        else if l in old(entityLinks) || l.entity in old(entities) then InsertLink(old(View()), l, date)
                        else old(View())
    {
      hide LinkTexts;
      if l !in entityLinks {
        if l.entity !in entities {
          return false;
        }
        entityLinks := entityLinks[l := date];
      }
      if !counts {
        return false;
      }
      RefreshEntity(l.entity);
      return true;
    }

    method LinkThreadEntry(l: ThreadLink, date: Option<int>, counts: bool) returns (ok: bool)
      modifies this`threadLinks, this`threads
      ensures ok <==> (l in old(threadLinks) || exists k | k in old(threads) :: old(threads)[k].id == l.thread) && counts
      ensures View() == if ok then LinkThread(old(View()), l, date)
                        else if l in old(threadLinks) || exists k | k in old(threads) :: old(threads)[k].id == l.thread
                        then InsertTopic(old(View()), l, date)
                        else old(View())
    {
      hide WithThreadCount;
      if l !in threadLinks {
        if !exists k | k in threads :: threads[k].id == l.thread {
          return false;
        }
        threadLinks := threadLinks[l := date];
      }
      if !counts {
        return false;
      }
      RefreshThread(l.thread);
      return true;
    }

    method DropEntryLinks(namespace: string, entry: string, threadsFail: bool)
      modifies this`entityLinks, this`threadLinks
      ensures View() == if threadsFail then DropEntityLinks(old(View()), namespace, entry) else DropLinks(old(View()), namespace, entry)
    {
      entityLinks := map l | l in entityLinks && !(l.namespace == namespace && l.entry == entry) :: entityLinks[l];
      if !threadsFail {
        threadLinks := map l | l in threadLinks && !(l.namespace == namespace && l.entry == entry) :: threadLinks[l];
      }
    }

    /**
     * Removes the links of one entry and refreshes, in any order, what they linked. The first failing statement
     * ends it: `entities` and `threads` are those whose counts were refreshed.
     */
    method UnlinkEntry(namespace: string, entry: string, faults: UnlinkFaults)
      returns (ok: bool, ghost entities: set<nat>, ghost threads: set<nat>)
      modifies this
      ensures faults.reading || faults.dropping ==> !ok && View() == old(View())
      ensures !faults.reading && !faults.dropping ==>
                && entities <= EntitiesOf(old(View()), namespace, entry) && threads <= ThreadsOf(old(View()), namespace, entry)
                && View() == UnlinkSome(old(View()), namespace, entry, !faults.threads, entities, threads)
      ensures ok ==> View() == Unlink(old(View()), namespace, entry)
      ensures !faults.reading && !faults.dropping && !faults.threads && (forall i: nat :: !faults.refresh(i)) ==> ok
    {
      hide EntitiesOf, ThreadsOf, DropLinks, DropEntityLinks, WithCounts;
      entities, threads := {}, {};
      if faults.reading || faults.dropping {
        return false, entities, threads;
      }
      var entityIds, threadIds := EntitiesOf(View(), namespace, entry), ThreadsOf(View(), namespace, entry);
      DropEntryLinks(namespace, entry, faults.threads);
      ghost var dropped := View();
      NoCounts(dropped);
      if faults.threads {
        return false, entities, threads;
      }
      var done, fine := RefreshEntities(entityIds, faults.refresh);
      entities := done;
      CountsTogether(dropped, entities, {});
      NoCounts(View());
      if !fine {
        return false, entities, threads;
      }
      var more, good := RefreshThreads(threadIds, faults.refresh, |entityIds|);
      threads := more;
      CountsTogether(dropped, entities, threads);
      return good, entities, threads;
    }

    method RefreshEntities(ids: set<nat>, fails: nat -> bool) returns (done: set<nat>, ok: bool)
      modifies this`entities
      ensures done <= ids && View() == WithCounts(old(View()), done, {})
      ensures ok <==> done == ids
      ensures (forall i: nat :: !fails(i)) ==> ok
    {
      hide WithCounts, WithEntityCount;
      ghost var before := View();
      var todo := ids;
      done := {};
      NoCounts(before);
      while todo != {}
        invariant todo <= ids && done == ids - todo && View() == WithCounts(before, done, {})
      {
        if fails(|done|) {
          return done, false;
        }
        var id :| id in todo;
        CountOneEntity(before, done, id);
        RefreshEntity(id);
        todo := todo - {id};
        done := done + {id};
      }
      return done, true;
    }

    method RefreshThreads(ids: set<nat>, fails: nat -> bool, first: nat) returns (done: set<nat>, ok: bool)
      modifies this`threads
      ensures done <= ids && View() == WithCounts(old(View()), {}, done)
      ensures ok <==> done == ids
      ensures (forall i: nat :: !fails(i)) ==> ok
    {
      hide WithCounts, WithThreadCount;
      ghost var before := View();
      var todo := ids;
      done := {};
      NoCounts(before);
      while todo != {}
        invariant todo <= ids && done == ids - todo && View() == WithCounts(before, {}, done)
      {
        if fails(first + |done|) {
          return done, false;
        }
        var id :| id in todo;
        CountOneThread(before, {}, done, id);
        RefreshThread(id);
        todo := todo - {id};
        done := done + {id};
      }
      return done, true;
    }
  }

  lemma CountsTogether(t: Tables, entities: set<nat>, threads: set<nat>)
    ensures WithCounts(WithCounts(t, entities, {}), {}, threads) == WithCounts(t, entities, threads)
  {
    hide LinkTexts, ThreadLinksOf;
    var u := WithCounts(WithCounts(t, entities, {}), {}, threads);
    assert u.entities == WithCounts(t, entities, threads).entities;
    assert u.threads == WithCounts(t, entities, threads).threads;
  }

  lemma NoCounts(t: Tables)
    ensures WithCounts(t, {}, {}) == t
  {
    hide LinkTexts, ThreadLinksOf;
    assert WithCounts(t, {}, {}).entities == t.entities;
    assert WithCounts(t, {}, {}).threads == t.threads;
  }

  lemma CountOneEntity(t: Tables, done: set<nat>, id: nat)
    ensures WithEntityCount(WithCounts(t, done, {}), id) == WithCounts(t, done + {id}, {})
  {
    hide LinkTexts, ThreadLinksOf;
    assert WithEntityCount(WithCounts(t, done, {}), id).entities == WithCounts(t, done + {id}, {}).entities;
  }

  lemma CountOneThread(t: Tables, entities: set<nat>, done: set<nat>, id: nat)
    ensures WithThreadCount(WithCounts(t, entities, done), id) == WithCounts(t, entities, done + {id})
  {
    hide LinkTexts, ThreadLinksOf;
    assert WithThreadCount(WithCounts(t, entities, done), id).threads == WithCounts(t, entities, done + {id}).threads;
  }

  // ---------------------------------------------------------------- the layer

  /** A write to the wrapped vector adapter: skipped without a vector, and it may fail. */
  datatype AdapterWrite = Skipped | Written | Refused

  class Layer {
    const store: Store

    constructor ()
      ensures fresh(store) && store.View() == EMPTY && Sound(store.View())
    {
      store := new Store();
      new;
      InitialHolds();
    }

    /** The loop over the extracted entities; the first failing store call ends it. */
    method DeriveEntities(e: Entry, clock: nat -> int, outcomes: nat -> Outcome) returns (ok: bool)
      requires Sound(store.View()) && e.namespace != ""
      modifies store
      ensures store.View() == DeriveSome(old(store.View()), e, ExtractEntities(e), 0, clock, outcomes)
      ensures ok <==> forall i :: 0 <= i < |ExtractEntities(e)| ==> outcomes(i).Works?
      ensures Sound(store.View())
    {
      hide Sound, ExtractEntities, DeriveOne, DeriveUncounted, DeriveSome, MemoryTables.UpsertEntity, UpsertedEntity, ResolvedId,
           LinkEntity, InsertLink, Lookup;
      var items := ExtractEntities(e);
      for i := 0 to |items|
        invariant Sound(store.View())
        invariant forall j :: 0 <= j < i ==> outcomes(j).Works?
        invariant DeriveSome(store.View(), e, items, i, clock, outcomes) == DeriveSome(old(store.View()), e, items, 0, clock, outcomes)
      {
        ghost var t, p := store.View(), ItemProposal(e, items[i], clock(i));
        RoundOutcome(t, e, items, i, clock, outcomes);
        RoundSound(t, e, items[i], clock(i));
        if outcomes(i).UpsertFails? {
          return false;
        }
        LookupStored(t, items[i].aliases, e.namespace);
        var stored := store.UpsertEntity(Some(Person), items[i].canonical, e.namespace, items[i].aliases, e.date, clock(i));
        if outcomes(i).LinkFails? {
          return false;
        }
        UpsertedId(t, p);
        var linked := store.LinkEntityEntry(EntityLink(stored.value.id, e.namespace, e.id, items[i].role), e.date,
                                            !outcomes(i).CountFails?);
        RoundIs(t, e, items[i], clock(i));
        if !linked {
          return false;
        }
      }
      NoMoreRounds(store.View(), e, items, clock, outcomes);
      return true;
    }

    method DeriveThread(e: Entry, now: int, outcome: Outcome) returns (ok: bool)
      requires Sound(store.View()) && e.namespace != ""
      modifies store
      ensures store.View() == DeriveSomeThread(old(store.View()), e, now, outcome)
      ensures ok <==> e.threadId == "" || outcome.Works?
      ensures Sound(store.View())
    {
      hide Sound, MemoryTables.UpsertThread, LinkThread, UpsertedThread, InsertTopic, ThreadIds;
      ThreadSound(store.View(), e, now, outcome);
      if e.threadId == "" {
        return true;
      }
      if outcome.UpsertFails? {
        return false;
      }
      var stored := store.UpsertThread(e.namespace, e.threadId, e.subject, e.date, now);
      ThreadUpserted(old(store.View()), TopicProposal(e, now));
      if outcome.LinkFails? {
        return false;
      }
      var linked := store.LinkThreadEntry(ThreadLink(stored.value.id, e.namespace, e.id), e.date, !outcome.CountFails?);
      return linked;
    }

    /**
     * Nothing changes unless the entry is named and the adapter takes it; then the entry is derived as far as
     * the statements of the store work, and failing calls are passed over.
     */
    method Upsert(e: Entry, adapter: AdapterWrite, clock: nat -> int, outcomes: Outcomes) returns (ok: bool)
      requires Sound(store.View())
      modifies store
      ensures ok <==> e.namespace != "" && e.id != "" && !adapter.Refused?
      ensures store.View() == if ok then DeriveWith(old(store.View()), e, clock, outcomes) else old(store.View())
      ensures ok && (forall n: nat :: outcomes.items(n).Works?) ==>
                && (forall a :: a in e.from ==> AddressLinked(store.View(), e, a, From))
                && (forall a :: a in e.to ==> AddressLinked(store.View(), e, a, To))
                && (forall a :: a in e.cc ==> AddressLinked(store.View(), e, a, Cc))
                && (forall a :: a in e.bcc ==> AddressLinked(store.View(), e, a, Bcc))
      ensures Sound(store.View())
    {
      hide Sound, DeriveSome, DeriveSomeThread, ExtractEntities, AddressLinked;
      if e.namespace == "" || e.id == "" {
        return false;
      }
      if adapter.Refused? {
        return false;
      }
      ghost var t := store.View();
      var entities := DeriveEntities(e, clock, outcomes.items);
      var thread := DeriveThread(e, clock(|ExtractEntities(e)|), outcomes.thread);
      if forall n: nat :: outcomes.items(n).Works? {
        WorkingUpsertLinks(t, e, clock, outcomes);
      }
      return true;
    }

    /** An unlink that fails is passed over too, with the entry's links dropped and counted as far as it got. */
    method Delete(namespace: string, id: string, adapter: AdapterWrite, faults: UnlinkFaults)
      returns (ok: bool, ghost entities: set<nat>, ghost threads: set<nat>)
      requires Sound(store.View())
      modifies store
      ensures ok <==> namespace != "" && id != "" && !adapter.Refused?
      ensures entities <= EntitiesOf(old(store.View()), namespace, id) && threads <= ThreadsOf(old(store.View()), namespace, id)
      ensures store.View() == if !ok || faults.reading || faults.dropping then old(store.View())
                              else UnlinkSome(old(store.View()), namespace, id, !faults.threads, entities, threads)
      ensures ok && !faults.reading && !faults.dropping && !faults.threads && (forall i: nat :: !faults.refresh(i)) ==>
                store.View() == Unlink(old(store.View()), namespace, id)
      ensures Sound(store.View())
    {
      hide Sound, WithCounts, EntitiesOf, ThreadsOf, DropLinks, DropEntityLinks, ThreadIds, EntityCountsHold, ThreadCountsHold;
      entities, threads := {}, {};
      if namespace == "" || id == "" {
        return false, entities, threads;
      }
      if adapter.Refused? {
        return false, entities, threads;
      }
      ghost var t := store.View();
      SoundBut(t);
      var unlinked, some, more := store.UnlinkEntry(namespace, id, faults);
      if !faults.reading && !faults.dropping {
        entities, threads := some, more;
        UnlinkSomeKeeps(t, namespace, id, !faults.threads, entities, threads, t.entities.Keys, ThreadIds(t));
      }
      return true, entities, threads;
    }
  }

  lemma ThreadSound(t: Tables, e: Entry, now: int, outcome: Outcome)
    requires Sound(t)
    ensures Sound(DeriveSomeThread(t, e, now, outcome))
  {
    hide Sound, DeriveSomeThread, ThreadIds, EntityCountsHold, ThreadCountsHold, StaleThreadAfter, Widens;
    SoundBut(t);
    DeriveSomeThreadKeeps(t, e, now, outcome, t.entities.Keys, ThreadIds(t));
  }

  lemma LookupStored(t: Tables, wanted: seq<Alias>, namespace: string)
    requires Sound(t)
    ensures Lookup(t.aliases, wanted, namespace).Some? ==> Lookup(t.aliases, wanted, namespace).value in t.entities
  {
    LookupFinds(t.aliases, wanted, namespace);
    hide Lookup, EntitiesNamed, ListedHaveRows, EntityLinksHold, ThreadsKeyed, ThreadLinksHold, IdsBelow;
  }

  lemma UpsertedId(t: Tables, p: Proposal)
    requires Sound(t)
    ensures UpsertedEntity(t, p).id == ResolvedId(t, p)
  {
    UpsertLists(t, p);
    hide Sound, UpsertedEntity, ResolvedId, Lookup;
  }

  lemma RoundIs(t: Tables, e: Entry, item: Extracted, now: int)
    ensures var p := ItemProposal(e, item, now);
            var m, l := UpsertEntity(t, p), EntityLink(ResolvedId(t, p), e.namespace, e.id, item.role);
            DeriveOne(t, e, item, now) == LinkEntity(m, l, e.date) && DeriveUncounted(t, e, item, now) == InsertLink(m, l, e.date)
  {
    hide LinkEntity, InsertLink, UpsertEntity, ResolvedId;
  }

  lemma RoundOutcome(t: Tables, e: Entry, items: seq<Extracted>, i: nat, clock: nat -> int, outcomes: nat -> Outcome)
    requires i < |items|
    ensures DeriveSome(t, e, items, i, clock, outcomes) ==
            match outcomes(i)
            case UpsertFails => t
            case LinkFails => UpsertEntity(t, ItemProposal(e, items[i], clock(i)))
            case CountFails => DeriveUncounted(t, e, items[i], clock(i))
            case Works => DeriveSome(DeriveOne(t, e, items[i], clock(i)), e, items, i + 1, clock, outcomes)
  {
    hide UpsertEntity, DeriveOne, DeriveUncounted, ItemProposal;
  }

  lemma NoMoreRounds(t: Tables, e: Entry, items: seq<Extracted>, clock: nat -> int, outcomes: nat -> Outcome)
    ensures DeriveSome(t, e, items, |items|, clock, outcomes) == t
  {
  }
}
