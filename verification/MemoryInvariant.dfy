/**
 * What every run of Upsert and Delete keeps true of the derived tables: the cached counts and time
 * windows agree with the links, and the alias rows agree with the entities. A count whose refresh failed is
 * stale until it is refreshed again.
 */
module MemoryInvariant {
  import opened Wrappers
  import opened Strings
  import opened MemoryTables

  type Entities = map<nat, Entity>
  type Rows = map<AliasKey, nat>
  type Threads = map<ThreadKey, Thread>

  /** Each alias row names an entity of its namespace that lists the alias. */
  predicate RowsListed(entities: Entities, rows: Rows) {
    forall k | k in rows ::
      && rows[k] in entities
      && entities[rows[k]].namespace == k.namespace
      && Alias(k.value, k.kind) in entities[rows[k]].aliases
  }

  /** Each entity keeps at least one row. */
  ghost predicate EntitiesNamed(entities: Entities, rows: Rows) {
    forall id | id in entities :: entities[id].id == id && exists k | k in rows :: rows[k] == id
  }

  /** Each listed alias has a row, which may name another entity. */
  predicate ListedHaveRows(entities: Entities, rows: Rows) {
    forall id | id in entities :: forall a | a in entities[id].aliases :: RowKey(a, entities[id].namespace) in rows
  }

  ghost predicate AliasesAgree(entities: Entities, rows: Rows) {
    RowsListed(entities, rows) && EntitiesNamed(entities, rows) && ListedHaveRows(entities, rows)
  }

  predicate Within(date: Option<int>, first: int, last: int) {
    date.Some? ==> first <= date.value <= last
  }

  /** Links share their entity's namespace and their dates lie in its window. */
  predicate EntityLinksHold(entities: Entities, links: map<EntityLink, Option<int>>) {
    forall l | l in links ::
      && l.entity in entities
      && l.namespace == entities[l.entity].namespace
      && Within(links[l], entities[l.entity].firstSeen, entities[l.entity].lastSeen)
  }

  predicate EntityCountsHold(entities: Entities, links: map<EntityLink, Option<int>>, stale: set<nat>) {
    forall id | id in entities && id !in stale :: entities[id].entryCount == |LinkTexts(links, id)|
  }

  predicate ThreadsKeyed(threads: Threads) {
    && (forall k | k in threads :: k == ThreadKey(threads[k].namespace, threads[k].externalId))
    && (forall k, m | k in threads && m in threads && threads[k].id == threads[m].id :: k == m)
  }

  predicate ThreadLinksHold(threads: Threads, links: map<ThreadLink, Option<int>>) {
    forall l, k | l in links && k in threads && threads[k].id == l.thread ::
      && l.namespace == k.namespace
      && Within(links[l], threads[k].firstSeen, threads[k].lastSeen)
  }

  predicate ThreadCountsHold(threads: Threads, links: map<ThreadLink, Option<int>>, stale: set<nat>) {
    forall k | k in threads && threads[k].id !in stale :: threads[k].entryCount == |ThreadLinksOf(links, threads[k].id)|
  }

  /** The id counter is above every id in use. */
  predicate IdsBelow(t: Tables) {
    && (forall id | id in t.entities :: id < t.nextId)
    && (forall k | k in t.threads :: t.threads[k].id < t.nextId)
    && (forall l | l in t.threadLinks :: l.thread < t.nextId)
  }

  /** All but the counts. */
  ghost predicate Sound(t: Tables) {
    && AliasesAgree(t.entities, t.aliases)
    && EntityLinksHold(t.entities, t.entityLinks)
    && ThreadsKeyed(t.threads) && ThreadLinksHold(t.threads, t.threadLinks)
    && IdsBelow(t)
  }

  /** The counts are right but for those of some entities and threads. */
  ghost predicate InvBut(t: Tables, entities: set<nat>, threads: set<nat>) {
    && Sound(t)
    && EntityCountsHold(t.entities, t.entityLinks, entities) && ThreadCountsHold(t.threads, t.threadLinks, threads)
  }

  ghost predicate Inv(t: Tables) {
    InvBut(t, {}, {})
  }

  function ThreadIds(t: Tables): set<nat> {
    set k | k in t.threads :: t.threads[k].id
  }

  /** Tables that are sound are right but for all the counts. */
  lemma SoundBut(t: Tables)
    requires Sound(t)
    ensures InvBut(t, t.entities.Keys, ThreadIds(t))
  {
    hide Sound;
  }

  // ---------------------------------------------------------------- the counts are exact

  lemma ConcatInjective(a: string, b: string, suffix: string)
    requires a + suffix == b + suffix
    ensures a == b
  {
    assert |a| == |b|;
    assert a == (a + suffix)[..|a|] && b == (b + suffix)[..|b|];
  }

  lemma {:induction false} SameSize<A, B>(s: set<A>, t: set<B>, f: A -> B)
    requires forall x :: x in s ==> f(x) in t
    requires forall x, y :: x in s && y in s && f(x) == f(y) ==> x == y
    requires forall y :: y in t ==> exists x :: x in s && f(x) == y
    ensures |s| == |t|
    decreases |s|
  {
    if s == {} {
      assert t == {};
    } else {
      var x :| x in s;
      SameSize(s - {x}, t - {f(x)}, f);
    }
  }

  /**
   * The count is taken over concatenated texts; it is the number of distinct (namespace, entry) pairs
   * because all of an entity's links share its namespace.
   */
  lemma CountIsExact(t: Tables, id: nat)
    requires EntityLinksHold(t.entities, t.entityLinks) && id in t.entities
    ensures |LinkTexts(t.entityLinks, id)| == |LinkedEntries(t.entityLinks, id)|
  {
    var ns := t.entities[id].namespace;
    var f := (p: (string, string)) => p.1 + ":" + p.0;
    var s, u := LinkedEntries(t.entityLinks, id), LinkTexts(t.entityLinks, id);
    forall x, y | x in s && y in s && f(x) == f(y) ensures x == y {
      assert x.0 == ns && y.0 == ns;
      Assoc(x.1, ":", ns);
      Assoc(y.1, ":", ns);
      ConcatInjective(x.1, y.1, ":" + ns);
    }
    forall x | x in s ensures f(x) in u {
      var l :| l in t.entityLinks && l.entity == id && (l.namespace, l.entry) == x;
      assert LinkText(l) == f(x);
    }
    forall y | y in u ensures exists x :: x in s && f(x) == y {
      var l :| l in t.entityLinks && l.entity == id && LinkText(l) == y;
      assert (l.namespace, l.entry) in s && f((l.namespace, l.entry)) == y;
    }
    SameSize(s, u, f);
  }

  /** Without one shared namespace the texts of different pairs can coincide. */
  lemma CountNeedsOneNamespace()
    ensures LinkText(EntityLink(0, "b", "x:a", From)) == LinkText(EntityLink(0, "a:b", "x", From))
  {
    assert "x:a" + ":" + "b" == "x:a:b" == "x" + ":" + "a:b";
  }

  // ---------------------------------------------------------------- alias rows

  /** Rows are only ever added. */
  predicate Extends<K(==), V(==)>(m: map<K, V>, n: map<K, V>) {
    forall k | k in m :: k in n && n[k] == m[k]
  }

  lemma {:induction false} InsertAliasesAdds(rows: map<AliasKey, nat>, wanted: seq<Alias>, namespace: string, id: nat)
    ensures var r := InsertAliases(rows, wanted, namespace, id);
            && Extends(rows, r)
            && (forall a :: a in wanted ==> RowKey(a, namespace) in r)
            && (forall k :: k in r && k !in rows ==>
                 r[k] == id && k.namespace == namespace && Alias(k.value, k.kind) in wanted)
    decreases |wanted|
  {
    if wanted != [] {
      var k := RowKey(wanted[0], namespace);
      InsertAliasesAdds(if k in rows then rows else rows[k := id], wanted[1..], namespace, id);
      assert wanted == [wanted[0]] + wanted[1..];
    }
  }

  lemma {:induction false} LookupFinds(rows: map<AliasKey, nat>, wanted: seq<Alias>, namespace: string)
    ensures match Lookup(rows, wanted, namespace)
            case Some(id) => exists a :: a in wanted && RowKey(a, namespace) in rows && rows[RowKey(a, namespace)] == id
            case None => forall a :: a in wanted ==> RowKey(a, namespace) !in rows
  {
    if wanted != [] {
      if RowKey(wanted[0], namespace) in rows {
        assert wanted[0] in wanted;
      } else {
        LookupFinds(rows, wanted[1..], namespace);
        assert wanted == [wanted[0]] + wanted[1..];
      }
    }
  }

  /** It is the row of the first alias that has one. */
  lemma {:induction false} LookupIsFirst(rows: map<AliasKey, nat>, wanted: seq<Alias>, namespace: string, i: nat)
    requires i < |wanted| && AliasKey(wanted[i].value, wanted[i].kind, namespace) in rows
    requires forall j :: 0 <= j < i ==> AliasKey(wanted[j].value, wanted[j].kind, namespace) !in rows
    ensures Lookup(rows, wanted, namespace) == Some(rows[AliasKey(wanted[i].value, wanted[i].kind, namespace)])
  {
    if i > 0 {
      LookupIsFirst(rows, wanted[1..], namespace, i - 1);
    }
  }

  lemma {:induction false} UnionKeeps(existing: seq<Alias>, incoming: seq<Alias>)
    ensures forall a :: a in UnionAliases(existing, incoming) <==> a in existing || a in incoming
    decreases |incoming|
  {
    if incoming != [] {
      UnionKeeps(if incoming[0] in existing then existing else existing + [incoming[0]], incoming[1..]);
      assert incoming == [incoming[0]] + incoming[1..];
    }
  }

  /**
   * The existing aliases stay in front; after them each incoming alias that is not listed yet, once, in the order
   * of its first occurrence.
   */
  ghost predicate ListedInOrder(existing: seq<Alias>, incoming: seq<Alias>, merged: seq<Alias>) {
    && existing <= merged
    && (forall a :: a in incoming ==> a in merged)
    && forall k :: |existing| <= k < |merged| ==> FirstListed(incoming, merged, k)
  }

  /** The k-th alias is listed for the first time, and so are all that come in before it. */
  ghost predicate FirstListed(incoming: seq<Alias>, merged: seq<Alias>, k: nat)
    requires k < |merged|
  {
    && merged[k] !in merged[..k]
    && exists n :: 0 <= n < |incoming| && incoming[n] == merged[k] && AllListed(incoming[..n], merged[..k])
  }

  predicate AllListed(some: seq<Alias>, listed: seq<Alias>) {
    forall a :: a in some ==> a in listed
  }

  lemma UnionInOrder(existing: seq<Alias>, incoming: seq<Alias>)
    ensures ListedInOrder(existing, incoming, UnionAliases(existing, incoming))
  {
    assert [] + incoming == incoming;
    UnionContinues(existing, [], incoming, existing);
  }

  lemma {:induction false} UnionContinues(existing: seq<Alias>, before: seq<Alias>, incoming: seq<Alias>, merged: seq<Alias>)
    requires ListedInOrder(existing, before, merged)
    ensures ListedInOrder(existing, before + incoming, UnionAliases(merged, incoming))
    decreases |incoming|
  {
    hide ListedInOrder;
    if incoming == [] {
      assert before + incoming == before;
    } else {
      assert before + incoming == (before + [incoming[0]]) + incoming[1..];
      OneMoreListed(existing, before, incoming[0], merged);
      UnionContinues(existing, before + [incoming[0]], incoming[1..],
                     if incoming[0] in merged then merged else merged + [incoming[0]]);
    }
  }

  lemma OneMoreListed(existing: seq<Alias>, before: seq<Alias>, a: Alias, merged: seq<Alias>)
    requires ListedInOrder(existing, before, merged)
    ensures ListedInOrder(existing, before + [a], if a in merged then merged else merged + [a])
  {
    hide FirstListed;
    var after := if a in merged then merged else merged + [a];
    assert existing <= after by {
      assert merged <= after;
      assert after[..|existing|] == merged[..|existing|] == existing;
    }
    forall k | |existing| <= k < |after| ensures FirstListed(before + [a], after, k) {
      if k < |merged| {
        ListedStays(before, a, merged, after, k);
      } else {
        ListedLast(before, a, merged);
      }
    }
  }

  lemma ListedStays(before: seq<Alias>, a: Alias, merged: seq<Alias>, after: seq<Alias>, k: nat)
    requires k < |merged| && FirstListed(before, merged, k) && merged <= after
    ensures FirstListed(before + [a], after, k)
  {
    var n :| 0 <= n < |before| && before[n] == merged[k] && AllListed(before[..n], merged[..k]);
    assert (before + [a])[..n] == before[..n] && after[..k] == merged[..k] && (before + [a])[n] == before[n];
  }

  lemma ListedLast(before: seq<Alias>, a: Alias, merged: seq<Alias>)
    requires a !in merged && AllListed(before, merged)
    ensures FirstListed(before + [a], merged + [a], |merged|)
  {
    assert (before + [a])[..|before|] == before && (merged + [a])[..|merged|] == merged;
    assert (before + [a])[|before|] == a == (merged + [a])[|merged|];
  }

  // ---------------------------------------------------------------- refreshing counts

  predicate SameButCounts(e: Entities, f: Entities) {
    e.Keys == f.Keys && forall id | id in e :: f[id] == e[id].(entryCount := f[id].entryCount)
  }

  lemma CountsKeepAliases(e: Entities, f: Entities, rows: Rows)
    requires SameButCounts(e, f) && AliasesAgree(e, rows)
    ensures AliasesAgree(f, rows)
  {
    forall id | id in f ensures f[id].id == id && exists k | k in rows :: rows[k] == id {
      var k :| k in rows && rows[k] == id;
    }
    assert RowsListed(f, rows);
  }

  lemma CountsKeepLinks(e: Entities, f: Entities, links: map<EntityLink, Option<int>>)
    requires SameButCounts(e, f) && EntityLinksHold(e, links)
    ensures EntityLinksHold(f, links)
  {
    forall l | l in links
      ensures l.entity in f && l.namespace == f[l.entity].namespace && Within(links[l], f[l.entity].firstSeen, f[l.entity].lastSeen)
    {
      assert f[l.entity] == e[l.entity].(entryCount := f[l.entity].entryCount);
    }
  }

  /** Refreshing the counts of some entities after a change of the links of those and of others that go stale. */
  lemma RefreshEntities(e: Entities, f: Entities, links: map<EntityLink, Option<int>>, links': map<EntityLink, Option<int>>,
                        ids: set<nat>, touched: set<nat>, stale: set<nat>)
    requires EntityCountsHold(e, links, stale) && f.Keys == e.Keys
    requires forall id | id in e && id in ids :: f[id] == e[id].(entryCount := |LinkTexts(links', id)|)
    requires forall id | id in e && id !in ids :: f[id] == e[id]
    requires forall id | id in e && id !in touched :: LinkTexts(links', id) == LinkTexts(links, id)
    ensures EntityCountsHold(f, links', stale + touched - ids) && SameButCounts(e, f)
  {
    hide LinkTexts;
    forall id | id in f ensures f[id] == e[id].(entryCount := f[id].entryCount) {
      if id in ids {
      }
    }
  }

  lemma RefreshThreads(e: Threads, f: Threads, links: map<ThreadLink, Option<int>>, links': map<ThreadLink, Option<int>>,
                       ids: set<nat>, touched: set<nat>, stale: set<nat>)
    requires ThreadCountsHold(e, links, stale) && ThreadsKeyed(e) && ThreadLinksHold(e, links') && f.Keys == e.Keys
    requires forall k | k in e && e[k].id in ids :: f[k] == e[k].(entryCount := |ThreadLinksOf(links', e[k].id)|)
    requires forall k | k in e && e[k].id !in ids :: f[k] == e[k]
    requires forall k | k in e && e[k].id !in touched :: ThreadLinksOf(links', e[k].id) == ThreadLinksOf(links, e[k].id)
    ensures ThreadCountsHold(f, links', stale + touched - ids) && ThreadsKeyed(f) && ThreadLinksHold(f, links')
    ensures forall k | k in f :: f[k].id == e[k].id
  {
    hide ThreadLinksOf;
    forall k | k in f ensures f[k] == e[k].(entryCount := f[k].entryCount) {
      if e[k].id in ids {
      }
    }
  }

  // ---------------------------------------------------------------- upserting an entity

  /** Writing entity row id and adding alias rows that name it. */
  lemma WriteEntity(entities: Entities, rows: Rows, id: nat, e: Entity, rows': Rows)
    requires AliasesAgree(entities, rows)
    requires e.id == id && Extends(rows, rows')
    requires forall k :: k in rows' && k !in rows ==>
               rows'[k] == id && k.namespace == e.namespace && Alias(k.value, k.kind) in e.aliases
    requires forall a :: a in e.aliases ==> RowKey(a, e.namespace) in rows'
    requires id in entities ==>
               e.namespace == entities[id].namespace && forall a :: a in entities[id].aliases ==> a in e.aliases
    requires id !in entities ==> exists k | k in rows' :: rows'[k] == id
    ensures AliasesAgree(entities[id := e], rows')
  {
    WriteNamed(entities, rows, id, e, rows');
    WriteListed(entities, rows, id, e, rows');
    WriteRows(entities, rows, id, e, rows');
    hide RowsListed, EntitiesNamed, ListedHaveRows;
  }

  lemma WriteNamed(entities: Entities, rows: Rows, id: nat, e: Entity, rows': Rows)
    requires EntitiesNamed(entities, rows) && Extends(rows, rows') && e.id == id
    requires id !in entities ==> exists k | k in rows' :: rows'[k] == id
    ensures EntitiesNamed(entities[id := e], rows')
  {
    var f := entities[id := e];
    forall m | m in f ensures f[m].id == m && exists k | k in rows' :: rows'[k] == m {
      if m in entities {
        var k :| k in rows && rows[k] == m;
        assert k in rows' && rows'[k] == m;
      }
    }
  }

  lemma WriteListed(entities: Entities, rows: Rows, id: nat, e: Entity, rows': Rows)
    requires ListedHaveRows(entities, rows) && Extends(rows, rows')
    requires forall a :: a in e.aliases ==> RowKey(a, e.namespace) in rows'
    ensures ListedHaveRows(entities[id := e], rows')
  {
    var f := entities[id := e];
    forall m, a | m in f && a in f[m].aliases ensures RowKey(a, f[m].namespace) in rows' {
      if m != id {
        assert RowKey(a, entities[m].namespace) in rows;
      }
    }
  }

  lemma WriteRows(entities: Entities, rows: Rows, id: nat, e: Entity, rows': Rows)
    requires RowsListed(entities, rows) && Extends(rows, rows')
    requires forall k :: k in rows' && k !in rows ==>
               rows'[k] == id && k.namespace == e.namespace && Alias(k.value, k.kind) in e.aliases
    requires id in entities ==>
               e.namespace == entities[id].namespace && forall a :: a in entities[id].aliases ==> a in e.aliases
    ensures RowsListed(entities[id := e], rows')
  {
    var f := entities[id := e];
    forall k | k in rows'
      ensures rows'[k] in f && f[rows'[k]].namespace == k.namespace && Alias(k.value, k.kind) in f[rows'[k]].aliases
    {
      if k in rows {
        assert rows'[k] == rows[k];
      }
    }
  }

  lemma UpsertAliases(t: Tables, p: Proposal)
    requires Sound(t) && p.aliases != []
    ensures var u := UpsertEntity(t, p);
            && AliasesAgree(u.entities, u.aliases)
            && Extends(t.aliases, u.aliases)
            && u.entities[ResolvedId(t, p)].namespace == p.namespace
            && IdsBelow(u)
  {
    hide ThreadsKeyed, ThreadLinksHold, EntityLinksHold;
    UpsertLists(t, p);
    hide AliasesAgree, Lookup, InsertAliases, UpsertedEntity;
    var id := ResolvedId(t, p);
    var e := UpsertedEntity(t, p);
    var rows' := InsertAliases(t.aliases, e.aliases, e.namespace, id);
    InsertAliasesAdds(t.aliases, e.aliases, e.namespace, id);
    if id !in t.entities {
      var k := RowKey(p.aliases[0], p.namespace);
      assert p.aliases[0] in p.aliases && k in rows' && k !in t.aliases;
      assert rows'[k] == id;
    }
    WriteEntity(t.entities, t.aliases, id, e, rows');
    hide ResolvedId, Extends;
    UpsertIds(t, p);
  }

  lemma UpsertIds(t: Tables, p: Proposal)
    requires IdsBelow(t) && AliasesAgree(t.entities, t.aliases)
    ensures IdsBelow(UpsertEntity(t, p))
  {
    UpsertLists(t, p);
    hide AliasesAgree, InsertAliases, UpsertedEntity, Lookup;
  }

  /** What the upserted entity row lists, and where it came from. */
  lemma UpsertLists(t: Tables, p: Proposal)
    requires AliasesAgree(t.entities, t.aliases) && IdsBelow(t)
    ensures var id, e := ResolvedId(t, p), UpsertedEntity(t, p);
            && e.id == id && e.namespace == p.namespace
            && (forall a :: a in p.aliases ==> a in e.aliases)
            && (id in t.entities ==> forall a :: a in t.entities[id].aliases ==> a in e.aliases)
            && (id in t.entities <==> Lookup(t.aliases, p.aliases, p.namespace).Some?)
            && (id !in t.entities ==> e == NewEntity(id, p) && forall a :: a in p.aliases ==> RowKey(a, p.namespace) !in t.aliases)
            && (id in t.entities ==> e == MergeEntity(t.entities[id], p))
            && id <= t.nextId
  {
    var id := ResolvedId(t, p);
    LookupFinds(t.aliases, p.aliases, p.namespace);
    if Lookup(t.aliases, p.aliases, p.namespace).Some? {
      UnionKeeps(t.entities[id].aliases, p.aliases);
    }
    hide Lookup, UnionAliases, InsertAliases;
  }

  lemma UpsertLinks(t: Tables, p: Proposal)
    requires Sound(t) && p.aliases != []
    ensures var u := UpsertEntity(t, p);
            && EntityLinksHold(u.entities, u.entityLinks)
            && u.entities[ResolvedId(t, p)].firstSeen <= p.firstSeen
            && p.lastSeen <= u.entities[ResolvedId(t, p)].lastSeen
  {
    hide Lookup, UnionAliases, InsertAliases, UpsertedEntity, AliasesAgree, ThreadsKeyed, ThreadLinksHold;
    UpsertLists(t, p);
    hide ResolvedId, IdsBelow;
  }

  lemma UpsertCounts(t: Tables, p: Proposal, stale: set<nat>)
    requires Sound(t) && p.aliases != [] && EntityCountsHold(t.entities, t.entityLinks, stale)
    ensures var u := UpsertEntity(t, p); EntityCountsHold(u.entities, u.entityLinks, stale)
  {
    hide Lookup, UnionAliases, InsertAliases, UpsertedEntity, AliasesAgree, ThreadsKeyed, ThreadLinksHold;
    var id := ResolvedId(t, p);
    UpsertLists(t, p);
    if id !in t.entities {
      assert LinkTexts(t.entityLinks, id) == {};
    }
    hide LinkTexts, ResolvedId, IdsBelow;
  }

  /** An upsert of a proposal with at least one alias keeps the invariant and covers the proposal's window. */
  lemma UpsertEntityKeeps(t: Tables, p: Proposal, es: set<nat>, ts: set<nat>)
    requires InvBut(t, es, ts) && p.aliases != []
    ensures var u := UpsertEntity(t, p);
            && InvBut(u, es, ts)
            && Extends(t.aliases, u.aliases)
            && ResolvedId(t, p) in u.entities
            && u.entities[ResolvedId(t, p)].namespace == p.namespace
            && u.entities[ResolvedId(t, p)].firstSeen <= p.firstSeen
            && p.lastSeen <= u.entities[ResolvedId(t, p)].lastSeen
  {
    UpsertAliases(t, p);
    UpsertLinks(t, p);
    UpsertCounts(t, p, es);
    hide AliasesAgree, EntityLinksHold, EntityCountsHold, ThreadsKeyed, ThreadLinksHold, ThreadCountsHold, IdsBelow,
         Lookup, InsertAliases, UpsertedEntity;
  }

  // ---------------------------------------------------------------- linking

  /** A link that fits leaves the count it changes stale until it is refreshed. */
  lemma InsertLinkKeeps(t: Tables, l: EntityLink, date: Option<int>, es: set<nat>, ts: set<nat>)
    requires InvBut(t, es, ts)
    requires l.entity in t.entities && l.namespace == t.entities[l.entity].namespace
    requires Within(date, t.entities[l.entity].firstSeen, t.entities[l.entity].lastSeen)
    ensures InvBut(InsertLink(t, l, date), es + {l.entity}, ts)
  {
    hide ThreadsKeyed, ThreadLinksHold, ThreadCountsHold, LinkTexts, AliasesAgree, EntityLinksHold, EntityCountsHold;
    var links := InsertLink(t, l, date).entityLinks;
    OtherTexts(t.entityLinks, l, date);
    MoreLinks(t.entities, t.entityLinks, l, date);
    RefreshEntities(t.entities, t.entities, t.entityLinks, links, {}, {l.entity}, es);
    assert es + {l.entity} - {} == es + {l.entity};
  }

  lemma CountEntityKeeps(t: Tables, id: nat, es: set<nat>, ts: set<nat>)
    requires InvBut(t, es, ts)
    ensures InvBut(WithEntityCount(t, id), es - {id}, ts)
  {
    hide ThreadsKeyed, ThreadLinksHold, ThreadCountsHold, LinkTexts, AliasesAgree, EntityLinksHold, EntityCountsHold;
    var u := WithEntityCount(t, id);
    if id in t.entities {
      RefreshEntities(t.entities, u.entities, t.entityLinks, t.entityLinks, {id}, {}, es);
      assert es + {} - {id} == es - {id};
      CountsKeepAliases(t.entities, u.entities, t.aliases);
      CountsKeepLinks(t.entities, u.entities, t.entityLinks);
    } else {
      FewerStale(t, es, id);
    }
  }

  lemma FewerStale(t: Tables, es: set<nat>, id: nat)
    requires EntityCountsHold(t.entities, t.entityLinks, es) && id !in t.entities
    ensures EntityCountsHold(t.entities, t.entityLinks, es - {id})
  {
  }

  lemma LinkEntityKeeps(t: Tables, l: EntityLink, date: Option<int>, es: set<nat>, ts: set<nat>)
    requires InvBut(t, es, ts)
    requires l.entity in t.entities && l.namespace == t.entities[l.entity].namespace
    requires Within(date, t.entities[l.entity].firstSeen, t.entities[l.entity].lastSeen)
    ensures InvBut(LinkEntity(t, l, date), es - {l.entity}, ts)
  {
    hide InvBut, InsertLink, WithEntityCount;
    InsertLinkKeeps(t, l, date, es, ts);
    CountEntityKeeps(InsertLink(t, l, date), l.entity, es + {l.entity}, ts);
    assert es + {l.entity} - {l.entity} == es - {l.entity};
  }

  lemma MoreLinks(entities: Entities, links: map<EntityLink, Option<int>>, l: EntityLink, date: Option<int>)
    requires EntityLinksHold(entities, links)
    requires l.entity in entities && l.namespace == entities[l.entity].namespace
    requires Within(date, entities[l.entity].firstSeen, entities[l.entity].lastSeen)
    ensures EntityLinksHold(entities, links[l := date])
  {
  }

  lemma OtherTexts(links: map<EntityLink, Option<int>>, l: EntityLink, date: Option<int>)
    ensures forall id :: id != l.entity ==> LinkTexts(links[l := date], id) == LinkTexts(links, id)
  {
    forall id | id != l.entity ensures LinkTexts(links[l := date], id) == LinkTexts(links, id) {
    }
  }

  lemma UpsertThreadKeeps(t: Tables, p: ThreadProposal, es: set<nat>, ts: set<nat>)
    requires InvBut(t, es, ts)
    ensures var u := UpsertThread(t, p);
            && InvBut(u, es, ts)
            && u.threads[p.key].firstSeen <= p.firstSeen && p.lastSeen <= u.threads[p.key].lastSeen
            && u.threads[p.key].id == UpsertedThread(t, p).id
  {
    hide AliasesAgree, EntityLinksHold, EntityCountsHold, ThreadLinksHold, ThreadCountsHold;
    UpsertThreadLinks(t, p);
    UpsertThreadCounts(t, p, ts);
  }

  lemma UpsertThreadLinks(t: Tables, p: ThreadProposal)
    requires ThreadsKeyed(t.threads) && ThreadLinksHold(t.threads, t.threadLinks) && IdsBelow(t)
    ensures ThreadLinksHold(UpsertThread(t, p).threads, t.threadLinks)
  {
    var u := UpsertThread(t, p);
    forall l, k | l in t.threadLinks && k in u.threads && u.threads[k].id == l.thread
      ensures l.namespace == k.namespace && Within(t.threadLinks[l], u.threads[k].firstSeen, u.threads[k].lastSeen)
    {
      assert k in t.threads;
    }
  }

  lemma UpsertThreadCounts(t: Tables, p: ThreadProposal, stale: set<nat>)
    requires ThreadCountsHold(t.threads, t.threadLinks, stale) && IdsBelow(t)
    ensures ThreadCountsHold(UpsertThread(t, p).threads, t.threadLinks, stale)
  {
    if p.key !in t.threads {
      assert ThreadLinksOf(t.threadLinks, t.nextId) == {};
    }
    hide ThreadLinksOf;
  }

  lemma InsertTopicKeeps(t: Tables, key: ThreadKey, l: ThreadLink, date: Option<int>, es: set<nat>, ts: set<nat>)
    requires InvBut(t, es, ts)
    requires key in t.threads && t.threads[key].id == l.thread && l.namespace == key.namespace
    requires Within(date, t.threads[key].firstSeen, t.threads[key].lastSeen)
    ensures InvBut(InsertTopic(t, l, date), es, ts + {l.thread})
  {
    hide AliasesAgree, EntityLinksHold, EntityCountsHold, ThreadLinksOf;
    var links := InsertTopic(t, l, date).threadLinks;
    OtherThreadLinks(t.threadLinks, l, date);
    assert ThreadLinksHold(t.threads, links);
    hide ThreadLinksHold, ThreadCountsHold, ThreadsKeyed;
    RefreshThreads(t.threads, t.threads, t.threadLinks, links, {}, {l.thread}, ts);
    assert ts + {l.thread} - {} == ts + {l.thread};
  }

  lemma CountThreadKeeps(t: Tables, id: nat, es: set<nat>, ts: set<nat>)
    requires InvBut(t, es, ts)
    ensures InvBut(WithThreadCount(t, id), es, ts - {id})
  {
    hide AliasesAgree, EntityLinksHold, EntityCountsHold, ThreadLinksOf, ThreadLinksHold, ThreadCountsHold, ThreadsKeyed;
    var u := WithThreadCount(t, id);
    RefreshThreads(t.threads, u.threads, t.threadLinks, t.threadLinks, {id}, {}, ts);
    assert ts + {} - {id} == ts - {id};
  }

  lemma LinkThreadKeeps(t: Tables, key: ThreadKey, l: ThreadLink, date: Option<int>, es: set<nat>, ts: set<nat>)
    requires InvBut(t, es, ts)
    requires key in t.threads && t.threads[key].id == l.thread && l.namespace == key.namespace
    requires Within(date, t.threads[key].firstSeen, t.threads[key].lastSeen)
    ensures InvBut(LinkThread(t, l, date), es, ts - {l.thread})
  {
    hide InvBut, InsertTopic, WithThreadCount;
    InsertTopicKeeps(t, key, l, date, es, ts);
    CountThreadKeeps(InsertTopic(t, l, date), l.thread, es, ts + {l.thread});
    assert ts + {l.thread} - {l.thread} == ts - {l.thread};
  }

  lemma OtherThreadLinks(links: map<ThreadLink, Option<int>>, l: ThreadLink, date: Option<int>)
    ensures forall id :: id != l.thread ==> ThreadLinksOf(links[l := date], id) == ThreadLinksOf(links, id)
  {
    forall id | id != l.thread ensures ThreadLinksOf(links[l := date], id) == ThreadLinksOf(links, id) {
    }
  }

  // ---------------------------------------------------------------- unlinking

  /** The threads whose counts an unlink as far as it works makes stale. */
  function Loosened(t: Tables, namespace: string, entry: string, threadsToo: bool): set<nat> {
    if threadsToo then ThreadsOf(t, namespace, entry) else {}
  }

  /** However far an unlink gets, only counts of what it unlinked and did not refresh go stale. */
  lemma UnlinkSomeKeeps(t: Tables, namespace: string, entry: string, threadsToo: bool, entities: set<nat>, threads: set<nat>,
                        es: set<nat>, ts: set<nat>)
    requires InvBut(t, es, ts)
    ensures InvBut(UnlinkSome(t, namespace, entry, threadsToo, entities, threads),
                   es + EntitiesOf(t, namespace, entry) - entities, ts + Loosened(t, namespace, entry, threadsToo) - threads)
  {
    hide LinkTexts, ThreadLinksOf, EntitiesOf, ThreadsOf, AliasesAgree, EntityLinksHold, EntityCountsHold,
         ThreadLinksHold, ThreadCountsHold, ThreadsKeyed, DropLinks, DropEntityLinks;
    var d := if threadsToo then DropLinks(t, namespace, entry) else DropEntityLinks(t, namespace, entry);
    var u := UnlinkSome(t, namespace, entry, threadsToo, entities, threads);
    DroppedIs(t, namespace, entry, threadsToo);
    FewerLinks(t, namespace, entry, threadsToo);
    forall id | id !in EntitiesOf(t, namespace, entry)
      ensures LinkTexts(d.entityLinks, id) == LinkTexts(t.entityLinks, id)
    {
      UnlinkedEntity(t, namespace, entry, threadsToo, id);
    }
    forall id | id !in Loosened(t, namespace, entry, threadsToo)
      ensures ThreadLinksOf(d.threadLinks, id) == ThreadLinksOf(t.threadLinks, id)
    {
      UnlinkedThread(t, namespace, entry, threadsToo, id);
    }
    RefreshEntities(t.entities, u.entities, t.entityLinks, d.entityLinks, entities, EntitiesOf(t, namespace, entry), es);
    RefreshThreads(t.threads, u.threads, t.threadLinks, d.threadLinks, threads, Loosened(t, namespace, entry, threadsToo), ts);
    CountsKeepAliases(t.entities, u.entities, t.aliases);
    CountsKeepLinks(t.entities, u.entities, d.entityLinks);
  }

  lemma DroppedIs(t: Tables, namespace: string, entry: string, threadsToo: bool)
    ensures var d := if threadsToo then DropLinks(t, namespace, entry) else DropEntityLinks(t, namespace, entry);
            && d.entities == t.entities && d.aliases == t.aliases && d.threads == t.threads && d.nextId == t.nextId
            && d.threadLinks.Keys <= t.threadLinks.Keys
  {
  }

  /** Unlinking an entry keeps every count right. */
  lemma UnlinkKeeps(t: Tables, namespace: string, entry: string)
    requires Inv(t)
    ensures Inv(Unlink(t, namespace, entry))
  {
    hide InvBut, EntitiesOf, ThreadsOf, WithCounts, DropLinks;
    var entities, threads := EntitiesOf(t, namespace, entry), ThreadsOf(t, namespace, entry);
    UnlinkSomeKeeps(t, namespace, entry, true, entities, threads, {}, {});
    assert {} + entities - entities == {} && {} + threads - threads == {};
  }

  lemma FewerLinks(t: Tables, namespace: string, entry: string, threadsToo: bool)
    requires EntityLinksHold(t.entities, t.entityLinks) && ThreadLinksHold(t.threads, t.threadLinks)
    ensures var d := if threadsToo then DropLinks(t, namespace, entry) else DropEntityLinks(t, namespace, entry);
            EntityLinksHold(t.entities, d.entityLinks) && ThreadLinksHold(t.threads, d.threadLinks)
  {
  }

  lemma UnlinkedEntity(t: Tables, namespace: string, entry: string, threadsToo: bool, id: nat)
    requires id !in EntitiesOf(t, namespace, entry)
    ensures var d := if threadsToo then DropLinks(t, namespace, entry) else DropEntityLinks(t, namespace, entry);
            LinkTexts(d.entityLinks, id) == LinkTexts(t.entityLinks, id)
  {
    var d := if threadsToo then DropLinks(t, namespace, entry) else DropEntityLinks(t, namespace, entry);
    forall l | l in t.entityLinks && l.entity == id ensures l in d.entityLinks {
    }
  }

  lemma UnlinkedThread(t: Tables, namespace: string, entry: string, threadsToo: bool, id: nat)
    requires id !in Loosened(t, namespace, entry, threadsToo)
    ensures var d := if threadsToo then DropLinks(t, namespace, entry) else DropEntityLinks(t, namespace, entry);
            ThreadLinksOf(d.threadLinks, id) == ThreadLinksOf(t.threadLinks, id)
  {
    var d := if threadsToo then DropLinks(t, namespace, entry) else DropEntityLinks(t, namespace, entry);
    forall l | l in t.threadLinks && l.thread == id ensures l in d.threadLinks {
    }
  }

  // ---------------------------------------------------------------- what an unlink leaves

  /**
   * As far as the statements of an unlink work: the links of that entry in that namespace go, and no others; the
   * counts of the refreshed entities and threads become the number of distinct link texts and of links left; and
   * nothing else changes.
   */
  lemma UnlinkSomeLeaves(t: Tables, namespace: string, entry: string, threadsToo: bool, entities: set<nat>, threads: set<nat>)
    ensures var u := UnlinkSome(t, namespace, entry, threadsToo, entities, threads);
            && (forall l :: l in u.entityLinks <==> l in t.entityLinks && !(l.namespace == namespace && l.entry == entry))
            && (forall l | l in u.entityLinks :: u.entityLinks[l] == t.entityLinks[l])
            && (forall l :: l in u.threadLinks <==> l in t.threadLinks && !(threadsToo && l.namespace == namespace && l.entry == entry))
            && (forall l | l in u.threadLinks :: u.threadLinks[l] == t.threadLinks[l])
            && u.aliases == t.aliases && u.nextId == t.nextId
            && u.entities.Keys == t.entities.Keys && u.threads.Keys == t.threads.Keys
            && (forall id | id in t.entities ::
                 u.entities[id] == if id !in entities then t.entities[id]
                                   else t.entities[id].(entryCount := |set l | l in u.entityLinks && l.entity == id :: l.entry + ":" + l.namespace|))
            && (forall k | k in t.threads ::
                 u.threads[k] == if t.threads[k].id !in threads then t.threads[k]
                                 else t.threads[k].(entryCount := |set l | l in u.threadLinks && l.thread == t.threads[k].id|))
  {
    var u := UnlinkSome(t, namespace, entry, threadsToo, entities, threads);
    forall id ensures LinkTexts(u.entityLinks, id) == set l | l in u.entityLinks && l.entity == id :: l.entry + ":" + l.namespace {
    }
    forall id ensures ThreadLinksOf(u.threadLinks, id) == set l | l in u.threadLinks && l.thread == id {
    }
    hide LinkTexts, ThreadLinksOf;
  }

  /** A whole unlink refreshes what had links of the entry, and nothing else. */
  lemma UnlinkRefreshes(t: Tables, namespace: string, entry: string)
    ensures Unlink(t, namespace, entry) ==
            UnlinkSome(t, namespace, entry, true,
                       set l | l in t.entityLinks && l.namespace == namespace && l.entry == entry :: l.entity,
                       set l | l in t.threadLinks && l.namespace == namespace && l.entry == entry :: l.thread)
  {
    assert EntitiesOf(t, namespace, entry) == set l | l in t.entityLinks && l.namespace == namespace && l.entry == entry :: l.entity;
    assert ThreadsOf(t, namespace, entry) == set l | l in t.threadLinks && l.namespace == namespace && l.entry == entry :: l.thread;
    hide WithCounts, DropLinks;
  }
}
