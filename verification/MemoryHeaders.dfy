/**
 * What one upsert makes of the headers of its entry (runtime/internal/memory/resolver.go:56-107,
 * layer.go:232-275): stated on the address lists themselves and the tables before and after, so that the
 * extraction, the upserts and the links are pinned by what they leave.
 */
module MemoryHeaders {
  import opened Wrappers
  import opened Strings
  import opened MemoryTables
  import opened MemoryInvariant
  import opened MemoryRuns
  import opened MemoryIdempotence

  // ---------------------------------------------------------------- texts, character by character

  lemma LowerIs(s: string)
    ensures |Lower(s)| == |s|
    ensures forall i :: 0 <= i < |s| ==> Lower(s)[i] == if 'A' <= s[i] <= 'Z' then (s[i] as int + 32) as char else s[i]
  {
  }

  lemma {:induction false} TrimLeftIs(s: string) returns (i: nat)
    ensures i <= |s| && TrimLeft(s) == s[i..]
    ensures (forall k :: 0 <= k < i ==> IsSpace(s[k])) && (i < |s| ==> !IsSpace(s[i]))
  {
    hide IsSpace;
    if s == "" || !IsSpace(s[0]) {
      return 0;
    }
    var j := TrimLeftIs(s[1..]);
    assert s[1..][j..] == s[j + 1..];
    return j + 1;
  }

  lemma {:induction false} TrimRightIs(s: string) returns (j: nat)
    ensures j <= |s| && TrimRight(s) == s[..j]
    ensures (forall k :: j <= k < |s| ==> IsSpace(s[k])) && (0 < j ==> !IsSpace(s[j - 1]))
  {
    hide IsSpace;
    if s == "" || !IsSpace(s[|s| - 1]) {
      return |s|;
    }
    j := TrimRightIs(s[..|s| - 1]);
    assert s[..|s| - 1][..j] == s[..j];
  }

  /** Trimming cuts the spaces at both ends and nothing else. */
  lemma TrimIs(s: string) returns (i: nat, j: nat)
    ensures i <= j <= |s| && Trim(s) == s[i..j]
    ensures forall k :: 0 <= k < i || j <= k < |s| ==> s[k] in {' ', '\t', '\n', '\r', 11 as char, 12 as char, 0x85 as char, 0xA0 as char}
    ensures i < j ==> !IsSpace(s[i]) && !IsSpace(s[j - 1])
  {
    hide TrimLeft, TrimRight;
    i := TrimLeftIs(s);
    var k := TrimRightIs(s[i..]);
    j := i + k;
    assert s[i..][..k] == s[i..j];
  }

  /** The local part ends before the first at-sign; an address without one, or that starts with one, is its own. */
  lemma LocalPartIs(a: string)
    ensures var l := LocalPart(a);
            if '@' in a && a[0] != '@' then |l| < |a| && l == a[..|l|] && a[|l|] == '@' && '@' !in l else l == a
  {
    var at := IndexOf(a, '@', 0);
    if at < |a| {
      assert a[at] in a;
    }
  }

  // ---------------------------------------------------------------- how far a derivation gets

  /** Round n is reached and its entity upserted. */
  predicate Reached(outcomes: nat -> Outcome, n: nat) {
    (forall j: nat :: j < n ==> outcomes(j).Works?) && !outcomes(n).UpsertFails?
  }

  /** Round n is reached and its link written too. */
  predicate Linked(outcomes: nat -> Outcome, n: nat) {
    Reached(outcomes, n) && !outcomes(n).LinkFails?
  }

  // ---------------------------------------------------------------- one round

  /** The entity that the item's first alias names lists all its aliases, which have rows, and is linked. */
  predicate ItemRecorded(t: Tables, e: Entry, item: Extracted) {
    && item.aliases != []
    && var k := RowKey(item.aliases[0], e.namespace);
    && k in t.aliases && t.aliases[k] in t.entities
    && EntityLink(t.aliases[k], e.namespace, e.id, item.role) in t.entityLinks
    && ListsAll(t.entities[t.aliases[k]], t.aliases, item.aliases, e.namespace)
  }

  predicate ListsAll(x: Entity, rows: Rows, wanted: seq<Alias>, namespace: string) {
    forall a :: a in wanted ==> a in x.aliases && RowKey(a, namespace) in rows
  }

  /** What a round leaves, but for counts: one row written, rows for its aliases added, one link inserted or none. */
  ghost predicate RoundLeaves(t: Tables, u: Tables, e: Entry, item: Extracted, now: int) {
    && item.aliases != []
    && var k := RowKey(item.aliases[0], e.namespace);
    && k in u.aliases
    && var id := u.aliases[k];
    && u.entities.Keys == t.entities.Keys + {id}
    && (forall m | m in t.entities && m != id :: u.entities[m] == t.entities[m])
    && u.entities[id].id == id
    && EntityRound(if id in t.entities then Some(t.entities[id]) else None, u.entities[id], e, item, Stamp(e.date, now))
    && Extends(t.aliases, u.aliases)
    && (forall k | k in u.aliases && k !in t.aliases :: k.namespace == e.namespace && Alias(k.value, k.kind) in item.aliases)
    && (forall l | l in t.entityLinks :: l in u.entityLinks && u.entityLinks[l] == t.entityLinks[l])
    && (forall l | l in u.entityLinks && l !in t.entityLinks :: l == EntityLink(id, e.namespace, e.id, item.role) && u.entityLinks[l] == e.date)
  }

  /** The entity row of a round, before and after. */
  ghost predicate EntityRound(was: Option<Entity>, x: Entity, e: Entry, item: Extracted, at: int) {
    match was
    case None =>
      && x.kind.Person? && x.namespace == e.namespace && x.aliases == item.aliases && x.canonical == item.canonical
      && x.firstSeen == at && x.lastSeen == at
    case Some(w) =>
      && x.id == w.id && x.kind == w.kind && x.namespace == w.namespace
      && ListedInOrder(w.aliases, item.aliases, x.aliases)
      && (x.canonical == w.canonical || x.canonical == item.canonical)
      && x.firstSeen == (if at < w.firstSeen then at else w.firstSeen)
      && x.lastSeen == (if at > w.lastSeen then at else w.lastSeen)
  }

  lemma RoundSound(t: Tables, e: Entry, item: Extracted, now: int)
    requires Sound(t) && item in ExtractEntities(e)
    ensures item.aliases != []
    ensures Sound(UpsertEntity(t, ItemProposal(e, item, now))) && Sound(DeriveOne(t, e, item, now)) && Sound(DeriveUncounted(t, e, item, now))
    ensures ResolvedId(t, ItemProposal(e, item, now)) in UpsertEntity(t, ItemProposal(e, item, now)).entities
  {
    hide Sound, ExtractEntities, DeriveOne, DeriveUncounted, UpsertEntity, ResolvedId, ThreadIds, EntityCountsHold, ThreadCountsHold,
         Widens, NamesRise;
    ItemHasEmail(e, item);
    var es, ts := t.entities.Keys, ThreadIds(t);
    SoundBut(t);
    UpsertEntityKeeps(t, ItemProposal(e, item, now), es, ts);
    RoundKeeps(t, e, item, now, es, ts);
    UncountedKeeps(t, e, item, now, es, ts);
  }

  /** The rows an upsert adds are for the proposal's aliases: those the entity listed before have theirs. */
  lemma NewRows(t: Tables, p: Proposal)
    requires Sound(t) && p.aliases != []
    ensures var u := UpsertEntity(t, p);
            && Extends(t.aliases, u.aliases)
            && (forall a :: a in p.aliases ==> RowKey(a, p.namespace) in u.aliases)
            && forall k | k in u.aliases && k !in t.aliases :: k.namespace == p.namespace && Alias(k.value, k.kind) in p.aliases
  {
    hide EntityLinksHold, ThreadsKeyed, ThreadLinksHold;
    UpsertLists(t, p);
    var id, x := ResolvedId(t, p), UpsertedEntity(t, p);
    InsertAliasesAdds(t.aliases, x.aliases, x.namespace, id);
    if id in t.entities {
      UnionKeeps(t.entities[id].aliases, p.aliases);
      ResolvedShares(t, p);
    }
    hide InsertAliases, UpsertedEntity, ResolvedId, Lookup, UnionAliases, IdsBelow;
    var u := UpsertEntity(t, p);
    forall k | k in u.aliases && k !in t.aliases ensures Alias(k.value, k.kind) in p.aliases {
      var a := Alias(k.value, k.kind);
      assert RowKey(a, x.namespace) == k;
    }
  }

  lemma ResolvedShares(t: Tables, p: Proposal)
    requires Sound(t) && ResolvedId(t, p) in t.entities
    ensures t.entities[ResolvedId(t, p)].namespace == p.namespace
  {
    UpsertLists(t, p);
    hide Sound, ResolvedId, Lookup, UnionAliases, InsertAliases;
  }

  lemma MergedRow(w: Entity, e: Entry, item: Extracted, now: int)
    ensures EntityRound(Some(w), MergeEntity(w, ItemProposal(e, item, now)), e, item, Stamp(e.date, now))
  {
    UnionInOrder(w.aliases, item.aliases);
    hide UnionAliases, ListedInOrder;
  }

  /** An upsert whose link is not written. */
  lemma UpsertLeaves(t: Tables, e: Entry, item: Extracted, now: int)
    requires Sound(t) && item.aliases != []
    ensures var p := ItemProposal(e, item, now); var u := UpsertEntity(t, p);
            && RoundLeaves(t, u, e, item, now)
            && u.aliases[RowKey(item.aliases[0], e.namespace)] == ResolvedId(t, p)
            && ListsAll(u.entities[ResolvedId(t, p)], u.aliases, item.aliases, e.namespace)
  {
    hide Sound, InsertAliases, ListedInOrder, Lookup, UnionAliases, MergeEntity, UpsertedEntity, ResolvedId, EntityRound;
    var p := ItemProposal(e, item, now);
    UpsertFacts(t, p);
    NewRows(t, p);
    FirstAliasResolves(t, p);
    var id := ResolvedId(t, p);
    UpsertLeavesLinks(t, p);
    RowOfRound(t, e, item, now);
  }

  lemma UpsertFacts(t: Tables, p: Proposal)
    requires Sound(t)
    ensures var id, x := ResolvedId(t, p), UpsertedEntity(t, p);
            && x.id == id
            && (forall a :: a in p.aliases ==> a in x.aliases)
            && UpsertEntity(t, p).entities == t.entities[id := x]
  {
    UpsertLists(t, p);
    hide Sound, InsertAliases, Lookup, UnionAliases, UpsertedEntity, ResolvedId;
  }

  lemma RowOfRound(t: Tables, e: Entry, item: Extracted, now: int)
    requires Sound(t)
    ensures var p := ItemProposal(e, item, now); var id := ResolvedId(t, p);
            EntityRound(if id in t.entities then Some(t.entities[id]) else None, UpsertedEntity(t, p), e, item, Stamp(e.date, now))
  {
    var p := ItemProposal(e, item, now);
    UpsertLists(t, p);
    hide Sound, Lookup, UpsertedEntity, ResolvedId;
    if ResolvedId(t, p) in t.entities {
      MergedRow(t.entities[ResolvedId(t, p)], e, item, now);
      hide *;
    } else {
      hide ListedInOrder;
    }
  }

  lemma UncountedLeaves(t: Tables, e: Entry, item: Extracted, now: int)
    requires Sound(t) && item.aliases != []
    ensures var u := DeriveUncounted(t, e, item, now);
            && RoundLeaves(t, u, e, item, now) && ItemRecorded(u, e, item)
            && u.aliases[RowKey(item.aliases[0], e.namespace)] == ResolvedId(t, ItemProposal(e, item, now))
  {
    hide Sound, UpsertEntity, ResolvedId, EntityRound, ListsAll, Extends;
    UpsertLeaves(t, e, item, now);
    UpsertLeavesLinks(t, ItemProposal(e, item, now));
  }

  /** Refreshing one count changes nothing that a round is said to leave. */
  lemma CountedLeaves(t: Tables, e: Entry, item: Extracted, now: int)
    requires Sound(t) && item.aliases != []
    ensures var u := DeriveOne(t, e, item, now);
            RoundLeaves(t, u, e, item, now) && ItemRecorded(u, e, item)
  {
    var id := ResolvedId(t, ItemProposal(e, item, now));
    var m, u := DeriveUncounted(t, e, item, now), DeriveOne(t, e, item, now);
    assert u == WithEntityCount(m, id);
    hide *;
    UncountedLeaves(t, e, item, now);
    CountLeaves(t, m, e, item, now, id);
    CountRecords(m, e, item, id);
  }

  lemma CountLeaves(t: Tables, m: Tables, e: Entry, item: Extracted, now: int, id: nat)
    requires RoundLeaves(t, m, e, item, now) && m.aliases[RowKey(item.aliases[0], e.namespace)] == id
    ensures RoundLeaves(t, WithEntityCount(m, id), e, item, now)
  {
    hide LinkTexts, ListedInOrder, Extends;
  }

  lemma CountRecords(m: Tables, e: Entry, item: Extracted, id: nat)
    requires ItemRecorded(m, e, item)
    ensures ItemRecorded(WithEntityCount(m, id), e, item)
  {
    hide LinkTexts;
  }

  /** A round keeps what earlier rounds recorded. */
  lemma RecordedStays(t: Tables, u: Tables, e: Entry, item: Extracted, now: int, other: Extracted)
    requires RoundLeaves(t, u, e, item, now) && ItemRecorded(t, e, other)
    ensures ItemRecorded(u, e, other)
  {
    var id := t.aliases[RowKey(other.aliases[0], e.namespace)];
    if u.entities[id] != t.entities[id] {
      assert t.entities[id].aliases <= u.entities[id].aliases;
      ListsStay(t.entities[id], u.entities[id], t.aliases, u.aliases, other.aliases, e.namespace);
    } else {
      ListsStay(t.entities[id], u.entities[id], t.aliases, u.aliases, other.aliases, e.namespace);
    }
  }

  lemma ListsStay(x: Entity, y: Entity, rows: Rows, more: Rows, wanted: seq<Alias>, namespace: string)
    requires ListsAll(x, rows, wanted, namespace) && x.aliases <= y.aliases && Extends(rows, more)
    ensures ListsAll(y, more, wanted, namespace)
  {
    forall a | a in wanted ensures a in y.aliases && RowKey(a, namespace) in more {
      var i :| 0 <= i < |x.aliases| && x.aliases[i] == a;
      assert y.aliases[i] == a;
      assert RowKey(a, namespace) in rows;
    }
  }

  // ---------------------------------------------------------------- all rounds

  /** The item's first alias names the entity. */
  predicate Names(rows: Rows, e: Entry, item: Extracted, id: nat) {
    && item.aliases != []
    && RowKey(item.aliases[0], e.namespace) in rows
    && rows[RowKey(item.aliases[0], e.namespace)] == id
  }

  /** Rows are kept, and the new ones are for aliases of the first n items. */
  ghost predicate RowsCame(t: Tables, u: Tables, e: Entry, items: seq<Extracted>, n: nat)
    requires n <= |items|
  {
    && Extends(t.aliases, u.aliases)
    && forall k | k in u.aliases && k !in t.aliases ::
         k.namespace == e.namespace && exists j :: 0 <= j < n && Alias(k.value, k.kind) in items[j].aliases
  }

  /** Links are kept, and the new ones are the entry's own, dated as it is, to the entities of the first n items. */
  ghost predicate LinksCame(t: Tables, u: Tables, e: Entry, items: seq<Extracted>, n: nat)
    requires n <= |items|
  {
    && (forall l | l in t.entityLinks :: l in u.entityLinks && u.entityLinks[l] == t.entityLinks[l])
    && forall l | l in u.entityLinks && l !in t.entityLinks ::
         && l.namespace == e.namespace && l.entry == e.id && u.entityLinks[l] == e.date
         && exists j :: 0 <= j < n && Names(u.aliases, e, items[j], l.entity) && items[j].role == l.role
  }

  /** Entities are kept, and each is what it was and what the first n items that name it say. */
  ghost predicate EntitiesCame(t: Tables, u: Tables, e: Entry, items: seq<Extracted>, clock: nat -> int, n: nat)
    requires n <= |items|
  {
    && t.entities.Keys <= u.entities.Keys
    && forall id | id in u.entities ::
         EntityCame(if id in t.entities then Some(t.entities[id]) else None, u.entities[id], u.aliases, id, e, items, clock, n)
  }

  ghost predicate EntityCame(was: Option<Entity>, x: Entity, rows: Rows, id: nat, e: Entry, items: seq<Extracted>, clock: nat -> int, n: nat)
    requires n <= |items|
  {
    && x.id == id
    && x.kind == (if was.Some? then was.value.kind else Person)
    && x.namespace == (if was.Some? then was.value.namespace else e.namespace)
    && (was.Some? ==> was.value.aliases <= x.aliases)
    && (forall a :: a in x.aliases ==>
         (was.Some? && a in was.value.aliases) || exists j :: 0 <= j < n && Names(rows, e, items[j], id) && a in items[j].aliases)
    && ((was.Some? && x.canonical == was.value.canonical)
        || exists j :: 0 <= j < n && Names(rows, e, items[j], id) && x.canonical == items[j].canonical)
    && (was.Some? ==> x.firstSeen <= was.value.firstSeen && was.value.lastSeen <= x.lastSeen)
    && (forall j :: 0 <= j < n && Names(rows, e, items[j], id) ==> x.firstSeen <= Stamp(e.date, clock(j)) <= x.lastSeen)
    && ((was.Some? && x.firstSeen == was.value.firstSeen)
        || exists j :: 0 <= j < n && Names(rows, e, items[j], id) && x.firstSeen == Stamp(e.date, clock(j)))
    && ((was.Some? && x.lastSeen == was.value.lastSeen)
        || exists j :: 0 <= j < n && Names(rows, e, items[j], id) && x.lastSeen == Stamp(e.date, clock(j)))
    && ((forall j :: 0 <= j < n ==> !Names(rows, e, items[j], id)) ==> was == Some(x))
  }

  lemma NothingCame(t: Tables, e: Entry, items: seq<Extracted>, clock: nat -> int)
    requires Sound(t)
    ensures RowsCame(t, t, e, items, 0) && LinksCame(t, t, e, items, 0) && EntitiesCame(t, t, e, items, clock, 0)
  {
  }

  lemma RowsStep(t: Tables, m: Tables, u: Tables, e: Entry, items: seq<Extracted>, n: nat, now: int)
    requires n < |items| && RowsCame(t, m, e, items, n) && RoundLeaves(m, u, e, items[n], now)
    ensures RowsCame(t, u, e, items, n + 1)
  {
    hide EntityRound, Names;
  }

  lemma LinksStep(t: Tables, m: Tables, u: Tables, e: Entry, items: seq<Extracted>, n: nat, now: int)
    requires n < |items| && LinksCame(t, m, e, items, n) && RoundLeaves(m, u, e, items[n], now)
    ensures LinksCame(t, u, e, items, n + 1)
  {
    hide EntityRound, Names;
    forall l | l in u.entityLinks && l !in t.entityLinks
      ensures exists j :: 0 <= j < n + 1 && Names(u.aliases, e, items[j], l.entity) && items[j].role == l.role
    {
      if l in m.entityLinks {
        var j :| 0 <= j < n && Names(m.aliases, e, items[j], l.entity) && items[j].role == l.role;
        NamesStay(m.aliases, u.aliases, e, items[j], l.entity);
      } else {
        assert Names(u.aliases, e, items[n], l.entity) by {
          LastNames(m, u, e, items[n], now);
        }
      }
    }
  }

  lemma NamesStay(rows: Rows, more: Rows, e: Entry, item: Extracted, id: nat)
    requires Names(rows, e, item, id) && Extends(rows, more)
    ensures Names(more, e, item, id)
  {
  }

  lemma LastNames(m: Tables, u: Tables, e: Entry, item: Extracted, now: int)
    requires RoundLeaves(m, u, e, item, now)
    ensures Names(u.aliases, e, item, u.aliases[RowKey(item.aliases[0], e.namespace)])
  {
  }

  /** The first n items have been recorded. */
  ghost predicate AllRecorded(t: Tables, e: Entry, items: seq<Extracted>, n: nat)
    requires n <= |items|
  {
    forall j :: 0 <= j < n ==> ItemRecorded(t, e, items[j])
  }

  /** A recorded item names after more rows what it named before. */
  lemma NamesSame(m: Tables, u: Tables, e: Entry, item: Extracted, id: nat)
    requires ItemRecorded(m, e, item) && Extends(m.aliases, u.aliases)
    ensures Names(u.aliases, e, item, id) <==> Names(m.aliases, e, item, id)
    ensures Names(m.aliases, e, item, id) ==> id in m.entities
  {
  }

  /** An entity the round does not write. */
  lemma OtherCame(was: Option<Entity>, x: Entity, rows: Rows, more: Rows, id: nat, e: Entry, items: seq<Extracted>, clock: nat -> int, n: nat)
    requires n < |items| && EntityCame(was, x, rows, id, e, items, clock, n)
    requires forall j :: 0 <= j < n ==> (Names(more, e, items[j], id) <==> Names(rows, e, items[j], id))
    requires !Names(more, e, items[n], id)
    ensures EntityCame(was, x, more, id, e, items, clock, n + 1)
  {
    hide Names;
  }

  lemma CreatedCame(x: Entity, rows: Rows, id: nat, e: Entry, items: seq<Extracted>, clock: nat -> int, n: nat)
    requires n < |items| && EntityRound(None, x, e, items[n], Stamp(e.date, clock(n))) && x.id == id
    requires Names(rows, e, items[n], id) && forall j :: 0 <= j < n ==> !Names(rows, e, items[j], id)
    ensures EntityCame(None, x, rows, id, e, items, clock, n + 1)
  {
    hide Names, Stamp;
  }

  lemma MergedCame(was: Option<Entity>, x: Entity, y: Entity, rows: Rows, more: Rows, id: nat, e: Entry, items: seq<Extracted>,
                   clock: nat -> int, n: nat)
    requires n < |items| && EntityCame(was, x, rows, id, e, items, clock, n)
    requires EntityRound(Some(x), y, e, items[n], Stamp(e.date, clock(n)))
    requires forall j :: 0 <= j < n ==> (Names(more, e, items[j], id) <==> Names(rows, e, items[j], id))
    requires Names(more, e, items[n], id)
    ensures EntityCame(was, y, more, id, e, items, clock, n + 1)
  {
    hide Names, Stamp;
    forall a | a in y.aliases
      ensures (was.Some? && a in was.value.aliases) || exists j :: 0 <= j < n + 1 && Names(more, e, items[j], id) && a in items[j].aliases
    {
      MergedFrom(x.aliases, items[n].aliases, y.aliases, a);
    }
    hide ListedInOrder;
  }

  lemma MergedFrom(existing: seq<Alias>, incoming: seq<Alias>, merged: seq<Alias>, a: Alias)
    requires ListedInOrder(existing, incoming, merged) && a in merged
    ensures a in existing || a in incoming
  {
    var k :| 0 <= k < |merged| && merged[k] == a;
    if k < |existing| {
      assert existing[k] == merged[k];
    } else {
      assert FirstListed(incoming, merged, k);
    }
  }

  lemma AllSame(m: Tables, u: Tables, e: Entry, items: seq<Extracted>, n: nat, id: nat)
    requires n <= |items| && AllRecorded(m, e, items, n) && Extends(m.aliases, u.aliases)
    ensures forall j :: 0 <= j < n ==> (Names(u.aliases, e, items[j], id) <==> Names(m.aliases, e, items[j], id))
    ensures id !in m.entities ==> forall j :: 0 <= j < n ==> !Names(u.aliases, e, items[j], id)
  {
    hide Names, ItemRecorded, Extends;
    forall j | 0 <= j < n
      ensures (Names(u.aliases, e, items[j], id) <==> Names(m.aliases, e, items[j], id))
              && (Names(m.aliases, e, items[j], id) ==> id in m.entities)
    {
      NamesSame(m, u, e, items[j], id);
    }
  }

  lemma EntitiesStep(t: Tables, m: Tables, u: Tables, e: Entry, items: seq<Extracted>, clock: nat -> int, n: nat)
    requires n < |items| && EntitiesCame(t, m, e, items, clock, n) && AllRecorded(m, e, items, n)
    requires RoundLeaves(m, u, e, items[n], clock(n))
    ensures EntitiesCame(t, u, e, items, clock, n + 1)
  {
    hide EntityCame, EntityRound, AllRecorded, Names, Extends;
    LastNames(m, u, e, items[n], clock(n));
    var touched := u.aliases[RowKey(items[n].aliases[0], e.namespace)];
    forall id | id in u.entities
      ensures EntityCame(if id in t.entities then Some(t.entities[id]) else None, u.entities[id], u.aliases, id, e, items, clock, n + 1)
    {
      var was := if id in t.entities then Some(t.entities[id]) else None;
      AllSame(m, u, e, items, n, id);
      if id != touched {
        OnlyOne(u.aliases, e, items[n], touched, id);
        OtherCame(was, m.entities[id], m.aliases, u.aliases, id, e, items, clock, n);
      } else if id in m.entities {
        MergedCame(was, m.entities[id], u.entities[id], m.aliases, u.aliases, id, e, items, clock, n);
      } else {
        CreatedCame(u.entities[id], u.aliases, id, e, items, clock, n);
      }
    }
  }

  lemma OnlyOne(rows: Rows, e: Entry, item: Extracted, id: nat, other: nat)
    requires Names(rows, e, item, id) && other != id
    ensures !Names(rows, e, item, other)
  {
  }

  lemma RecordedStep(m: Tables, u: Tables, e: Entry, items: seq<Extracted>, n: nat, now: int)
    requires n < |items| && AllRecorded(m, e, items, n) && RoundLeaves(m, u, e, items[n], now) && ItemRecorded(u, e, items[n])
    ensures AllRecorded(u, e, items, n + 1)
  {
    forall j | 0 <= j < n ensures ItemRecorded(u, e, items[j]) {
      assert ItemRecorded(m, e, items[j]);
      hide RoundLeaves, ItemRecorded;
      RecordedStays(m, u, e, items[n], now, items[j]);
    }
  }

  // ---------------------------------------------------------------- the loop

  /**
   * The loop over the items reaches the rounds that the outcomes let it reach: it upserts the first `upserted`
   * items and links the first `linked` of them, and what it leaves is what those say.
   */
  lemma {:induction false} DeriveSomeCame(t: Tables, m: Tables, e: Entry, items: seq<Extracted>, i: nat, clock: nat -> int,
                                          outcomes: nat -> Outcome) returns (upserted: nat, linked: nat)
    requires items == ExtractEntities(e) && i <= |items| && Sound(m)
    requires RowsCame(t, m, e, items, i) && LinksCame(t, m, e, items, i) && EntitiesCame(t, m, e, items, clock, i)
    requires AllRecorded(m, e, items, i) && forall j: nat :: j < i ==> outcomes(j).Works?
    ensures linked <= upserted <= |items|
    ensures forall j: nat :: j < |items| ==> (j < upserted <==> Reached(outcomes, j)) && (j < linked <==> Linked(outcomes, j))
    ensures var u := DeriveSome(m, e, items, i, clock, outcomes);
            && RowsCame(t, u, e, items, upserted) && LinksCame(t, u, e, items, linked)
            && EntitiesCame(t, u, e, items, clock, upserted) && AllRecorded(u, e, items, linked)
    decreases |items| - i
  {
    hide ExtractEntities, DeriveOne, DeriveUncounted, UpsertEntity, ItemProposal, Sound, RowsCame, LinksCame, EntitiesCame, AllRecorded,
         RoundLeaves, ItemRecorded;
    if i == |items| {
      upserted, linked := i, i;
    } else {
      var item, now := items[i], clock(i);
      RoundSound(m, e, item, now);
      match outcomes(i)
      case UpsertFails =>
        upserted, linked := i, i;
      case LinkFails =>
        UpsertLeaves(m, e, item, now);
        LinkFailed(t, m, e, items, i, clock);
        upserted, linked := i + 1, i;
      case CountFails =>
        var u := DeriveUncounted(m, e, item, now);
        UncountedLeaves(m, e, item, now);
        RowsStep(t, m, u, e, items, i, now);
        LinksStep(t, m, u, e, items, i, now);
        EntitiesStep(t, m, u, e, items, clock, i);
        RecordedStep(m, u, e, items, i, now);
        upserted, linked := i + 1, i + 1;
      case Works =>
        var u := DeriveOne(m, e, item, now);
        CountedLeaves(m, e, item, now);
        RowsStep(t, m, u, e, items, i, now);
        LinksStep(t, m, u, e, items, i, now);
        EntitiesStep(t, m, u, e, items, clock, i);
        RecordedStep(m, u, e, items, i, now);
        upserted, linked := DeriveSomeCame(t, u, e, items, i + 1, clock, outcomes);
    }
  }

  lemma LinkFailed(t: Tables, m: Tables, e: Entry, items: seq<Extracted>, i: nat, clock: nat -> int)
    requires i < |items| && Sound(m) && items[i].aliases != []
    requires RowsCame(t, m, e, items, i) && LinksCame(t, m, e, items, i) && EntitiesCame(t, m, e, items, clock, i)
    requires AllRecorded(m, e, items, i)
    ensures var u := UpsertEntity(m, ItemProposal(e, items[i], clock(i)));
            && RowsCame(t, u, e, items, i + 1) && LinksCame(t, u, e, items, i)
            && EntitiesCame(t, u, e, items, clock, i + 1) && AllRecorded(u, e, items, i)
  {
    hide *;
    var p := ItemProposal(e, items[i], clock(i));
    var u := UpsertEntity(m, p);
    UpsertLeaves(m, e, items[i], clock(i));
    RowsStep(t, m, u, e, items, i, clock(i));
    EntitiesStep(t, m, u, e, items, clock, i);
    UpsertLeavesLinks(m, p);
    ExtendedRows(m, u, e, items[i], clock(i));
    SameLinksCame(t, m, u, e, items, i);
    AllStay(m, u, e, items, i, clock(i));
  }

  lemma ExtendedRows(m: Tables, u: Tables, e: Entry, item: Extracted, now: int)
    requires RoundLeaves(m, u, e, item, now)
    ensures Extends(m.aliases, u.aliases)
  {
  }

  lemma SameLinksCame(t: Tables, m: Tables, u: Tables, e: Entry, items: seq<Extracted>, n: nat)
    requires n <= |items| && LinksCame(t, m, e, items, n) && u.entityLinks == m.entityLinks && Extends(m.aliases, u.aliases)
    ensures LinksCame(t, u, e, items, n)
  {
  }

  lemma AllStay(m: Tables, u: Tables, e: Entry, items: seq<Extracted>, n: nat, now: int)
    requires n < |items| && AllRecorded(m, e, items, n) && RoundLeaves(m, u, e, items[n], now)
    ensures AllRecorded(u, e, items, n)
  {
    forall j | 0 <= j < n ensures ItemRecorded(u, e, items[j]) {
      assert ItemRecorded(m, e, items[j]);
      hide RoundLeaves, ItemRecorded;
      RecordedStays(m, u, e, items[n], now, items[j]);
    }
  }

  // ---------------------------------------------------------------- from the headers

  /** The n-th address of the entry, its headers taken in the order from, to, cc, bcc, and the header's role. */
  predicate HeaderAt(e: Entry, n: nat, a: Address, role: Role) {
    var to := |e.from|;
    var cc := to + |e.to|;
    var bcc := cc + |e.cc|;
    match role
    case From => n < to && e.from[n] == a
    case To => to <= n < cc && e.to[n - to] == a
    case Cc => cc <= n < bcc && e.cc[n - cc] == a
    case Bcc => bcc <= n < bcc + |e.bcc| && e.bcc[n - bcc] == a
    case Mention => false
  }

  lemma HeaderItem(e: Entry, n: nat, a: Address, role: Role)
    requires HeaderAt(e, n, a, role)
    ensures n < |ExtractEntities(e)| && ExtractEntities(e)[n] == MakeExtraction(a, role)
  {
    hide MakeExtraction;
  }

  lemma ItemHeader(e: Entry, n: nat) returns (a: Address, role: Role)
    requires n < |ExtractEntities(e)|
    ensures HeaderAt(e, n, a, role) && ExtractEntities(e)[n] == MakeExtraction(a, role)
  {
    hide MakeExtraction;
    var to := |e.from|;
    var cc := to + |e.to|;
    var bcc := cc + |e.cc|;
    if n < to {
      a, role := e.from[n], From;
    } else if n < cc {
      a, role := e.to[n - to], To;
    } else if n < bcc {
      a, role := e.cc[n - cc], Cc;
    } else {
      a, role := e.bcc[n - bcc], Bcc;
    }
  }

  /** The lower-cased address has a row, its entity lists it and the trimmed name, and is linked in the role. */
  predicate Recorded(t: Tables, e: Entry, a: Address, role: Role) {
    && var k := AliasKey(Lower(a.address), Email, e.namespace);
    && k in t.aliases && t.aliases[k] in t.entities
    && Alias(Lower(a.address), Email) in t.entities[t.aliases[k]].aliases
    && EntityLink(t.aliases[k], e.namespace, e.id, role) in t.entityLinks
    && (a.name != "" ==>
          && Alias(Trim(a.name), Name) in t.entities[t.aliases[k]].aliases
          && AliasKey(Trim(a.name), Name, e.namespace) in t.aliases)
  }

  lemma ItemIsRecorded(t: Tables, e: Entry, a: Address, role: Role)
    requires ItemRecorded(t, e, MakeExtraction(a, role))
    ensures Recorded(t, e, a, role)
  {
    hide Trim, Lower, LocalPart;
    var item := MakeExtraction(a, role);
    assert Alias(Lower(a.address), Email) in item.aliases;
    if a.name != "" {
      assert item.aliases[1] == Alias(Trim(a.name), Name);
      assert RowKey(item.aliases[1], e.namespace) in t.aliases;
    }
  }

  /** The row of the address names the entity. */
  predicate Addresses(t: Tables, e: Entry, a: Address, id: nat) {
    var k := AliasKey(Lower(a.address), Email, e.namespace);
    k in t.aliases && t.aliases[k] == id
  }

  lemma ItemNames(t: Tables, e: Entry, a: Address, role: Role, id: nat)
    ensures Names(t.aliases, e, MakeExtraction(a, role), id) <==> Addresses(t, e, a, id)
    ensures MakeExtraction(a, role).role == role
  {
    hide Trim, Lower, LocalPart;
  }

  /** An alias that an address of a header contributes. */
  predicate AliasOf(a: Address, alias: Alias) {
    alias == Alias(Lower(a.address), Email) || (a.name != "" && alias == Alias(Trim(a.name), Name))
  }

  lemma ItemAlias(a: Address, role: Role, alias: Alias)
    ensures alias in MakeExtraction(a, role).aliases <==> AliasOf(a, alias)
  {
    hide Trim, Lower, LocalPart;
    var aliases := MakeExtraction(a, role).aliases;
    assert aliases[0] == Alias(Lower(a.address), Email);
    if a.name != "" {
      assert aliases[1] == Alias(Trim(a.name), Name);
    }
  }

  lemma ThreadLeaves(t: Tables, e: Entry, now: int, outcome: Outcome)
    ensures var u := DeriveSomeThread(t, e, now, outcome);
            u.entities == t.entities && u.aliases == t.aliases && u.entityLinks == t.entityLinks
  {
    hide WithThreadCount, UpsertedThread;
    ThreadCountLeaves();
  }

  lemma ThreadCountLeaves()
    ensures forall t, id ::
              var u := WithThreadCount(t, id); u.entities == t.entities && u.aliases == t.aliases && u.entityLinks == t.entityLinks
  {
    hide ThreadLinksOf;
  }

  /** The rounds of one upsert, from the tables before it. */
  lemma UpsertCame(t: Tables, e: Entry, clock: nat -> int, outcomes: Outcomes) returns (upserted: nat, linked: nat)
    requires Sound(t)
    ensures linked <= upserted <= |ExtractEntities(e)|
    ensures forall j: nat :: j < |ExtractEntities(e)| ==>
              (j < upserted <==> Reached(outcomes.items, j)) && (j < linked <==> Linked(outcomes.items, j))
    ensures var items, u := ExtractEntities(e), DeriveWith(t, e, clock, outcomes);
            && RowsCame(t, u, e, items, upserted) && LinksCame(t, u, e, items, linked)
            && EntitiesCame(t, u, e, items, clock, upserted) && AllRecorded(u, e, items, linked)
  {
    hide ExtractEntities, Sound, DeriveSome, DeriveSomeThread, Reached, Linked, EntityCame, ItemRecorded, Names;
    var items := ExtractEntities(e);
    NothingCame(t, e, items, clock);
    upserted, linked := DeriveSomeCame(t, t, e, items, 0, clock, outcomes.items);
    var m := DeriveSome(t, e, items, 0, clock, outcomes.items);
    ThreadLeaves(m, e, clock(|items|), outcomes.thread);
    SameCame(t, m, DeriveWith(t, e, clock, outcomes), e, items, clock, upserted, linked);
  }

  lemma SameCame(t: Tables, m: Tables, u: Tables, e: Entry, items: seq<Extracted>, clock: nat -> int, upserted: nat, linked: nat)
    requires linked <= upserted <= |items|
    requires u.entities == m.entities && u.aliases == m.aliases && u.entityLinks == m.entityLinks
    requires RowsCame(t, m, e, items, upserted) && LinksCame(t, m, e, items, linked)
    requires EntitiesCame(t, m, e, items, clock, upserted) && AllRecorded(m, e, items, linked)
    ensures RowsCame(t, u, e, items, upserted) && LinksCame(t, u, e, items, linked)
    ensures EntitiesCame(t, u, e, items, clock, upserted) && AllRecorded(u, e, items, linked)
  {
    hide EntityCame, Names;
  }

  /**
   * Every address of every header whose round the outcomes let write its link is recorded under the header's
   * role: with its row, its entity and its link.
   */
  lemma UpsertRecords(t: Tables, e: Entry, clock: nat -> int, outcomes: Outcomes)
    requires Sound(t)
    ensures var u := DeriveWith(t, e, clock, outcomes);
            var to, cc, bcc := |e.from|, |e.from| + |e.to|, |e.from| + |e.to| + |e.cc|;
            && (forall n: nat :: n < |e.from| && Linked(outcomes.items, n) ==> Recorded(u, e, e.from[n], From))
            && (forall n: nat :: n < |e.to| && Linked(outcomes.items, to + n) ==> Recorded(u, e, e.to[n], To))
            && (forall n: nat :: n < |e.cc| && Linked(outcomes.items, cc + n) ==> Recorded(u, e, e.cc[n], Cc))
            && (forall n: nat :: n < |e.bcc| && Linked(outcomes.items, bcc + n) ==> Recorded(u, e, e.bcc[n], Bcc))
  {
    hide ExtractEntities, Sound, DeriveWith, Linked, Recorded;
    var u := DeriveWith(t, e, clock, outcomes);
    forall n: nat, a, role | HeaderAt(e, n, a, role) && Linked(outcomes.items, n) ensures Recorded(u, e, a, role) {
      HeaderRecorded(t, e, clock, outcomes, n, a, role);
    }
    forall n: nat | n < |e.from| ensures HeaderAt(e, n, e.from[n], From) {
    }
    forall n: nat | n < |e.to| ensures HeaderAt(e, |e.from| + n, e.to[n], To) {
    }
    forall n: nat | n < |e.cc| ensures HeaderAt(e, |e.from| + |e.to| + n, e.cc[n], Cc) {
    }
    forall n: nat | n < |e.bcc| ensures HeaderAt(e, |e.from| + |e.to| + |e.cc| + n, e.bcc[n], Bcc) {
    }
    hide HeaderAt;
  }

  lemma HeaderRecorded(t: Tables, e: Entry, clock: nat -> int, outcomes: Outcomes, n: nat, a: Address, role: Role)
    requires Sound(t) && HeaderAt(e, n, a, role) && Linked(outcomes.items, n)
    ensures Recorded(DeriveWith(t, e, clock, outcomes), e, a, role)
  {
    hide ExtractEntities, Sound, DeriveWith, MakeExtraction, Linked, Reached, Recorded, ItemRecorded, RowsCame, LinksCame, EntitiesCame,
         HeaderAt;
    var upserted, linked := UpsertCame(t, e, clock, outcomes);
    HeaderItem(e, n, a, role);
    ItemIsRecorded(DeriveWith(t, e, clock, outcomes), e, a, role);
  }

  /**
   * An upsert takes no row and no link away, and what it adds comes from an address of a header: a link of the
   * entry in the header's role to the entity of the address, a row for the lower-cased address or the trimmed name.
   */
  lemma UpsertAddsOnly(t: Tables, e: Entry, clock: nat -> int, outcomes: Outcomes)
    requires Sound(t)
    ensures var u := DeriveWith(t, e, clock, outcomes);
            && (forall l | l in t.entityLinks :: l in u.entityLinks && u.entityLinks[l] == t.entityLinks[l])
            && (forall l | l in u.entityLinks && l !in t.entityLinks ::
                 && l.namespace == e.namespace && l.entry == e.id && u.entityLinks[l] == e.date
                 && exists n: nat, a :: HeaderAt(e, n, a, l.role) && Linked(outcomes.items, n) && Addresses(u, e, a, l.entity))
            && (forall k | k in t.aliases :: k in u.aliases && u.aliases[k] == t.aliases[k])
            && (forall k | k in u.aliases && k !in t.aliases ::
                 && k.namespace == e.namespace
                 && exists n: nat, a, role ::
                      HeaderAt(e, n, a, role) && Reached(outcomes.items, n) && AliasOf(a, Alias(k.value, k.kind)))
  {
    hide ExtractEntities, Sound, DeriveWith, MakeExtraction, Linked, Reached, HeaderAt, EntitiesCame, AllRecorded, Addresses, AliasOf, Names;
    var u, items := DeriveWith(t, e, clock, outcomes), ExtractEntities(e);
    var upserted, linked := UpsertCame(t, e, clock, outcomes);
    forall l | l in u.entityLinks && l !in t.entityLinks
      ensures exists n: nat, a :: HeaderAt(e, n, a, l.role) && Linked(outcomes.items, n) && Addresses(u, e, a, l.entity)
    {
      var n :| 0 <= n < linked && Names(u.aliases, e, items[n], l.entity) && items[n].role == l.role;
      var a, role := ItemHeader(e, n);
      ItemNames(u, e, a, role, l.entity);
    }
    forall k | k in u.aliases && k !in t.aliases
      ensures exists n: nat, a, role :: HeaderAt(e, n, a, role) && Reached(outcomes.items, n) && AliasOf(a, Alias(k.value, k.kind))
    {
      var n :| 0 <= n < upserted && Alias(k.value, k.kind) in items[n].aliases;
      var a, role := ItemHeader(e, n);
      ItemAlias(a, role, Alias(k.value, k.kind));
    }
  }

  /** The lower-cased address has a row, and the entity of that row is linked to the entry in the role. */
  predicate AddressLinked(t: Tables, e: Entry, a: Address, role: Role) {
    var k := AliasKey(Lower(a.address), Email, e.namespace);
    k in t.aliases && EntityLink(t.aliases[k], e.namespace, e.id, role) in t.entityLinks
  }

  /** After an upsert whose store calls work, every address of from, to, cc and bcc is linked in its header's role. */
  lemma WorkingUpsertLinks(t: Tables, e: Entry, clock: nat -> int, outcomes: Outcomes)
    requires Sound(t) && forall n: nat :: outcomes.items(n).Works?
    ensures var u := DeriveWith(t, e, clock, outcomes);
            && (forall a :: a in e.from ==> AddressLinked(u, e, a, From))
            && (forall a :: a in e.to ==> AddressLinked(u, e, a, To))
            && (forall a :: a in e.cc ==> AddressLinked(u, e, a, Cc))
            && (forall a :: a in e.bcc ==> AddressLinked(u, e, a, Bcc))
  {
    hide Sound, DeriveWith, Recorded, AddressLinked;
    UpsertRecords(t, e, clock, outcomes);
    var u := DeriveWith(t, e, clock, outcomes);
    EachRecorded(u, e, e.from, From);
    EachRecorded(u, e, e.to, To);
    EachRecorded(u, e, e.cc, Cc);
    EachRecorded(u, e, e.bcc, Bcc);
  }

  /** Each link that an upsert adds, wherever it fails, is that of an address of a header, in the header's role. */
  lemma NewLinksAreHeaders(t: Tables, e: Entry, clock: nat -> int, outcomes: Outcomes, l: EntityLink)
    requires Sound(t) && l in DeriveWith(t, e, clock, outcomes).entityLinks && l !in t.entityLinks
    ensures l.namespace == e.namespace && l.entry == e.id && DeriveWith(t, e, clock, outcomes).entityLinks[l] == e.date
    ensures exists a: Address ::
              && AddressLinked(DeriveWith(t, e, clock, outcomes), e, a, l.role)
              && DeriveWith(t, e, clock, outcomes).aliases[AliasKey(Lower(a.address), Email, e.namespace)] == l.entity
              && ((l.role.From? && a in e.from) || (l.role.To? && a in e.to) || (l.role.Cc? && a in e.cc) || (l.role.Bcc? && a in e.bcc))
  {
    hide Sound, DeriveWith, Lower, Trim, AliasOf, Reached, Linked;
    var u := DeriveWith(t, e, clock, outcomes);
    UpsertAddsOnly(t, e, clock, outcomes);
    var n: nat, a :| HeaderAt(e, n, a, l.role) && Linked(outcomes.items, n) && Addresses(u, e, a, l.entity);
    assert AddressLinked(u, e, a, l.role);
  }

  lemma EachRecorded(u: Tables, e: Entry, addresses: seq<Address>, role: Role)
    requires forall n: nat :: n < |addresses| ==> Recorded(u, e, addresses[n], role)
    ensures forall a :: a in addresses ==> AddressLinked(u, e, a, role)
  {
    hide Lower, Trim;
    forall a | a in addresses ensures AddressLinked(u, e, a, role) {
      var n: nat :| n < |addresses| && addresses[n] == a;
      assert Recorded(u, e, addresses[n], role);
    }
  }

  // ---------------------------------------------------------------- the entities

  /** The n-th address is reached, and it is of the entity. */
  predicate Speaks(u: Tables, e: Entry, outcomes: nat -> Outcome, n: nat, a: Address, role: Role, id: nat) {
    HeaderAt(e, n, a, role) && Reached(outcomes, n) && Addresses(u, e, a, id)
  }

  /**
   * An entity after an upsert, from what it was and from the addresses that speak of it: its kind and namespace
   * stay, its aliases stay in front, and it is new only as a person of the entry's namespace; aliases, name and
   * window bounds are its old ones or those of an address; the window is the least that holds the old one and
   * every instant stamped; and an entity that no address speaks of is the one it was.
   */
  ghost predicate EntityAfter(was: Option<Entity>, x: Entity, u: Tables, e: Entry, clock: nat -> int, o: nat -> Outcome, id: nat) {
    && x.id == id
    && x.kind == (if was.Some? then was.value.kind else Person)
    && x.namespace == (if was.Some? then was.value.namespace else e.namespace)
    && (was.Some? ==> was.value.aliases <= x.aliases)
    && (forall b :: b in x.aliases ==>
         (was.Some? && b in was.value.aliases) || exists n: nat, a, role :: Speaks(u, e, o, n, a, role, id) && AliasOf(a, b))
    && ((was.Some? && x.canonical == was.value.canonical)
        || exists n: nat, a, role ::
             Speaks(u, e, o, n, a, role, id) && x.canonical == if Trim(a.name) == "" then LocalPart(a.address) else Trim(a.name))
    && (was.Some? ==> x.firstSeen <= was.value.firstSeen && was.value.lastSeen <= x.lastSeen)
    && (forall n: nat, a, role :: Speaks(u, e, o, n, a, role, id) ==>
         x.firstSeen <= (if e.date.Some? then e.date.value else clock(n)) <= x.lastSeen)
    && ((was.Some? && x.firstSeen == was.value.firstSeen)
        || exists n: nat, a, role ::
             Speaks(u, e, o, n, a, role, id) && x.firstSeen == if e.date.Some? then e.date.value else clock(n))
    && ((was.Some? && x.lastSeen == was.value.lastSeen)
        || exists n: nat, a, role ::
             Speaks(u, e, o, n, a, role, id) && x.lastSeen == if e.date.Some? then e.date.value else clock(n))
    && ((forall n: nat, a, role :: !Speaks(u, e, o, n, a, role, id)) ==> was == Some(x))
  }

  lemma UpsertEntities(t: Tables, e: Entry, clock: nat -> int, outcomes: Outcomes)
    requires Sound(t)
    ensures var u := DeriveWith(t, e, clock, outcomes);
            && t.entities.Keys <= u.entities.Keys
            && forall id | id in u.entities ::
                 EntityAfter(if id in t.entities then Some(t.entities[id]) else None, u.entities[id], u, e, clock, outcomes.items, id)
  {
    hide ExtractEntities, Sound, DeriveWith, AllRecorded, RowsCame, LinksCame, Reached, Linked, EntityCame, EntityAfter;
    var u, items := DeriveWith(t, e, clock, outcomes), ExtractEntities(e);
    var upserted, linked := UpsertCame(t, e, clock, outcomes);
    forall id | id in u.entities
      ensures EntityAfter(if id in t.entities then Some(t.entities[id]) else None, u.entities[id], u, e, clock, outcomes.items, id)
    {
      CameAfter(if id in t.entities then Some(t.entities[id]) else None, u.entities[id], u, e, clock, outcomes.items, id, upserted);
    }
  }

  lemma CameAfter(was: Option<Entity>, x: Entity, u: Tables, e: Entry, clock: nat -> int, o: nat -> Outcome, id: nat, upserted: nat)
    requires upserted <= |ExtractEntities(e)| && EntityCame(was, x, u.aliases, id, e, ExtractEntities(e), clock, upserted)
    requires forall j: nat :: j < |ExtractEntities(e)| ==> (j < upserted <==> Reached(o, j))
    ensures EntityAfter(was, x, u, e, clock, o, id)
  {
    hide ExtractEntities, MakeExtraction, Speaks, Reached, AliasOf, Names, Trim, LocalPart;
    var items := ExtractEntities(e);
    forall n: nat | n < upserted && Names(u.aliases, e, items[n], id)
      ensures exists a, role :: Speaks(u, e, o, n, a, role, id) && SaysItem(items[n], a)
    {
      var a, role := NamedSpeaks(u, e, o, n, id);
    }
    forall n: nat, a, role | Speaks(u, e, o, n, a, role, id) ensures n < upserted && Names(u.aliases, e, items[n], id) {
      SpeaksNamed(u, e, o, n, a, role, id);
    }
  }

  /** What the item of an address says of its entity. */
  ghost predicate SaysItem(item: Extracted, a: Address) {
    && (forall b :: b in item.aliases ==> AliasOf(a, b))
    && item.canonical == if Trim(a.name) == "" then LocalPart(a.address) else Trim(a.name)
  }

  lemma NamedSpeaks(u: Tables, e: Entry, outcomes: nat -> Outcome, n: nat, id: nat) returns (a: Address, role: Role)
    requires n < |ExtractEntities(e)| && Reached(outcomes, n) && Names(u.aliases, e, ExtractEntities(e)[n], id)
    ensures Speaks(u, e, outcomes, n, a, role, id) && SaysItem(ExtractEntities(e)[n], a)
  {
    hide ExtractEntities, Names, Addresses, Reached, HeaderAt, Trim, Lower, LocalPart, AliasOf;
    a, role := ItemHeader(e, n);
    ItemNames(u, e, a, role, id);
    forall b | b in ExtractEntities(e)[n].aliases ensures AliasOf(a, b) {
      ItemAlias(a, role, b);
    }
  }

  lemma SpeaksNamed(u: Tables, e: Entry, outcomes: nat -> Outcome, n: nat, a: Address, role: Role, id: nat)
    requires Speaks(u, e, outcomes, n, a, role, id)
    ensures n < |ExtractEntities(e)| && Reached(outcomes, n) && Names(u.aliases, e, ExtractEntities(e)[n], id)
  {
    hide ExtractEntities, MakeExtraction, Names, Addresses, Reached, HeaderAt;
    HeaderItem(e, n, a, role);
    ItemNames(u, e, a, role, id);
  }

  // ---------------------------------------------------------------- the thread

  /**
   * An entry without a thread leaves threads and their links alone. One with a thread, when its calls work, leaves
   * the thread under the entry's namespace and external id, with the entry's subject unless that is empty, the
   * least window that holds the old one and the instant, and a link of the entry; nothing else changes.
   */
  lemma UpsertThreads(t: Tables, e: Entry, clock: nat -> int, outcomes: Outcomes)
    requires Sound(t) && outcomes.thread.Works?
    ensures var u := DeriveWith(t, e, clock, outcomes);
            if e.threadId == "" then u.threads == t.threads && u.threadLinks == t.threadLinks
            else ThreadsAfter(t, u, e, if e.date.Some? then e.date.value else clock(|e.from| + |e.to| + |e.cc| + |e.bcc|))
  {
    hide ExtractEntities, Sound, DeriveSome, DeriveThread, DeriveSomeThread, ThreadAfter;
    var items := ExtractEntities(e);
    var m := DeriveSome(t, e, items, 0, clock, outcomes.items);
    HeaderCount(e);
    RoundsLeaveThreads(t, e, items, 0, clock, outcomes.items);
    OneThread(m, e, clock(|items|), outcomes.thread);
  }

  lemma HeaderCount(e: Entry)
    ensures |ExtractEntities(e)| == |e.from| + |e.to| + |e.cc| + |e.bcc|
  {
    hide MakeExtraction;
  }

  /** The thread row before and after. */
  predicate ThreadAfter(was: Option<Thread>, x: Thread, e: Entry, at: int) {
    && x.namespace == e.namespace && x.externalId == e.threadId
    && match was
       case None => x.subject == e.subject && x.firstSeen == at && x.lastSeen == at
       case Some(w) =>
         && x.id == w.id
         && x.subject == (if e.subject == "" then w.subject else e.subject)
         && x.firstSeen == (if at < w.firstSeen then at else w.firstSeen)
         && x.lastSeen == (if at > w.lastSeen then at else w.lastSeen)
  }

  lemma {:induction false} RoundsLeaveThreads(t: Tables, e: Entry, items: seq<Extracted>, i: nat, clock: nat -> int, outcomes: nat -> Outcome)
    requires Sound(t) && items == ExtractEntities(e) && i <= |items|
    ensures var u := DeriveSome(t, e, items, i, clock, outcomes);
            && u.threads == t.threads && u.threadLinks == t.threadLinks && Sound(u)
    decreases |items| - i
  {
    hide ExtractEntities, DeriveOne, DeriveUncounted, UpsertEntity, ItemProposal, Sound, ResolvedId;
    if i < |items| {
      RoundSound(t, e, items[i], clock(i));
      RoundLeavesThreads(t, e, items[i], clock(i));
      match outcomes(i)
      case Works => RoundsLeaveThreads(DeriveOne(t, e, items[i], clock(i)), e, items, i + 1, clock, outcomes);
      case _ =>
    }
  }

  lemma RoundLeavesThreads(t: Tables, e: Entry, item: Extracted, now: int)
    ensures UpsertEntity(t, ItemProposal(e, item, now)).threads == t.threads
    ensures UpsertEntity(t, ItemProposal(e, item, now)).threadLinks == t.threadLinks
    ensures DeriveOne(t, e, item, now).threads == t.threads && DeriveOne(t, e, item, now).threadLinks == t.threadLinks
    ensures DeriveUncounted(t, e, item, now).threads == t.threads && DeriveUncounted(t, e, item, now).threadLinks == t.threadLinks
  {
    DeriveOneOthers(t, e, item, now);
    UpsertLeavesThreads(t, ItemProposal(e, item, now));
    hide UpsertEntity, SameOthers, ResolvedId, DeriveOne;
  }

  /** The thread tables before and after, when the entry has a thread and its calls work. */
  predicate ThreadsAfter(t: Tables, u: Tables, e: Entry, at: int) {
    && var k := ThreadKey(e.namespace, e.threadId);
    && u.threads.Keys == t.threads.Keys + {k}
    && (forall m | m in t.threads && m != k :: u.threads[m] == t.threads[m])
    && ThreadAfter(if k in t.threads then Some(t.threads[k]) else None, u.threads[k], e, at)
    && (k !in t.threads ==> forall m | m in t.threads :: t.threads[m].id != u.threads[k].id)
    && var l := ThreadLink(u.threads[k].id, e.namespace, e.id);
    && u.threadLinks == (if l in t.threadLinks then t.threadLinks else t.threadLinks[l := e.date])
    && u.threads[k].entryCount == |set m | m in u.threadLinks && m.thread == u.threads[k].id|
  }

  lemma OneThread(t: Tables, e: Entry, now: int, outcome: Outcome)
    requires Sound(t) && outcome.Works?
    ensures var u := DeriveSomeThread(t, e, now, outcome);
            if e.threadId == "" then u.threads == t.threads && u.threadLinks == t.threadLinks
            else ThreadsAfter(t, u, e, if e.date.Some? then e.date.value else now)
  {
    hide AliasesAgree, EntityLinksHold, ThreadLinksHold, ThreadLinksOf;
    if e.threadId != "" {
      var k := ThreadKey(e.namespace, e.threadId);
      var p := TopicProposal(e, now);
      var x := UpsertedThread(t, p);
      var u := DeriveSomeThread(t, e, now, outcome);
      assert u == LinkThread(UpsertThread(t, p), ThreadLink(x.id, e.namespace, e.id), e.date);
      assert ThreadAfter(if k in t.threads then Some(t.threads[k]) else None, x, e, if e.date.Some? then e.date.value else now);
      hide ThreadAfter;
      SameThreads(u.threadLinks, x.id);
      ThreadRows(t, p, x, u);
    }
  }

  lemma ThreadRows(t: Tables, p: ThreadProposal, x: Thread, u: Tables)
    requires ThreadsKeyed(t.threads) && IdsBelow(t) && x == UpsertedThread(t, p)
    requires u.threads == WithThreadCount(UpsertThread(t, p).(threadLinks := u.threadLinks), x.id).threads
    ensures u.threads.Keys == t.threads.Keys + {p.key}
    ensures forall m | m in t.threads && m != p.key :: u.threads[m] == t.threads[m] && t.threads[m].id != x.id
    ensures u.threads[p.key] == x.(entryCount := |ThreadLinksOf(u.threadLinks, x.id)|)
  {
    hide ThreadLinksOf;
    assert UpsertThread(t, p).threads == t.threads[p.key := x];
    forall m | m in t.threads && m != p.key ensures t.threads[m].id != x.id {
    }
  }

  lemma SameThreads(links: map<ThreadLink, Option<int>>, id: nat)
    ensures ThreadLinksOf(links, id) == set m | m in links && m.thread == id
  {
  }

  // ---------------------------------------------------------------- an address not seen before

  /**
   * The first address of an entry, when neither it nor its name has a row: the loop's first round makes a person
   * named by the trimmed name, or the local part if that is empty, with the lower-cased address as first alias and
   * the trimmed name as second, seen at one instant and counted once.
   */
  lemma NewAddress(t: Tables, e: Entry, a: Address, clock: nat -> int)
    requires Sound(t) && e.from != [] && e.from[0] == a
    requires AliasKey(Lower(a.address), Email, e.namespace) !in t.aliases
    requires a.name != "" ==> AliasKey(Trim(a.name), Name, e.namespace) !in t.aliases
    ensures var u := DeriveOne(t, e, ExtractEntities(e)[0], clock(0));
            var at := if e.date.Some? then e.date.value else clock(0);
            && u.entities == t.entities[t.nextId := Entity(t.nextId, Person,
                                                           if Trim(a.name) == "" then LocalPart(a.address) else Trim(a.name),
                                                           e.namespace,
                                                           [Alias(Lower(a.address), Email)]
                                                           + (if a.name == "" then [] else [Alias(Trim(a.name), Name)]),
                                                           at, at, 1)]
            && u.entityLinks == t.entityLinks[EntityLink(t.nextId, e.namespace, e.id, From) := e.date]
  {
    HeaderItem(e, 0, a, From);
    var item := ExtractEntities(e)[0];
    assert item.aliases == [Alias(Lower(a.address), Email)] + (if a.name == "" then [] else [Alias(Trim(a.name), Name)]);
    hide ExtractEntities, Trim, Lower, LocalPart, Sound, DeriveOne;
    NewItem(t, e, item, clock(0));
  }

  lemma NewItem(t: Tables, e: Entry, item: Extracted, now: int)
    requires Sound(t) && forall b :: b in item.aliases ==> RowKey(b, e.namespace) !in t.aliases
    ensures var u, at := DeriveOne(t, e, item, now), Stamp(e.date, now);
            && u.entities == t.entities[t.nextId := Entity(t.nextId, Person, item.canonical, e.namespace, item.aliases, at, at, 1)]
            && u.entityLinks == t.entityLinks[EntityLink(t.nextId, e.namespace, e.id, item.role) := e.date]
  {
    var p := ItemProposal(e, item, now);
    var l := EntityLink(t.nextId, e.namespace, e.id, item.role);
    NothingFound(t.aliases, item.aliases, e.namespace);
    FreshLink(t, l);
    hide Sound, Lookup, InsertAliases, LinkTexts;
    var m := UpsertEntity(t, p);
    assert m.entities == t.entities[t.nextId := NewEntity(t.nextId, p)] && m.entityLinks == t.entityLinks;
    OnlyLink(t, l, e.date);
    assert DeriveOne(t, e, item, now) == WithEntityCount(InsertLink(m, l, e.date), t.nextId);
    hide UpsertEntity, DeriveOne;
    assert InsertLink(m, l, e.date).entityLinks == t.entityLinks[l := e.date];
  }

  lemma FreshLink(t: Tables, l: EntityLink)
    requires Sound(t) && l.entity == t.nextId
    ensures l !in t.entityLinks && forall m | m in t.entityLinks :: m.entity != l.entity
  {
    hide AliasesAgree, ThreadsKeyed, ThreadLinksHold;
  }

  lemma NothingFound(rows: Rows, wanted: seq<Alias>, namespace: string)
    requires forall a :: a in wanted ==> RowKey(a, namespace) !in rows
    ensures Lookup(rows, wanted, namespace) == None
  {
    LookupFinds(rows, wanted, namespace);
    hide Lookup;
  }

  lemma OnlyLink(t: Tables, l: EntityLink, date: Option<int>)
    requires forall m | m in t.entityLinks :: m.entity != l.entity
    ensures |LinkTexts(t.entityLinks[l := date], l.entity)| == 1
  {
    assert LinkTexts(t.entityLinks[l := date], l.entity) == {LinkText(l)};
  }
}
