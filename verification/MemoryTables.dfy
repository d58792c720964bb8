/**
 * The memory layer's derived tables and what one write does to them (runtime/internal/memory/store.go,
 * layer.go and resolver.go), as values. Instants are integers; ids come from one counter, which stands
 * for monotonic ULID generation.
 */
module MemoryTables {
  import opened Wrappers
  import opened Strings

  datatype AliasKind = Email | Name | Domain

  datatype Alias = Alias(value: string, kind: AliasKind)

  datatype EntityKind = Person | Organization

  datatype Role = From | To | Cc | Bcc | Mention

  datatype Entity = Entity(id: nat, kind: EntityKind, canonical: string, namespace: string,
                           aliases: seq<Alias>, firstSeen: int, lastSeen: int, entryCount: nat)

  datatype Thread = Thread(id: nat, namespace: string, externalId: string, subject: string,
                           firstSeen: int, lastSeen: int, entryCount: nat)

  /** The primary key of an alias row. */
  datatype AliasKey = AliasKey(value: string, kind: AliasKind, namespace: string)

  /** The unique key of a thread row. */
  datatype ThreadKey = ThreadKey(namespace: string, externalId: string)

  datatype EntityLink = EntityLink(entity: nat, namespace: string, entry: string, role: Role)

  datatype ThreadLink = ThreadLink(thread: nat, namespace: string, entry: string)

  datatype Tables = Tables(entities: map<nat, Entity>, aliases: map<AliasKey, nat>,
                           threads: map<ThreadKey, Thread>,
                           entityLinks: map<EntityLink, Option<int>>, threadLinks: map<ThreadLink, Option<int>>,
                           nextId: nat)

  const EMPTY: Tables := Tables(map[], map[], map[], map[], map[], 0)

  function RowKey(a: Alias, namespace: string): AliasKey {
    AliasKey(a.value, a.kind, namespace)
  }

  // ---------------------------------------------------------------- counting

  /** The text `entry_id || ':' || namespace` of a link. */
  function LinkText(l: EntityLink): string {
    l.entry + ":" + l.namespace
  }

  function LinkTexts(links: map<EntityLink, Option<int>>, id: nat): set<string> {
    set l | l in links && l.entity == id :: LinkText(l)
  }

  function ThreadLinksOf(links: map<ThreadLink, Option<int>>, id: nat): set<ThreadLink> {
    set l | l in links && l.thread == id
  }

  /** The distinct (namespace, entry) pairs linked to an entity: what the count is meant to be. */
  function LinkedEntries(links: map<EntityLink, Option<int>>, id: nat): set<(string, string)> {
    set l | l in links && l.entity == id :: (l.namespace, l.entry)
  }

  // ---------------------------------------------------------------- entities

  /** The entity of the first alias that has a row. */
  function Lookup(aliases: map<AliasKey, nat>, wanted: seq<Alias>, namespace: string): Option<nat> {
    if wanted == [] then None
    else if RowKey(wanted[0], namespace) in aliases then Some(aliases[RowKey(wanted[0], namespace)])
    else Lookup(aliases, wanted[1..], namespace)
  }

  /** INSERT OR IGNORE of a row for each alias. */
  function InsertAliases(rows: map<AliasKey, nat>, wanted: seq<Alias>, namespace: string, id: nat): map<AliasKey, nat>
    decreases |wanted|
  {
    if wanted == [] then rows
    else
      var k := RowKey(wanted[0], namespace);
      InsertAliases(if k in rows then rows else rows[k := id], wanted[1..], namespace, id)
  }

  function KindText(kind: AliasKind): string {
    match kind
    case Email => "email"
    case Name => "name"
    case Domain => "domain"
  }

  /** The key the merge remembers an alias by. */
  function SeenKey(a: Alias): string {
    a.value + ":" + KindText(a.kind)
  }

  /** The incoming aliases not listed yet, in order, after the existing ones. */
  function UnionAliases(existing: seq<Alias>, incoming: seq<Alias>): seq<Alias>
    decreases |incoming|
  {
    if incoming == [] then existing
    else UnionAliases(if incoming[0] in existing then existing else existing + [incoming[0]], incoming[1..])
  }

  predicate HasSpace(s: string) {
    ' ' in s
  }

  function ShouldUpgradeCanonical(existing: string, incoming: string): bool {
    if incoming == "" then false
    else if existing == "" then true
    else if existing == incoming then false
    else !HasSpace(existing) && HasSpace(incoming)
  }

  function Min(a: int, b: int): int {
    if b < a then b else a
  }

  function Max(a: int, b: int): int {
    if b > a then b else a
  }

  /** What a write proposes for an entity; first and last seen are filled in already. */
  datatype Proposal = Proposal(kind: EntityKind, canonical: string, namespace: string, aliases: seq<Alias>,
                               firstSeen: int, lastSeen: int)

  function MergeEntity(e: Entity, p: Proposal): Entity {
    e.(canonical := if ShouldUpgradeCanonical(e.canonical, p.canonical) then p.canonical else e.canonical,
       aliases := UnionAliases(e.aliases, p.aliases),
       firstSeen := Min(e.firstSeen, p.firstSeen),
       lastSeen := Max(e.lastSeen, p.lastSeen))
  }

  function NewEntity(id: nat, p: Proposal): Entity {
    Entity(id, p.kind, p.canonical, p.namespace, p.aliases, p.firstSeen, p.lastSeen, 0)
  }

  /** The id an upsert resolves to. */
  function ResolvedId(t: Tables, p: Proposal): nat {
    match Lookup(t.aliases, p.aliases, p.namespace)
    case Some(id) => id
    case None => t.nextId
  }

  /** The entity row an upsert leaves. */
  function UpsertedEntity(t: Tables, p: Proposal): Entity {
    var id := ResolvedId(t, p);
    if Lookup(t.aliases, p.aliases, p.namespace).Some? && id in t.entities
    then MergeEntity(t.entities[id], p)
    else NewEntity(id, p)
  }

  /** upsertEntityLocked. */
  function UpsertEntity(t: Tables, p: Proposal): Tables {
    var id := ResolvedId(t, p);
    var e := UpsertedEntity(t, p);
    t.(entities := t.entities[id := e],
       aliases := InsertAliases(t.aliases, e.aliases, e.namespace, id),
       nextId := if Lookup(t.aliases, p.aliases, p.namespace).None? then t.nextId + 1 else t.nextId)
  }

  function WithEntityCount(t: Tables, id: nat): Tables {
    if id !in t.entities then t
    else t.(entities := t.entities[id := t.entities[id].(entryCount := |LinkTexts(t.entityLinks, id)|)])
  }

  /** INSERT OR IGNORE of a link. */
  function InsertLink(t: Tables, l: EntityLink, date: Option<int>): Tables {
    if l in t.entityLinks then t else t.(entityLinks := t.entityLinks[l := date])
  }

  /** LinkEntityEntry: insert, then refresh the count. */
  function LinkEntity(t: Tables, l: EntityLink, date: Option<int>): Tables {
    WithEntityCount(InsertLink(t, l, date), l.entity)
  }

  // ---------------------------------------------------------------- threads

  datatype ThreadProposal = ThreadProposal(key: ThreadKey, subject: string, firstSeen: int, lastSeen: int)

  function UpsertedThread(t: Tables, p: ThreadProposal): Thread {
    if p.key in t.threads then
      var was := t.threads[p.key];
      was.(subject := if p.subject == "" then was.subject else p.subject,
           firstSeen := Min(was.firstSeen, p.firstSeen),
           lastSeen := Max(was.lastSeen, p.lastSeen))
    else Thread(t.nextId, p.key.namespace, p.key.externalId, p.subject, p.firstSeen, p.lastSeen, 0)
  }

  function UpsertThread(t: Tables, p: ThreadProposal): Tables {
    t.(threads := t.threads[p.key := UpsertedThread(t, p)],
       nextId := if p.key in t.threads then t.nextId else t.nextId + 1)
  }

  /** Refreshes the count of the thread with the given id. */
  function WithThreadCount(t: Tables, id: nat): Tables {
    t.(threads := map k | k in t.threads ::
         if t.threads[k].id == id then t.threads[k].(entryCount := |ThreadLinksOf(t.threadLinks, id)|) else t.threads[k])
  }

  function InsertTopic(t: Tables, l: ThreadLink, date: Option<int>): Tables {
    if l in t.threadLinks then t else t.(threadLinks := t.threadLinks[l := date])
  }

  function LinkThread(t: Tables, l: ThreadLink, date: Option<int>): Tables {
    WithThreadCount(InsertTopic(t, l, date), l.thread)
  }

  // ---------------------------------------------------------------- unlinking

  function EntitiesOf(t: Tables, namespace: string, entry: string): set<nat> {
    set l | l in t.entityLinks && l.namespace == namespace && l.entry == entry :: l.entity
  }

  function ThreadsOf(t: Tables, namespace: string, entry: string): set<nat> {
    set l | l in t.threadLinks && l.namespace == namespace && l.entry == entry :: l.thread
  }

  function DropLinks(t: Tables, namespace: string, entry: string): Tables {
    t.(entityLinks := map l | l in t.entityLinks && !(l.namespace == namespace && l.entry == entry) :: t.entityLinks[l],
       threadLinks := map l | l in t.threadLinks && !(l.namespace == namespace && l.entry == entry) :: t.threadLinks[l])
  }

  function DropEntityLinks(t: Tables, namespace: string, entry: string): Tables {
    t.(entityLinks := map l | l in t.entityLinks && !(l.namespace == namespace && l.entry == entry) :: t.entityLinks[l])
  }

  /** Refreshes the counts of the entities and threads in the two sets. */
  function WithCounts(t: Tables, entities: set<nat>, threads: set<nat>): Tables {
    t.(entities := map id | id in t.entities ::
         if id in entities then t.entities[id].(entryCount := |LinkTexts(t.entityLinks, id)|) else t.entities[id],
       threads := map k | k in t.threads ::
         if t.threads[k].id in threads then t.threads[k].(entryCount := |ThreadLinksOf(t.threadLinks, t.threads[k].id)|)
         else t.threads[k])
  }

  /** UnlinkEntry: drop the links of one entry and refresh what was linked. */
  function Unlink(t: Tables, namespace: string, entry: string): Tables {
    WithCounts(DropLinks(t, namespace, entry), EntitiesOf(t, namespace, entry), ThreadsOf(t, namespace, entry))
  }

  /** UnlinkEntry as far as its statements work: the thread links may stay, and only some counts are refreshed. */
  function UnlinkSome(t: Tables, namespace: string, entry: string, threadsToo: bool, entities: set<nat>, threads: set<nat>): Tables {
    WithCounts(if threadsToo then DropLinks(t, namespace, entry) else DropEntityLinks(t, namespace, entry), entities, threads)
  }

  // ---------------------------------------------------------------- the resolver

  /** One parsed address of a header. */
  datatype Address = Address(name: string, address: string)

  /** A memory entry as the resolver sees it: parsed headers, the date if there is one, the thread. */
  datatype Entry = Entry(namespace: string, id: string, from: seq<Address>, to: seq<Address>,
                         cc: seq<Address>, bcc: seq<Address>, date: Option<int>,
                         threadId: string, subject: string)

  datatype Extracted = Extracted(canonical: string, aliases: seq<Alias>, role: Role)

  predicate IsSpace(c: char) {
    c in {' ', '\t', '\n', '\r'} || c as int in {11, 12, 0x85, 0xA0}
  }

  function TrimLeft(s: string): string {
    if s != "" && IsSpace(s[0]) then TrimLeft(s[1..]) else s
  }

  function TrimRight(s: string): string {
    if s != "" && IsSpace(s[|s| - 1]) then TrimRight(s[..|s| - 1]) else s
  }

  function Trim(s: string): string {
    TrimRight(TrimLeft(s))
  }

  function Lower(s: string): string {
    seq(|s|, i requires 0 <= i < |s| => if 'A' <= s[i] <= 'Z' then (s[i] as int + 32) as char else s[i])
  }

  /** The text before the first at-sign, unless that is nothing. */
  function LocalPart(address: string): string {
    var at := IndexOf(address, '@', 0);
    if at == 0 || at == |address| then address else address[..at]
  }

  /** makeExtraction: the e-mail alias comes first. */
  function MakeExtraction(a: Address, role: Role): Extracted {
    var name := Trim(a.name);
    var email := Alias(Lower(a.address), Email);
    Extracted(if name == "" then LocalPart(a.address) else name,
              if a.name == "" then [email] else [email, Alias(name, Name)],
              role)
  }

  function ExtractAll(addresses: seq<Address>, role: Role): (items: seq<Extracted>)
    ensures |items| == |addresses|
    ensures forall i :: 0 <= i < |items| ==> items[i] == MakeExtraction(addresses[i], role)
  {
    seq(|addresses|, i requires 0 <= i < |addresses| => MakeExtraction(addresses[i], role))
  }

  function ExtractEntities(e: Entry): seq<Extracted> {
    ExtractAll(e.from, From) + ExtractAll(e.to, To) + ExtractAll(e.cc, Cc) + ExtractAll(e.bcc, Bcc)
  }

  // ---------------------------------------------------------------- the layer's writes

  /** An undated write is stamped with the clock. */
  function Stamp(date: Option<int>, now: int): int {
    match date
    case Some(d) => d
    case None => now
  }

  function ItemProposal(e: Entry, item: Extracted, now: int): Proposal {
    Proposal(Person, item.canonical, e.namespace, item.aliases, Stamp(e.date, now), Stamp(e.date, now))
  }

  /** One round of the loop in deriveEntities: upsert the entity, link it. */
  function DeriveOne(t: Tables, e: Entry, item: Extracted, now: int): Tables {
    var p := ItemProposal(e, item, now);
    LinkEntity(UpsertEntity(t, p), EntityLink(ResolvedId(t, p), e.namespace, e.id, item.role), e.date)
  }

  /** deriveEntities from item i on; the clock is read once per item. */
  function DeriveFrom(t: Tables, e: Entry, items: seq<Extracted>, i: nat, clock: nat -> int): Tables
    requires i <= |items|
    decreases |items| - i
  {
    if i == |items| then t else DeriveFrom(DeriveOne(t, e, items[i], clock(i)), e, items, i + 1, clock)
  }

  /** deriveThread. */
  function DeriveThread(t: Tables, e: Entry, now: int): Tables {
    if e.threadId == "" then t
    else
      var p := ThreadProposal(ThreadKey(e.namespace, e.threadId), e.subject, Stamp(e.date, now), Stamp(e.date, now));
      LinkThread(UpsertThread(t, p), ThreadLink(UpsertedThread(t, p).id, e.namespace, e.id), e.date)
  }

  /** The derived state after layerImpl.Upsert has passed its checks and the adapter write. */
  function Derive(t: Tables, e: Entry, clock: nat -> int): Tables {
    var items := ExtractEntities(e);
    DeriveThread(DeriveFrom(t, e, items, 0, clock), e, clock(|items|))
  }

  // ---------------------------------------------------------------- derivations that fail part way

  /**
   * How the two store calls for one entity or thread fare. An upsert is a transaction, so one that fails leaves
   * the tables alone; a link call can fail before its insertion, or after it when it refreshes the count.
   */
  datatype Outcome = Works | UpsertFails | LinkFails | CountFails

  datatype Outcomes = Outcomes(items: nat -> Outcome, thread: Outcome)

  /** A round of the loop whose count is not refreshed. */
  function DeriveUncounted(t: Tables, e: Entry, item: Extracted, now: int): Tables {
    var p := ItemProposal(e, item, now);
    InsertLink(UpsertEntity(t, p), EntityLink(ResolvedId(t, p), e.namespace, e.id, item.role), e.date)
  }

  function TopicProposal(e: Entry, now: int): ThreadProposal {
    ThreadProposal(ThreadKey(e.namespace, e.threadId), e.subject, Stamp(e.date, now), Stamp(e.date, now))
  }

  function DeriveThreadUncounted(t: Tables, e: Entry, now: int): Tables {
    var p := TopicProposal(e, now);
    InsertTopic(UpsertThread(t, p), ThreadLink(UpsertedThread(t, p).id, e.namespace, e.id), e.date)
  }

  /** deriveEntities from item i on: the first failing call ends the loop. */
  function DeriveSome(t: Tables, e: Entry, items: seq<Extracted>, i: nat, clock: nat -> int, outcomes: nat -> Outcome): Tables
    requires i <= |items|
    decreases |items| - i
  {
    if i == |items| then t
    else
      match outcomes(i)
      case UpsertFails => t
      case LinkFails => UpsertEntity(t, ItemProposal(e, items[i], clock(i)))
      case CountFails => DeriveUncounted(t, e, items[i], clock(i))
      case Works => DeriveSome(DeriveOne(t, e, items[i], clock(i)), e, items, i + 1, clock, outcomes)
  }

  function DeriveSomeThread(t: Tables, e: Entry, now: int, outcome: Outcome): Tables {
    if e.threadId == "" then t
    else
      match outcome
      case UpsertFails => t
      case LinkFails => UpsertThread(t, TopicProposal(e, now))
      case CountFails => DeriveThreadUncounted(t, e, now)
      case Works => DeriveThread(t, e, now)
  }

  /** Errors of either derivation are logged and passed over; the thread is derived whatever became of the entities. */
  function DeriveWith(t: Tables, e: Entry, clock: nat -> int, outcomes: Outcomes): Tables {
    var items := ExtractEntities(e);
    DeriveSomeThread(DeriveSome(t, e, items, 0, clock, outcomes.items), e, clock(|items|), outcomes.thread)
  }
}
