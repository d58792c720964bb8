/**
 * Audit entries, their canonical text and their hash (runtime/internal/audit/entry.go and chain.go).
 */
module AuditEntry {
  import opened Wrappers
  import opened Json

  datatype Actor = Actor(kind: string, id: string)

  datatype Subject = Subject(kind: string, id: string)

  datatype Context = Context(requestId: string, sessionId: string, correlationId: string,
                             ip: string, userAgent: string, runtimeVersion: string)

  /** timestamp is the RFC 3339 text of the instant; an empty data map stands for an absent one. */
  datatype Entry = Entry(id: string, timestamp: string, kind: string, actor: Actor,
                         subject: Option<Subject>, outcome: string, data: map<string, Json>,
                         context: Option<Context>, prevHash: string, hash: string)

  /** The first missing field, in the order Validate looks for them. */
  function MissingField(e: Entry): (field: Option<string>)
    ensures field.None? <==>
            && e.kind != "" && e.actor.kind != "" && e.actor.id != "" && e.outcome != ""
            && (e.subject.Some? ==> e.subject.value.kind != "" && e.subject.value.id != "")
  {
    if e.kind == "" then Some("type")
    else if e.actor.kind == "" then Some("actor.kind")
    else if e.actor.id == "" then Some("actor.id")
    else if e.outcome == "" then Some("outcome")
    else if e.subject.Some? && e.subject.value.kind == "" then Some("subject.kind")
    else if e.subject.Some? && e.subject.value.id == "" then Some("subject.id")
    else None
  }

  // ---------------------------------------------------------------- JSON form

  /** The member names an entry uses, at any depth. */
  datatype Key =
    | Id | Timestamp | Kind | ActorKey | SubjectKey | Outcome | Data | ContextKey | PrevHash | Hash
    | ActorKind
    | RequestId | SessionId | CorrelationId | Ip | UserAgent | RuntimeVersion

  function Name(k: Key): (s: string)
    ensures KeyNamed(s) == Some(k)
  {
    match k
    case Id => "id"
    case Timestamp => "timestamp"
    case Kind => "type"
    case ActorKey => "actor"
    case SubjectKey => "subject"
    case Outcome => "outcome"
    case Data => "data"
    case ContextKey => "context"
    case PrevHash => "prev_hash"
    case Hash => "hash"
    case ActorKind => "kind"
    case RequestId => "request_id"
    case SessionId => "session_id"
    case CorrelationId => "correlation_id"
    case Ip => "ip"
    case UserAgent => "user_agent"
    case RuntimeVersion => "runtime_version"
  }

  function KeyNamed(s: string): Option<Key> {
    match s
    case "id" => Some(Id)
    case "timestamp" => Some(Timestamp)
    case "type" => Some(Kind)
    case "actor" => Some(ActorKey)
    case "subject" => Some(SubjectKey)
    case "outcome" => Some(Outcome)
    case "data" => Some(Data)
    case "context" => Some(ContextKey)
    case "prev_hash" => Some(PrevHash)
    case "hash" => Some(Hash)
    case "kind" => Some(ActorKind)
    case "request_id" => Some(RequestId)
    case "session_id" => Some(SessionId)
    case "correlation_id" => Some(CorrelationId)
    case "ip" => Some(Ip)
    case "user_agent" => Some(UserAgent)
    case "runtime_version" => Some(RuntimeVersion)
    case _ => None
  }

  /** The object whose members are the fields that are present. */
  function Fields(f: Key -> Option<Json>): (v: Json)
    ensures v.Object?
    ensures forall k :: if f(k).Some? then Name(k) in v.members && v.members[Name(k)] == f(k).value
                        else Name(k) !in v.members
    ensures forall s :: s in v.members ==> exists k :: s == Name(k)
  {
    var names := set k: Key | f(k).Some? :: Name(k);
    Object(map s | s in names :: f(KeyNamed(s).value).value)
  }

  /** A string member left out when empty. */
  function NonEmpty(text: string): Option<Json> {
    if text == "" then None else Some(String(text))
  }

  function ContextField(c: Context, k: Key): Option<Json> {
    match k
    case RequestId => NonEmpty(c.requestId)
    case SessionId => NonEmpty(c.sessionId)
    case CorrelationId => NonEmpty(c.correlationId)
    case Ip => NonEmpty(c.ip)
    case UserAgent => NonEmpty(c.userAgent)
    case RuntimeVersion => NonEmpty(c.runtimeVersion)
    case _ => None
  }

  function ContextFields(c: Context): (f: Key -> Option<Json>)
    ensures forall k :: f(k) == ContextField(c, k)
  {
    k => ContextField(c, k)
  }

  function ContextJson(c: Context): (v: Json)
    ensures v.Object?
  {
    Fields(ContextFields(c))
  }

  function PartyField(kind: string, id: string, k: Key): Option<Json> {
    match k
    case ActorKind => Some(String(kind))
    case Id => Some(String(id))
    case _ => None
  }

  function PartyFields(kind: string, id: string): (f: Key -> Option<Json>)
    ensures forall k :: f(k) == PartyField(kind, id, k)
  {
    k => PartyField(kind, id, k)
  }

  function PartyJson(kind: string, id: string): (v: Json)
    ensures v.Object?
  {
    Fields(PartyFields(kind, id))
  }

  function EntryField(e: Entry, k: Key): Option<Json> {
    match k
    case Id => Some(String(e.id))
    case Timestamp => Some(String(e.timestamp))
    case Kind => Some(String(e.kind))
    case ActorKey => Some(PartyJson(e.actor.kind, e.actor.id))
    case SubjectKey => if e.subject.None? then None else Some(PartyJson(e.subject.value.kind, e.subject.value.id))
    case Outcome => Some(String(e.outcome))
    case Data => if e.data == map[] then None else Some(Object(e.data))
    case ContextKey => if e.context.None? then None else Some(ContextJson(e.context.value))
    case PrevHash => Some(String(e.prevHash))
    case Hash => Some(String(e.hash))
    case _ => None
  }

  function EntryFields(e: Entry): (f: Key -> Option<Json>)
    ensures forall k :: f(k) == EntryField(e, k)
  {
    k => EntryField(e, k)
  }

  function EntryJson(e: Entry): Json {
    Fields(EntryFields(e))
  }

  /** A string member, "" when it is absent or not a string. */
  function Field(m: map<string, Json>, k: Key): string {
    if Name(k) in m && m[Name(k)].String? then m[Name(k)].text else ""
  }

  function Members(m: map<string, Json>, k: Key): map<string, Json> {
    if Name(k) in m && m[Name(k)].Object? then m[Name(k)].members else map[]
  }

  function ContextOf(m: map<string, Json>): Context {
    Context(Field(m, RequestId), Field(m, SessionId), Field(m, CorrelationId),
            Field(m, Ip), Field(m, UserAgent), Field(m, RuntimeVersion))
  }

  /** Reads an entry off its JSON form. */
  function EntryOf(v: Json): Entry
    requires v.Object?
  {
    var m := v.members;
    var actor, subject := Members(m, ActorKey), Members(m, SubjectKey);
    Entry(Field(m, Id), Field(m, Timestamp), Field(m, Kind),
          Actor(Field(actor, ActorKind), Field(actor, Id)),
          if Name(SubjectKey) in m then Some(Subject(Field(subject, ActorKind), Field(subject, Id))) else None,
          Field(m, Outcome), Members(m, Data),
          if Name(ContextKey) in m then Some(ContextOf(Members(m, ContextKey))) else None,
          Field(m, PrevHash), Field(m, Hash))
  }

  /** What an object built from fields holds under one name. */
  lemma FieldReads(f: Key -> Option<Json>, k: Key)
    ensures var m := Fields(f).members;
            && (Name(k) in m <==> f(k).Some?)
            && (f(k).Some? ==> m[Name(k)] == f(k).value)
            && Field(m, k) == (if f(k).Some? && f(k).value.String? then f(k).value.text else "")
            && Members(m, k) == (if f(k).Some? && f(k).value.Object? then f(k).value.members else map[])
  {
    hide Name, KeyNamed;
  }

  lemma ContextReads(c: Context)
    ensures ContextOf(ContextJson(c).members) == c
  {
    var f := ContextFields(c);
    FieldReads(f, RequestId);
    FieldReads(f, SessionId);
    FieldReads(f, CorrelationId);
    FieldReads(f, Ip);
    FieldReads(f, UserAgent);
    FieldReads(f, RuntimeVersion);
    hide Name, KeyNamed, Fields, Field, Members;
  }

  lemma PartyReads(kind: string, id: string)
    ensures var m := PartyJson(kind, id).members; Field(m, ActorKind) == kind && Field(m, Id) == id
  {
    FieldReads(PartyFields(kind, id), ActorKind);
    FieldReads(PartyFields(kind, id), Id);
    hide Name, KeyNamed, Fields, Field, Members;
  }

  /** The JSON form loses nothing. */
  lemma EntryReads(e: Entry)
    ensures EntryOf(EntryJson(e)) == e
  {
    hide Name, KeyNamed, Fields, ContextOf, ContextJson, PartyJson, Field, Members;
    var f := EntryFields(e);
    FieldReads(f, Id);
    FieldReads(f, Timestamp);
    FieldReads(f, Kind);
    FieldReads(f, ActorKey);
    FieldReads(f, SubjectKey);
    FieldReads(f, Outcome);
    FieldReads(f, Data);
    FieldReads(f, ContextKey);
    FieldReads(f, PrevHash);
    FieldReads(f, Hash);
    PartyReads(e.actor.kind, e.actor.id);
    if e.subject.Some? {
      PartyReads(e.subject.value.kind, e.subject.value.id);
    }
    if e.context.Some? {
      ContextReads(e.context.value);
    }
  }

  // ---------------------------------------------------------------- the members, by name

  /** A text is a member under its name exactly if it is not empty. */
  predicate HasText(m: map<string, Json>, name: string, text: string) {
    (name in m <==> text != "") && (name in m ==> m[name] == String(text))
  }

  /** The object of a context: each field that is not empty under its name, and no other member. */
  predicate ContextObject(v: Json, c: Context) {
    && v.Object?
    && HasText(v.members, "request_id", c.requestId)
    && HasText(v.members, "session_id", c.sessionId)
    && HasText(v.members, "correlation_id", c.correlationId)
    && HasText(v.members, "ip", c.ip)
    && HasText(v.members, "user_agent", c.userAgent)
    && HasText(v.members, "runtime_version", c.runtimeVersion)
    && forall s :: s in v.members ==> ContextName(s)
  }

  predicate ContextName(s: string) {
    s == "request_id" || s == "session_id" || s == "correlation_id" || s == "ip" || s == "user_agent" || s == "runtime_version"
  }

  predicate EntryName(s: string) {
    || s == "id" || s == "timestamp" || s == "type" || s == "actor" || s == "subject" || s == "outcome" || s == "data"
    || s == "context" || s == "prev_hash" || s == "hash"
  }

  predicate Has(m: map<string, Json>, name: string, value: Json) {
    name in m && m[name] == value
  }

  /** The members that are always there. */
  predicate AlwaysThere(v: Json, e: Entry) {
    && v.Object?
    && Has(v.members, "id", String(e.id)) && Has(v.members, "timestamp", String(e.timestamp)) && Has(v.members, "type", String(e.kind))
    && Has(v.members, "outcome", String(e.outcome)) && Has(v.members, "prev_hash", String(e.prevHash))
    && Has(v.members, "hash", String(e.hash))
    && Has(v.members, "actor", Object(map["kind" := String(e.actor.kind), "id" := String(e.actor.id)]))
  }

  /** The members that depend on the entry. */
  predicate SometimesThere(v: Json, e: Entry) {
    && v.Object?
    && var m := v.members;
    && ("subject" in m <==> e.subject.Some?)
    && ("subject" in m ==> m["subject"] == Object(map["kind" := String(e.subject.value.kind), "id" := String(e.subject.value.id)]))
    && ("data" in m <==> e.data != map[]) && ("data" in m ==> m["data"] == Object(e.data))
    && ("context" in m <==> e.context.Some?) && ("context" in m ==> ContextObject(m["context"], e.context.value))
  }

  /** The object of an entry: subject and context if there are any, data unless it is empty, and the rest always. */
  predicate EntryObject(v: Json, e: Entry) {
    && AlwaysThere(v, e) && SometimesThere(v, e)
    && forall s :: s in v.members ==> EntryName(s)
  }

  lemma ContextIs(c: Context)
    ensures ContextObject(ContextJson(c), c)
  {
    hide Name, KeyNamed, Fields, HasText, ContextName, ContextField, ContextFields;
    FieldHasText(c, RequestId);
    FieldHasText(c, SessionId);
    FieldHasText(c, CorrelationId);
    FieldHasText(c, Ip);
    FieldHasText(c, UserAgent);
    FieldHasText(c, RuntimeVersion);
    ContextNoOther(c);
  }

  lemma FieldHasText(c: Context, k: Key)
    ensures var m := ContextJson(c).members;
            match k
            case RequestId => HasText(m, "request_id", c.requestId)
            case SessionId => HasText(m, "session_id", c.sessionId)
            case CorrelationId => HasText(m, "correlation_id", c.correlationId)
            case Ip => HasText(m, "ip", c.ip)
            case UserAgent => HasText(m, "user_agent", c.userAgent)
            case RuntimeVersion => HasText(m, "runtime_version", c.runtimeVersion)
            case _ => true
  {
    hide KeyNamed, Fields;
    NamedMember(ContextFields(c), k);
  }

  lemma ContextNoOther(c: Context)
    ensures forall s :: s in ContextJson(c).members ==> ContextName(s)
  {
    hide Name, KeyNamed, Fields, ContextName;
    forall s | s in ContextJson(c).members ensures ContextName(s) {
      var k := MemberNamed(ContextFields(c), s);
      NamesContext(k);
    }
  }

  lemma NamesContext(k: Key)
    ensures k in {RequestId, SessionId, CorrelationId, Ip, UserAgent, RuntimeVersion} ==> ContextName(Name(k))
  {
  }

  lemma NamesEntry(k: Key)
    ensures k in {Id, Timestamp, Kind, ActorKey, SubjectKey, Outcome, Data, ContextKey, PrevHash, Hash} ==> EntryName(Name(k))
  {
  }

  lemma PartyNames()
    ensures Name(ActorKind) == "kind" && Name(Id) == "id" && Name(ActorKind) != Name(Id)
  {
  }

  lemma EntryNames()
    ensures Name(Id) == "id" && Name(Timestamp) == "timestamp" && Name(Kind) == "type" && Name(ActorKey) == "actor"
    ensures Name(SubjectKey) == "subject" && Name(Outcome) == "outcome" && Name(Data) == "data" && Name(ContextKey) == "context"
    ensures Name(PrevHash) == "prev_hash" && Name(Hash) == "hash" && Name(ActorKind) == "kind"
  {
  }

  lemma MemberNamed(f: Key -> Option<Json>, s: string) returns (k: Key)
    requires s in Fields(f).members
    ensures s == Name(k) && f(k).Some?
  {
    hide Name, KeyNamed;
    k :| s == Name(k);
  }

  lemma NamedMember(f: Key -> Option<Json>, k: Key)
    ensures Name(k) in Fields(f).members <==> f(k).Some?
    ensures f(k).Some? ==> Fields(f).members[Name(k)] == f(k).value
  {
    hide Name, KeyNamed;
  }

  lemma PartyIs(kind: string, id: string)
    ensures PartyJson(kind, id) == Object(map["kind" := String(kind), "id" := String(id)])
  {
    hide Name, KeyNamed, Fields;
    var f := PartyFields(kind, id);
    var m := PartyJson(kind, id).members;
    PartyNames();
    NamedMember(f, ActorKind);
    NamedMember(f, Id);
    forall s | s in m ensures s == Name(ActorKind) || s == Name(Id) {
      var k := MemberNamed(f, s);
    }
    hide PartyJson;
    TwoMembers(m, Name(ActorKind), String(kind), Name(Id), String(id));
  }

  lemma TwoMembers(m: map<string, Json>, a: string, x: Json, b: string, y: Json)
    requires a != b && a in m && m[a] == x && b in m && m[b] == y
    requires forall s :: s in m ==> s == a || s == b
    ensures m == map[a := x, b := y]
  {
  }

  lemma EntryIs(e: Entry)
    ensures EntryObject(EntryJson(e), e)
  {
    hide EntryJson, AlwaysThere, SometimesThere, EntryName;
    EntryAlways(e);
    EntrySometimes(e);
    EntryNoOther(e);
  }

  lemma EntryAlways(e: Entry)
    ensures AlwaysThere(EntryJson(e), e)
  {
    hide Name, KeyNamed, Fields, PartyJson, ContextJson;
    var f := EntryFields(e);
    EntryNames();
    PartyIs(e.actor.kind, e.actor.id);
    NamedMember(f, Id);
    NamedMember(f, Timestamp);
    NamedMember(f, Kind);
    NamedMember(f, ActorKey);
    NamedMember(f, Outcome);
    NamedMember(f, PrevHash);
    NamedMember(f, Hash);
  }

  lemma EntrySometimes(e: Entry)
    ensures SometimesThere(EntryJson(e), e)
  {
    hide Name, KeyNamed, Fields, PartyJson, ContextJson, ContextObject;
    var f := EntryFields(e);
    EntryNames();
    NamedMember(f, SubjectKey);
    NamedMember(f, Data);
    NamedMember(f, ContextKey);
    if e.subject.Some? {
      PartyIs(e.subject.value.kind, e.subject.value.id);
    }
    if e.context.Some? {
      ContextIs(e.context.value);
    }
  }

  lemma EntryNoOther(e: Entry)
    ensures EntryJson(e).Object?
    ensures forall s :: s in EntryJson(e).members ==> EntryName(s)
  {
    hide Name, KeyNamed, Fields, PartyJson, ContextJson, EntryName;
    forall s | s in EntryJson(e).members ensures EntryName(s) {
      var k := MemberNamed(EntryFields(e), s);
      NamesEntry(k);
    }
  }

  // ---------------------------------------------------------------- one object

  predicate SameAt(m: map<string, Json>, n: map<string, Json>, name: string) {
    (name in m <==> name in n) && (name in m ==> n[name] == m[name])
  }

  lemma SameEverywhere(m: map<string, Json>, n: map<string, Json>)
    requires forall s :: s in m || s in n ==> SameAt(m, n, s)
    ensures m == n
  {
    forall s | s in m ensures s in n && n[s] == m[s] {
      assert SameAt(m, n, s);
    }
    forall s | s in n ensures s in m {
      assert SameAt(m, n, s);
    }
  }

  lemma ContextObjectUnique(v: Json, w: Json, c: Context)
    requires ContextObject(v, c) && ContextObject(w, c)
    ensures v == w
  {
    hide SameAt, HasText;
    var m, n := v.members, w.members;
    SameText(m, n, "request_id", c.requestId);
    SameText(m, n, "session_id", c.sessionId);
    SameText(m, n, "correlation_id", c.correlationId);
    SameText(m, n, "ip", c.ip);
    SameText(m, n, "user_agent", c.userAgent);
    SameText(m, n, "runtime_version", c.runtimeVersion);
    forall s | s in m || s in n ensures SameAt(m, n, s) {
      assert ContextName(s);
    }
    SameEverywhere(m, n);
  }

  lemma SameText(m: map<string, Json>, n: map<string, Json>, name: string, text: string)
    requires HasText(m, name, text) && HasText(n, name, text)
    ensures SameAt(m, n, name)
  {
  }

  lemma SameHas(m: map<string, Json>, n: map<string, Json>, name: string, value: Json)
    requires Has(m, name, value) && Has(n, name, value)
    ensures SameAt(m, n, name)
  {
  }

  /** Only one value is the object of an entry. */
  lemma EntryObjectUnique(v: Json, w: Json, e: Entry)
    requires EntryObject(v, e) && EntryObject(w, e)
    ensures v == w
  {
    hide SameAt, Has, SometimesThere;
    var m, n := v.members, w.members;
    SameHas(m, n, "id", String(e.id));
    SameHas(m, n, "timestamp", String(e.timestamp));
    SameHas(m, n, "type", String(e.kind));
    SameHas(m, n, "outcome", String(e.outcome));
    SameHas(m, n, "prev_hash", String(e.prevHash));
    SameHas(m, n, "hash", String(e.hash));
    SameHas(m, n, "actor", Object(map["kind" := String(e.actor.kind), "id" := String(e.actor.id)]));
    SameSometimes(v, w, e);
    forall s | s in m || s in n ensures SameAt(m, n, s) {
      assert EntryName(s);
    }
    SameEverywhere(m, n);
  }

  lemma SameSometimes(v: Json, w: Json, e: Entry)
    requires SometimesThere(v, e) && SometimesThere(w, e)
    ensures SameAt(v.members, w.members, "subject") && SameAt(v.members, w.members, "data") && SameAt(v.members, w.members, "context")
  {
    hide ContextObject;
    if e.context.Some? {
      ContextObjectUnique(v.members["context"], w.members["context"], e.context.value);
    }
  }

  /** So an entry has one hash under each predecessor. */
  lemma HashUnique(sha: string -> string, prevHash: string, e: Entry, a: string, b: string)
    requires HashesEntry(sha, prevHash, e, a) && HashesEntry(sha, prevHash, e, b)
    ensures a == b
  {
    hide EntryObject, Print, Parse, WellFormedData;
    var v: Json :| EntryObject(v, e.(hash := "")) && a == "sha256:" + sha(prevHash + Print(v));
    var w: Json :| EntryObject(w, e.(hash := "")) && b == "sha256:" + sha(prevHash + Print(w));
    EntryObjectUnique(v, w, e.(hash := ""));
  }

  predicate WellFormedData(data: map<string, Json>) {
    forall k | k in data :: WellFormed(data[k])
  }

  lemma FieldsWellFormed(f: Key -> Option<Json>)
    requires forall k :: f(k).Some? ==> WellFormed(f(k).value)
    ensures WellFormed(Fields(f))
  {
    hide Name, KeyNamed;
  }

  lemma EntryWellFormed(e: Entry)
    requires WellFormedData(e.data)
    ensures WellFormed(EntryJson(e))
  {
    forall k | EntryField(e, k).Some? ensures WellFormed(EntryField(e, k).value) {
      if k == ActorKey {
        FieldsWellFormed(PartyFields(e.actor.kind, e.actor.id));
      } else if k == SubjectKey {
        FieldsWellFormed(PartyFields(e.subject.value.kind, e.subject.value.id));
      } else if k == ContextKey {
        FieldsWellFormed(ContextFields(e.context.value));
      }
    }
    FieldsWellFormed(EntryFields(e));
  }

  // ---------------------------------------------------------------- hash

  const GENESIS_HASH: string := "sha256:0000000000000000000000000000000000000000000000000000000000000000"
  const HASH_PREFIX: string := "sha256:"

  /** SHA-256 in hexadecimal, of which only the length of its output is known. */
  ghost predicate IsSha(sha: string -> string) {
    forall x :: |sha(x)| == 64
  }

  /** canonicalJSON of the entry with its own hash blanked. */
  ghost function CanonicalText(e: Entry): string {
    Print(EntryJson(e.(hash := "")))
  }

  /** computeHash. */
  ghost function ComputeHash(sha: string -> string, prevHash: string, e: Entry): string {
    HASH_PREFIX + sha(prevHash + CanonicalText(e))
  }

  /** A hash of an entry chained from a predecessor's: the digest of that hash and the canonical text of the entry's object. */
  ghost predicate HashesEntry(sha: string -> string, prevHash: string, e: Entry, hash: string) {
    exists v: Json ::
      && EntryObject(v, e.(hash := ""))
      && hash == "sha256:" + sha(prevHash + Print(v))
      && (WellFormedData(e.data) ==> Parse(Print(v)) == Got(v, ""))
  }

  lemma HashIs(sha: string -> string, prevHash: string, e: Entry)
    ensures HashesEntry(sha, prevHash, e, ComputeHash(sha, prevHash, e))
  {
    var v := EntryJson(e.(hash := ""));
    EntryIs(e.(hash := ""));
    if WellFormedData(e.data) {
      EntryWellFormed(e.(hash := ""));
      PrintParses(v);
    }
    hide EntryJson, EntryObject, Print, Parse, WellFormedData;
  }

  /** The canonical text determines everything in the entry but its own hash. */
  lemma CanonicalTextInjective(a: Entry, b: Entry)
    requires WellFormedData(a.data) && WellFormedData(b.data)
    requires CanonicalText(a) == CanonicalText(b)
    ensures a.(hash := "") == b.(hash := "")
  {
    var x, y := a.(hash := ""), b.(hash := "");
    EntryWellFormed(x);
    EntryWellFormed(y);
    assert Print(EntryJson(x)) + "" == Print(EntryJson(y)) + "";
    PrintInjective(EntryJson(x), EntryJson(y), "", "");
    EntryReads(x);
    EntryReads(y);
  }

  /** Two different texts with one digest, or a text whose digest is the genesis sentinel's. */
  ghost predicate Collision(sha: string -> string, x: string, y: string) {
    x != y && sha(x) == sha(y)
  }

  ghost predicate GenesisPreimage(sha: string -> string, x: string) {
    HASH_PREFIX + sha(x) == GENESIS_HASH
  }

  /** Equal hashes under equally long predecessors: the same link, or a collision of SHA-256. */
  lemma SameHashSameLink(sha: string -> string, p: string, a: Entry, q: string, b: Entry)
    requires |p| == |q| && WellFormedData(a.data) && WellFormedData(b.data)
    requires ComputeHash(sha, p, a) == ComputeHash(sha, q, b)
    ensures || (p == q && a.(hash := "") == b.(hash := ""))
            || Collision(sha, p + CanonicalText(a), q + CanonicalText(b))
  {
    var x, y := p + CanonicalText(a), q + CanonicalText(b);
    assert ComputeHash(sha, p, a)[7..] == sha(x) && ComputeHash(sha, q, b)[7..] == sha(y);
    if x == y {
      assert x[..|p|] == p && y[..|q|] == q;
      assert x[|p|..] == CanonicalText(a) && y[|q|..] == CanonicalText(b);
      CanonicalTextInjective(a, b);
    }
  }
}
