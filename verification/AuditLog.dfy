/**
 * The stored form of an audit entry, the Verify loop and what a verified log is evidence of
 * (runtime/internal/audit/writer.go).
 */
module AuditLog {
  import opened Wrappers
  import opened Json
  import opened Decimal
  import opened Strings
  import opened AuditEntry

  /** One row of audit_entries; every column is text, three may be NULL. */
  datatype Row = Row(id: string, timestamp: string, kind: string, actorKind: string, actorId: string,
                     subjectKind: Option<string>, subjectId: Option<string>, outcome: string,
                     dataJson: Option<string>, contextJson: Option<string>, prevHash: string, hash: string)

  /**
   * Library behaviour the stored form depends on. `reformat` parses an RFC 3339 timestamp and prints it
   * again; `float` decodes a number literal through float64 and prints it again. None is a parse error.
   */
  datatype Library = Library(reformat: string -> Option<string>, float: string -> Option<string>)

  const MAX_SAFE: nat := 0x20_0000_0000_0000

  /** Integers that float64 holds exactly. */
  ghost predicate SafeInteger(literal: string) {
    exists n: nat :: n <= MAX_SAFE && (literal == Numeral(n) || (n > 0 && literal == "-" + Numeral(n)))
  }

  /** What is assumed of the library: exact integers survive float64, and it prints numbers. */
  ghost predicate Lawful(lib: Library) {
    && (forall literal :: SafeInteger(literal) ==> lib.float(literal) == Some(literal))
    && (forall literal :: IsNumber(literal) && lib.float(literal).Some? ==> IsNumber(lib.float(literal).value))
  }

  // ---------------------------------------------------------------- numbers through float64

  predicate Floats(lib: Library, v: Json) {
    match v
    case Number(literal) => lib.float(literal).Some?
    case Array(items) => forall x | x in items :: Floats(lib, x)
    case Object(members) => forall k | k in members :: Floats(lib, members[k])
    case _ => true
  }

  function Floated(lib: Library, v: Json): Json
    requires Floats(lib, v)
  {
    match v
    case Number(literal) => Number(lib.float(literal).value)
    case Array(items) => Array(seq(|items|, i requires 0 <= i < |items| => Floated(lib, items[i])))
    case Object(members) => Object(map k | k in members :: Floated(lib, members[k]))
    case _ => v
  }

  /** Decoding numbers through float64 leaves the data as it is. */
  predicate Decodes(lib: Library, data: map<string, Json>) {
    Floats(lib, Object(data)) && Floated(lib, Object(data)) == Object(data)
  }

  /** Values whose numbers are exact integers. */
  ghost predicate Exact(v: Json) {
    match v
    case Number(literal) => SafeInteger(literal)
    case Array(items) => forall x | x in items :: Exact(x)
    case Object(members) => forall k | k in members :: Exact(members[k])
    case _ => true
  }

  lemma {:induction false} ExactFloated(lib: Library, v: Json)
    requires Lawful(lib) && Exact(v)
    ensures Floats(lib, v) && Floated(lib, v) == v
  {
    match v
    case Array(items) =>
      forall x | x in items ensures Floats(lib, x) && Floated(lib, x) == x {
        ExactFloated(lib, x);
      }
    case Object(members) =>
      forall k | k in members ensures Floats(lib, members[k]) && Floated(lib, members[k]) == members[k] {
        ExactFloated(lib, members[k]);
      }
    case _ =>
  }

  lemma {:induction false} FloatedWellFormed(lib: Library, v: Json)
    requires Lawful(lib) && WellFormed(v) && Floats(lib, v)
    ensures WellFormed(Floated(lib, v))
  {
    match v
    case Array(items) =>
      forall x | x in items ensures WellFormed(Floated(lib, x)) {
        FloatedWellFormed(lib, x);
      }
    case Object(members) =>
      forall k | k in members ensures WellFormed(Floated(lib, members[k])) {
        FloatedWellFormed(lib, members[k]);
      }
    case _ =>
  }

  lemma SafeIntegerNumber(literal: string)
    requires SafeInteger(literal)
    ensures IsNumber(literal)
  {
    var n: nat :| n <= MAX_SAFE && (literal == Numeral(n) || (n > 0 && literal == "-" + Numeral(n)));
    NumeralFirst(n);
    hide Numeral;
    IntegerNumber(Numeral(n), literal);
  }

  lemma {:induction false} ExactWellFormed(v: Json)
    requires Exact(v)
    ensures WellFormed(v)
  {
    match v
    case Number(literal) => SafeIntegerNumber(literal);
    case Array(items) =>
      forall x | x in items ensures WellFormed(x) {
        ExactWellFormed(x);
      }
    case Object(members) =>
      forall k | k in members ensures WellFormed(members[k]) {
        ExactWellFormed(members[k]);
      }
    case _ =>
  }

  // ---------------------------------------------------------------- storing and scanning

  const CONTEXT_ORDER: seq<Key> := [RequestId, SessionId, CorrelationId, Ip, UserAgent, RuntimeVersion]

  /** The names of the fields that are present, in the order given. */
  function Present(order: seq<Key>, f: Key -> Option<Json>): seq<string> {
    if order == [] then []
    else (if f(order[0]).Some? then [Name(order[0])] else []) + Present(order[1..], f)
  }

  /** marshalNullableJSON of the data map: NULL when empty. */
  ghost function DataColumn(data: map<string, Json>): Option<string> {
    if data == map[] then None else Some(Print(Object(data)))
  }

  /** The context column: the members in declaration order. */
  ghost function ContextText(c: Context): string {
    var keys := Present(CONTEXT_ORDER, ContextFields(c));
    PresentKeys(CONTEXT_ORDER, ContextFields(c));
    "{" + PrintMembers(ContextJson(c), keys, 0)
  }

  lemma {:induction false} PresentKeys(order: seq<Key>, f: Key -> Option<Json>)
    ensures KeySet(Present(order, f)) <= Fields(f).members.Keys
    ensures forall k :: k in order && f(k).Some? ==> Name(k) in Present(order, f)
    ensures forall s :: s in Present(order, f) ==> exists k :: k in order && s == Name(k)
  {
    hide Name, KeyNamed, Fields;
    if order != [] {
      PresentKeys(order[1..], f);
      forall k | k in order && f(k).Some? ensures Name(k) in Present(order, f) {
        if k != order[0] {
          assert k in order[1..];
        }
      }
      forall s | s in Present(order, f) ensures exists k :: k in order && s == Name(k) {
        if s in Present(order[1..], f) {
          var k :| k in order[1..] && s == Name(k);
          assert k in order;
        } else {
          assert s == Name(order[0]);
        }
      }
    }
  }

  /** The row that populateAndInsert inserts. */
  ghost function ToRow(e: Entry): Row {
    Row(e.id, e.timestamp, e.kind, e.actor.kind, e.actor.id,
        if e.subject.Some? then Some(e.subject.value.kind) else None,
        if e.subject.Some? then Some(e.subject.value.id) else None,
        e.outcome, DataColumn(e.data),
        if e.context.Some? then Some(ContextText(e.context.value)) else None,
        e.prevHash, e.hash)
  }

  predicate Blank(column: Option<string>) {
    column.None? || column.value == "" || column.value == "null"
  }

  /** Decoding the data column into a map. */
  function ScanData(lib: Library, column: Option<string>): (r: Result<map<string, Json>, string>) {
    if Blank(column) then Success(map[])
    else
      match Parse(column.value)
      case Bad => Failure("decoding data")
      case Got(v, _) =>
        if v.Null? then Success(map[])
        else if v.Object? && Floats(lib, v) then Success(Floated(lib, v).members)
        else Failure("decoding data")
  }

  /** Decoding the context column into the six string fields. */
  function ScanContext(column: Option<string>): (r: Result<Option<Context>, string>) {
    if Blank(column) then Success(None)
    else
      match Parse(column.value)
      case Bad => Failure("decoding context")
      case Got(v, _) =>
        if v.Null? then Success(Some(Context("", "", "", "", "", "")))
        else if v.Object? && (forall k | k in CONTEXT_ORDER :: Name(k) in v.members ==> v.members[Name(k)].Null? || v.members[Name(k)].String?)
        then Success(Some(ContextOf(v.members)))
        else Failure("decoding context")
  }

  /** scanEntry. */
  function Scan(lib: Library, row: Row): (r: Result<Entry, string>) {
    var subject := match row.subjectKind
      case None => None
      case Some(kind) => Some(Subject(kind, if row.subjectId.Some? then row.subjectId.value else ""));
    match lib.reformat(row.timestamp)
    case None => Failure("parsing timestamp")
    case Some(timestamp) =>
      match ScanData(lib, row.dataJson)
      case Failure(error) => Failure(error)
      case Success(data) =>
        match ScanContext(row.contextJson)
        case Failure(error) => Failure(error)
        case Success(context) =>
          Success(Entry(row.id, timestamp, row.kind, Actor(row.actorKind, row.actorId), subject,
                        row.outcome, data, context, row.prevHash, row.hash))
  }

  /** Entries the writer stores: a timestamp of its own format and data that is JSON. */
  predicate Storable(lib: Library, e: Entry) {
    lib.reformat(e.timestamp) == Some(e.timestamp) && WellFormedData(e.data)
  }

  lemma DataScans(lib: Library, data: map<string, Json>)
    requires WellFormedData(data)
    ensures ScanData(lib, DataColumn(data)) ==
            if Floats(lib, Object(data)) then Success(Floated(lib, Object(data)).members) else Failure("decoding data")
  {
    var v := Object(data);
    if data != map[] {
      PrintParses(v);
      assert Print(v)[0] == '{';
      hide Print, Parse, Floated, Floats;
    } else {
      assert Floated(lib, v).members == map[];
    }
  }

  /** Exact integers decode to themselves. */
  lemma ExactDecodes(lib: Library, data: map<string, Json>)
    requires Lawful(lib) && Exact(Object(data))
    ensures WellFormedData(data) && Decodes(lib, data)
  {
    ExactFloated(lib, Object(data));
    ExactWellFormed(Object(data));
    assert forall k | k in data :: WellFormed(Object(data).members[k]);
    hide Floated, Floats, Exact;
  }

  /** The first integer that float64 does not hold is decoded as the one before it. */
  lemma BigNumberChanges(lib: Library)
    requires lib.float(Numeral(MAX_SAFE + 1)) == Some(Numeral(MAX_SAFE))
    ensures var data := map["n" := Number(Numeral(MAX_SAFE + 1))]; WellFormedData(data) && !Decodes(lib, data)
  {
    var n := Numeral(MAX_SAFE + 1);
    var data := map["n" := Number(n)];
    NumeralFirst(MAX_SAFE + 1);
    if Numeral(MAX_SAFE) == n {
      NumeralInjective(MAX_SAFE, MAX_SAFE + 1);
    }
    hide Numeral, MAX_SAFE;
    IntegerNumber(n, n);
    assert Floats(lib, data["n"]) && Floats(lib, Object(data));
    assert Floated(lib, Object(data)).members["n"] == Floated(lib, data["n"]);
  }

  lemma {:induction false} PresentDistinct(order: seq<Key>, f: Key -> Option<Json>)
    requires forall i, j :: 0 <= i < j < |order| ==> order[i] != order[j]
    ensures Distinct(Present(order, f))
  {
    hide Name, KeyNamed;
    if order != [] {
      PresentDistinct(order[1..], f);
      PresentKeys(order[1..], f);
      var tail := Present(order[1..], f);
      forall j | 0 <= j < |tail| ensures tail[j] != Name(order[0]) {
        assert tail[j] in tail;
      }
    }
  }

  lemma ContextScans(c: Context)
    ensures ScanContext(Some(ContextText(c))) == Success(Some(c))
  {
    ContextParses(c);
    ContextMembers(c);
    ContextReads(c);
    ContextStarts(c);
    hide Parse, ContextJson, Name, KeyNamed, ContextOf, ContextText;
  }

  lemma ContextStarts(c: Context)
    ensures ContextText(c) != "" && ContextText(c)[0] == '{'
  {
    hide Present, PrintMembers;
  }

  lemma ContextMembers(c: Context)
    ensures forall k :: Name(k) in ContextJson(c).members ==> ContextJson(c).members[Name(k)].String?
  {
    hide Name, KeyNamed, Fields;
  }

  lemma ContextOrdered(c: Context, k: Key)
    requires ContextField(c, k).Some?
    ensures k in CONTEXT_ORDER
  {
    assert CONTEXT_ORDER[0] == RequestId && CONTEXT_ORDER[1] == SessionId && CONTEXT_ORDER[2] == CorrelationId
           && CONTEXT_ORDER[3] == Ip && CONTEXT_ORDER[4] == UserAgent && CONTEXT_ORDER[5] == RuntimeVersion;
  }

  lemma ContextListed(c: Context)
    ensures KeySet(Present(CONTEXT_ORDER, ContextFields(c))) == ContextJson(c).members.Keys
    ensures Distinct(Present(CONTEXT_ORDER, ContextFields(c)))
  {
    hide Name, KeyNamed, Fields, Present, ContextField;
    var f := ContextFields(c);
    var keys := Present(CONTEXT_ORDER, f);
    PresentKeys(CONTEXT_ORDER, f);
    PresentDistinct(CONTEXT_ORDER, f);
    forall s | s in ContextJson(c).members ensures s in keys {
      var k :| s == Name(k);
      ContextOrdered(c, k);
    }
  }

  lemma ContextParses(c: Context)
    ensures Parse(ContextText(c)) == Got(ContextJson(c), "")
  {
    hide Present, PrintMembers, Listed, ContextField, ReadMembers, ReadItems, ReadChars, ReadNumber, WellFormed, Name, KeyNamed, Fields;
    var v := ContextJson(c);
    var keys := Present(CONTEXT_ORDER, ContextFields(c));
    ContextListed(c);
    ContextWellFormed(c);
    MembersRead(v, keys, 0, "");
    ListedAll(v, keys);
    hide ContextJson;
    var s := ContextText(c);
    var t := PrintMembers(v, keys, 0);
    assert s == "{" + t;
    assert t + "" == t;
    assert s[0] == '{' && s[1..] == t;
  }

  /** One member of the context's text, or none for an empty field. */
  function Part(name: string, text: string): seq<string> {
    if text == "" then [] else [Quote(name) + (":" + Quote(text))]
  }

  /** The context column: the fields that are not empty, in the order in which they are declared. */
  lemma ContextTextIs(c: Context)
    ensures ContextText(c) ==
            "{" + (Joined(Part("request_id", c.requestId)
                          + (Part("session_id", c.sessionId)
                             + (Part("correlation_id", c.correlationId)
                                + (Part("ip", c.ip)
                                   + (Part("user_agent", c.userAgent)
                                      + Part("runtime_version", c.runtimeVersion))))), 0) + "}")
  {
    hide Present, ContextFields, Part, PartsOf, Name, KeyNamed, PrintMembers, Joined, Quote;
    var keys := Present(CONTEXT_ORDER, ContextFields(c));
    PresentKeys(CONTEXT_ORDER, ContextFields(c));
    PartsAre(c);
    PartsFit(CONTEXT_ORDER, c);
    MembersJoined(ContextJson(c), keys, PartsOf(CONTEXT_ORDER, c), 0);
  }

  /** The part of one field. */
  function PartOf(c: Context, k: Key): seq<string> {
    match k
    case RequestId => Part("request_id", c.requestId)
    case SessionId => Part("session_id", c.sessionId)
    case CorrelationId => Part("correlation_id", c.correlationId)
    case Ip => Part("ip", c.ip)
    case UserAgent => Part("user_agent", c.userAgent)
    case RuntimeVersion => Part("runtime_version", c.runtimeVersion)
    case _ => []
  }

  function PartsOf(order: seq<Key>, c: Context): seq<string> {
    if order == [] then [] else PartOf(c, order[0]) + PartsOf(order[1..], c)
  }

  lemma PartsCons(k: Key, order: seq<Key>, c: Context)
    ensures PartsOf([k] + order, c) == PartOf(c, k) + PartsOf(order, c)
  {
    assert ([k] + order)[1..] == order;
    hide PartOf;
  }

  lemma PartsAre(c: Context)
    ensures PartsOf(CONTEXT_ORDER, c) ==
            Part("request_id", c.requestId)
            + (Part("session_id", c.sessionId)
               + (Part("correlation_id", c.correlationId)
                  + (Part("ip", c.ip) + (Part("user_agent", c.userAgent) + Part("runtime_version", c.runtimeVersion)))))
  {
    hide Part, PartsOf;
    PartsEnd(c);
    PartsCons(RuntimeVersion, [], c);
    PartsCons(UserAgent, [RuntimeVersion], c);
    PartsCons(Ip, [UserAgent, RuntimeVersion], c);
    PartsCons(CorrelationId, [Ip, UserAgent, RuntimeVersion], c);
    PartsCons(SessionId, [CorrelationId, Ip, UserAgent, RuntimeVersion], c);
    PartsCons(RequestId, [SessionId, CorrelationId, Ip, UserAgent, RuntimeVersion], c);
    assert [RuntimeVersion] + [] == [RuntimeVersion];
    assert [UserAgent] + [RuntimeVersion] == [UserAgent, RuntimeVersion];
    assert [Ip] + [UserAgent, RuntimeVersion] == [Ip, UserAgent, RuntimeVersion];
    assert [CorrelationId] + [Ip, UserAgent, RuntimeVersion] == [CorrelationId, Ip, UserAgent, RuntimeVersion];
    assert [SessionId] + [CorrelationId, Ip, UserAgent, RuntimeVersion] == [SessionId, CorrelationId, Ip, UserAgent, RuntimeVersion];
    assert [RequestId] + [SessionId, CorrelationId, Ip, UserAgent, RuntimeVersion] == CONTEXT_ORDER;
  }

  lemma PartsEnd(c: Context)
    ensures PartsOf([], c) == [] && PartOf(c, RuntimeVersion) + [] == PartOf(c, RuntimeVersion)
  {
    hide PartOf;
  }

  /** The part of a field is what its member prints as. */
  lemma PartFits(c: Context, k: Key)
    ensures var f := ContextField(c, k);
            && (f.None? ==> PartOf(c, k) == [])
            && (f.Some? ==> PartOf(c, k) == [Quote(Name(k)) + (":" + Print(f.value))])
  {
    hide Quote;
  }

  lemma {:induction false} PartsFit(order: seq<Key>, c: Context)
    ensures var keys, parts := Present(order, ContextFields(c)), PartsOf(order, c);
            && |keys| == |parts|
            && forall i :: 0 <= i < |keys| ==>
                 && keys[i] in ContextJson(c).members
                 && parts[i] == Quote(keys[i]) + (":" + Print(ContextJson(c).members[keys[i]]))
  {
    hide Name, KeyNamed, Fields, PartOf, ContextField, Quote, Print;
    if order != [] {
      PartsFit(order[1..], c);
      PartFits(c, order[0]);
      NamedMember(ContextFields(c), order[0]);
    }
  }

  lemma ContextWellFormed(c: Context)
    ensures WellFormed(ContextJson(c))
  {
    hide Name, KeyNamed, Fields;
    FieldsWellFormed(ContextFields(c));
  }

  /** A stored entry scans to itself with its numbers decoded, or not at all if one of them does not decode. */
  lemma StoredScansAs(lib: Library, e: Entry)
    requires Storable(lib, e)
    ensures Scan(lib, ToRow(e)) ==
            if Floats(lib, Object(e.data)) then Success(e.(data := Floated(lib, Object(e.data)).members))
            else Failure("decoding data")
  {
    DataScans(lib, e.data);
    if e.context.Some? {
      ContextScans(e.context.value);
    }
    hide ScanData, ScanContext, DataColumn, ContextText, Floats, Floated, WellFormedData;
  }

  /** What the writer stores scans back as the entry it hashed if and only if its data decodes unchanged. */
  lemma StoredScans(lib: Library, e: Entry)
    requires Storable(lib, e)
    ensures Scan(lib, ToRow(e)) == Success(e) <==> Decodes(lib, e.data)
  {
    hide Scan, ToRow, Storable, Floats;
    StoredScansAs(lib, e);
    if Floats(lib, Object(e.data)) {
      var v := Floated(lib, Object(e.data));
      assert v.Object?;
      assert e.(data := v.members) == e <==> v.members == e.data;
      hide Floated;
    }
  }

  lemma ScannedWellFormed(lib: Library, row: Row)
    requires Lawful(lib) && Scan(lib, row).Success?
    ensures WellFormedData(Scan(lib, row).value.data)
  {
    if !Blank(row.dataJson) {
      ReadValueWellFormed(row.dataJson.value);
      var v := Parse(row.dataJson.value).value;
      if v.Object? {
        FloatedWellFormed(lib, v);
      }
    }
  }

  // ---------------------------------------------------------------- Verify

  datatype VerifyResult = VerifyResult(entriesChecked: nat, valid: bool, brokenAt: string)

  function HashBefore(rows: seq<Row>, i: nat): string
    requires i <= |rows|
  {
    if i == 0 then GENESIS_HASH else rows[i - 1].hash
  }

  /** The hash of the newest entry, or the genesis sentinel. */
  function HeadHash(rows: seq<Row>): string {
    HashBefore(rows, |rows|)
  }

  /** Row i scans, names its predecessor's hash and carries its own. */
  ghost predicate Linked(sha: string -> string, lib: Library, rows: seq<Row>, i: nat)
    requires i < |rows|
  {
    && Scan(lib, rows[i]).Success?
    && rows[i].prevHash == HashBefore(rows, i)
    && rows[i].hash == ComputeHash(sha, HashBefore(rows, i), Scan(lib, rows[i]).value)
  }

  /** Another entry that differs from a stored one in its decoded numbers collides with it under SHA-256. */
  ghost predicate FloatsCollide(sha: string -> string, lib: Library, prevHash: string, e: Entry) {
    && Floats(lib, Object(e.data))
    && Collision(sha, prevHash + CanonicalText(e), prevHash + CanonicalText(e.(data := Floated(lib, Object(e.data)).members)))
  }

  /**
   * A row stored for an entry that was hashed onto its predecessor verifies if and only if float64 decoding
   * leaves the entry's data unchanged, but for a hash collision between the entry and what it decodes to.
   */
  lemma StoredVerifies(sha: string -> string, lib: Library, rows: seq<Row>, i: nat, e: Entry)
    requires IsSha(sha) && Lawful(lib) && i < |rows| && rows[i] == ToRow(e) && Storable(lib, e)
    requires e.prevHash == HashBefore(rows, i) && e.hash == ComputeHash(sha, HashBefore(rows, i), e)
    ensures Decodes(lib, e.data) ==> Linked(sha, lib, rows, i)
    ensures Linked(sha, lib, rows, i) ==> Decodes(lib, e.data) || FloatsCollide(sha, lib, HashBefore(rows, i), e)
    ensures Scan(lib, rows[i]).Success? <==> Floats(lib, Object(e.data))
  {
    StoredScans(lib, e);
    StoredScansAs(lib, e);
    RowColumns(e);
    var p := HashBefore(rows, i);
    if Linked(sha, lib, rows, i) {
      var f := e.(data := Floated(lib, Object(e.data)).members);
      ScannedWellFormed(lib, rows[i]);
      hide Scan, Floated, Floats, CanonicalText, ComputeHash, ToRow, HashBefore, Lawful;
      SameHashSameLink(sha, p, e, p, f);
      if e.(hash := "") == f.(hash := "") {
        assert e.data == f.data;
        SameMembers(lib, e.data);
      }
    }
  }

  lemma SameMembers(lib: Library, data: map<string, Json>)
    requires Floats(lib, Object(data)) && data == Floated(lib, Object(data)).members
    ensures Decodes(lib, data)
  {
  }

  lemma RowColumns(e: Entry)
    ensures var row := ToRow(e); row.id == e.id && row.prevHash == e.prevHash && row.hash == e.hash
  {
  }

  /**
   * A row is linked exactly if it scans, names the hash of the row before it, or the genesis hash if it is the
   * first, and carries the hash of the entry it scans to, chained from that.
   */
  lemma LinkIs(sha: string -> string, lib: Library, rows: seq<Row>, i: nat)
    requires i < |rows|
    ensures var before := if i == 0 then GENESIS_HASH else rows[i - 1].hash;
            Linked(sha, lib, rows, i) <==>
              Scan(lib, rows[i]).Success? && rows[i].prevHash == before
              && HashesEntry(sha, before, Scan(lib, rows[i]).value, rows[i].hash)
  {
    hide Scan, ComputeHash, HashesEntry;
    if Scan(lib, rows[i]).Success? {
      var e := Scan(lib, rows[i]).value;
      HashIs(sha, HashBefore(rows, i), e);
      if HashesEntry(sha, HashBefore(rows, i), e, rows[i].hash) {
        HashUnique(sha, HashBefore(rows, i), e, rows[i].hash, ComputeHash(sha, HashBefore(rows, i), e));
      }
    }
  }

  /** Row i scans, and is chained from the row before it by both columns. */
  ghost predicate Chained(sha: string -> string, lib: Library, rows: seq<Row>, i: nat)
    requires i < |rows|
  {
    && Scan(lib, rows[i]).Success?
    && var before := if i == 0 then GENESIS_HASH else rows[i - 1].hash;
    && rows[i].prevHash == before
    && HashesEntry(sha, before, Scan(lib, rows[i]).value, rows[i].hash)
  }

  ghost predicate Intact(sha: string -> string, lib: Library, rows: seq<Row>) {
    forall i :: 0 <= i < |rows| ==> Linked(sha, lib, rows, i)
  }

  /** The first row at which the chain is not linked, or the number of rows. */
  ghost predicate LinkedUpTo(sha: string -> string, lib: Library, rows: seq<Row>, n: nat) {
    && n <= |rows|
    && (forall i :: 0 <= i < n ==> Linked(sha, lib, rows, i))
    && (n < |rows| ==> !Linked(sha, lib, rows, n))
  }

  lemma LinkedHashLength(sha: string -> string, lib: Library, rows: seq<Row>, i: nat)
    requires IsSha(sha) && Intact(sha, lib, rows) && i <= |rows|
    ensures |HashBefore(rows, i)| == 71
  {
    if i > 0 {
      assert Linked(sha, lib, rows, i - 1);
    }
  }

  /** The entries a log scans to. */
  function Entries(lib: Library, rows: seq<Row>): (es: seq<Entry>)
    requires forall i :: 0 <= i < |rows| ==> Scan(lib, rows[i]).Success?
    ensures |es| == |rows|
    ensures forall i :: 0 <= i < |rows| ==> es[i] == Scan(lib, rows[i]).value
  {
    seq(|rows|, i requires 0 <= i < |rows| => Scan(lib, rows[i]).value)
  }

  /** Both logs scan, to the same sequence of entries. */
  ghost predicate SameEntries(lib: Library, a: seq<Row>, b: seq<Row>) {
    && (forall i :: 0 <= i < |a| ==> Scan(lib, a[i]).Success?)
    && (forall i :: 0 <= i < |b| ==> Scan(lib, b[i]).Success?)
    && Entries(lib, a) == Entries(lib, b)
  }

  /** The text whose digest is the hash of row i. */
  ghost function HashedText(lib: Library, rows: seq<Row>, i: nat): string
    requires i < |rows| && Scan(lib, rows[i]).Success?
  {
    HashBefore(rows, i) + CanonicalText(Scan(lib, rows[i]).value)
  }

  /** A text hashed in one log and a text hashed in the other collide under SHA-256. */
  ghost predicate LogsCollide(sha: string -> string, lib: Library, a: seq<Row>, b: seq<Row>)
    requires Intact(sha, lib, a) && Intact(sha, lib, b)
  {
    exists i, j :: 0 <= i < |a| && 0 <= j < |b| && Linked(sha, lib, a, i) && Linked(sha, lib, b, j)
                   && Collision(sha, HashedText(lib, a, i), HashedText(lib, b, j))
  }

  /** The first text hashed in a log digests to the genesis sentinel. */
  ghost predicate ReachesGenesis(sha: string -> string, lib: Library, a: seq<Row>)
    requires Intact(sha, lib, a)
  {
    exists i :: 0 <= i < |a| && Linked(sha, lib, a, i) && GenesisPreimage(sha, HashedText(lib, a, i))
  }

  lemma PrefixIntact(sha: string -> string, lib: Library, rows: seq<Row>, n: nat)
    requires Intact(sha, lib, rows) && n <= |rows|
    ensures Intact(sha, lib, rows[..n])
  {
    hide Scan, CanonicalText, ComputeHash;
    forall i | 0 <= i < n ensures Linked(sha, lib, rows[..n], i) {
      assert Linked(sha, lib, rows, i);
    }
  }

  /**
   * Tamper evidence: two logs that both verify and have the same head hash hold the same sequence of
   * entries, unless a SHA-256 collision between texts hashed in them, or a preimage of the genesis
   * sentinel, can be read off the logs.
   */
  lemma {:induction false} TamperEvidence(sha: string -> string, lib: Library, a: seq<Row>, b: seq<Row>)
    requires IsSha(sha) && Lawful(lib)
    requires Intact(sha, lib, a) && Intact(sha, lib, b)
    requires HeadHash(a) == HeadHash(b)
    ensures || SameEntries(lib, a, b)
            || LogsCollide(sha, lib, a, b)
            || ReachesGenesis(sha, lib, a)
            || ReachesGenesis(sha, lib, b)
  {
    hide Scan, CanonicalText, ComputeHash, LogsCollide;
    ScansAll(sha, lib, a);
    ScansAll(sha, lib, b);
    if a == [] && b == [] {
      assert Entries(lib, a) == Entries(lib, b);
    } else if a == [] {
      HeadIsGenesis(sha, lib, b);
    } else if b == [] {
      HeadIsGenesis(sha, lib, a);
    } else {
      var m, n := |a| - 1, |b| - 1;
      SameHeadEntry(sha, lib, a, b);
      if !Collision(sha, HashedText(lib, a, m), HashedText(lib, b, n)) {
        PrefixIntact(sha, lib, a, m);
        PrefixIntact(sha, lib, b, n);
        assert HeadHash(a[..m]) == HashBefore(a, m) && HeadHash(b[..n]) == HashBefore(b, n);
        TamperEvidence(sha, lib, a[..m], b[..n]);
        ExtendEvidence(sha, lib, a, b, m, n);
      } else {
        HeadsCollide(sha, lib, a, b, m, n);
      }
    }
  }

  lemma HeadIsGenesis(sha: string -> string, lib: Library, rows: seq<Row>)
    requires Intact(sha, lib, rows) && rows != [] && HeadHash(rows) == GENESIS_HASH
    ensures ReachesGenesis(sha, lib, rows)
  {
    hide Scan, CanonicalText;
    assert Linked(sha, lib, rows, |rows| - 1);
    assert GenesisPreimage(sha, HashedText(lib, rows, |rows| - 1));
  }

  lemma HeadsCollide(sha: string -> string, lib: Library, a: seq<Row>, b: seq<Row>, i: nat, j: nat)
    requires Intact(sha, lib, a) && Intact(sha, lib, b) && i < |a| && j < |b|
    requires Scan(lib, a[i]).Success? && Scan(lib, b[j]).Success?
    requires Collision(sha, HashedText(lib, a, i), HashedText(lib, b, j))
    ensures LogsCollide(sha, lib, a, b)
  {
    hide Scan, CanonicalText, ComputeHash, HashedText;
    assert Linked(sha, lib, a, i) && Linked(sha, lib, b, j);
  }

  /** Equal head hashes: the newest entries and their predecessors' hashes agree, or the texts collide. */
  lemma SameHeadEntry(sha: string -> string, lib: Library, a: seq<Row>, b: seq<Row>)
    requires IsSha(sha) && Lawful(lib)
    requires Intact(sha, lib, a) && Intact(sha, lib, b) && a != [] && b != []
    requires HeadHash(a) == HeadHash(b)
    ensures Scan(lib, a[|a| - 1]).Success? && Scan(lib, b[|b| - 1]).Success?
    ensures || Collision(sha, HashedText(lib, a, |a| - 1), HashedText(lib, b, |b| - 1))
            || (Scan(lib, a[|a| - 1]) == Scan(lib, b[|b| - 1]) && HashBefore(a, |a| - 1) == HashBefore(b, |b| - 1))
  {
    var m, n := |a| - 1, |b| - 1;
    assert Linked(sha, lib, a, m) && Linked(sha, lib, b, n);
    LinkedHashLength(sha, lib, a, m);
    LinkedHashLength(sha, lib, b, n);
    ScannedWellFormed(lib, a[m]);
    ScannedWellFormed(lib, b[n]);
    ScannedHash(lib, a[m]);
    ScannedHash(lib, b[n]);
    hide Scan, CanonicalText, ComputeHash;
    var e, f := Scan(lib, a[m]).value, Scan(lib, b[n]).value;
    SameHashSameLink(sha, HashBefore(a, m), e, HashBefore(b, n), f);
    assert e.(hash := "").(hash := a[m].hash) == e && f.(hash := "").(hash := b[n].hash) == f;
  }

  lemma ScannedHash(lib: Library, row: Row)
    ensures Scan(lib, row).Success? ==> Scan(lib, row).value.hash == row.hash
  {
  }

  lemma ScansAll(sha: string -> string, lib: Library, rows: seq<Row>)
    requires Intact(sha, lib, rows)
    ensures forall i :: 0 <= i < |rows| ==> Scan(lib, rows[i]).Success?
  {
    forall i | 0 <= i < |rows| ensures Scan(lib, rows[i]).Success? {
      assert Linked(sha, lib, rows, i);
    }
  }

  /** What was found in the prefixes holds of the logs. */
  lemma ExtendEvidence(sha: string -> string, lib: Library, a: seq<Row>, b: seq<Row>, m: nat, n: nat)
    requires Intact(sha, lib, a) && Intact(sha, lib, b) && m < |a| && n < |b|
    requires m == |a| - 1 && n == |b| - 1
    requires Scan(lib, a[m]).Success? && Scan(lib, a[m]) == Scan(lib, b[n])
    requires Intact(sha, lib, a[..m]) && Intact(sha, lib, b[..n])
    requires || SameEntries(lib, a[..m], b[..n])
             || LogsCollide(sha, lib, a[..m], b[..n])
             || ReachesGenesis(sha, lib, a[..m])
             || ReachesGenesis(sha, lib, b[..n])
    ensures || SameEntries(lib, a, b)
            || LogsCollide(sha, lib, a, b)
            || ReachesGenesis(sha, lib, a)
            || ReachesGenesis(sha, lib, b)
  {
    hide Scan, CanonicalText, ComputeHash, HashedText, LogsCollide, ReachesGenesis;
    ScansAll(sha, lib, a);
    ScansAll(sha, lib, b);
    if LogsCollide(sha, lib, a[..m], b[..n]) {
      ExtendCollision(sha, lib, a, b, m, n);
    } else if ReachesGenesis(sha, lib, a[..m]) {
      ExtendGenesis(sha, lib, a, m);
    } else if ReachesGenesis(sha, lib, b[..n]) {
      ExtendGenesis(sha, lib, b, n);
    } else {
      EntriesExtend(lib, a, m);
      EntriesExtend(lib, b, n);
    }
  }

  lemma EntriesExtend(lib: Library, rows: seq<Row>, n: nat)
    requires |rows| == n + 1
    requires forall i :: 0 <= i < |rows| ==> Scan(lib, rows[i]).Success?
    ensures Entries(lib, rows) == Entries(lib, rows[..n]) + [Scan(lib, rows[n]).value]
  {
    hide Scan;
  }

  lemma ExtendCollision(sha: string -> string, lib: Library, a: seq<Row>, b: seq<Row>, m: nat, n: nat)
    requires Intact(sha, lib, a) && Intact(sha, lib, b) && m <= |a| && n <= |b|
    requires Intact(sha, lib, a[..m]) && Intact(sha, lib, b[..n])
    requires LogsCollide(sha, lib, a[..m], b[..n])
    ensures LogsCollide(sha, lib, a, b)
  {
    hide Scan, CanonicalText, ComputeHash, HashedText;
    var p, q := a[..m], b[..n];
    var i, j :| 0 <= i < |p| && 0 <= j < |q| && Linked(sha, lib, p, i) && Linked(sha, lib, q, j)
                && Collision(sha, HashedText(lib, p, i), HashedText(lib, q, j));
    PrefixText(sha, lib, a, m, i);
    PrefixText(sha, lib, b, n, j);
  }

  lemma ExtendGenesis(sha: string -> string, lib: Library, rows: seq<Row>, n: nat)
    requires Intact(sha, lib, rows) && n <= |rows| && Intact(sha, lib, rows[..n])
    requires ReachesGenesis(sha, lib, rows[..n])
    ensures ReachesGenesis(sha, lib, rows)
  {
    hide Scan, CanonicalText, ComputeHash, HashedText;
    var p := rows[..n];
    var i :| 0 <= i < |p| && Linked(sha, lib, p, i) && GenesisPreimage(sha, HashedText(lib, p, i));
    PrefixText(sha, lib, rows, n, i);
  }

  lemma PrefixText(sha: string -> string, lib: Library, rows: seq<Row>, n: nat, i: nat)
    requires Intact(sha, lib, rows) && i < n <= |rows| && Linked(sha, lib, rows[..n], i)
    ensures Linked(sha, lib, rows, i) && HashedText(lib, rows[..n], i) == HashedText(lib, rows, i)
  {
    hide Scan, CanonicalText, ComputeHash;
    assert rows[..n][i] == rows[i];
    assert HashBefore(rows[..n], i) == HashBefore(rows, i);
  }
}
