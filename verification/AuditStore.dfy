/**
 * One process's handle on the audit table (runtime/internal/audit/writer.go): reading the head, picking
 * the next id, appending and verifying.
 */
module AuditStore {
  import opened Wrappers
  import opened Json
  import opened Canonical
  import opened Ulid
  import opened AuditEntry
  import opened AuditLog

  // ---------------------------------------------------------------- reading in id order

  function InsertById(row: Row, rows: seq<Row>): (r: seq<Row>)
    ensures multiset(r) == multiset(rows) + multiset{row} && |r| == |rows| + 1
  {
    if rows == [] || !Less(rows[0].id, row.id) then
      [row] + rows
    else
      assert rows == [rows[0]] + rows[1..];
      [rows[0]] + InsertById(row, rows[1..])
  }

  /** `ORDER BY id ASC` over the table. */
  function OrderById(rows: seq<Row>): (r: seq<Row>)
    ensures multiset(r) == multiset(rows) && |r| == |rows|
  {
    if rows == [] then []
    else
      assert rows == [rows[0]] + rows[1..];
      InsertById(rows[0], OrderById(rows[1..]))
  }

  predicate SortedById(rows: seq<Row>) {
    forall i, j :: 0 <= i < j < |rows| ==> !Less(rows[j].id, rows[i].id)
  }

  lemma NotLessTransitive(a: string, b: string, c: string)
    requires !Less(b, a) && !Less(c, b)
    ensures !Less(c, a)
  {
    LessTotal(a, b);
    LessTotal(b, c);
    LessTotal(a, c);
    if Less(a, b) && Less(b, c) {
      LessTransitive(a, b, c);
    }
    hide Less;
  }

  lemma {:induction false} InsertSorted(row: Row, rows: seq<Row>)
    requires SortedById(rows)
    ensures SortedById(InsertById(row, rows))
  {
    hide Less;
    var r := InsertById(row, rows);
    if rows == [] {
    } else if !Less(rows[0].id, row.id) {
      forall j | 0 < j < |r| ensures !Less(r[j].id, row.id) {
        if j > 1 {
          NotLessTransitive(row.id, rows[0].id, rows[j - 1].id);
        }
      }
    } else {
      var rest := InsertById(row, rows[1..]);
      InsertSorted(row, rows[1..]);
      forall x | x in rest ensures !Less(x.id, rows[0].id) {
        assert x in multiset(rest);
        if x == row {
          LessTotal(row.id, rows[0].id);
        } else {
          assert x in multiset(rows[1..]);
          assert x in rows[1..];
        }
      }
      assert r == [rows[0]] + rest;
      forall j | 0 < j < |r| ensures !Less(r[j].id, rows[0].id) {
        assert r[j] == rest[j - 1] && rest[j - 1] in rest;
      }
    }
  }

  /** Reading in id order gives every row once, sorted by id. */
  lemma {:induction false} OrderIsSorted(rows: seq<Row>)
    ensures SortedById(OrderById(rows)) && multiset(OrderById(rows)) == multiset(rows)
  {
    hide InsertById, Less;
    if rows != [] {
      OrderIsSorted(rows[1..]);
      InsertSorted(rows[0], OrderById(rows[1..]));
    }
  }

  predicate IdsIncrease(rows: seq<Row>) {
    forall i, j :: 0 <= i < j < |rows| ==> Less(rows[i].id, rows[j].id)
  }

  /** A table whose ids increase in insertion order is read back in insertion order. */
  lemma {:induction false} IncreasingInOrder(rows: seq<Row>)
    requires IdsIncrease(rows)
    ensures OrderById(rows) == rows
  {
    if rows != [] {
      IncreasingInOrder(rows[1..]);
      if |rows| > 1 {
        LessTotal(rows[0].id, rows[1].id);
        assert rows[1..][0] == rows[1];
      }
    }
  }

  /** `ORDER BY id DESC LIMIT 1`. */
  function HeadRow(rows: seq<Row>): Option<Row> {
    var ordered := OrderById(rows);
    if ordered == [] then None else Some(ordered[|ordered| - 1])
  }

  /** The head is a row than whose id no other is greater; only an empty table has none. */
  lemma HeadIs(rows: seq<Row>)
    ensures match HeadRow(rows)
            case None => rows == []
            case Some(row) => row in rows && forall other | other in rows :: !Less(row.id, other.id)
  {
    hide Less;
    OrderIsSorted(rows);
    var ordered := OrderById(rows);
    if rows != [] {
      var row := ordered[|ordered| - 1];
      assert row in multiset(ordered) && row in multiset(rows);
      LessTotal(row.id, row.id);
      forall other | other in rows ensures !Less(row.id, other.id) {
        assert other in multiset(rows) && other in multiset(ordered);
        var i :| 0 <= i < |ordered| && ordered[i] == other;
      }
    }
  }

  /** The hash the next entry chains from: the head's, unless it is empty. */
  function PreviousHash(rows: seq<Row>): string {
    match HeadRow(rows)
    case Some(row) => if row.hash == "" then GENESIS_HASH else row.hash
    case None => GENESIS_HASH
  }

  lemma PreviousIs(rows: seq<Row>)
    ensures rows == [] ==> PreviousHash(rows) == GENESIS_HASH
    ensures rows != [] ==>
              exists head | head in rows ::
                && (forall other | other in rows :: !Less(head.id, other.id))
                && PreviousHash(rows) == if head.hash == "" then GENESIS_HASH else head.hash
  {
    HeadIs(rows);
    hide HeadRow, Less;
  }

  /** The highest id known after reading the head. */
  function SeenId(lastID: string, rows: seq<Row>): string {
    match HeadRow(rows)
    case Some(row) => if Less(lastID, row.id) then row.id else lastID
    case None => lastID
  }

  // ---------------------------------------------------------------- the next id

  const ATTEMPTS: nat := 100

  /**
   * What ULID generation draws at each attempt of the loop: the entropy, or None when it fails. It also
   * fails when the millisecond does not fit.
   */
  type Draws = nat -> Option<nat>

  function Drawn(now: nat, draws: Draws, k: nat): Option<Stamp> {
    if now + k >= MAX_MS || draws(k).None? || draws(k).value >= Pow32(16) then None
    else Some(Stamp(now + k, draws(k).value))
  }

  /** Attempt k yields an id that sorts after lastID. */
  predicate Wins(lastID: string, now: nat, draws: Draws, k: nat) {
    Drawn(now, draws, k).Some? && (lastID == "" || Less(lastID, IdText(Drawn(now, draws, k).value)))
  }

  /** Attempt k yields an id, but not one that sorts after lastID. */
  predicate Loses(lastID: string, now: nat, draws: Draws, k: nat) {
    Drawn(now, draws, k).Some? && !Wins(lastID, now, draws, k)
  }

  /** The first k attempts all lose. */
  predicate AllLose(lastID: string, now: nat, draws: Draws, k: nat) {
    forall j :: 0 <= j < k ==> Loses(lastID, now, draws, j)
  }

  /** nextID: the id of the first attempt that wins, provided the attempts before it drew ids at all. */
  ghost predicate NextIs(lastID: string, now: nat, draws: Draws, r: Result<string, string>) {
    match r
    case Success(id) =>
      exists k :: 0 <= k < ATTEMPTS && Wins(lastID, now, draws, k) && id == IdText(Drawn(now, draws, k).value)
                  && AllLose(lastID, now, draws, k)
    case Failure(_) =>
      exists k :: 0 <= k <= ATTEMPTS && AllLose(lastID, now, draws, k)
                  && (k < ATTEMPTS ==> Drawn(now, draws, k).None?)
  }

  /** The loop ends at attempt k, the first that does not lose, with the outcome r. */
  predicate EndsAt(lastID: string, now: nat, draws: Draws, r: Result<string, string>, k: nat) {
    && k <= ATTEMPTS && AllLose(lastID, now, draws, k)
    && (k == ATTEMPTS || !Loses(lastID, now, draws, k))
    && (r.Success? <==> k < ATTEMPTS && Wins(lastID, now, draws, k))
    && (r.Success? ==> r.value == IdText(Drawn(now, draws, k).value))
  }

  lemma SomeEnd(lastID: string, now: nat, draws: Draws, r: Result<string, string>) returns (k: nat)
    requires NextIs(lastID, now, draws, r)
    ensures EndsAt(lastID, now, draws, r, k)
  {
    hide IdText, Less, Drawn;
    if r.Success? {
      k :| 0 <= k < ATTEMPTS && Wins(lastID, now, draws, k) && r.value == IdText(Drawn(now, draws, k).value)
           && AllLose(lastID, now, draws, k);
    } else {
      k :| 0 <= k <= ATTEMPTS && AllLose(lastID, now, draws, k) && (k < ATTEMPTS ==> Drawn(now, draws, k).None?);
    }
  }

  lemma EndIsFirst(lastID: string, now: nat, draws: Draws, k: nat, l: nat)
    requires l <= ATTEMPTS && AllLose(lastID, now, draws, l)
    requires k == ATTEMPTS || !Loses(lastID, now, draws, k)
    ensures l <= k
  {
    hide Loses;
  }

  /** The outcome of nextID is determined. */
  lemma NextUnique(lastID: string, now: nat, draws: Draws, r: Result<string, string>, s: Result<string, string>)
    requires NextIs(lastID, now, draws, r) && NextIs(lastID, now, draws, s)
    ensures r.Success? <==> s.Success?
    ensures r.Success? ==> r == s
  {
    hide IdText, Wins, Loses, AllLose, NextIs;
    var k := SomeEnd(lastID, now, draws, r);
    var l := SomeEnd(lastID, now, draws, s);
    EndIsFirst(lastID, now, draws, k, l);
    EndIsFirst(lastID, now, draws, l, k);
  }

  /** ULID generation itself never fails during the loop. */
  ghost predicate Generates(now: nat, draws: Draws) {
    forall k :: 0 <= k < ATTEMPTS ==> Drawn(now, draws, k).Some?
  }

  lemma WinsBy(last: Stamp, now: nat, draws: Draws, k: nat)
    requires Valid(last) && Drawn(now, draws, k).Some?
    ensures Wins(IdText(last), now, draws, k) <==> Before(last, Drawn(now, draws, k).value)
  {
    IdOrder(last, Drawn(now, draws, k).value);
    assert IdText(last)[0] == 'a';
    hide IdText;
  }

  /**
   * The loop finds an id exactly when the last id is at most 98 ms ahead of the clock, or 99 ms ahead
   * with less entropy than the hundredth draw; the id it finds sorts after the last one and is at most
   * 1 ms past the later of the two clocks.
   */
  lemma NextBound(last: Stamp, now: nat, draws: Draws, r: Result<string, string>)
    requires Valid(last) && Generates(now, draws)
    requires NextIs(IdText(last), now, draws, r)
    ensures r.Success? <==> last.ms <= now + 98 || (last.ms == now + 99 && last.entropy < Drawn(now, draws, 99).value.entropy)
    ensures r.Success? ==>
              exists x :: Valid(x) && r.value == IdText(x) && Before(last, x)
                          && x.ms <= (if now > last.ms then now else last.ms) + 1
  {
    var lastID := IdText(last);
    forall k | 0 <= k < ATTEMPTS
      ensures Wins(lastID, now, draws, k) <==> Before(last, Drawn(now, draws, k).value)
    {
      assert Drawn(now, draws, k).Some?;
      WinsBy(last, now, draws, k);
    }
    hide IdText, Pow32;
    if r.Success? {
      var k :| 0 <= k < ATTEMPTS && Wins(lastID, now, draws, k) && r.value == IdText(Drawn(now, draws, k).value)
               && AllLose(lastID, now, draws, k);
      var x := Drawn(now, draws, k).value;
      assert k > 0 ==> Loses(lastID, now, draws, k - 1);
      assert Valid(x) && Before(last, x);
    } else {
      var k :| 0 <= k <= ATTEMPTS && AllLose(lastID, now, draws, k)
               && (k < ATTEMPTS ==> Drawn(now, draws, k).None?);
      assert k == ATTEMPTS;
      assert Loses(lastID, now, draws, 99);
    }
  }

  /** In particular: 100 ms or more ahead always fails. */
  lemma NextFailsFarAhead(last: Stamp, now: nat, draws: Draws, r: Result<string, string>)
    requires Valid(last) && Generates(now, draws) && last.ms >= now + 100
    requires NextIs(IdText(last), now, draws, r)
    ensures r.Failure?
  {
    NextBound(last, now, draws, r);
  }

  // ---------------------------------------------------------------- hashing and storing

  /** The hasher of computeHash: digests what was written to it. */
  class Hasher {
    var fed: string

    constructor ()
      ensures fed == ""
    {
      fed := "";
    }

    method Write(s: string)
      modifies this
      ensures fed == old(fed) + s
    {
      fed := fed + s;
    }
  }

  /** computeHash: the predecessor's hash, then the canonical text of the entry with its hash blanked. */
  method HashEntry(sha: string -> string, prevHash: string, e: Entry) returns (hash: string)
    ensures hash == ComputeHash(sha, prevHash, e) && HashesEntry(sha, prevHash, e, hash)
  {
    HashIs(sha, prevHash, e);
    hide Print, EntryJson, HashesEntry;
    var payload := CanonicalJson(EntryJson(e.(hash := "")));
    var hasher := new Hasher();
    hasher.Write(prevHash);
    hasher.Write(payload);
    assert "" + prevHash == prevHash;
    hash := HASH_PREFIX + sha(hasher.fed);
  }

  /** json.Marshal of the context: its present members in declaration order. */
  method MarshalContext(c: Context) returns (text: string)
    ensures text == ContextText(c)
    ensures Parse(text).Got? && ContextObject(Parse(text).value, c)
  {
    ContextParses(c);
    ContextIs(c);
    hide ContextJson, Present, PrintMembers, ContextFields, Parse, ContextObject;
    var keys := Present(CONTEXT_ORDER, ContextFields(c));
    ContextListed(c);
    var buf := new Buffer();
    buf.WriteString("{");
    assert "" + "{" == "{";
    WriteMembers(buf, ContextJson(c), keys);
    text := buf.data;
  }

  /** The columns of an entry, with empty data and an absent context stored as NULL. */
  method MarshalRow(e: Entry) returns (row: Row)
    ensures row == ToRow(e)
    ensures row.dataJson == if e.data == map[] then None else Some(Print(Object(e.data)))
    ensures row.id == e.id && row.timestamp == e.timestamp && row.kind == e.kind && row.outcome == e.outcome
    ensures row.actorKind == e.actor.kind && row.actorId == e.actor.id && row.prevHash == e.prevHash && row.hash == e.hash
    ensures row.subjectKind == if e.subject.Some? then Some(e.subject.value.kind) else None
    ensures row.subjectId == if e.subject.Some? then Some(e.subject.value.id) else None
    ensures row.contextJson.Some? <==> e.context.Some?
    ensures e.context.Some? ==> Parse(row.contextJson.value).Got? && ContextObject(Parse(row.contextJson.value).value, e.context.value)
  {
    hide Print, ContextText, Parse, ContextObject;
    var data: Option<string> := None;
    if e.data != map[] {
      var text := CanonicalJson(Object(e.data));
      data := Some(text);
    }
    var context: Option<string> := None;
    if e.context.Some? {
      var text := MarshalContext(e.context.value);
      context := Some(text);
    }
    row := Row(e.id, e.timestamp, e.kind, e.actor.kind, e.actor.id,
               if e.subject.Some? then Some(e.subject.value.kind) else None,
               if e.subject.Some? then Some(e.subject.value.id) else None,
               e.outcome, data, context, e.prevHash, e.hash);
  }

  // ---------------------------------------------------------------- the store

  /** The table audit_entries, shared by every process; rows in the order they were committed. */
  class Database {
    var rows: seq<Row>

    constructor ()
      ensures rows == []
    {
      rows := [];
    }
  }

  /** Which of the database operations of one Append fail. */
  datatype Faults = Faults(begin: bool, readHead: bool, insert: bool, commit: bool)

  /** The clock reading of one Append: its millisecond for the id and its RFC 3339 text. */
  datatype Clock = Clock(ms: nat, text: string)

  /** An entry with everything the writer fills in. */
  ghost function Filled(sha: string -> string, e: Entry, prevHash: string, id: string, timestamp: string): Entry {
    var f := e.(id := id, timestamp := timestamp, prevHash := prevHash);
    f.(hash := ComputeHash(sha, prevHash, f))
  }

  /** The constraints of the table: `id` is the primary key and `hash` is unique. */
  ghost predicate Insertable(rows: seq<Row>, row: Row) {
    forall r | r in rows :: r.id != row.id && r.hash != row.hash
  }

  /** What Verify reports of the rows in id order: the first one that breaks the chain, if any. */
  ghost predicate VerifyOutcome(sha: string -> string, lib: Library, rows: seq<Row>, r: Result<VerifyResult, string>) {
    match r
    case Success(v) =>
      && LinkedUpTo(sha, lib, rows, v.entriesChecked)
      && (v.valid <==> v.entriesChecked == |rows|)
      && v.brokenAt == (if v.valid then "" else rows[v.entriesChecked].id)
      && (!v.valid ==> Scan(lib, rows[v.entriesChecked]).Success?)
    case Failure(_) =>
      exists n :: 0 <= n < |rows| && LinkedUpTo(sha, lib, rows, n) && Scan(lib, rows[n]).Failure?
  }

  class Store {
    const db: Database
    const sha: string -> string
    const lib: Library
    var lastHash: string
    var lastID: string

    /** openWith and loadHeadHash. */
    constructor (db: Database, sha: string -> string, lib: Library)
      ensures this.db == db && this.sha == sha && this.lib == lib
      ensures lastHash == PreviousHash(db.rows)
      ensures lastID == match HeadRow(db.rows) case Some(row) => row.id case None => ""
    {
      this.db, this.sha, this.lib := db, sha, lib;
      var head := HeadRow(db.rows);
      lastHash := PreviousHash(db.rows);
      lastID := match head case Some(row) => row.id case None => "";
    }

    /** readHeadInSQLiteTx and readHeadInPgTx. */
    method ReadHead() returns (prevHash: string)
      modifies this`lastID
      ensures prevHash == PreviousHash(db.rows)
      ensures lastID == SeenId(old(lastID), db.rows)
    {
      prevHash := GENESIS_HASH;
      var head := HeadRow(db.rows);
      if head.Some? && head.value.hash != "" {
        prevHash := head.value.hash;
      }
      if head.Some? && Less(lastID, head.value.id) {
        lastID := head.value.id;
      }
    }

    /** The retry loop: each losing attempt moves the clock on by a millisecond. */
    method NextID(now: nat, draws: Draws) returns (r: Result<string, string>)
      modifies this`lastID
      ensures NextIs(old(lastID), now, draws, r)
      ensures lastID == if r.Success? then r.value else old(lastID)
    {
      hide IdText, Less, Pow32;
      var t := now;
      for attempt := 0 to ATTEMPTS
        invariant t == now + attempt
        invariant lastID == old(lastID)
        invariant AllLose(lastID, now, draws, attempt)
      {
        if t >= MAX_MS || draws(attempt).None? || draws(attempt).value >= Pow32(16) {
          assert Drawn(now, draws, attempt).None?;
          return Failure("generating ULID");
        }
        var id := IdText(Stamp(t, draws(attempt).value));
        assert Drawn(now, draws, attempt) == Some(Stamp(t, draws(attempt).value));
        if lastID == "" || Less(lastID, id) {
          assert Wins(lastID, now, draws, attempt);
          lastID := id;
          return Success(id);
        }
        assert Loses(lastID, now, draws, attempt);
        t := t + 1;
      }
      return Failure("failed to generate monotonic id after 100 attempts");
    }

    /**
     * Append: validate, lock, read the head, pick an id, hash, insert, commit. Any failure rolls the
     * transaction back; the highest id seen is kept.
     */
    method Append(e: Entry, clock: Clock, draws: Draws, faults: Faults) returns (r: Result<Entry, string>)
      modifies this, db
      ensures r.Failure? ==> db.rows == old(db.rows) && lastHash == old(lastHash)
      ensures r.Success? ==>
                && MissingField(e).None?
                && NextIs(SeenId(old(lastID), old(db.rows)), clock.ms, draws, Success(r.value.id))
                && r.value == Filled(sha, e, PreviousHash(old(db.rows)), r.value.id, clock.text)
                && Insertable(old(db.rows), ToRow(r.value))
                && db.rows == old(db.rows) + [ToRow(r.value)]
                && lastHash == r.value.hash && lastID == r.value.id
      ensures r.Success? ==>
                && r.value == e.(id := r.value.id, timestamp := clock.text, prevHash := r.value.prevHash, hash := r.value.hash)
                && HashesEntry(sha, r.value.prevHash, r.value, r.value.hash)
                && (forall row | row in old(db.rows) :: row.id != r.value.id && row.hash != r.value.hash)
                && (old(db.rows) == [] ==> r.value.prevHash == GENESIS_HASH)
                && (old(db.rows) != [] ==>
                      exists head | head in old(db.rows) ::
                        && (forall other | other in old(db.rows) :: !Less(head.id, other.id))
                        && r.value.prevHash == if head.hash == "" then GENESIS_HASH else head.hash)
      ensures MissingField(e).Some? ==> r.Failure? && lastID == old(lastID)
      ensures MissingField(e).None? && faults == Faults(false, false, false, false) && r.Failure? ==>
                || NextIs(SeenId(old(lastID), old(db.rows)), clock.ms, draws, Failure(r.error))
                || exists id :: NextIs(SeenId(old(lastID), old(db.rows)), clock.ms, draws, Success(id))
                                && !Insertable(old(db.rows), ToRow(Filled(sha, e, PreviousHash(old(db.rows)), id, clock.text)))
    {
      hide ToRow, ComputeHash, HashesEntry, NextIs, SeenId, PreviousHash;
      var missing := MissingField(e);
      if missing.Some? {
        return Failure("missing required field: " + missing.value);
      }
      if faults.begin {
        return Failure("begin");
      }
      if faults.readHead {
        return Failure("reading head");
      }
      var prevHash := ReadHead();
      PreviousIs(db.rows);
      var next := NextID(clock.ms, draws);
      if next.Failure? {
        return Failure(next.error);
      }
      var filled := e.(id := next.value, timestamp := clock.text, prevHash := prevHash);
      var hash := HashEntry(sha, prevHash, filled);
      ghost var blank := filled;
      filled := filled.(hash := hash);
      SameHashed(sha, prevHash, blank, filled, hash);
      RowColumns(filled);
      var row := MarshalRow(filled);
      if faults.insert || exists stored | stored in db.rows :: stored.id == row.id || stored.hash == row.hash {
        return Failure("insert");
      }
      if faults.commit {
        return Failure("commit");
      }
      db.rows := db.rows + [row];
      lastHash := filled.hash;
      return Success(filled);
    }

    /**
     * Verify: replays the chain in id order. It reports the first row that does not link to its
     * predecessor or carry its own hash, and fails only on a row that does not scan.
     */
    method Verify() returns (r: Result<VerifyResult, string>)
      ensures VerifyOutcome(sha, lib, OrderById(db.rows), r)
      ensures r.Success? ==>
                && r.value.entriesChecked <= |OrderById(db.rows)|
                && (r.value.valid <==> r.value.entriesChecked == |OrderById(db.rows)|)
                && (forall i :: 0 <= i < r.value.entriesChecked ==> Chained(sha, lib, OrderById(db.rows), i))
                && (!r.value.valid ==> !Chained(sha, lib, OrderById(db.rows), r.value.entriesChecked)
                                       && r.value.brokenAt == OrderById(db.rows)[r.value.entriesChecked].id)
    {
      hide Scan, ComputeHash, HashesEntry, OrderById, Chained;
      var rows := OrderById(db.rows);
      forall i | 0 <= i < |rows| ensures Linked(sha, lib, rows, i) == Chained(sha, lib, rows, i) {
        ChainedIsLinked(sha, lib, rows, i);
      }
      var prev := GENESIS_HASH;
      var checked := 0;
      while checked < |rows|
        invariant checked <= |rows|
        invariant prev == HashBefore(rows, checked)
        invariant forall i :: 0 <= i < checked ==> Linked(sha, lib, rows, i)
      {
        var scanned := Scan(lib, rows[checked]);
        if scanned.Failure? {
          assert !Linked(sha, lib, rows, checked);
          assert LinkedUpTo(sha, lib, rows, checked);
          return Failure(scanned.error);
        }
        var e := scanned.value;
        ScannedColumns(lib, rows[checked]);
        if e.prevHash != prev {
          assert !Linked(sha, lib, rows, checked);
          return Success(VerifyResult(checked, false, e.id));
        }
        var want := HashEntry(sha, prev, e);
        if want != e.hash {
          assert !Linked(sha, lib, rows, checked);
          return Success(VerifyResult(checked, false, e.id));
        }
        assert Linked(sha, lib, rows, checked);
        prev := e.hash;
        checked := checked + 1;
      }
      return Success(VerifyResult(checked, true, ""));
    }
  }

  lemma ChainedIsLinked(sha: string -> string, lib: Library, rows: seq<Row>, i: nat)
    requires i < |rows|
    ensures Linked(sha, lib, rows, i) == Chained(sha, lib, rows, i)
  {
    hide Scan, ComputeHash, HashesEntry, Linked;
    LinkIs(sha, lib, rows, i);
  }

  /** What is hashed does not depend on the hash an entry carries. */
  lemma SameHashed(sha: string -> string, prevHash: string, e: Entry, f: Entry, hash: string)
    requires HashesEntry(sha, prevHash, e, hash) && f == e.(hash := f.hash)
    ensures HashesEntry(sha, prevHash, f, hash)
  {
    assert f.(hash := "") == e.(hash := "");
    hide EntryObject, WellFormedData, Print, Parse;
  }

  lemma ScannedColumns(lib: Library, row: Row)
    requires Scan(lib, row).Success?
    ensures var e := Scan(lib, row).value; e.id == row.id && e.prevHash == row.prevHash && e.hash == row.hash
  {
  }

  /** Verify reports a valid chain exactly when the chain is intact, and then has checked every row. */
  lemma VerifyDecides(sha: string -> string, lib: Library, rows: seq<Row>, r: Result<VerifyResult, string>)
    requires VerifyOutcome(sha, lib, rows, r)
    ensures r == Success(VerifyResult(|rows|, true, "")) <==> Intact(sha, lib, rows)
    ensures r.Success? && r.value.valid <==> Intact(sha, lib, rows)
  {
    hide Scan, ComputeHash;
    if r.Failure? {
      var n :| 0 <= n < |rows| && LinkedUpTo(sha, lib, rows, n) && Scan(lib, rows[n]).Failure?;
      assert !Linked(sha, lib, rows, n);
    } else if r.value.entriesChecked < |rows| {
      assert !Linked(sha, lib, rows, r.value.entriesChecked);
    }
  }
}
