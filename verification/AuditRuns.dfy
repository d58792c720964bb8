/**
 * Any number of processes appending to one audit table: every interleaving of the steps of Append, with
 * failure and rollback possible at each (runtime/internal/audit/writer.go).
 *
 * The database lock is BEGIN IMMEDIATE on SQLite and the advisory transaction lock on Postgres; what a
 * writer inserted becomes visible to the others when it commits.
 */
module AuditRuns {
  import opened Wrappers
  import opened Json
  import opened Ulid
  import opened AuditEntry
  import opened AuditLog
  import opened AuditStore

  datatype Env = Env(sha: string -> string, lib: Library)

  /** Where a writer is in Append. Every phase but Idle is inside its transaction. */
  datatype Phase =
    | Idle
    | Locked(e: Entry)
    | HeadRead(e: Entry, prevHash: string)
    | Hashed(filled: Entry)
    | Inserted(filled: Entry)

  datatype Writer = Writer(phase: Phase, lastID: string, lastHash: string)

  /** The committed table, the entries it was committed for, who holds the database lock, and the open stores. */
  datatype System = System(rows: seq<Row>, entries: seq<Entry>, lock: Option<nat>, writers: map<nat, Writer>)

  datatype Step =
    | Open(p: nat)
    | Begin(p: nat, e: Entry)
    | ReadHead(p: nat)
    | TakeId(p: nat, clock: Clock, draws: Draws, id: string)
    | Insert(p: nat)
    | Commit(p: nat)
    | Rollback(p: nat)

  const INITIAL: System := System([], [], None, map[])

  /** Entries passed to Begin are valid and their data is JSON; clocks print timestamps that read back as they are. */
  ghost predicate Enabled(env: Env, s: System, step: Step) {
    match step
    case Open(p) => p !in s.writers
    case Begin(p, e) =>
      && p in s.writers && s.writers[p].phase.Idle? && s.lock.None?
      && MissingField(e).None? && WellFormedData(e.data)
    case ReadHead(p) => p in s.writers && s.writers[p].phase.Locked?
    case TakeId(p, clock, draws, id) =>
      && p in s.writers && s.writers[p].phase.HeadRead?
      && NextIs(s.writers[p].lastID, clock.ms, draws, Success(id))
      && env.lib.reformat(clock.text) == Some(clock.text)
    case Insert(p) =>
      && p in s.writers && s.writers[p].phase.Hashed?
      && Insertable(s.rows, ToRow(s.writers[p].phase.filled))
    case Commit(p) => p in s.writers && s.writers[p].phase.Inserted?
    case Rollback(p) => p in s.writers && !s.writers[p].phase.Idle?
  }

  ghost function Apply(env: Env, s: System, step: Step): System
    requires Enabled(env, s, step)
  {
    match step
    case Open(p) =>
      var id := match HeadRow(s.rows) case Some(row) => row.id case None => "";
      s.(writers := s.writers[p := Writer(Idle, id, PreviousHash(s.rows))])
    case Begin(p, e) =>
      s.(lock := Some(p), writers := s.writers[p := s.writers[p].(phase := Locked(e))])
    case ReadHead(p) =>
      var w := s.writers[p];
      s.(writers := s.writers[p := w.(phase := HeadRead(w.phase.e, PreviousHash(s.rows)), lastID := SeenId(w.lastID, s.rows))])
    case TakeId(p, clock, draws, id) =>
      var w := s.writers[p];
      var filled := Filled(env.sha, w.phase.e, w.phase.prevHash, id, clock.text);
      s.(writers := s.writers[p := w.(phase := Hashed(filled), lastID := id)])
    case Insert(p) =>
      var w := s.writers[p];
      s.(writers := s.writers[p := w.(phase := Inserted(w.phase.filled))])
    case Commit(p) =>
      var w := s.writers[p];
      System(s.rows + [ToRow(w.phase.filled)], s.entries + [w.phase.filled], None,
             s.writers[p := w.(phase := Idle, lastHash := w.phase.filled.hash)])
    case Rollback(p) =>
      s.(lock := None, writers := s.writers[p := s.writers[p].(phase := Idle)])
  }

  /** s runs to t through the steps. */
  ghost predicate Runs(env: Env, s: System, steps: seq<Step>, t: System)
    decreases |steps|
  {
    if steps == [] then s == t
    else Enabled(env, s, steps[0]) && Runs(env, Apply(env, s, steps[0]), steps[1..], t)
  }

  function Commits(steps: seq<Step>): nat {
    if steps == [] then 0 else (if steps[0].Commit? then 1 else 0) + Commits(steps[1..])
  }

  // ---------------------------------------------------------------- the invariant

  /** id sorts after every committed row. */
  predicate Above(rows: seq<Row>, id: string) {
    forall row | row in rows :: Less(row.id, id)
  }

  /** Every committed row sorts at or below id. */
  predicate Covers(rows: seq<Row>, id: string) {
    forall row | row in rows :: !Less(id, row.id)
  }

  /** An entry ready to be the next link of the chain. */
  ghost predicate NextLink(env: Env, rows: seq<Row>, f: Entry) {
    && Above(rows, f.id)
    && Storable(env.lib, f)
    && f.prevHash == HeadHash(rows)
    && f.hash == ComputeHash(env.sha, HeadHash(rows), f)
  }

  ghost predicate PhaseHolds(env: Env, rows: seq<Row>, w: Writer) {
    match w.phase
    case Idle => true
    case Locked(e) => WellFormedData(e.data)
    case HeadRead(e, prevHash) => WellFormedData(e.data) && prevHash == HeadHash(rows) && Covers(rows, w.lastID)
    case Hashed(f) => NextLink(env, rows, f)
    case Inserted(f) => NextLink(env, rows, f)
  }

  /** Row i was stored for entry i, which was hashed onto the row before. */
  ghost predicate Link(env: Env, rows: seq<Row>, entries: seq<Entry>, i: nat)
    requires i < |rows| == |entries|
  {
    && rows[i] == ToRow(entries[i]) && Storable(env.lib, entries[i])
    && entries[i].prevHash == HashBefore(rows, i)
    && entries[i].hash == ComputeHash(env.sha, HashBefore(rows, i), entries[i])
  }

  ghost predicate Chain(env: Env, rows: seq<Row>, entries: seq<Entry>) {
    |rows| == |entries| && forall i :: 0 <= i < |rows| ==> Link(env, rows, entries, i)
  }

  ghost predicate Inv(env: Env, s: System) {
    && IdsIncrease(s.rows)
    && Chain(env, s.rows, s.entries)
    && (forall p | p in s.writers :: !s.writers[p].phase.Idle? ==> s.lock == Some(p))
    && (forall p | p in s.writers :: PhaseHolds(env, s.rows, s.writers[p]))
  }

  lemma LastHash(env: Env, rows: seq<Row>, entries: seq<Entry>)
    requires IsSha(env.sha) && Chain(env, rows, entries) && rows != []
    ensures rows[|rows| - 1].hash != ""
  {
    hide Storable, CanonicalText;
    assert Link(env, rows, entries, |rows| - 1);
  }

  lemma ReadsHead(env: Env, rows: seq<Row>, entries: seq<Entry>, lastID: string)
    requires IsSha(env.sha) && IdsIncrease(rows) && Chain(env, rows, entries)
    ensures PreviousHash(rows) == HeadHash(rows)
    ensures Covers(rows, SeenId(lastID, rows))
  {
    hide Chain, Less, IdsIncrease;
    IncreasingInOrder(rows);
    HeadCovers(rows, lastID);
    if rows != [] {
      LastHash(env, rows, entries);
      assert HeadRow(rows) == Some(rows[|rows| - 1]);
    }
  }

  lemma HeadCovers(rows: seq<Row>, lastID: string)
    requires IdsIncrease(rows) && OrderById(rows) == rows
    ensures Covers(rows, SeenId(lastID, rows))
  {
    hide OrderById;
    if rows != [] {
      var last := rows[|rows| - 1];
      assert HeadRow(rows) == Some(last);
      forall row | row in rows ensures !Less(SeenId(lastID, rows), row.id) {
        var i :| 0 <= i < |rows| && rows[i] == row;
        var seen := SeenId(lastID, rows);
        LessTotal(seen, last.id);
        LessTotal(seen, row.id);
        if Less(seen, row.id) && i < |rows| - 1 {
          LessTransitive(seen, row.id, last.id);
        }
        LessTotal(lastID, last.id);
        LessTotal(last.id, last.id);
      }
    }
  }

  lemma CoveredBelow(rows: seq<Row>, lastID: string, now: nat, draws: Draws, id: string)
    requires Covers(rows, lastID) && NextIs(lastID, now, draws, Success(id))
    ensures Above(rows, id)
  {
    hide IdText;
    var k :| 0 <= k < ATTEMPTS && Wins(lastID, now, draws, k) && id == IdText(Drawn(now, draws, k).value)
             && AllLose(lastID, now, draws, k);
    IdNotEmpty(Drawn(now, draws, k).value);
    forall row | row in rows ensures Less(row.id, id) {
      LessTotal(lastID, row.id);
      if lastID == "" {
        assert row.id == "";
      } else if row.id != lastID {
        LessTransitive(row.id, lastID, id);
      }
    }
  }

  lemma IdNotEmpty(x: Stamp)
    ensures IdText(x) != ""
  {
    hide Text32;
  }

  lemma CommitExtends(env: Env, rows: seq<Row>, entries: seq<Entry>, f: Entry)
    requires IdsIncrease(rows) && Chain(env, rows, entries) && NextLink(env, rows, f)
    ensures IdsIncrease(rows + [ToRow(f)]) && Chain(env, rows + [ToRow(f)], entries + [f])
  {
    RowColumns(f);
    hide ComputeHash, ToRow, Storable;
    var row := ToRow(f);
    var more, all := rows + [row], entries + [f];
    forall i | 0 <= i < |more| ensures Link(env, more, all, i) {
      assert HashBefore(more, i) == HashBefore(rows, i);
      if i < |rows| {
        assert Link(env, rows, entries, i);
      }
    }
    forall i, j | 0 <= i < j < |more| ensures Less(more[i].id, more[j].id) {
      if j == |rows| {
        assert rows[i] in rows;
      }
    }
  }

  lemma FilledLinks(env: Env, rows: seq<Row>, e: Entry, id: string, text: string)
    requires Above(rows, id) && WellFormedData(e.data) && env.lib.reformat(text) == Some(text)
    ensures NextLink(env, rows, Filled(env.sha, e, HeadHash(rows), id, text))
  {
    var g := e.(id := id, timestamp := text, prevHash := HeadHash(rows));
    var f := Filled(env.sha, e, HeadHash(rows), id, text);
    assert f.(hash := "") == g.(hash := "");
  }

  /** Every step of every writer keeps the chain intact and the ids increasing. */
  lemma StepKeeps(env: Env, s: System, step: Step)
    requires IsSha(env.sha) && Inv(env, s) && Enabled(env, s, step)
    ensures Inv(env, Apply(env, s, step))
  {
    hide ToRow, NextIs, PreviousHash, SeenId, Filled, ComputeHash, Scan, HeadRow, WellFormedData, Chain;
    var t := Apply(env, s, step);
    match step
    case Open(p) =>
    case Begin(p, e) =>
    case ReadHead(p) => ReadsHead(env, s.rows, s.entries, s.writers[p].lastID);
    case TakeId(p, clock, draws, id) =>
      var w := s.writers[p];
      CoveredBelow(s.rows, w.lastID, clock.ms, draws, id);
      FilledLinks(env, s.rows, w.phase.e, id, clock.text);
    case Insert(p) =>
    case Commit(p) =>
      CommitExtends(env, s.rows, s.entries, s.writers[p].phase.filled);
      forall q | q in t.writers ensures t.writers[q].phase.Idle? {
      }
    case Rollback(p) =>
  }

  lemma StepRows(env: Env, s: System, step: Step)
    requires Enabled(env, s, step)
    ensures var u := Apply(env, s, step);
            |u.rows| == |s.rows| + (if step.Commit? then 1 else 0) && u.rows[..|s.rows|] == s.rows
  {
    hide ToRow, NextIs, Insertable, Filled;
  }

  lemma {:induction false} RunKeeps(env: Env, s: System, steps: seq<Step>, t: System)
    requires IsSha(env.sha) && Inv(env, s) && Runs(env, s, steps, t)
    ensures Inv(env, t)
    ensures |t.rows| == |s.rows| + Commits(steps) && t.rows[..|s.rows|] == s.rows
    decreases |steps|
  {
    hide Inv, Apply, Enabled;
    if steps == [] {
      assert t.rows[..|s.rows|] == s.rows;
    } else {
      var u := Apply(env, s, steps[0]);
      StepKeeps(env, s, steps[0]);
      StepRows(env, s, steps[0]);
      RunKeeps(env, u, steps[1..], t);
      assert t.rows[..|s.rows|] == t.rows[..|u.rows|][..|s.rows|];
    }
  }

  /** The entry was not changed by decoding, or its hash collides with that of what it was decoded to. */
  ghost predicate Faithful(env: Env, s: System, i: nat)
    requires i < |s.entries| == |s.rows|
  {
    Decodes(env.lib, s.entries[i].data) || FloatsCollide(env.sha, env.lib, HashBefore(s.rows, i), s.entries[i])
  }

  /**
   * After any run from an empty table, with failures anywhere: the table holds one row for each commit, reading
   * it in id order is reading it in commit order, and each row links to its predecessor. If float64 decoding
   * leaves the data of every committed entry unchanged, Verify reports a valid chain of as many entries as there
   * were commits; and a valid chain is reported only if it does, but for hash collisions.
   */
  lemma RunVerifies(env: Env, steps: seq<Step>, t: System, r: Result<VerifyResult, string>)
    requires IsSha(env.sha) && Lawful(env.lib)
    requires Runs(env, INITIAL, steps, t)
    requires VerifyOutcome(env.sha, env.lib, OrderById(t.rows), r)
    ensures OrderById(t.rows) == t.rows && |t.rows| == |t.entries| == Commits(steps)
    ensures forall i :: 0 < i < |t.rows| ==> t.rows[i].prevHash == t.rows[i - 1].hash
    ensures (forall i :: 0 <= i < |t.entries| ==> Decodes(env.lib, t.entries[i].data)) ==>
              r == Success(VerifyResult(Commits(steps), true, ""))
    ensures r.Success? && r.value.valid ==> forall i :: 0 <= i < |t.entries| ==> Faithful(env, t, i)
  {
    hide Scan, ComputeHash, Apply, Enabled, Runs, OrderById, Commits, PhaseHolds, VerifyOutcome, Decodes, Link, FloatsCollide, Linked;
    RunChains(env, steps, t);
    VerifyDecides(env.sha, env.lib, t.rows, r);
    forall i | 0 <= i < |t.rows| ensures Decodes(env.lib, t.entries[i].data) ==> Linked(env.sha, env.lib, t.rows, i)
                                 ensures Linked(env.sha, env.lib, t.rows, i) ==> Faithful(env, t, i)
    {
      LinkVerifies(env, t.rows, t.entries, i);
    }
    forall i | 0 < i < |t.rows| ensures t.rows[i].prevHash == t.rows[i - 1].hash {
      LinkColumns(env, t.rows, t.entries, i);
    }
  }

  /** What Verify makes of the first entry that decoding changes: it breaks there, or cannot read on. */
  lemma FirstChangedBreaks(env: Env, steps: seq<Step>, t: System, r: Result<VerifyResult, string>, k: nat)
    requires IsSha(env.sha) && Lawful(env.lib)
    requires Runs(env, INITIAL, steps, t)
    requires VerifyOutcome(env.sha, env.lib, OrderById(t.rows), r)
    requires k < |t.entries| == |t.rows| && !Faithful(env, t, k)
    requires forall i :: 0 <= i < k ==> Decodes(env.lib, t.entries[i].data)
    ensures if Floats(env.lib, Object(t.entries[k].data))
            then r == Success(VerifyResult(k, false, t.entries[k].id))
            else r.Failure?
  {
    hide Scan, ComputeHash, Apply, Enabled, Runs, OrderById, Commits, PhaseHolds, Decodes, Link, FloatsCollide, Linked, Floats;
    RunChains(env, steps, t);
    forall i | 0 <= i <= k
      ensures Decodes(env.lib, t.entries[i].data) ==> Linked(env.sha, env.lib, t.rows, i)
      ensures Linked(env.sha, env.lib, t.rows, i) ==> Faithful(env, t, i)
      ensures Scan(env.lib, t.rows[i]).Success? <==> Floats(env.lib, Object(t.entries[i].data))
    {
      LinkVerifies(env, t.rows, t.entries, i);
    }
    LinkColumns(env, t.rows, t.entries, k);
    UniqueBreak(env, t.rows, k, r);
  }

  /** Every entry under way or committed has data that decodes unchanged. */
  predicate AllDecode(env: Env, s: System) {
    && (forall i :: 0 <= i < |s.entries| ==> Decodes(env.lib, s.entries[i].data))
    && (forall p | p in s.writers ::
         match s.writers[p].phase
         case Idle => true
         case Locked(e) => Decodes(env.lib, e.data)
         case HeadRead(e, _) => Decodes(env.lib, e.data)
         case Hashed(f) => Decodes(env.lib, f.data)
         case Inserted(f) => Decodes(env.lib, f.data))
  }

  lemma StepDecodes(env: Env, s: System, step: Step)
    requires AllDecode(env, s) && Enabled(env, s, step) && (step.Begin? ==> Decodes(env.lib, step.e.data))
    ensures AllDecode(env, Apply(env, s, step))
  {
    hide ToRow, NextIs, PreviousHash, SeenId, ComputeHash, HeadRow, WellFormedData, Decodes, Insertable;
  }

  /** If the data of every entry passed in decodes unchanged, so does that of every committed one. */
  lemma {:induction false} RunDecodes(env: Env, s: System, steps: seq<Step>, t: System)
    requires AllDecode(env, s) && Runs(env, s, steps, t)
    requires forall step | step in steps :: step.Begin? ==> Decodes(env.lib, step.e.data)
    ensures AllDecode(env, t)
    decreases |steps|
  {
    hide AllDecode, Enabled, Apply, Decodes;
    if steps != [] {
      assert steps[0] in steps;
      StepDecodes(env, s, steps[0]);
      RunDecodes(env, Apply(env, s, steps[0]), steps[1..], t);
    }
  }

  /** So a log to which only such entries were appended always verifies in full. */
  lemma DecodingRunVerifies(env: Env, steps: seq<Step>, t: System, r: Result<VerifyResult, string>)
    requires IsSha(env.sha) && Lawful(env.lib)
    requires Runs(env, INITIAL, steps, t)
    requires forall step | step in steps :: step.Begin? ==> Decodes(env.lib, step.e.data)
    requires VerifyOutcome(env.sha, env.lib, OrderById(t.rows), r)
    ensures r == Success(VerifyResult(Commits(steps), true, ""))
  {
    hide Runs, Decodes, VerifyOutcome, OrderById, Commits, Lawful;
    RunDecodes(env, INITIAL, steps, t);
    RunVerifies(env, steps, t, r);
  }

  lemma UniqueBreak(env: Env, rows: seq<Row>, k: nat, r: Result<VerifyResult, string>)
    requires VerifyOutcome(env.sha, env.lib, rows, r) && k < |rows|
    requires (forall i :: 0 <= i < k ==> Linked(env.sha, env.lib, rows, i)) && !Linked(env.sha, env.lib, rows, k)
    ensures if Scan(env.lib, rows[k]).Success? then r == Success(VerifyResult(k, false, rows[k].id)) else r.Failure?
  {
    hide Linked, Scan;
    if r.Failure? {
      var n :| 0 <= n < |rows| && LinkedUpTo(env.sha, env.lib, rows, n) && Scan(env.lib, rows[n]).Failure?;
      assert n == k;
    } else {
      assert r.value.entriesChecked == k;
    }
  }

  lemma RunChains(env: Env, steps: seq<Step>, t: System)
    requires IsSha(env.sha) && Runs(env, INITIAL, steps, t)
    ensures OrderById(t.rows) == t.rows && |t.rows| == |t.entries| == Commits(steps) && Chain(env, t.rows, t.entries)
  {
    hide Scan, ComputeHash, Apply, Enabled, Runs, OrderById, Commits, PhaseHolds, Link;
    assert Inv(env, INITIAL);
    RunKeeps(env, INITIAL, steps, t);
    assert |INITIAL.rows| == 0;
    IncreasingInOrder(t.rows);
  }

  lemma LinkVerifies(env: Env, rows: seq<Row>, entries: seq<Entry>, i: nat)
    requires IsSha(env.sha) && Lawful(env.lib) && Chain(env, rows, entries) && i < |rows|
    ensures Decodes(env.lib, entries[i].data) ==> Linked(env.sha, env.lib, rows, i)
    ensures Linked(env.sha, env.lib, rows, i) ==>
              Decodes(env.lib, entries[i].data) || FloatsCollide(env.sha, env.lib, HashBefore(rows, i), entries[i])
    ensures Scan(env.lib, rows[i]).Success? <==> Floats(env.lib, Object(entries[i].data))
  {
    hide Scan, ComputeHash, Storable, Decodes, FloatsCollide, Linked, ToRow, Floats, HashBefore;
    assert Link(env, rows, entries, i);
    StoredVerifies(env.sha, env.lib, rows, i, entries[i]);
  }

  lemma LinkColumns(env: Env, rows: seq<Row>, entries: seq<Entry>, i: nat)
    requires Chain(env, rows, entries) && i < |rows|
    ensures rows[i].id == entries[i].id && rows[i].prevHash == HashBefore(rows, i)
  {
    hide ComputeHash, Storable;
    assert Link(env, rows, entries, i);
  }

  /** Committed rows are never changed or removed. */
  lemma RunAppends(env: Env, first: seq<Step>, s: System, more: seq<Step>, t: System)
    requires IsSha(env.sha) && Runs(env, INITIAL, first, s) && Runs(env, s, more, t)
    ensures s.rows <= t.rows
  {
    hide Scan, ComputeHash, Apply, Enabled, Runs, PhaseHolds, Link;
    assert Inv(env, INITIAL);
    RunKeeps(env, INITIAL, first, s);
    RunKeeps(env, s, more, t);
  }

  /**
   * The Append method of a store is one run of these steps: where the method succeeds, its five steps
   * are enabled in turn and end in the table and the cached values the method leaves.
   */
  lemma AppendIsRun(env: Env, s: System, p: nat, e: Entry, clock: Clock, draws: Draws, id: string)
    requires p in s.writers && s.writers[p].phase.Idle? && s.lock.None?
    requires MissingField(e).None? && WellFormedData(e.data) && env.lib.reformat(clock.text) == Some(clock.text)
    requires NextIs(SeenId(s.writers[p].lastID, s.rows), clock.ms, draws, Success(id))
    requires Insertable(s.rows, ToRow(Filled(env.sha, e, PreviousHash(s.rows), id, clock.text)))
    ensures var f := Filled(env.sha, e, PreviousHash(s.rows), id, clock.text);
            Runs(env, s, [Begin(p, e), ReadHead(p), TakeId(p, clock, draws, id), Insert(p), Commit(p)],
                 System(s.rows + [ToRow(f)], s.entries + [f], None, s.writers[p := Writer(Idle, id, f.hash)]))
  {
    hide *;
    var f := Filled(env.sha, e, PreviousHash(s.rows), id, clock.text);
    var L, H := s.writers[p].lastID, s.writers[p].lastHash;
    var seen, prev := SeenId(L, s.rows), PreviousHash(s.rows);
    var t := System(s.rows + [ToRow(f)], s.entries + [f], None, s.writers[p := Writer(Idle, id, f.hash)]);
    var s1 := InTx(s, p, Writer(Locked(e), L, H));
    var s2 := InTx(s, p, Writer(HeadRead(e, prev), seen, H));
    var s3 := InTx(s, p, Writer(Hashed(f), id, H));
    var s4 := InTx(s, p, Writer(Inserted(f), id, H));
    BeginStep(env, s, p, e);
    HeadStep(env, s, p, e, L, H);
    IdStep(env, s, p, e, prev, seen, H, clock, draws, id);
    InsertStep(env, s, p, f, id, H);
    CommitStep(env, s, p, f, id, H);
    NoStep(env, t);
    var r4 := [Commit(p)];
    var r3 := [Insert(p)] + r4;
    var r2 := [TakeId(p, clock, draws, id)] + r3;
    var r1 := [ReadHead(p)] + r2;
    assert r4 == [Commit(p)] + [];
    OneStep(env, s4, Commit(p), [], t);
    OneStep(env, s3, Insert(p), r4, t);
    OneStep(env, s2, TakeId(p, clock, draws, id), r3, t);
    OneStep(env, s1, ReadHead(p), r2, t);
    OneStep(env, s, Begin(p, e), r1, t);
    assert [Begin(p, e)] + r1 == [Begin(p, e), ReadHead(p), TakeId(p, clock, draws, id), Insert(p), Commit(p)];
  }

  /** s with writer p inside its transaction. */
  function InTx(s: System, p: nat, w: Writer): System {
    System(s.rows, s.entries, Some(p), s.writers[p := w])
  }

  lemma BeginStep(env: Env, s: System, p: nat, e: Entry)
    requires p in s.writers && s.writers[p].phase.Idle? && s.lock.None?
    requires MissingField(e).None? && WellFormedData(e.data)
    ensures Enabled(env, s, Begin(p, e))
    ensures Apply(env, s, Begin(p, e)) == InTx(s, p, Writer(Locked(e), s.writers[p].lastID, s.writers[p].lastHash))
  {
    hide MissingField, WellFormedData;
  }

  lemma HeadStep(env: Env, s: System, p: nat, e: Entry, lastID: string, lastHash: string)
    ensures var u := InTx(s, p, Writer(Locked(e), lastID, lastHash));
            && Enabled(env, u, ReadHead(p))
            && Apply(env, u, ReadHead(p))
               == InTx(s, p, Writer(HeadRead(e, PreviousHash(s.rows)), SeenId(lastID, s.rows), lastHash))
  {
    hide PreviousHash, SeenId;
    var u := InTx(s, p, Writer(Locked(e), lastID, lastHash));
    var w := Writer(HeadRead(e, PreviousHash(s.rows)), SeenId(lastID, s.rows), lastHash);
    assert u.writers[p := w] == s.writers[p := w];
  }

  lemma IdStep(env: Env, s: System, p: nat, e: Entry, prev: string, lastID: string, lastHash: string,
               clock: Clock, draws: Draws, id: string)
    requires NextIs(lastID, clock.ms, draws, Success(id)) && env.lib.reformat(clock.text) == Some(clock.text)
    ensures var u := InTx(s, p, Writer(HeadRead(e, prev), lastID, lastHash));
            && Enabled(env, u, TakeId(p, clock, draws, id))
            && Apply(env, u, TakeId(p, clock, draws, id))
               == InTx(s, p, Writer(Hashed(Filled(env.sha, e, prev, id, clock.text)), id, lastHash))
  {
    hide NextIs, Filled;
    var u := InTx(s, p, Writer(HeadRead(e, prev), lastID, lastHash));
    var w := Writer(Hashed(Filled(env.sha, e, prev, id, clock.text)), id, lastHash);
    assert u.writers[p := w] == s.writers[p := w];
  }

  lemma InsertStep(env: Env, s: System, p: nat, f: Entry, lastID: string, lastHash: string)
    requires Insertable(s.rows, ToRow(f))
    ensures var u := InTx(s, p, Writer(Hashed(f), lastID, lastHash));
            && Enabled(env, u, Insert(p))
            && Apply(env, u, Insert(p)) == InTx(s, p, Writer(Inserted(f), lastID, lastHash))
  {
    hide Insertable, ToRow;
    var u := InTx(s, p, Writer(Hashed(f), lastID, lastHash));
    var w := Writer(Inserted(f), lastID, lastHash);
    assert u.writers[p := w] == s.writers[p := w];
  }

  lemma CommitStep(env: Env, s: System, p: nat, f: Entry, lastID: string, lastHash: string)
    ensures var u := InTx(s, p, Writer(Inserted(f), lastID, lastHash));
            && Enabled(env, u, Commit(p))
            && Apply(env, u, Commit(p)) ==
               System(s.rows + [ToRow(f)], s.entries + [f], None, s.writers[p := Writer(Idle, lastID, f.hash)])
  {
    hide ToRow;
    var u := InTx(s, p, Writer(Inserted(f), lastID, lastHash));
    var w := Writer(Idle, lastID, f.hash);
    assert u.writers[p := w] == s.writers[p := w];
  }

  lemma NoStep(env: Env, t: System)
    ensures Runs(env, t, [], t)
  {
  }

  lemma OneStep(env: Env, s: System, step: Step, rest: seq<Step>, t: System)
    requires Enabled(env, s, step) && Runs(env, Apply(env, s, step), rest, t)
    ensures Runs(env, s, [step] + rest, t)
  {
    hide Enabled, Apply;
    assert ([step] + rest)[1..] == rest;
  }
}
