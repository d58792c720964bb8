/**
 * Any number of installs at once (runtime/internal/capsule/installer.go:95-199): the steps of Install
 * interleaved. The name is looked up before the code is copied and claimed only when the record is inserted, so
 * two installs can share a code directory; the one that loses removes it.
 */
module InstallRuns {
  import opened Wrappers
  import opened CapsuleInstaller

  datatype Phase = Begun | Cleared | Copied | Granted | Recorded | Installed | Deleting | RollingBack | Removing | Failed | Refused

  datatype Installing = Installing(directory: Directory, phase: Phase)

  /** Whose record each name has, the code directories, the installs that hold grants, and where each one is. */
  datatype State = State(records: map<string, nat>, directories: set<Directory>, granted: set<nat>, installs: map<nat, Installing>)

  const INITIAL: State := State(map[], {}, {}, map[])

  /** One step of install p; `ok` says whether it works. A copy that fails may leave the directory. */
  datatype Step =
    | Begin(p: nat, directory: Directory)
    | Look(p: nat)
    | Copy(p: nat, made: bool, ok: bool)
    | Grant(p: nat, ok: bool)
    | Insert(p: nat, ok: bool)
    | Bridge(p: nat, ok: bool)
    | Delete(p: nat, ok: bool)
    | Revoke(p: nat, ok: bool)
    | Remove(p: nat, ok: bool)

  predicate At(s: State, p: nat, phase: Phase) {
    p in s.installs && s.installs[p].phase == phase
  }

  predicate Enabled(s: State, step: Step) {
    match step
    case Begin(p, _) => p !in s.installs
    case Look(p) => At(s, p, Begun)
    case Copy(p, made, ok) => At(s, p, Cleared) && (ok ==> made)
    case Grant(p, _) => At(s, p, Copied)
    case Insert(p, _) => At(s, p, Granted)
    case Bridge(p, _) => At(s, p, Recorded)
    case Delete(p, _) => At(s, p, Deleting)
    case Revoke(p, _) => At(s, p, RollingBack)
    case Remove(p, _) => At(s, p, Removing)
  }

  function Moved(s: State, p: nat, phase: Phase): map<nat, Installing>
    requires p in s.installs
  {
    s.installs[p := s.installs[p].(phase := phase)]
  }

  function Apply(s: State, step: Step): State
    requires Enabled(s, step)
  {
    match step
    case Begin(p, directory) => s.(installs := s.installs[p := Installing(directory, Begun)])
    case Look(p) => s.(installs := Moved(s, p, if s.installs[p].directory.name in s.records then Refused else Cleared))
    case Copy(p, made, ok) =>
      s.(directories := if made then s.directories + {s.installs[p].directory} else s.directories,
         installs := Moved(s, p, if ok then Copied else Failed))
    case Grant(p, ok) => s.(granted := s.granted + {p}, installs := Moved(s, p, if ok then Granted else RollingBack))
    case Insert(p, ok) =>
      var name := s.installs[p].directory.name;
      if ok && name !in s.records then s.(records := s.records[name := p], installs := Moved(s, p, Recorded))
      else s.(installs := Moved(s, p, RollingBack))
    case Bridge(p, ok) => s.(installs := Moved(s, p, if ok then Installed else Deleting))
    case Delete(p, ok) =>
      s.(records := if ok then s.records - {s.installs[p].directory.name} else s.records, installs := Moved(s, p, RollingBack))
    case Revoke(p, ok) => s.(granted := if ok then s.granted - {p} else s.granted, installs := Moved(s, p, Removing))
    case Remove(p, ok) =>
      s.(directories := if ok then s.directories - {s.installs[p].directory} else s.directories, installs := Moved(s, p, Failed))
  }

  predicate Runs(s: State, steps: seq<Step>, t: State)
    decreases |steps|
  {
    if steps == [] then s == t
    else Enabled(s, steps[0]) && Runs(Apply(s, steps[0]), steps[1..], t)
  }

  // ---------------------------------------------------------------- one record for a name

  /** Each record is the one its install inserted under its own name. */
  predicate RecordsOwned(s: State) {
    forall name | name in s.records :: s.records[name] in s.installs && s.installs[s.records[name]].directory.name == name
  }

  predicate Holding(phase: Phase) {
    phase.Recorded? || phase.Installed? || phase.Deleting?
  }

  /** An install past its insertion owns its name's record and holds its grants; one before the grants holds none. */
  predicate InstallsHold(s: State) {
    forall p | p in s.installs ::
      var x := s.installs[p];
      && (Holding(x.phase) ==> x.directory.name in s.records && s.records[x.directory.name] == p)
      && (Holding(x.phase) || x.phase.Granted? ==> p in s.granted)
      && (x.phase.Begun? || x.phase.Cleared? || x.phase.Copied? || x.phase.Refused? ==> p !in s.granted)
  }

  predicate Inv(s: State) {
    RecordsOwned(s) && InstallsHold(s) && forall p | p in s.granted :: p in s.installs
  }

  lemma StepKeeps(s: State, step: Step)
    requires Inv(s) && Enabled(s, step)
    ensures Inv(Apply(s, step))
  {
    RecordsKeep(s, step);
    InstallsKeep(s, step);
    hide RecordsOwned, InstallsHold;
  }

  lemma RecordsKeep(s: State, step: Step)
    requires Inv(s) && Enabled(s, step)
    ensures RecordsOwned(Apply(s, step))
  {
    hide InstallsHold;
  }

  lemma InstallsKeep(s: State, step: Step)
    requires Inv(s) && Enabled(s, step)
    ensures InstallsHold(Apply(s, step))
  {
    hide RecordsOwned;
  }

  lemma {:induction false} RunKeeps(s: State, steps: seq<Step>, t: State)
    requires Inv(s) && Runs(s, steps, t)
    ensures Inv(t)
    decreases |steps|
  {
    hide Inv, Enabled, Apply;
    if steps != [] {
      StepKeeps(s, steps[0]);
      RunKeeps(Apply(s, steps[0]), steps[1..], t);
    }
  }

  /** However installs interleave, at most one of each name is installed or on its way from record to bridge. */
  lemma OneInstallPerName(steps: seq<Step>, t: State, p: nat, q: nat)
    requires Runs(INITIAL, steps, t) && p in t.installs && q in t.installs
    requires Holding(t.installs[p].phase) && Holding(t.installs[q].phase)
    requires t.installs[p].directory.name == t.installs[q].directory.name
    ensures p == q
  {
    hide Runs;
    RunKeeps(INITIAL, steps, t);
  }

  // ---------------------------------------------------------------- a failed install

  /** Without its record, and without grants unless it is between issuing and revoking them or past its insertion. */
  predicate TookBack(s: State, p: nat) {
    p in s.installs ==>
      && (!Holding(s.installs[p].phase) ==> forall name | name in s.records :: s.records[name] != p)
      && (!Holding(s.installs[p].phase) && !s.installs[p].phase.Granted? && !s.installs[p].phase.RollingBack? ==> p !in s.granted)
  }

  /** The step's own deletion or revocation, if it is one, works. */
  predicate TakesBack(step: Step, p: nat) {
    (step.Delete? || step.Revoke?) && step.p == p ==> step.ok
  }

  lemma TakingBack(s: State, step: Step, p: nat)
    requires Inv(s) && TookBack(s, p) && Enabled(s, step) && TakesBack(step, p)
    ensures TookBack(Apply(s, step), p)
  {
  }

  /**
   * However installs interleave, one that fails ends with neither a record nor grants if its own deletion and
   * revocations work.
   */
  lemma {:induction false} FailedTakesBack(s: State, steps: seq<Step>, t: State, p: nat)
    requires Inv(s) && TookBack(s, p) && Runs(s, steps, t)
    requires forall i :: 0 <= i < |steps| ==> TakesBack(steps[i], p)
    ensures TookBack(t, p)
    ensures At(t, p, Failed) ==> p !in t.granted && forall name | name in t.records :: t.records[name] != p
    decreases |steps|
  {
    if steps != [] {
      TakingBack(s, steps[0], p);
      StepKeeps(s, steps[0]);
      hide Inv, Enabled, Apply, TookBack, TakesBack;
      FailedTakesBack(Apply(s, steps[0]), steps[1..], t, p);
    }
  }

  // ---------------------------------------------------------------- what the loser takes with it

  /** An installed capsule keeps its record and its grants, whatever others do. */
  lemma InstalledStep(s: State, step: Step, w: nat)
    requires Inv(s) && Enabled(s, step) && At(s, w, Installed)
    ensures var t := Apply(s, step);
            && At(t, w, Installed) && t.installs[w] == s.installs[w] && w in t.granted
            && t.installs[w].directory.name in t.records && t.records[t.installs[w].directory.name] == w
  {
  }

  lemma {:induction false} InstalledStays(s: State, steps: seq<Step>, t: State, w: nat)
    requires Inv(s) && Runs(s, steps, t) && At(s, w, Installed)
    ensures At(t, w, Installed) && t.installs[w] == s.installs[w] && w in t.granted
    ensures t.installs[w].directory.name in t.records && t.records[t.installs[w].directory.name] == w
    decreases |steps|
  {
    if steps != [] {
      InstalledStep(s, steps[0], w);
      StepKeeps(s, steps[0]);
      hide Inv, Enabled, Apply, At;
      InstalledStays(Apply(s, steps[0]), steps[1..], t, w);
    }
  }

  /** An install of the same code directory that found the name free and has not finished. */
  predicate Racing(s: State, q: nat, d: Directory) {
    && q in s.installs && s.installs[q].directory == d
    && (s.installs[q].phase.Cleared? || s.installs[q].phase.Copied? || s.installs[q].phase.Granted?
        || s.installs[q].phase.RollingBack? || s.installs[q].phase.Removing?)
  }

  predicate Contested(s: State, d: Directory) {
    exists q | q in s.installs :: Racing(s, q, d)
  }

  lemma UncontestedStep(s: State, step: Step, w: nat)
    requires Inv(s) && Enabled(s, step) && At(s, w, Installed)
    requires !Contested(s, s.installs[w].directory) && s.installs[w].directory in s.directories
    ensures var t := Apply(s, step); !Contested(t, s.installs[w].directory) && s.installs[w].directory in t.directories
  {
    var d, t := s.installs[w].directory, Apply(s, step);
    forall q | q in t.installs ensures !Racing(t, q, d) {
      assert q in s.installs ==> !Racing(s, q, d);
    }
    assert step.Remove? ==> (Racing(s, step.p, d) <==> s.installs[step.p].directory == d);
  }

  lemma {:induction false} UncontestedKeeps(s: State, steps: seq<Step>, t: State, w: nat)
    requires Inv(s) && Runs(s, steps, t) && At(s, w, Installed)
    requires !Contested(s, s.installs[w].directory) && s.installs[w].directory in s.directories
    ensures s.installs[w].directory in t.directories
    decreases |steps|
  {
    if steps != [] {
      UncontestedStep(s, steps[0], w);
      InstalledStep(s, steps[0], w);
      StepKeeps(s, steps[0]);
      hide Inv, Enabled, Apply, At, Contested;
      UncontestedKeeps(Apply(s, steps[0]), steps[1..], t, w);
    }
  }

  function StepsLeft(phase: Phase): nat {
    match phase
    case Cleared => 5
    case Copied => 4
    case Granted => 3
    case RollingBack => 2
    case Removing => 1
    case _ => 0
  }

  function NextOf(q: nat, phase: Phase): Step {
    match phase
    case Cleared => Copy(q, true, true)
    case Copied => Grant(q, true)
    case Granted => Insert(q, true)
    case RollingBack => Revoke(q, true)
    case _ => Remove(q, true)
  }

  /** Left to itself, with every step working, the racing install cannot insert its record, rolls back and removes the code. */
  lemma {:induction false} RacerRemoves(s: State, w: nat, q: nat) returns (steps: seq<Step>, t: State)
    requires Inv(s) && At(s, w, Installed) && Racing(s, q, s.installs[w].directory)
    ensures Runs(s, steps, t) && At(t, w, Installed) && s.installs[w].directory !in t.directories
    ensures forall i :: 0 <= i < |steps| ==> steps[i].p == q && !steps[i].Begin? && (steps[i].Look? || steps[i].ok)
    decreases StepsLeft(s.installs[q].phase)
  {
    var d, step := s.installs[w].directory, NextOf(q, s.installs[q].phase);
    assert Enabled(s, step) && q != w;
    var u := Apply(s, step);
    InstalledStep(s, step, w);
    StepKeeps(s, step);
    if s.installs[q].phase.Removing? {
      steps, t := [step], u;
      assert steps[1..] == [];
    } else {
      assert Racing(u, q, d);
      var rest;
      hide Inv;
      rest, t := RacerRemoves(u, w, q);
      steps := [step] + rest;
      assert steps[1..] == rest;
    }
  }

  ghost predicate CanLoseCode(s: State, w: nat)
    requires w in s.installs
  {
    exists steps, t :: Runs(s, steps, t) && s.installs[w].directory !in t.directories
  }

  /**
   * In every reachable state the code directory of an installed capsule can be removed under it, its record and
   * grants staying, if and only if another install of the same name and version found the name free and has not
   * finished.
   */
  lemma CodeLostExactly(before: seq<Step>, s: State, w: nat)
    requires Runs(INITIAL, before, s) && At(s, w, Installed) && s.installs[w].directory in s.directories
    ensures CanLoseCode(s, w) <==> Contested(s, s.installs[w].directory)
  {
    RunKeeps(INITIAL, before, s);
    hide Runs, Inv, Racing;
    if Contested(s, s.installs[w].directory) {
      var q :| q in s.installs && Racing(s, q, s.installs[w].directory);
      var steps, t := RacerRemoves(s, w, q);
    } else if CanLoseCode(s, w) {
      var steps, t :| Runs(s, steps, t) && s.installs[w].directory !in t.directories;
      UncontestedKeeps(s, steps, t, w);
    }
  }

  lemma RunsThen(s: State, step: Step, rest: seq<Step>, t: State)
    requires Enabled(s, step) && Runs(Apply(s, step), rest, t)
    ensures Runs(s, [step] + rest, t)
  {
    hide Enabled, Apply;
    assert ([step] + rest)[1..] == rest;
  }

  /** Two installs of one capsule at once, the first of which has succeeded. */
  function Race(d: Directory): State {
    State(map[d.name := 0], {d}, {0}, map[0 := Installing(d, Installed), 1 := Installing(d, Cleared)])
  }

  lemma RaceReached(d: Directory) returns (steps: seq<Step>)
    ensures Runs(INITIAL, steps, Race(d))
  {
    var a := State(map[], {}, {}, map[0 := Installing(d, Cleared), 1 := Installing(d, Cleared)]);
    var b := State(map[], {d}, {0}, map[0 := Installing(d, Granted), 1 := Installing(d, Cleared)]);
    BothCleared(d, a);
    FirstGranted(d, a, b);
    FirstInstalled(d, b);
    var first, second, third := [Begin(0, d), Begin(1, d), Look(0), Look(1)], [Copy(0, true, true), Grant(0, true)],
                                [Insert(0, true), Bridge(0, true)];
    hide Enabled, Apply, Race;
    RunsJoin(a, second, b, third, Race(d));
    RunsJoin(INITIAL, first, a, second + third, Race(d));
    steps := first + (second + third);
  }

  lemma {:induction false} RunsJoin(s: State, a: seq<Step>, t: State, b: seq<Step>, u: State)
    requires Runs(s, a, t) && Runs(t, b, u)
    ensures Runs(s, a + b, u)
    decreases |a|
  {
    hide Enabled, Apply;
    if a == [] {
      assert a + b == b;
    } else {
      RunsJoin(Apply(s, a[0]), a[1..], t, b, u);
      assert (a + b)[1..] == a[1..] + b;
    }
  }

  lemma BothCleared(d: Directory, a: State)
    requires a == State(map[], {}, {}, map[0 := Installing(d, Cleared), 1 := Installing(d, Cleared)])
    ensures Runs(INITIAL, [Begin(0, d), Begin(1, d), Look(0), Look(1)], a)
  {
    var s1 := Apply(INITIAL, Begin(0, d));
    var s2 := Apply(s1, Begin(1, d));
    var s3 := Apply(s2, Look(0));
    assert Apply(s3, Look(1)) == a;
    RunsThen(s3, Look(1), [], a);
    RunsThen(s2, Look(0), [Look(1)] + [], a);
    RunsThen(s1, Begin(1, d), [Look(0)] + ([Look(1)] + []), a);
    RunsThen(INITIAL, Begin(0, d), [Begin(1, d)] + ([Look(0)] + ([Look(1)] + [])), a);
    assert [Begin(0, d)] + ([Begin(1, d)] + ([Look(0)] + ([Look(1)] + []))) == [Begin(0, d), Begin(1, d), Look(0), Look(1)];
  }

  lemma FirstGranted(d: Directory, a: State, b: State)
    requires a == State(map[], {}, {}, map[0 := Installing(d, Cleared), 1 := Installing(d, Cleared)])
    requires b == State(map[], {d}, {0}, map[0 := Installing(d, Granted), 1 := Installing(d, Cleared)])
    ensures Runs(a, [Copy(0, true, true), Grant(0, true)], b)
  {
    var c := Apply(a, Copy(0, true, true));
    assert Apply(c, Grant(0, true)) == b;
    RunsThen(c, Grant(0, true), [], b);
    RunsThen(a, Copy(0, true, true), [Grant(0, true)] + [], b);
    assert [Copy(0, true, true)] + ([Grant(0, true)] + []) == [Copy(0, true, true), Grant(0, true)];
  }

  lemma FirstInstalled(d: Directory, b: State)
    requires b == State(map[], {d}, {0}, map[0 := Installing(d, Granted), 1 := Installing(d, Cleared)])
    ensures Runs(b, [Insert(0, true), Bridge(0, true)], Race(d))
  {
    var c := Apply(b, Insert(0, true));
    assert Apply(c, Bridge(0, true)) == Race(d);
    RunsThen(c, Bridge(0, true), [], Race(d));
    RunsThen(b, Insert(0, true), [Bridge(0, true)] + [], Race(d));
    assert [Insert(0, true)] + ([Bridge(0, true)] + []) == [Insert(0, true), Bridge(0, true)];
  }

  /** So of two installs of any capsule at once, the one that succeeds can end up without its code. */
  lemma WinnerMayLoseCode(d: Directory)
    ensures exists steps, t ::
              Runs(INITIAL, steps, t) && At(t, 0, Installed) && t.installs[0].directory == d && d !in t.directories
  {
    var before := RaceReached(d);
    RunKeeps(INITIAL, before, Race(d));
    assert At(Race(d), 0, Installed) && Racing(Race(d), 1, d);
    var steps, t := RacerRemoves(Race(d), 0, 1);
    InstalledStays(Race(d), steps, t, 0);
    hide Runs, Inv;
    RunsJoin(INITIAL, before, Race(d), steps, t);
  }
}
