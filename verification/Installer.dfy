/**
 * Installing and uninstalling a capsule (runtime/internal/capsule/installer.go:80-275): grants, the capsule
 * table and the code directories change step by step, any step may fail, and a failed install takes back
 * what it did.
 */
module CapsuleInstaller {
  import opened Wrappers
  import opened ScopeMatch
  import opened Permission
  import opened PermissionEngine

  datatype PermissionRequest = PermissionRequest(capability: string, scope: Scope, requiresApproval: bool)

  datatype Manifest = Manifest(name: string, version: string, permissions: seq<PermissionRequest>)

  datatype Capsule = Capsule(name: string, version: string, permissions: seq<PermissionRequest>, installedAt: int)

  /** A code directory, named by capsule and version. */
  datatype Directory = Directory(name: string, version: string)

  /** Which of the steps outside this program's control fail. */
  datatype Faults = Faults(lookup: bool, copy: bool, issue: nat -> bool, insert: bool, bridge: bool, list: bool, delete: bool,
                           revoke: nat -> bool, remove: bool)

  datatype InstallError = InvalidManifest | AlreadyInstalled | CopyFailed | IssueFailed(index: nat) | InsertFailed | BridgeFailed
                        | NotInstalled | RevokeFailed | DeleteFailed | LookupFailed | ListFailed

  datatype Installation = Installation(capsule: Capsule, grants: seq<nat>)

  datatype InstallEvent = CapsuleInstalled(name: string, version: string, grants: nat)
                        | CapsuleUninstalled(name: string, version: string, grants: nat, bridgeFailed: bool)

  function OwnerOf(name: string): Principal {
    Principal(PrincipalKind.CapsulePrincipal, name)
  }

  /** The grant that a permission of the manifest asks for. */
  function GrantFor(capabilities: map<string, Capability>, name: string, p: PermissionRequest, id: nat, now: int): Grant
    requires p.capability in capabilities
  {
    Grant(id, OwnerOf(name), p.capability, p.scope, p.requiresApproval || capabilities[p.capability].defaultApproval,
          now, None, None)
  }

  predicate Issuable(capabilities: map<string, Capability>, p: PermissionRequest) {
    p.capability in capabilities && p.scope.Keys <= capabilities[p.capability].schema.Keys
  }

  predicate StepIssues(capabilities: map<string, Capability>, permissions: seq<PermissionRequest>, i: nat, faults: Faults)
    requires i < |permissions|
  {
    Issuable(capabilities, permissions[i]) && !faults.issue(i)
  }

  /** Every grant of the manifest can be issued. */
  predicate AllIssue(capabilities: map<string, Capability>, permissions: seq<PermissionRequest>, faults: Faults) {
    forall i :: 0 <= i < |permissions| ==> StepIssues(capabilities, permissions, i, faults)
  }

  /** The table with the grants of the manifest's first permissions added, under new ids. */
  predicate Issued(before: map<nat, Grant>, after: map<nat, Grant>, capabilities: map<string, Capability>, m: Manifest,
                   ids: seq<nat>, now: int)
    requires |ids| <= |m.permissions|
  {
    && (forall id | id in before :: id in after && after[id] == before[id])
    && (forall i :: 0 <= i < |ids| ==>
         && m.permissions[i].capability in capabilities
         && ids[i] in after && ids[i] !in before
         && after[ids[i]] == GrantFor(capabilities, m.name, m.permissions[i], ids[i], now))
    && (forall i, j :: 0 <= i < j < |ids| ==> ids[i] < ids[j])
    && (forall id | id in after :: id in before || id in ids)
  }

  /**
   * The table after a failed install: what was there before is as before, and each issued grant is revoked
   * exactly if its revocation worked.
   */
  predicate LeftBehind(before: map<nat, Grant>, after: map<nat, Grant>, capabilities: map<string, Capability>, m: Manifest,
                       ids: seq<nat>, faults: Faults, now: int)
    requires |ids| <= |m.permissions|
  {
    && (forall id | id in before :: id in after && after[id] == before[id])
    && (forall i :: 0 <= i < |ids| ==>
         && m.permissions[i].capability in capabilities
         && ids[i] in after && ids[i] !in before
         && after[ids[i]] == GrantFor(capabilities, m.name, m.permissions[i], ids[i], now).(
              revokedAt := if faults.revoke(i) then None else Some(now)))
    && (forall id | id in after :: id in before || id in ids)
  }

  /** When every grant of a manifest can be issued: its capabilities are known, its scopes name their fields, no step fails. */
  lemma AllIssueIs(capabilities: map<string, Capability>, permissions: seq<PermissionRequest>, faults: Faults)
    ensures AllIssue(capabilities, permissions, faults) <==>
            forall i :: 0 <= i < |permissions| ==>
              && permissions[i].capability in capabilities
              && (forall f :: f in permissions[i].scope ==> f in capabilities[permissions[i].capability].schema)
              && !faults.issue(i)
  {
    if AllIssue(capabilities, permissions, faults) {
      forall i | 0 <= i < |permissions| ensures Issuable(capabilities, permissions[i]) && !faults.issue(i) {
        assert StepIssues(capabilities, permissions, i, faults);
      }
    }
  }

  /**
   * The grants of an install: one for each permission of the manifest, under a new id, to the capsule, with the
   * permission's capability and scope, asking for approval if the permission or the capability does, for good and
   * not revoked; and no other grant comes, goes or changes.
   */
  lemma InstalledGrants(before: map<nat, Grant>, after: map<nat, Grant>, capabilities: map<string, Capability>, m: Manifest,
                        ids: seq<nat>, now: int)
    requires |ids| == |m.permissions| && Issued(before, after, capabilities, m, ids, now)
    ensures forall i :: 0 <= i < |ids| ==>
              var p := m.permissions[i];
              && p.capability in capabilities && ids[i] in after && ids[i] !in before
              && after[ids[i]] == Grant(ids[i], Principal(CapsulePrincipal, m.name), p.capability, p.scope,
                                        p.requiresApproval || capabilities[p.capability].defaultApproval, now, None, None)
    ensures forall i, j :: 0 <= i < j < |ids| ==> ids[i] != ids[j]
    ensures forall id :: id in after <==> id in before || id in ids
    ensures forall id | id in before :: after[id] == before[id]
  {
  }

  /**
   * The grants a failed install leaves: those from before as they were, and the issued ones, to the capsule, each
   * revoked unless its own revocation failed.
   */
  lemma LeftBehindGrants(before: map<nat, Grant>, after: map<nat, Grant>, capabilities: map<string, Capability>, m: Manifest,
                         ids: seq<nat>, faults: Faults, now: int)
    requires |ids| <= |m.permissions| && LeftBehind(before, after, capabilities, m, ids, faults, now)
    ensures forall i :: 0 <= i < |ids| ==>
              var p := m.permissions[i];
              && p.capability in capabilities && ids[i] in after && ids[i] !in before
              && after[ids[i]] == Grant(ids[i], Principal(CapsulePrincipal, m.name), p.capability, p.scope,
                                        p.requiresApproval || capabilities[p.capability].defaultApproval, now, None,
                                        if faults.revoke(i) then None else Some(now))
    ensures forall id :: id in after <==> id in before || id in ids
    ensures forall id | id in before :: after[id] == before[id]
  {
  }

  /** The audit entries of the grants issued for a manifest, in order. */
  function CreatedEvents(m: Manifest, ids: seq<nat>, actor: string): (events: seq<Event>)
    requires |ids| <= |m.permissions|
    ensures |events| == |ids|
    ensures forall i :: 0 <= i < |ids| ==>
              events[i] == GrantCreated(if actor == "" then "user" else actor, ids[i], m.permissions[i].capability,
                                        Principal(CapsulePrincipal, m.name))
  {
    if ids == [] then []
    else
      var n := |ids| - 1;
      CreatedEvents(m, ids[..n], actor) + [GrantCreated(Defaulted(actor), ids[n], m.permissions[n].capability, OwnerOf(m.name))]
  }

  /** The audit entries of rolling back the first n of the ids: one for each revocation that worked, in order. */
  function RollbackEvents(grants: map<nat, Grant>, ids: seq<nat>, n: nat, actor: string, faults: Faults): seq<Event>
    requires n <= |ids| && forall i :: 0 <= i < |ids| ==> ids[i] in grants
  {
    if n == 0 then []
    else
      RollbackEvents(grants, ids, n - 1, actor, faults)
      + if faults.revoke(n - 1) then []
        else [GrantRevoked(if actor == "" then "user" else actor, ids[n - 1], grants[ids[n - 1]].capability,
                           grants[ids[n - 1]].principal, "rolling back failed capsule install")]
  }

  /** The same for the grants of a manifest. */
  function RevertedEvents(m: Manifest, ids: seq<nat>, n: nat, actor: string, faults: Faults): seq<Event>
    requires n <= |ids| <= |m.permissions|
  {
    if n == 0 then []
    else
      RevertedEvents(m, ids, n - 1, actor, faults)
      + if faults.revoke(n - 1) then []
        else [GrantRevoked(if actor == "" then "user" else actor, ids[n - 1], m.permissions[n - 1].capability,
                           Principal(CapsulePrincipal, m.name), "rolling back failed capsule install")]
  }

  lemma {:induction false} RollbackReverts(before: map<nat, Grant>, grants: map<nat, Grant>, capabilities: map<string, Capability>,
                                           m: Manifest, ids: seq<nat>, n: nat, actor: string, faults: Faults, now: int)
    requires |ids| <= |m.permissions| && n <= |ids| && Issued(before, grants, capabilities, m, ids, now)
    ensures forall i :: 0 <= i < |ids| ==> ids[i] in grants
    ensures RollbackEvents(grants, ids, n, actor, faults) == RevertedEvents(m, ids, n, actor, faults)
  {
    if n > 0 {
      RollbackReverts(before, grants, capabilities, m, ids, n - 1, actor, faults, now);
    }
  }

  lemma NoEvents(log: seq<Event>, writes: Writes)
    ensures log + Kept([], writes) == log
  {
    KeptNone(writes);
  }

  /** The log after one more entry. */
  lemma LogStep(log: seq<Event>, events: seq<Event>, e: seq<Event>, writes: Writes)
    ensures log + Kept(events, writes) + Kept(e, writes) == log + Kept(events + e, writes)
  {
    KeptAppend(events, e, writes);
    hide Kept;
  }

  lemma NoneCreated(m: Manifest, actor: string)
    ensures CreatedEvents(m, [], actor) == []
  {
  }

  lemma NextCreated(m: Manifest, ids: seq<nat>, id: nat, actor: string)
    requires |ids| < |m.permissions|
    ensures CreatedEvents(m, ids + [id], actor) ==
            CreatedEvents(m, ids, actor) + [GrantCreated(Defaulted(actor), id, m.permissions[|ids|].capability, OwnerOf(m.name))]
  {
    assert (ids + [id])[..|ids|] == ids;
  }

  /** The table after going through the first n of the ids: each is revoked if its revocation worked. */
  predicate RolledBack(before: map<nat, Grant>, after: map<nat, Grant>, ids: seq<nat>, n: nat, faults: Faults, now: int)
    requires n <= |ids| && forall i :: 0 <= i < |ids| ==> ids[i] in before
  {
    && after.Keys == before.Keys
    && (forall id | id in before && id !in ids :: after[id] == before[id])
    && (forall j :: n <= j < |ids| ==> after[ids[j]] == before[ids[j]])
    && (forall j :: 0 <= j < n ==> after[ids[j]] == before[ids[j]].(revokedAt := if faults.revoke(j) then None else Some(now)))
  }

  lemma NoneRolledBack(grants: map<nat, Grant>, ids: seq<nat>, faults: Faults, now: int)
    requires forall i :: 0 <= i < |ids| ==> ids[i] in grants
    ensures RolledBack(grants, grants, ids, 0, faults, now)
  {
  }

  lemma OneRolledBack(before: map<nat, Grant>, during: map<nat, Grant>, ids: seq<nat>, i: nat, faults: Faults, now: int)
    requires i < |ids| && forall j, k :: 0 <= j < k < |ids| ==> ids[j] != ids[k]
    requires forall j :: 0 <= j < |ids| ==> ids[j] in before && before[ids[j]].revokedAt.None?
    requires RolledBack(before, during, ids, i, faults, now)
    ensures ids[i] in during && during[ids[i]] == before[ids[i]]
    ensures var after := if faults.revoke(i) then during else during[ids[i] := during[ids[i]].(revokedAt := Some(now))];
            RolledBack(before, after, ids, i + 1, faults, now)
  {
  }

  /**
   * What an install leaves once the code is copied: on success the directory, the record and the entries of the
   * grants; on failure neither, as far as removing them works, and an entry for each revocation besides.
   */
  ghost predicate AfterCopy(m: Manifest, issued: seq<nat>, r: Result<Installation, InstallError>, actor: string, faults: Faults,
                            now: int, writes: Writes, capsules: map<string, Capsule>, capsules': map<string, Capsule>,
                            directories: set<Directory>, directories': set<Directory>, log: seq<Event>, log': seq<Event>)
    requires |issued| <= |m.permissions|
  {
    var d, c := Directory(m.name, m.version), Capsule(m.name, m.version, m.permissions, now);
    && capsules' == (if r.Success? || (r.error.BridgeFailed? && faults.delete) then capsules[m.name := c] else capsules)
    && directories' == (if r.Success? || faults.remove then directories + {d} else directories - {d})
    && log' == log + Kept(CreatedEvents(m, issued, actor)
                          + (if r.Success? then [] else RevertedEvents(m, issued, |issued|, actor, faults)), writes)
  }

  /** The two forms of the log: without a rollback, and with one. */
  lemma LogOf(m: Manifest, issued: seq<nat>, actor: string, faults: Faults, log: seq<Event>, writes: Writes)
    requires |issued| <= |m.permissions|
    ensures var created, reverted := CreatedEvents(m, issued, actor), RevertedEvents(m, issued, |issued|, actor, faults);
            && log + Kept(created, writes) == log + Kept(created + [], writes)
            && log + Kept(created, writes) + Kept(reverted, writes) == log + Kept(created + reverted, writes)
  {
    hide Kept, CreatedEvents, RevertedEvents;
    LogStep(log, CreatedEvents(m, issued, actor), RevertedEvents(m, issued, |issued|, actor, faults), writes);
    assert CreatedEvents(m, issued, actor) + [] == CreatedEvents(m, issued, actor);
  }

  class Installer {
    const engine: Engine
    var capsules: map<string, Capsule>
    var directories: set<Directory>
    var events: seq<InstallEvent>

    ghost predicate Valid()
      reads this, engine
    {
      engine.Valid() && forall n | n in capsules :: capsules[n].name == n
    }

    constructor (engine: Engine)
      requires engine.Valid()
      ensures Valid() && this.engine == engine && capsules == map[] && directories == {} && events == []
    {
      this.engine := engine;
      capsules, directories, events := map[], {}, [];
    }

    /** Revokes the grants issued so far; a revocation that fails is ignored, and leaves its grant as it is. */
    method RollbackGrants(ids: seq<nat>, actor: string, faults: Faults, now: int, writes: Writes)
      requires Valid() && forall i, j :: 0 <= i < j < |ids| ==> ids[i] != ids[j]
      requires forall i :: 0 <= i < |ids| ==> ids[i] in engine.grants && engine.grants[ids[i]].revokedAt.None?
      modifies engine`grants, engine`log
      ensures Valid() && RolledBack(old(engine.grants), engine.grants, ids, |ids|, faults, now)
      ensures engine.log == old(engine.log) + Kept(RollbackEvents(old(engine.grants), ids, |ids|, actor, faults), writes)
    {
      hide GrantsHold, Kept, Changed, RolledBack;
      ghost var before, beforeLog := engine.grants, engine.log;
      NoneRolledBack(before, ids, faults, now);
      NoEvents(beforeLog, writes);
      for i := 0 to |ids|
        invariant Valid() && RolledBack(before, engine.grants, ids, i, faults, now)
        invariant engine.log == beforeLog + Kept(RollbackEvents(before, ids, i, actor, faults), writes)
      {
        OneRolledBack(before, engine.grants, ids, i, faults, now);
        ghost var said := RollbackEvents(before, ids, i, actor, faults);
        assert faults.revoke(i) ==> said + [] == said;
        if !faults.revoke(i) {
          LogStep(beforeLog, said, [GrantRevoked(Defaulted(actor), ids[i], before[ids[i]].capability, before[ids[i]].principal,
                                                 "rolling back failed capsule install")], writes);
          var done := engine.RevokeGrant(ids[i], actor, "rolling back failed capsule install", now, NO_TROUBLE, writes);
        }
      }
    }

    method IssueGrants(m: Manifest, actor: string, faults: Faults, now: int, writes: Writes)
      returns (issued: seq<nat>, ok: bool)
      requires Valid()
      modifies engine`grants, engine`nextId, engine`log
      ensures Valid() && |issued| <= |m.permissions|
      ensures ok <==> AllIssue(engine.capabilities, m.permissions, faults)
      ensures ok ==> |issued| == |m.permissions|
      ensures !ok ==> |issued| < |m.permissions| && !StepIssues(engine.capabilities, m.permissions, |issued|, faults)
      ensures Issued(old(engine.grants), engine.grants, engine.capabilities, m, issued, now)
      ensures engine.log == old(engine.log) + Kept(CreatedEvents(m, issued, actor), writes)
    {
      hide Kept, GrantsHold, Issued, Changed, CreatedEvents;
      issued := [];
      ghost var before, beforeLog := engine.grants, engine.log;
      NoneCreated(m, actor);
      NoEvents(beforeLog, writes);
      NothingIssued(before, engine.capabilities, m, now);
      BelowNext(engine.capabilities, before, engine.nextId);
      for i := 0 to |m.permissions|
        invariant Valid() && |issued| == i
        invariant forall id | id in before :: id < engine.nextId
        invariant forall j :: 0 <= j < i ==> issued[j] < engine.nextId && StepIssues(engine.capabilities, m.permissions, j, faults)
        invariant Issued(before, engine.grants, engine.capabilities, m, issued, now)
        invariant engine.log == beforeLog + Kept(CreatedEvents(m, issued, actor), writes)
      {
        var p := m.permissions[i];
        ghost var during := engine.grants;
        var g := engine.IssueGrant(OwnerOf(m.name), p.capability, p.scope, p.requiresApproval, None, actor, now,
                                  Trouble(false, faults.issue(i)), writes);
        if g.Failure? {
          assert !StepIssues(engine.capabilities, m.permissions, i, faults);
          return issued, false;
        }
        OneIssued(before, during, engine.capabilities, m, issued, g.value, now);
        NextCreated(m, issued, g.value.id, actor);
        LogStep(beforeLog, CreatedEvents(m, issued, actor),
                [GrantCreated(Defaulted(actor), g.value.id, p.capability, OwnerOf(m.name))], writes);
        issued := issued + [g.value.id];
      }
      return issued, true;
    }

    method RemoveDirectory(d: Directory, faults: Faults)
      modifies this`directories
      ensures directories == if faults.remove then old(directories) else old(directories) - {d}
    {
      if !faults.remove {
        directories := directories - {d};
      }
    }

    /** What every failure from the first grant on does: revoke what was issued, remove the code. */
    method RollBack(ghost before: map<nat, Grant>, m: Manifest, issued: seq<nat>, actor: string, faults: Faults,
                    now: int, writes: Writes)
      requires Valid() && |issued| <= |m.permissions| && Issued(before, engine.grants, engine.capabilities, m, issued, now)
      modifies this`directories, engine`grants, engine`log
      ensures Valid()
      ensures LeftBehind(before, engine.grants, engine.capabilities, m, issued, faults, now)
      ensures directories == if faults.remove then old(directories) else old(directories) - {Directory(m.name, m.version)}
      ensures engine.log == old(engine.log) + Kept(RevertedEvents(m, issued, |issued|, actor, faults), writes)
    {
      hide GrantsHold, Kept, GrantFor, RollbackEvents, RevertedEvents;
      RollbackReverts(before, engine.grants, engine.capabilities, m, issued, |issued|, actor, faults, now);
      IssuedUnrevoked(before, engine.grants, engine.capabilities, m, issued, now);
      RollbackGrants(issued, actor, faults, now, writes);
      RemoveDirectory(Directory(m.name, m.version), faults);
    }

    /**
     * All or nothing: it succeeds exactly when no step fails, and then the capsule's record, its directory
     * and one active grant for each permission of the manifest are there. Otherwise the grants there were
     * before are untouched and each one issued is revoked, unless that revocation itself failed; the capsule
     * table is as before if the deletion of the record works, and from the first grant on the directory is gone.
     */
    method Install(manifest: Option<Manifest>, actor: string, faults: Faults, now: int, writes: Writes)
      returns (r: Result<Installation, InstallError>, ghost issued: seq<nat>)
      requires Valid()
      modifies this`capsules, this`directories, this`events, engine`grants, engine`nextId, engine`log
      ensures Valid()
      ensures r.Success? <==>
              && manifest.Some? && !faults.lookup && manifest.value.name !in old(capsules) && !faults.copy
              && AllIssue(engine.capabilities, manifest.value.permissions, faults)
              && !faults.insert && !faults.bridge
      ensures r.Success? ==>
                var m := manifest.value;
                && r.value.capsule == Capsule(m.name, m.version, m.permissions, now)
                && capsules == old(capsules)[m.name := r.value.capsule]
                && directories == old(directories) + {Directory(m.name, m.version)}
                && issued == r.value.grants && |issued| == |m.permissions|
                && Issued(old(engine.grants), engine.grants, engine.capabilities, m, r.value.grants, now)
                && events == old(events) + [CapsuleInstalled(m.name, m.version, |m.permissions|)]
      ensures r.Failure? ==> events == old(events)
      ensures var begun := manifest.Some? && !faults.lookup && manifest.value.name !in old(capsules) && !faults.copy;
              if !begun then
                issued == [] && engine.grants == old(engine.grants) && engine.log == old(engine.log)
                && capsules == old(capsules) && directories == old(directories)
              else
                && |issued| <= |manifest.value.permissions|
                && AfterCopy(manifest.value, issued, r, actor, faults, now, writes, old(capsules), capsules, old(directories), directories,
                             old(engine.log), engine.log)
      ensures r.Failure? && manifest.Some? ==>
                && |issued| <= |manifest.value.permissions|
                && LeftBehind(old(engine.grants), engine.grants, engine.capabilities, manifest.value, issued, faults, now)
      ensures r.Failure? ==>
                r.error == if manifest.None? then InvalidManifest
                           else if faults.lookup then LookupFailed
                           else if manifest.value.name in old(capsules) then AlreadyInstalled
                           else if faults.copy then CopyFailed
                           else if !AllIssue(engine.capabilities, manifest.value.permissions, faults) then IssueFailed(|issued|)
                           else if faults.insert then InsertFailed
                           else BridgeFailed
      ensures r.Failure? && r.error.IssueFailed? ==>
                && manifest.Some? && |issued| < |manifest.value.permissions|
                && !StepIssues(engine.capabilities, manifest.value.permissions, |issued|, faults)
    {
      hide AllIssue, StepIssues, Kept, GrantsHold, Issued, GrantFor, LeftBehind, CreatedEvents, RevertedEvents;
      issued := [];
      if manifest.None? {
        return Failure(InvalidManifest), issued;
      }
      var m := manifest.value;
      NothingLeft(engine.grants, engine.capabilities, m, faults, now);
      if faults.lookup {
        return Failure(LookupFailed), issued;
      }
      if m.name in capsules {
        return Failure(AlreadyInstalled), issued;
      }
      if faults.copy {
        return Failure(CopyFailed), issued;
      }
      var d := Directory(m.name, m.version);
      directories := directories + {d};
      ghost var before := engine.grants;
      var ids, ok := IssueGrants(m, actor, faults, now, writes);
      issued := ids;
      LogOf(m, ids, actor, faults, old(engine.log), writes);
      if !ok {
        RollBack(before, m, ids, actor, faults, now, writes);
        return Failure(IssueFailed(|ids|)), issued;
      }
      var c := Capsule(m.name, m.version, m.permissions, now);
      if faults.insert {
        RollBack(before, m, ids, actor, faults, now, writes);
        return Failure(InsertFailed), issued;
      }
      capsules := capsules[m.name := c];
      if faults.bridge {
        if !faults.delete {
          capsules := capsules - {m.name};
        }
        RollBack(before, m, ids, actor, faults, now, writes);
        return Failure(BridgeFailed), issued;
      }
      events := events + [CapsuleInstalled(m.name, m.version, |ids|)];
      return Success(Installation(c, ids)), issued;
    }

    /**
     * Revokes the capsule's active grants, newest first and at most the limit of one listing, then removes
     * record and code. A failed revocation or deletion stops it there, with what was revoked staying revoked; a
     * bridge that fails is only recorded.
     */
    method Uninstall(name: string, actor: string, reason: string, later: Later, faults: Faults, now: int, writes: Writes)
      returns (r: Result<(), InstallError>, ghost listing: seq<Grant>, ghost revoked: nat)
      requires Valid() && TextOrder(later)
      modifies this`capsules, this`directories, this`events, engine`grants, engine`log
      ensures Valid()
      ensures if name in old(capsules) && !faults.lookup && !faults.list
              then CascadeListing(listing, old(engine.grants), OwnerOf(name), later, now) else listing == []
      ensures StopsAt(faults.revoke, |listing|, revoked)
      ensures engine.grants == RevokeAll(old(engine.grants), Ids(listing[..revoked]), now)
      ensures r.Success? <==> name in old(capsules) && !faults.lookup && !faults.list && revoked == |listing| && !faults.delete
      ensures r.Failure? ==> capsules == old(capsules) && directories == old(directories) && events == old(events)
      ensures r.Success? ==>
                var c := old(capsules)[name];
                && capsules == old(capsules) - {name}
                && directories == (if faults.remove then old(directories) else old(directories) - {Directory(name, c.version)})
                && events == old(events) + [CapsuleUninstalled(name, c.version, |listing|, faults.bridge)]
      ensures r.Failure? ==>
                r.error == if faults.lookup then LookupFailed
                           else if name !in old(capsules) then NotInstalled
                           else if faults.list then ListFailed
                           else if revoked < |listing| then RevokeFailed
                           else DeleteFailed
      ensures engine.log == old(engine.log)
                            + Kept(RevokeEvents(listing[..revoked], if actor == "" then "user" else actor,
                                                if reason == "" then "capsule " + name + " uninstalled"
                                                else "capsule " + name + " uninstalled: " + reason), writes)
    {
      hide Kept, GrantsHold, ListsSome, ListsEvery, ListsNewest, RevokeAll, UnrevokedRows, Ids, TextOrder, RevokeEvents;
      listing, revoked := [], 0;
      NoneRevokedYet(engine.grants, now);
      NoneRevoked(engine.grants, now, [], if actor == "" then "user" else actor,
                  if reason == "" then "capsule " + name + " uninstalled" else "capsule " + name + " uninstalled: " + reason, writes);
      if faults.lookup {
        return Failure(LookupFailed), listing, revoked;
      }
      if name !in capsules {
        return Failure(NotInstalled), listing, revoked;
      }
      var c := capsules[name];
      if faults.list {
        return Failure(ListFailed), listing, revoked;
      }
      var all := engine.ListGrants(OwnerOf(name), later, now, CASCADE_LIMIT);
      listing := all;
      ListedRows(all, engine.grants, OwnerOf(name), later, now);
      var n := FirstFailure(faults.revoke, |all|);
      revoked := n;
      PrefixRows(all, engine.grants, n);
      var why := if reason == "" then "capsule " + name + " uninstalled" else "capsule " + name + " uninstalled: " + reason;
      engine.RevokeEach(all[..n], actor, why, now, writes);
      if n < |all| {
        return Failure(RevokeFailed), listing, revoked;
      }
      if faults.delete {
        return Failure(DeleteFailed), listing, revoked;
      }
      capsules := capsules - {name};
      RemoveDirectory(Directory(name, c.version), faults);
      events := events + [CapsuleUninstalled(name, c.version, |all|, faults.bridge)];
      return Success(()), listing, revoked;
    }
  }

  lemma NoneRevokedYet(grants: map<nat, Grant>, now: int)
    ensures RevokeAll(grants, Ids([]), now) == grants
  {
  }

  lemma IssuedUnrevoked(before: map<nat, Grant>, after: map<nat, Grant>, capabilities: map<string, Capability>, m: Manifest,
                        ids: seq<nat>, now: int)
    requires |ids| <= |m.permissions| && Issued(before, after, capabilities, m, ids, now)
    ensures forall i :: 0 <= i < |ids| ==> ids[i] in after && after[ids[i]].revokedAt.None?
  {
  }

  lemma NothingLeft(grants: map<nat, Grant>, capabilities: map<string, Capability>, m: Manifest, faults: Faults, now: int)
    ensures LeftBehind(grants, grants, capabilities, m, [], faults, now)
  {
  }

  lemma BelowNext(capabilities: map<string, Capability>, grants: map<nat, Grant>, nextId: nat)
    requires GrantsHold(capabilities, grants, nextId)
    ensures forall id | id in grants :: id < nextId
  {
  }

  lemma NothingIssued(grants: map<nat, Grant>, capabilities: map<string, Capability>, m: Manifest, now: int)
    ensures Issued(grants, grants, capabilities, m, [], now)
  {
  }

  lemma OneIssued(before: map<nat, Grant>, during: map<nat, Grant>, capabilities: map<string, Capability>, m: Manifest,
                  ids: seq<nat>, g: Grant, now: int)
    requires |ids| < |m.permissions| && Issued(before, during, capabilities, m, ids, now)
    requires m.permissions[|ids|].capability in capabilities
    requires g == GrantFor(capabilities, m.name, m.permissions[|ids|], g.id, now)
    requires g.id !in during && forall i :: 0 <= i < |ids| ==> ids[i] < g.id
    ensures Issued(before, during[g.id := g], capabilities, m, ids + [g.id], now)
  {
    hide GrantFor;
  }

  // ---------------------------------------------------------------- active grants

  /** The issued grants whose revocation failed. */
  function Unrevoked(ids: seq<nat>, faults: Faults): set<nat> {
    set i | 0 <= i < |ids| && faults.revoke(i) :: ids[i]
  }

  /**
   * After a failed install the capsule's active grants are those it had and the issued ones whose revocation
   * failed; nobody else's are touched. So they are as before if and only if no revocation of an issued grant
   * failed, and with a cancelled context, when every one fails, all that were issued stay active.
   */
  lemma FailedInstallActive(before: map<nat, Grant>, after: map<nat, Grant>, capabilities: map<string, Capability>,
                            m: Manifest, ids: seq<nat>, faults: Faults, now: int, principal: Principal, later: Later, when: int)
    requires |ids| <= |m.permissions| && LeftBehind(before, after, capabilities, m, ids, faults, now)
    ensures ActiveIds(after, principal, later, when) ==
            ActiveIds(before, principal, later, when) + if principal == OwnerOf(m.name) then Unrevoked(ids, faults) else {}
    ensures ActiveIds(after, OwnerOf(m.name), later, when) == ActiveIds(before, OwnerOf(m.name), later, when)
            <==> forall i :: 0 <= i < |ids| ==> !faults.revoke(i)
  {
    LeftActive(before, after, capabilities, m, ids, faults, now, principal, later, when);
    LeftActive(before, after, capabilities, m, ids, faults, now, OwnerOf(m.name), later, when);
    UnrevokedNew(before, after, capabilities, m, ids, faults, now);
    hide LeftBehind, Unrevoked, OwnerOf;
    var was := ActiveIds(before, OwnerOf(m.name), later, when);
    assert was * Unrevoked(ids, faults) == {} by {
      forall id | id in was ensures id in before {
      }
    }
    hide ActiveIds;
    if was + Unrevoked(ids, faults) == was {
      assert Unrevoked(ids, faults) == {};
    } else {
      assert Unrevoked(ids, faults) != {};
    }
  }

  lemma UnrevokedNew(before: map<nat, Grant>, after: map<nat, Grant>, capabilities: map<string, Capability>,
                     m: Manifest, ids: seq<nat>, faults: Faults, now: int)
    requires |ids| <= |m.permissions| && LeftBehind(before, after, capabilities, m, ids, faults, now)
    ensures forall id :: id in Unrevoked(ids, faults) ==> id !in before
    ensures Unrevoked(ids, faults) == {} <==> forall i :: 0 <= i < |ids| ==> !faults.revoke(i)
  {
    hide GrantFor;
    forall i | 0 <= i < |ids| && faults.revoke(i) ensures ids[i] in Unrevoked(ids, faults) {
    }
  }

  lemma LeftGrant(g: Grant, capabilities: map<string, Capability>, m: Manifest, i: nat, id: nat, faults: Faults, now: int,
                  principal: Principal, later: Later, when: int)
    requires i < |m.permissions| && m.permissions[i].capability in capabilities
    requires g == GrantFor(capabilities, m.name, m.permissions[i], id, now).(revokedAt := if faults.revoke(i) then None else Some(now))
    ensures Selected(g, principal, None, later, when) <==> principal == OwnerOf(m.name) && faults.revoke(i)
  {
  }

  lemma LeftActive(before: map<nat, Grant>, after: map<nat, Grant>, capabilities: map<string, Capability>,
                   m: Manifest, ids: seq<nat>, faults: Faults, now: int, principal: Principal, later: Later, when: int)
    requires |ids| <= |m.permissions| && LeftBehind(before, after, capabilities, m, ids, faults, now)
    ensures ActiveIds(after, principal, later, when) ==
            ActiveIds(before, principal, later, when) + if principal == OwnerOf(m.name) then Unrevoked(ids, faults) else {}
  {
    hide GrantFor, Selected, OwnerOf;
    var left := if principal == OwnerOf(m.name) then Unrevoked(ids, faults) else {};
    forall i | 0 <= i < |ids|
      ensures Selected(after[ids[i]], principal, None, later, when) <==> principal == OwnerOf(m.name) && faults.revoke(i)
    {
      LeftGrant(after[ids[i]], capabilities, m, i, ids[i], faults, now, principal, later, when);
    }
    forall id | id in ActiveIds(after, principal, later, when) ensures id in ActiveIds(before, principal, later, when) + left {
      if id !in before {
        var i :| 0 <= i < |ids| && ids[i] == id;
        assert faults.revoke(i);
      }
    }
    forall id | id in left ensures id in ActiveIds(after, principal, later, when) {
      var i :| 0 <= i < |ids| && faults.revoke(i) && ids[i] == id;
    }
  }

  /** A successful install adds the manifest's grants, and nothing else, to those the capsule's name holds. */
  lemma InstallAddsManifest(before: map<nat, Grant>, after: map<nat, Grant>, capabilities: map<string, Capability>,
                            m: Manifest, ids: seq<nat>, now: int, principal: Principal, later: Later, when: int)
    requires |ids| == |m.permissions| && Issued(before, after, capabilities, m, ids, now)
    ensures var was, added := ActiveIds(before, principal, later, when), if principal == OwnerOf(m.name) then ToSet(ids) else {};
            && ActiveIds(after, principal, later, when) == was + added && was * added == {}
    ensures |ToSet(ids)| == |m.permissions|
  {
    var was, added := ActiveIds(before, principal, later, when), if principal == OwnerOf(m.name) then ToSet(ids) else {};
    forall id | id in added ensures id in ActiveIds(after, principal, later, when) && id !in before {
      var i :| 0 <= i < |ids| && ids[i] == id;
    }
    forall id | id in ActiveIds(after, principal, later, when) ensures id in was + added {
      if id !in before {
        var i :| 0 <= i < |ids| && ids[i] == id;
      }
    }
    hide ActiveIds, OwnerOf;
    IncreasingCount(ids);
  }

  /** So the active grants of a capsule are exactly the manifest's if and only if its name held none before. */
  lemma InstalledGrantsAreManifest(before: map<nat, Grant>, after: map<nat, Grant>, capabilities: map<string, Capability>,
                                   m: Manifest, ids: seq<nat>, now: int, later: Later, when: int)
    requires |ids| == |m.permissions| && Issued(before, after, capabilities, m, ids, now)
    ensures ActiveIds(after, OwnerOf(m.name), later, when) == ToSet(ids) <==> ActiveIds(before, OwnerOf(m.name), later, when) == {}
  {
    hide *;
    InstallAddsManifest(before, after, capabilities, m, ids, now, OwnerOf(m.name), later, when);
    var was := ActiveIds(before, OwnerOf(m.name), later, when);
    assert was + ToSet(ids) == ToSet(ids) ==> was == was * ToSet(ids);
  }

  function ToSet(ids: seq<nat>): set<nat> {
    set id | id in ids
  }

  lemma {:induction false} IncreasingCount(ids: seq<nat>)
    requires forall i, j :: 0 <= i < j < |ids| ==> ids[i] < ids[j]
    ensures |ToSet(ids)| == |ids|
  {
    if ids == [] {
      assert ToSet(ids) == {};
    } else {
      var rest := ids[1..];
      IncreasingCount(rest);
      assert ids == [ids[0]] + rest;
      assert ToSet(ids) == {ids[0]} + ToSet(rest);
      forall id | id in rest ensures ids[0] < id {
        var j :| 0 <= j < |rest| && rest[j] == id;
        assert ids[j + 1] == id;
      }
      assert ids[0] !in ToSet(rest);
      hide ToSet;
    }
  }
}
