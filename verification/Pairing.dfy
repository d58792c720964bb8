/**
 * Pairing and authentication (runtime/internal/permission/clients.go:106-216, store.go:1155-1185): any number
 * of concurrent redemptions, each a conditional update of the code's row followed by an insert, interleaved
 * with new codes, revocations and failures.
 */
module Pairing {
  import opened Wrappers
  import opened Strings
  import opened Tokens
  import opened Ulid

  datatype Code = Code(clientName: string, expiresAt: int, redeemedBy: Option<string>)

  datatype Client = Client(id: string, name: string, hash: string, revoked: bool)

  datatype Refusal = CodeNotFound | CodeRedeemed | CodeExpired

  /**
   * How far one redemption has come. One whose update changed no row keeps, for the statements here, what the
   * code's row said then; the source reads the row again to explain the refusal.
   */
  datatype Redeemer =
    | Minted(code: string, stamp: Stamp, secret: seq<Byte>)
    | Unmarked(code: string, seen: Refusal)
    | Refused(code: string, seen: Refusal, refusal: Refusal)
    | Marked(code: string, stamp: Stamp, secret: seq<Byte>)
    | Stranded(code: string, stamp: Stamp)
    | Paired(code: string, stamp: Stamp, secret: seq<Byte>)

  datatype State = State(codes: map<string, Code>, clients: map<string, Client>, redeemers: map<nat, Redeemer>)

  const INITIAL: State := State(map[], map[], map[])

  datatype Step =
    | CreateCode(code: string, name: string, expiresAt: int)
    | Mint(r: nat, code: string, stamp: Stamp, secret: seq<Byte>)
    | Mark(r: nat, now: int)
    | Explain(r: nat)
    | Insert(r: nat, ok: bool)
    | Revoke(id: string)

  /** SHA-256, and whether the stored text of one instant sorts after that of another. */
  datatype Env = Env(sha: Sha, later: (int, int) -> bool)

  function ClientId(x: Stamp): string {
    "cli-" + (Text32(x.ms, 10) + Text32(x.entropy, 16))
  }

  predicate Has(s: State, r: nat) {
    r in s.redeemers
  }

  /** ULIDs are drawn afresh; nothing is assumed of their order, across processes or clock changes. */
  predicate FreshStamp(redeemers: map<nat, Redeemer>, stamp: Stamp) {
    forall r | r in redeemers && Stamped(redeemers[r]) :: redeemers[r].stamp != stamp
  }

  predicate Stamped(x: Redeemer) {
    x.Minted? || x.Marked? || x.Stranded? || x.Paired?
  }

  predicate Enabled(s: State, step: Step) {
    match step
    case CreateCode(code, _, _) => code !in s.codes
    case Mint(r, _, stamp, secret) =>
      r !in s.redeemers && Valid(stamp) && FreshStamp(s.redeemers, stamp) && |secret| == SECRET_LENGTH
    case Mark(r, _) => Has(s, r) && s.redeemers[r].Minted?
    case Explain(r) => Has(s, r) && s.redeemers[r].Unmarked?
    case Insert(r, _) => Has(s, r) && s.redeemers[r].Marked? && s.redeemers[r].code in s.codes
    case Revoke(id) => id in s.clients
  }

  /** The condition of the update: the code is there, nobody redeemed it, and it has not expired. */
  predicate Redeemable(env: Env, s: State, code: string, now: int) {
    code in s.codes && s.codes[code].redeemedBy.None? && env.later(s.codes[code].expiresAt, now)
  }

  /** Why a code's row was not updated, from what the row says. */
  function RefusalFor(codes: map<string, Code>, code: string): Refusal {
    if code !in codes then CodeNotFound
    else if codes[code].redeemedBy.Some? then CodeRedeemed
    else CodeExpired
  }

  function Apply(env: Env, s: State, step: Step): State
    requires Enabled(s, step)
  {
    match step
    case CreateCode(code, name, expiresAt) => s.(codes := s.codes[code := Code(name, expiresAt, None)])
    case Mint(r, code, stamp, secret) => s.(redeemers := s.redeemers[r := Minted(code, stamp, secret)])
    case Mark(r, now) =>
      var x := s.redeemers[r];
      if Redeemable(env, s, x.code, now) then
        s.(codes := s.codes[x.code := s.codes[x.code].(redeemedBy := Some(ClientId(x.stamp)))],
           redeemers := s.redeemers[r := Marked(x.code, x.stamp, x.secret)])
      else s.(redeemers := s.redeemers[r := Unmarked(x.code, RefusalFor(s.codes, x.code))])
    case Explain(r) =>
      var x := s.redeemers[r];
      s.(redeemers := s.redeemers[r := Refused(x.code, x.seen, RefusalFor(s.codes, x.code))])
    case Insert(r, ok) =>
      var x := s.redeemers[r];
      var id := ClientId(x.stamp);
      if !ok || id in s.clients then s.(redeemers := s.redeemers[r := Stranded(x.code, x.stamp)])
      else
        s.(clients := s.clients[id := Client(id, s.codes[x.code].clientName, HashSecret(env.sha, x.secret), false)],
           redeemers := s.redeemers[r := Paired(x.code, x.stamp, x.secret)])
    case Revoke(id) => s.(clients := s.clients[id := s.clients[id].(revoked := true)])
  }

  predicate Runs(env: Env, s: State, steps: seq<Step>, t: State)
    decreases |steps|
  {
    if steps == [] then s == t
    else Enabled(s, steps[0]) && Runs(env, Apply(env, s, steps[0]), steps[1..], t)
  }

  // ---------------------------------------------------------------- authentication

  datatype Authentication = Authenticated(id: string) | InvalidCredential(reason: string) | ClientRevoked

  function Authenticate(env: Env, clients: map<string, Client>, token: string): Authentication {
    match SplitToken(token)
    case None => InvalidCredential("malformed token")
    case Some((id, secret)) =>
      if id !in clients then InvalidCredential("unknown client")
      else if clients[id].revoked then ClientRevoked
      else if !EqualHex(clients[id].hash, HashSecret(env.sha, secret)) then InvalidCredential("credential mismatch")
      else Authenticated(id)
  }

  // ---------------------------------------------------------------- ids

  lemma {:induction false} Text32Plain(v: nat, w: nat)
    ensures '_' !in Text32(v, w)
  {
    if w > 0 {
      Text32Plain(v / 32, w - 1);
    }
  }

  /** Client ids have the shape tokens need, and differ whenever their stamps do. */
  lemma ClientIdShape(x: Stamp, y: Stamp)
    requires Valid(x) && Valid(y)
    ensures '_' !in ClientId(x) && "cli-" <= ClientId(x)
    ensures ClientId(x) == ClientId(y) <==> x == y
  {
    Text32Plain(x.ms, 10);
    Text32Plain(x.entropy, 16);
    IdOrder(x, y);
    hide Text32, Valid;
    if ClientId(x) == ClientId(y) {
      assert ClientId(x)[4..] == ClientId(y)[4..];
      assert ClientId(x)[4..] == Text32(x.ms, 10) + Text32(x.entropy, 16);
      assert ClientId(y)[4..] == Text32(y.ms, 10) + Text32(y.entropy, 16);
    }
  }

  // ---------------------------------------------------------------- the invariant

  /** Redemptions under way hold valid stamps, and no two hold the same. */
  predicate StampsHold(redeemers: map<nat, Redeemer>) {
    && (forall r | r in redeemers && Stamped(redeemers[r]) :: Valid(redeemers[r].stamp))
    && (forall r, q | r in redeemers && q in redeemers && Stamped(redeemers[r]) && Stamped(redeemers[q])
                      && redeemers[r].stamp == redeemers[q].stamp :: r == q)
  }

  /** A redemption that won its code is the one the code's row names. */
  predicate CodesHold(codes: map<string, Code>, redeemers: map<nat, Redeemer>) {
    forall r | r in redeemers && (redeemers[r].Marked? || redeemers[r].Paired? || redeemers[r].Stranded?) ::
      && redeemers[r].code in codes
      && codes[redeemers[r].code].redeemedBy == Some(ClientId(redeemers[r].stamp))
  }

  predicate IsClientOf(x: Redeemer, id: string) {
    x.Paired? && ClientId(x.stamp) == id
  }

  /** A completed redemption has its client, with the hash of the secret it handed out. */
  predicate PairedHold(env: Env, clients: map<string, Client>, redeemers: map<nat, Redeemer>) {
    forall r | r in redeemers && redeemers[r].Paired? ::
      && |redeemers[r].secret| == SECRET_LENGTH
      && ClientId(redeemers[r].stamp) in clients
      && clients[ClientId(redeemers[r].stamp)].hash == HashSecret(env.sha, redeemers[r].secret)
  }

  predicate OpenHold(clients: map<string, Client>, redeemers: map<nat, Redeemer>) {
    forall r | r in redeemers && (redeemers[r].Minted? || redeemers[r].Marked?) ::
      |redeemers[r].secret| == SECRET_LENGTH && ClientId(redeemers[r].stamp) !in clients
  }

  ghost predicate ClientsNamed(clients: map<string, Client>, redeemers: map<nat, Redeemer>) {
    forall id | id in clients :: exists r | r in redeemers :: IsClientOf(redeemers[r], id)
  }

  ghost predicate ClientsHold(env: Env, clients: map<string, Client>, redeemers: map<nat, Redeemer>) {
    PairedHold(env, clients, redeemers) && OpenHold(clients, redeemers) && ClientsNamed(clients, redeemers)
  }

  ghost predicate Inv(env: Env, s: State) {
    && StampsHold(s.redeemers) && CodesHold(s.codes, s.redeemers) && ClientsHold(env, s.clients, s.redeemers)
  }

  lemma StampIds(redeemers: map<nat, Redeemer>, r: nat, q: nat)
    requires StampsHold(redeemers) && r in redeemers && q in redeemers
    requires Stamped(redeemers[r]) && Stamped(redeemers[q]) && ClientId(redeemers[r].stamp) == ClientId(redeemers[q].stamp)
    ensures r == q
  {
    hide ClientId;
    ClientIdShape(redeemers[r].stamp, redeemers[q].stamp);
  }

  // ---------------------------------------------------------------- every step keeps it

  lemma CreateKeeps(env: Env, s: State, step: Step)
    requires Inv(env, s) && Enabled(s, step) && step.CreateCode?
    ensures Inv(env, Apply(env, s, step))
  {
    hide ClientId, StampsHold, ClientsHold;
  }

  lemma MintKeeps(env: Env, s: State, step: Step)
    requires Inv(env, s) && Enabled(s, step) && step.Mint?
    ensures Inv(env, Apply(env, s, step))
  {
    var t := Apply(env, s, step);
    assert StampsHold(t.redeemers) by {
      hide CodesHold, ClientsHold, ClientId, Valid;
    }
    assert CodesHold(t.codes, t.redeemers) by {
      hide StampsHold, ClientsHold, ClientId, Valid;
    }
    hide StampsHold, CodesHold;
    MintClients(env, s, step);
  }

  lemma MintClients(env: Env, s: State, step: Step)
    requires StampsHold(s.redeemers) && ClientsHold(env, s.clients, s.redeemers) && Enabled(s, step) && step.Mint?
    ensures ClientsHold(env, s.clients, s.redeemers[step.r := Minted(step.code, step.stamp, step.secret)])
  {
    hide ClientId, HashSecret, Valid;
    var id := ClientId(step.stamp);
    if id in s.clients {
      var q :| q in s.redeemers && IsClientOf(s.redeemers[q], id);
      ClientIdShape(step.stamp, s.redeemers[q].stamp);
    }
    var redeemers := s.redeemers[step.r := Minted(step.code, step.stamp, step.secret)];
    forall k | k in s.clients ensures exists r | r in redeemers :: IsClientOf(redeemers[r], k) {
      var r :| r in s.redeemers && IsClientOf(s.redeemers[r], k);
      assert r in redeemers && IsClientOf(redeemers[r], k);
    }
  }

  /** One redemption goes on with its stamp, or is over. */
  lemma StampsMove(redeemers: map<nat, Redeemer>, r: nat, x: Redeemer)
    requires StampsHold(redeemers) && r in redeemers && Stamped(redeemers[r])
    requires Stamped(x) ==> x.stamp == redeemers[r].stamp
    ensures StampsHold(redeemers[r := x])
  {
    hide Valid;
  }

  lemma MarkKeeps(env: Env, s: State, r: nat, now: int)
    requires Inv(env, s)
    requires Enabled(s, Mark(r, now))
    ensures Inv(env, Apply(env, s, Mark(r, now)))
  {
    hide ClientId;
    var t := Apply(env, s, Mark(r, now));
    StampsMove(s.redeemers, r, t.redeemers[r]);
    hide StampsHold;
    assert CodesHold(t.codes, t.redeemers) by {
      hide ClientsHold;
    }
    hide CodesHold, Redeemable;
    ClientsMove(env, s.clients, s.redeemers, r, t.redeemers[r]);
  }

  /** A redemption without a client stays without one. */
  lemma ClientsMove(env: Env, clients: map<string, Client>, redeemers: map<nat, Redeemer>, r: nat, x: Redeemer)
    requires ClientsHold(env, clients, redeemers) && r in redeemers && !redeemers[r].Paired? && !x.Paired?
    requires x.Minted? || x.Marked? ==> |x.secret| == SECRET_LENGTH && ClientId(x.stamp) !in clients
    ensures ClientsHold(env, clients, redeemers[r := x])
  {
    hide ClientId, HashSecret;
    var after := redeemers[r := x];
    forall id | id in clients ensures exists q | q in after :: IsClientOf(after[q], id) {
      var q :| q in redeemers && IsClientOf(redeemers[q], id);
      assert q in after && IsClientOf(after[q], id);
    }
  }

  lemma ExplainKeeps(env: Env, s: State, r: nat)
    requires Inv(env, s)
    requires Enabled(s, Explain(r))
    ensures Inv(env, Apply(env, s, Explain(r)))
  {
    hide ClientId, HashSecret, Valid;
    var t := Apply(env, s, Explain(r));
    assert StampsHold(t.redeemers) by {
      hide CodesHold, ClientsHold;
    }
    hide StampsHold;
    assert CodesHold(t.codes, t.redeemers) by {
      hide ClientsHold;
    }
    hide CodesHold;
    ClientsMove(env, s.clients, s.redeemers, r, t.redeemers[r]);
  }

  lemma InsertKeeps(env: Env, s: State, r: nat, ok: bool)
    requires Inv(env, s)
    requires Enabled(s, Insert(r, ok))
    ensures Inv(env, Apply(env, s, Insert(r, ok)))
  {
    hide ClientId, HashSecret;
    var t := Apply(env, s, Insert(r, ok));
    StampsMove(s.redeemers, r, t.redeemers[r]);
    assert CodesHold(t.codes, t.redeemers) by {
      hide ClientsHold, StampsHold;
    }
    hide CodesHold;
    var x := s.redeemers[r];
    if !ok || ClientId(x.stamp) in s.clients {
      ClientsMove(env, s.clients, s.redeemers, r, t.redeemers[r]);
    } else {
      ClientAdded(env, s, r);
    }
    hide StampsHold, ClientsHold;
  }

  lemma ClientAdded(env: Env, s: State, r: nat)
    requires StampsHold(s.redeemers) && ClientsHold(env, s.clients, s.redeemers)
    requires Enabled(s, Insert(r, true)) && ClientId(s.redeemers[r].stamp) !in s.clients
    ensures ClientsHold(env, Apply(env, s, Insert(r, true)).clients, Apply(env, s, Insert(r, true)).redeemers)
  {
    hide StampsHold, ClientId, HashSecret;
    var t := Apply(env, s, Insert(r, true));
    assert ClientsNamed(t.clients, t.redeemers) by {
      hide OpenHold, PairedHold;
      NameAdded(s.clients, s.redeemers, r, t.clients, t.redeemers);
    }
    assert OpenHold(t.clients, t.redeemers) by {
      hide PairedHold, ClientsNamed;
      OpenKept(s, r, t.clients, t.redeemers);
    }
    hide OpenHold, ClientsNamed;
    assert PairedHold(env, t.clients, t.redeemers) by {
      SecretLength(s.clients, s.redeemers, r);
    }
    hide PairedHold;
  }

  lemma SecretLength(clients: map<string, Client>, redeemers: map<nat, Redeemer>, r: nat)
    requires OpenHold(clients, redeemers) && r in redeemers && redeemers[r].Marked?
    ensures |redeemers[r].secret| == SECRET_LENGTH
  {
    hide ClientId;
  }

  lemma NameAdded(clients: map<string, Client>, redeemers: map<nat, Redeemer>, r: nat,
                  clients': map<string, Client>, redeemers': map<nat, Redeemer>)
    requires ClientsNamed(clients, redeemers) && r in redeemers && !redeemers[r].Paired?
    requires r in redeemers' && redeemers' == redeemers[r := redeemers'[r]] && redeemers'[r].Paired?
    requires clients'.Keys == clients.Keys + {ClientId(redeemers'[r].stamp)}
    ensures ClientsNamed(clients', redeemers')
  {
    hide ClientId;
    forall k | k in clients' ensures exists q | q in redeemers' :: IsClientOf(redeemers'[q], k) {
      if k == ClientId(redeemers'[r].stamp) {
        assert IsClientOf(redeemers'[r], k);
      } else {
        var q :| q in redeemers && IsClientOf(redeemers[q], k);
        assert q in redeemers' && IsClientOf(redeemers'[q], k);
      }
    }
  }

  lemma OpenKept(s: State, r: nat, clients': map<string, Client>, redeemers': map<nat, Redeemer>)
    requires StampsHold(s.redeemers) && OpenHold(s.clients, s.redeemers)
    requires r in s.redeemers && Stamped(s.redeemers[r])
    requires r in redeemers' && redeemers' == s.redeemers[r := redeemers'[r]] && redeemers'[r].Paired?
    requires clients'.Keys == s.clients.Keys + {ClientId(s.redeemers[r].stamp)}
    ensures OpenHold(clients', redeemers')
  {
    hide ClientId;
    forall q | q in redeemers' && (redeemers'[q].Minted? || redeemers'[q].Marked?)
      ensures |redeemers'[q].secret| == SECRET_LENGTH && ClientId(redeemers'[q].stamp) !in clients'
    {
      if ClientId(s.redeemers[q].stamp) == ClientId(s.redeemers[r].stamp) {
        StampIds(s.redeemers, q, r);
      }
    }
  }

  lemma RevokeKeeps(env: Env, s: State, step: Step)
    requires Inv(env, s) && Enabled(s, step) && step.Revoke?
    ensures Inv(env, Apply(env, s, step))
  {
    hide ClientId, HashSecret, StampsHold, CodesHold, IsClientOf;
    assert Apply(env, s, step).clients.Keys == s.clients.Keys;
  }

  lemma StepKeeps(env: Env, s: State, step: Step)
    requires Inv(env, s) && Enabled(s, step)
    ensures Inv(env, Apply(env, s, step))
  {
    hide *;
    match step
    case CreateCode(_, _, _) => CreateKeeps(env, s, step);
    case Mint(_, _, _, _) => MintKeeps(env, s, step);
    case Mark(r, now) => MarkKeeps(env, s, r, now);
    case Explain(r) => ExplainKeeps(env, s, r);
    case Insert(r, ok) => InsertKeeps(env, s, r, ok);
    case Revoke(_) => RevokeKeeps(env, s, step);
  }

  /** A completed redemption stays, its client stays, and a revoked client stays revoked. */
  predicate Lasting(s: State, t: State) {
    && (forall r | r in s.redeemers && s.redeemers[r].Paired? :: r in t.redeemers && t.redeemers[r] == s.redeemers[r])
    && (forall id | id in s.clients :: id in t.clients && (s.clients[id].revoked ==> t.clients[id].revoked))
  }

  lemma StepLasts(env: Env, s: State, step: Step)
    requires Enabled(s, step)
    ensures Lasting(s, Apply(env, s, step))
  {
    hide ClientId, HashSecret, Redeemable, Valid, FreshStamp, RefusalFor;
  }

  lemma {:induction false} RunKeeps(env: Env, s: State, steps: seq<Step>, t: State)
    requires Inv(env, s) && Runs(env, s, steps, t)
    ensures Inv(env, t) && Lasting(s, t)
    decreases |steps|
  {
    hide Inv, Enabled, Apply;
    if steps != [] {
      var u := Apply(env, s, steps[0]);
      StepKeeps(env, s, steps[0]);
      StepLasts(env, s, steps[0]);
      RunKeeps(env, u, steps[1..], t);
    }
  }

  lemma InitialHolds(env: Env)
    ensures Inv(env, INITIAL)
  {
  }

  // ---------------------------------------------------------------- what follows

  /** However redemptions interleave, one code makes at most one client. */
  lemma OneClientPerCode(env: Env, steps: seq<Step>, s: State, r: nat, q: nat)
    requires Runs(env, INITIAL, steps, s) && r in s.redeemers && q in s.redeemers
    requires s.redeemers[r].Paired? && s.redeemers[q].Paired? && s.redeemers[r].code == s.redeemers[q].code
    ensures r == q
  {
    InitialHolds(env);
    RunKeeps(env, INITIAL, steps, s);
    hide ClientId, ClientsHold, Runs, StampsHold, Lasting;
    StampIds(s.redeemers, r, q);
  }

  /** The redemption of a code, whose row names the client, made that client. */
  predicate MadeBy(s: State, r: nat, id: string) {
    && r in s.redeemers && IsClientOf(s.redeemers[r], id)
    && s.redeemers[r].code in s.codes && s.codes[s.redeemers[r].code].redeemedBy == Some(id)
  }

  /** A client carries the name its code was created for. */
  predicate NamesHold(s: State) {
    forall r | r in s.redeemers && s.redeemers[r].Paired? ::
      && s.redeemers[r].code in s.codes && ClientId(s.redeemers[r].stamp) in s.clients
      && s.clients[ClientId(s.redeemers[r].stamp)].name == s.codes[s.redeemers[r].code].clientName
  }

  lemma NamesStay(env: Env, s: State, step: Step)
    requires NamesHold(s) && Enabled(s, step)
    ensures NamesHold(Apply(env, s, step))
  {
    hide ClientId, HashSecret, Redeemable, Valid, FreshStamp, RefusalFor;
  }

  /** However redemptions interleave, every client has the name of the code it redeemed. */
  lemma {:induction false} ClientsAreNamed(env: Env, s: State, steps: seq<Step>, t: State)
    requires NamesHold(s) && Runs(env, s, steps, t)
    ensures NamesHold(t)
    decreases |steps|
  {
    if steps != [] {
      NamesStay(env, s, steps[0]);
      hide NamesHold, Enabled, Apply;
      ClientsAreNamed(env, Apply(env, s, steps[0]), steps[1..], t);
    }
  }

  /** Every client comes from one redemption of one code. */
  lemma ClientsComeFromCodes(env: Env, steps: seq<Step>, s: State, id: string)
    requires Runs(env, INITIAL, steps, s) && id in s.clients
    ensures exists r | r in s.redeemers :: MadeBy(s, r, id)
  {
    InitialHolds(env);
    RunKeeps(env, INITIAL, steps, s);
    hide ClientId, Runs, StampsHold, Lasting;
    var r :| r in s.redeemers && IsClientOf(s.redeemers[r], id);
    assert MadeBy(s, r, id);
  }

  /**
   * A token handed out authenticates as its own client in every later state, until that client is revoked,
   * and never again afterwards.
   */
  lemma TokenAuthenticates(env: Env, before: seq<Step>, s: State, r: nat, after: seq<Step>, t: State)
    requires Runs(env, INITIAL, before, s) && Runs(env, s, after, t) && r in s.redeemers && s.redeemers[r].Paired?
    ensures var x := s.redeemers[r];
            var id := ClientId(x.stamp);
            && id in s.clients && id in t.clients
            && Authenticate(env, t.clients, AssembleToken(id, x.secret)) ==
               (if t.clients[id].revoked then ClientRevoked else Authenticated(id))
            && (s.clients[id].revoked ==> t.clients[id].revoked)
  {
    InitialHolds(env);
    RunKeeps(env, INITIAL, before, s);
    RunKeeps(env, s, after, t);
    var x := s.redeemers[r];
    PairedShape(env, s, r);
    hide Runs, CodesHold, StampsHold, ClientId, SplitToken, AssembleToken, EqualHex, HashSecret, IsClientOf;
    SplitAssemble(ClientId(x.stamp), x.secret);
    HashesCompare(env.sha, x.secret, x.secret);
  }

  lemma PairedShape(env: Env, s: State, r: nat)
    requires Inv(env, s) && r in s.redeemers && s.redeemers[r].Paired?
    ensures var x := s.redeemers[r];
            '_' !in ClientId(x.stamp) && "cli-" <= ClientId(x.stamp) && |x.secret| == SECRET_LENGTH && ClientId(x.stamp) in s.clients
  {
    hide ClientId, CodesHold, HashSecret;
    ClientIdShape(s.redeemers[r].stamp, s.redeemers[r].stamp);
  }

  /** Authentication succeeds exactly for a live client and a secret whose digest is the stored one. */
  lemma AuthenticatesIff(env: Env, clients: map<string, Client>, token: string, id: string)
    ensures Authenticate(env, clients, token) == Authenticated(id) <==>
            && SplitToken(token).Some? && SplitToken(token).value.0 == id
            && id in clients && !clients[id].revoked
            && EqualHex(clients[id].hash, HashSecret(env.sha, SplitToken(token).value.1))
  {
    hide SplitToken, EqualHex, HashSecret;
  }

  /**
   * Authentication read off the token: it gives an id exactly if the text is a token of that client, who is known
   * and not revoked, and the stored hash spells the digest of the token's secret; and it tells of a revocation
   * exactly for a token of a known and revoked client.
   */
  lemma AuthenticatesExactly(env: Env, clients: map<string, Client>, token: string, id: string)
    ensures Authenticate(env, clients, token) == Authenticated(id) <==>
            exists payload, secret ::
              && IsToken(token, id, payload, secret)
              && id in clients && !clients[id].revoked && Unhex(clients[id].hash) == Some(env.sha(secret))
    ensures Authenticate(env, clients, token) == ClientRevoked <==>
            exists client, payload, secret :: IsToken(token, client, payload, secret) && client in clients && clients[client].revoked
  {
    hide SplitToken, Unhex, Hex, Decode, IsToken;
    match SplitToken(token)
    case Some((client, secret)) =>
      UnhexHex(env.sha(secret));
      var payload := TokenIs(token, client, secret);
      forall other, pay, sec | IsToken(token, other, pay, sec) ensures other == client && sec == secret {
        IsTokenSplits(token, other, pay, sec);
      }
    case None =>
      forall other, pay, sec ensures !IsToken(token, other, pay, sec) {
        if IsToken(token, other, pay, sec) {
          IsTokenSplits(token, other, pay, sec);
        }
      }
  }

  /** The token of a client with a secret, which its last part encodes. */
  predicate IsToken(token: string, id: string, payload: string, secret: seq<Byte>) {
    && token == "lck" + ("_" + (id + ("_" + payload)))
    && '_' !in id && "cli-" <= id && Decode(payload) == Some(secret) && |secret| == 32
  }

  lemma TokenIs(token: string, id: string, secret: seq<Byte>) returns (payload: string)
    requires SplitToken(token) == Some((id, secret))
    ensures IsToken(token, id, payload, secret)
  {
    hide SplitToken, Decode;
    SplitTokenIs(token, id, secret);
    payload :| && token == "lck" + ("_" + (id + ("_" + payload)))
               && '_' !in id && "cli-" <= id && Decode(payload) == Some(secret) && |secret| == 32;
  }

  lemma IsTokenSplits(token: string, id: string, payload: string, secret: seq<Byte>)
    requires IsToken(token, id, payload, secret)
    ensures SplitToken(token) == Some((id, secret))
  {
    hide SplitToken, Decode;
    SplitTokenIs(token, id, secret);
  }

  // ---------------------------------------------------------------- a redemption that succeeds

  /**
   * A redemption of a code that is there, not redeemed and not expired completes by its own two statements: the
   * code's row names the new client, the client carries the code's name and the hash of the secret, and the token
   * authenticates.
   */
  lemma RedemptionPairs(env: Env, before: seq<Step>, s: State, r: nat, now: int) returns (t: State)
    requires Runs(env, INITIAL, before, s) && r in s.redeemers && s.redeemers[r].Minted?
    requires var code := s.redeemers[r].code;
             code in s.codes && s.codes[code].redeemedBy.None? && env.later(s.codes[code].expiresAt, now)
    ensures Runs(env, s, [Mark(r, now), Insert(r, true)], t)
    ensures var x := s.redeemers[r];
            var id, row := ClientId(x.stamp), s.codes[x.code];
            && id !in s.clients
            && t.redeemers == s.redeemers[r := Paired(x.code, x.stamp, x.secret)]
            && t.codes == s.codes[x.code := Code(row.clientName, row.expiresAt, Some(id))]
            && t.clients == s.clients[id := Client(id, row.clientName, Hex(env.sha(x.secret)), false)]
            && Authenticate(env, t.clients, AssembleToken(id, x.secret)) == Authenticated(id)
  {
    InitialHolds(env);
    RunKeeps(env, INITIAL, before, s);
    hide ClientId, SplitToken, AssembleToken, StampsHold, CodesHold, EqualHex, Hex, Authenticate, RefusalFor;
    var x := s.redeemers[r];
    var m := Apply(env, s, Mark(r, now));
    assert m.redeemers[r] == Marked(x.code, x.stamp, x.secret);
    t := Apply(env, m, Insert(r, true));
    TwoSteps(env, s, Mark(r, now), Insert(r, true));
    assert t.redeemers == s.redeemers[r := Paired(x.code, x.stamp, x.secret)];
    TokenAuthenticatesNow(env, before, s, r, now, t);
  }

  lemma TwoSteps(env: Env, s: State, a: Step, b: Step)
    requires Enabled(s, a) && Enabled(Apply(env, s, a), b)
    ensures Runs(env, s, [a, b], Apply(env, Apply(env, s, a), b))
  {
    hide Enabled, Apply;
    var u := Apply(env, s, a);
    assert [b][1..] == [] && Runs(env, u, [b], Apply(env, u, b));
    assert [a, b][1..] == [b];
  }

  lemma {:induction false} RunsJoin(env: Env, s: State, a: seq<Step>, t: State, b: seq<Step>, u: State)
    requires Runs(env, s, a, t) && Runs(env, t, b, u)
    ensures Runs(env, s, a + b, u)
    decreases |a|
  {
    hide Enabled, Apply;
    if a == [] {
      assert a + b == b;
    } else {
      assert (a + b)[1..] == a[1..] + b;
      RunsJoin(env, Apply(env, s, a[0]), a[1..], t, b, u);
    }
  }

  lemma TokenAuthenticatesNow(env: Env, before: seq<Step>, s: State, r: nat, now: int, t: State)
    requires Runs(env, INITIAL, before, s) && Runs(env, s, [Mark(r, now), Insert(r, true)], t)
    requires r in t.redeemers && t.redeemers[r].Paired?
    requires ClientId(t.redeemers[r].stamp) in t.clients && !t.clients[ClientId(t.redeemers[r].stamp)].revoked
    ensures var x := t.redeemers[r];
            Authenticate(env, t.clients, AssembleToken(ClientId(x.stamp), x.secret)) == Authenticated(ClientId(x.stamp))
  {
    hide ClientId, AssembleToken, Authenticate, Runs;
    var all := before + [Mark(r, now), Insert(r, true)];
    RunsJoin(env, INITIAL, before, s, [Mark(r, now), Insert(r, true)], t);
    NoSteps(env, t);
    TokenAuthenticates(env, all, t, r, [], t);
  }

  lemma NoSteps(env: Env, t: State)
    ensures Runs(env, t, [], t)
  {
  }

  /**
   * So from any reachable state a code that is created and then redeemed before it expires makes a client of the
   * name it was created for.
   */
  lemma CodePairs(env: Env, before: seq<Step>, s: State, code: string, name: string, expiresAt: int, r: nat, stamp: Stamp,
                  secret: seq<Byte>, now: int) returns (t: State)
    requires Runs(env, INITIAL, before, s) && code !in s.codes && env.later(expiresAt, now)
    requires r !in s.redeemers && Valid(stamp) && FreshStamp(s.redeemers, stamp) && |secret| == 32
    ensures Runs(env, s, [CreateCode(code, name, expiresAt), Mint(r, code, stamp, secret)] + [Mark(r, now), Insert(r, true)], t)
    ensures ClientId(stamp) in t.clients && t.clients[ClientId(stamp)].name == name && !t.clients[ClientId(stamp)].revoked
    ensures Authenticate(env, t.clients, AssembleToken(ClientId(stamp), secret)) == Authenticated(ClientId(stamp))
  {
    hide ClientId, AssembleToken, Authenticate, FreshStamp, Valid, Hex;
    var first, second := CreateCode(code, name, expiresAt), Mint(r, code, stamp, secret);
    var u := Apply(env, Apply(env, s, first), second);
    TwoSteps(env, s, first, second);
    RunsJoin(env, INITIAL, before, s, [first, second], u);
    assert u.redeemers[r] == Minted(code, stamp, secret) && u.codes[code] == Code(name, expiresAt, None);
    hide Apply, Enabled, Runs;
    t := RedemptionPairs(env, before + [first, second], u, r, now);
    RunsJoin(env, s, [first, second], u, [Mark(r, now), Insert(r, true)], t);
  }

  /** Once a client was revoked, no token authenticates as it, however the run goes on; its own tokens say why. */
  lemma RevokedForGood(env: Env, s: State, id: string, after: seq<Step>, t: State, token: string)
    requires Enabled(s, Revoke(id)) && Runs(env, Apply(env, s, Revoke(id)), after, t)
    ensures id in t.clients && t.clients[id].revoked && Authenticate(env, t.clients, token) != Authenticated(id)
    ensures SplitToken(token).Some? && SplitToken(token).value.0 == id ==> Authenticate(env, t.clients, token) == ClientRevoked
  {
    hide Runs, SplitToken, EqualHex, HashSecret;
    var u := Apply(env, s, Revoke(id));
    assert u.clients[id].revoked;
    hide Apply, Enabled;
    RunLasts(env, u, after, t);
  }

  lemma {:induction false} RunLasts(env: Env, s: State, steps: seq<Step>, t: State)
    requires Runs(env, s, steps, t)
    ensures forall id | id in s.clients :: id in t.clients && (s.clients[id].revoked ==> t.clients[id].revoked)
    decreases |steps|
  {
    hide Enabled, Apply;
    if steps != [] {
      StepLasts(env, s, steps[0]);
      RunLasts(env, Apply(env, s, steps[0]), steps[1..], t);
    }
  }

  /** A redemption whose update changed no row is told, when it asks, what the code's row says then. */
  lemma ExplainTells(env: Env, s: State, r: nat)
    requires Enabled(s, Explain(r))
    ensures var x, t := s.redeemers[r], Apply(env, s, Explain(r));
            t == s.(redeemers := s.redeemers[r := Refused(x.code, x.seen, if x.code !in s.codes then CodeNotFound
                                                                         else if s.codes[x.code].redeemedBy.Some? then CodeRedeemed
                                                                         else CodeExpired)])
  {
    RefusalIs(s.codes, s.redeemers[r].code);
  }

  /** Why a redemption is refused: the code is unknown, redeemed, or otherwise expired. */
  lemma RefusalIs(codes: map<string, Code>, code: string)
    ensures RefusalFor(codes, code) == CodeNotFound <==> code !in codes
    ensures RefusalFor(codes, code) == CodeRedeemed <==> code in codes && codes[code].redeemedBy.Some?
  {
  }

  // ---------------------------------------------------------------- who wins a code

  /** A redemption that consumed its code. */
  predicate Won(s: State, r: nat, code: string) {
    && r in s.redeemers && (s.redeemers[r].Marked? || s.redeemers[r].Paired? || s.redeemers[r].Stranded?)
    && s.redeemers[r].code == code
  }

  predicate Redeemed(s: State, code: string) {
    code in s.codes && s.codes[code].redeemedBy.Some?
  }

  /** The step is an update that finds the code redeemable. */
  predicate Wins(env: Env, s: State, step: Step, code: string)
    requires Enabled(s, step)
  {
    step.Mark? && s.redeemers[step.r].code == code && Redeemable(env, s, code, step.now)
  }

  /** The redeemer that takes the first update of a run to find the code redeemable. */
  function Winner(env: Env, s: State, steps: seq<Step>, t: State, code: string): Option<nat>
    requires Runs(env, s, steps, t)
    decreases |steps|
  {
    if steps == [] then None
    else if Wins(env, s, steps[0], code) then Some(steps[0].r)
    else Winner(env, Apply(env, s, steps[0]), steps[1..], t, code)
  }

  lemma StepWins(env: Env, s: State, step: Step, code: string)
    requires Enabled(s, step)
    ensures var t := Apply(env, s, step);
            && (forall r: nat :: Won(t, r, code) <==> Won(s, r, code) || (Wins(env, s, step, code) && step.r == r))
            && (Redeemed(t, code) <==> Redeemed(s, code) || Wins(env, s, step, code))
            && (Wins(env, s, step, code) ==> !Redeemed(s, code))
  {
    hide ClientId, HashSecret, Valid, FreshStamp, RefusalFor;
  }

  /** Once a code is redeemed nobody else wins it; before, exactly the first to find it redeemable does. */
  lemma {:induction false} WinnerIsFirst(env: Env, s: State, steps: seq<Step>, t: State, code: string)
    requires Runs(env, s, steps, t)
    requires !Redeemed(s, code) ==> forall r :: !Won(s, r, code)
    ensures Redeemed(s, code) ==> Winner(env, s, steps, t, code).None? && forall r: nat :: Won(t, r, code) <==> Won(s, r, code)
    ensures !Redeemed(s, code) ==> forall r: nat :: Won(t, r, code) <==> Winner(env, s, steps, t, code) == Some(r)
    ensures Redeemed(t, code) <==> Redeemed(s, code) || Winner(env, s, steps, t, code).Some?
    decreases |steps|
  {
    hide Enabled, Apply, Wins, Won, Redeemed;
    if steps != [] {
      StepWins(env, s, steps[0], code);
      WinnerIsFirst(env, Apply(env, s, steps[0]), steps[1..], t, code);
    }
  }

  /** A code is won only by an update that finds it there, not redeemed and not expired. */
  lemma {:induction false} WinnerFoundRedeemable(env: Env, s: State, steps: seq<Step>, t: State, r: nat, code: string)
      returns (before: seq<Step>, w: State, now: int, after: seq<Step>)
    requires Runs(env, s, steps, t) && !Won(s, r, code) && Won(t, r, code)
    ensures steps == before + [Mark(r, now)] + after && Runs(env, s, before, w)
    ensures r in w.redeemers && w.redeemers[r].Minted? && w.redeemers[r].code == code
    ensures code in w.codes && w.codes[code].redeemedBy.None? && env.later(w.codes[code].expiresAt, now)
    decreases |steps|
  {
    hide Apply, Won;
    var u := Apply(env, s, steps[0]);
    StepWins(env, s, steps[0], code);
    if Won(u, r, code) {
      before, w, now, after := [], s, steps[0].now, steps[1..];
    } else {
      before, w, now, after := WinnerFoundRedeemable(env, u, steps[1..], t, r, code);
      assert ([steps[0]] + before)[1..] == before;
      before := [steps[0]] + before;
    }
  }

  /** A refusal reads the row later than the update did: what it may say, given what the row said then. */
  predicate Explains(seen: Refusal, refusal: Refusal) {
    && (seen == CodeRedeemed ==> refusal == CodeRedeemed)
    && (refusal == CodeNotFound ==> seen == CodeNotFound)
  }

  predicate RefusalsHold(codes: map<string, Code>, redeemers: map<nat, Redeemer>) {
    forall r | r in redeemers && (redeemers[r].Unmarked? || redeemers[r].Refused?) ::
      && Explains(redeemers[r].seen, RefusalFor(codes, redeemers[r].code))
      && (redeemers[r].Refused? ==> Explains(redeemers[r].seen, redeemers[r].refusal))
      && (redeemers[r].Refused? && redeemers[r].refusal == CodeRedeemed ==> RefusalFor(codes, redeemers[r].code) == CodeRedeemed)
  }

  lemma RefusalsStay(env: Env, s: State, step: Step)
    requires RefusalsHold(s.codes, s.redeemers) && Enabled(s, step)
    ensures RefusalsHold(Apply(env, s, step).codes, Apply(env, s, step).redeemers)
  {
    hide ClientId, HashSecret, Valid, FreshStamp;
  }

  lemma {:induction false} RunRefusals(env: Env, s: State, steps: seq<Step>, t: State)
    requires RefusalsHold(s.codes, s.redeemers) && Runs(env, s, steps, t)
    ensures RefusalsHold(t.codes, t.redeemers)
    decreases |steps|
  {
    if steps != [] {
      RefusalsStay(env, s, steps[0]);
      hide RefusalsHold, Enabled, Apply;
      RunRefusals(env, Apply(env, s, steps[0]), steps[1..], t);
    }
  }

  /**
   * In every run the one redemption that consumes a code is that of the first update to find it redeemable. Any
   * other that presented the code is still to try or to be told, or was refused: as redeemed only if somebody
   * won it, as unknown only if it was unknown when it tried, and never as anything else once it was redeemed.
   */
  lemma CodeGoesToFirst(env: Env, steps: seq<Step>, t: State, code: string)
    requires Runs(env, INITIAL, steps, t)
    ensures forall r: nat :: Won(t, r, code) <==> Winner(env, INITIAL, steps, t, code) == Some(r)
    ensures forall r | r in t.redeemers && t.redeemers[r].code == code && !Won(t, r, code) ::
              || t.redeemers[r].Minted? || t.redeemers[r].Unmarked?
              || (t.redeemers[r].Refused? && Explains(t.redeemers[r].seen, t.redeemers[r].refusal)
                  && (t.redeemers[r].refusal == CodeRedeemed ==> Winner(env, INITIAL, steps, t, code).Some?))
  {
    WinnerIsFirst(env, INITIAL, steps, t, code);
    RunRefusals(env, INITIAL, steps, t);
    hide Runs, Winner, Explains;
    assert Redeemed(t, code) <==> Winner(env, INITIAL, steps, t, code).Some?;
  }

  /** A losing update that is explained before its code is created or won by another is told exactly what was so. */
  lemma {:induction false} RefusalIsExact(env: Env, s: State, steps: seq<Step>, t: State, r: nat)
    requires r in s.redeemers && s.redeemers[r].Unmarked? && Runs(env, s, steps, t)
    requires s.redeemers[r].seen == RefusalFor(s.codes, s.redeemers[r].code)
    requires Winner(env, s, steps, t, s.redeemers[r].code).None?
    requires forall step :: step in steps ==> !(step.CreateCode? && step.code == s.redeemers[r].code)
    ensures r in t.redeemers
    ensures t.redeemers[r] == s.redeemers[r]
            || t.redeemers[r] == Refused(s.redeemers[r].code, s.redeemers[r].seen, s.redeemers[r].seen)
    ensures RefusalFor(t.codes, s.redeemers[r].code) == RefusalFor(s.codes, s.redeemers[r].code)
    decreases |steps|
  {
    if steps != [] {
      var u := Apply(env, s, steps[0]);
      assert steps[0] in steps;
      RowUnchanged(env, s, steps[0], r);
      hide Enabled, Apply, RefusalFor, Wins;
      if u.redeemers[r].Unmarked? {
        RefusalIsExact(env, u, steps[1..], t, r);
      } else {
        RefusedStays(env, u, steps[1..], t, r, s.redeemers[r].code);
      }
    }
  }

  lemma RowUnchanged(env: Env, s: State, step: Step, r: nat)
    requires Enabled(s, step) && r in s.redeemers && s.redeemers[r].Unmarked?
    requires !Wins(env, s, step, s.redeemers[r].code) && !(step.CreateCode? && step.code == s.redeemers[r].code)
    ensures var t, code := Apply(env, s, step), s.redeemers[r].code;
            && RefusalFor(t.codes, code) == RefusalFor(s.codes, code) && r in t.redeemers
            && (t.redeemers[r] == s.redeemers[r] || t.redeemers[r] == Refused(code, s.redeemers[r].seen, RefusalFor(s.codes, code)))
  {
    hide ClientId, HashSecret, Valid, FreshStamp;
  }

  lemma {:induction false} RefusedStays(env: Env, s: State, steps: seq<Step>, t: State, r: nat, code: string)
    requires r in s.redeemers && s.redeemers[r].Refused? && Runs(env, s, steps, t)
    requires Winner(env, s, steps, t, code).None?
    requires forall step :: step in steps ==> !(step.CreateCode? && step.code == code)
    ensures r in t.redeemers && t.redeemers[r] == s.redeemers[r] && RefusalFor(t.codes, code) == RefusalFor(s.codes, code)
    decreases |steps|
  {
    if steps != [] {
      assert steps[0] in steps;
      RefusedStep(env, s, steps[0], r, code);
      hide Enabled, Apply, RefusalFor, Wins;
      RefusedStays(env, Apply(env, s, steps[0]), steps[1..], t, r, code);
    }
  }

  lemma RefusedStep(env: Env, s: State, step: Step, r: nat, code: string)
    requires Enabled(s, step) && r in s.redeemers && s.redeemers[r].Refused?
    requires !Wins(env, s, step, code) && !(step.CreateCode? && step.code == code)
    ensures var t := Apply(env, s, step);
            r in t.redeemers && t.redeemers[r] == s.redeemers[r] && RefusalFor(t.codes, code) == RefusalFor(s.codes, code)
  {
    hide ClientId, HashSecret, Valid, FreshStamp;
  }
}
