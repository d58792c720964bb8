/**
 * Grants and the decision over them (runtime/internal/permission/engine.go:103-168, types.go:110-260): the
 * first grant of a listing whose scope encloses the attempt decides. The listing's order is that of text
 * timestamps with ties; how instants sort as text is a parameter.
 */
module Permission {
  import opened Decimal
  import opened Wrappers
  import opened ScopeMatch
  import opened Json

  datatype PrincipalKind = CapsulePrincipal | ClientPrincipal

  datatype Principal = Principal(kind: PrincipalKind, id: string)

  datatype Capability = Capability(name: string, namespace: string, direction: string, declaredBy: string,
                                   defaultApproval: bool, schema: Schema)

  datatype Grant = Grant(id: nat, principal: Principal, capability: string, scope: Scope, requiresApproval: bool,
                         issuedAt: int, expiresAt: Option<int>, revokedAt: Option<int>)

  datatype Decision = Deny | Allow(grant: nat) | NeedsApproval(grant: nat)

  /** Whether the stored text of one instant sorts after that of another. */
  type Later = (int, int) -> bool

  predicate Active(later: Later, g: Grant, now: int) {
    g.revokedAt.None? && (g.expiresAt.Some? ==> later(g.expiresAt.value, now))
  }

  predicate Matches(env: Env, c: Capability, g: Grant, attempt: Scope) {
    ScopeMatches(env, c.schema, g.scope, attempt)
  }

  /** The approval a match asks for: the capability's default, which a grant can only tighten. */
  predicate AsksUser(c: Capability, g: Grant) {
    c.defaultApproval || g.requiresApproval
  }

  /** The grant that decides. */
  function FirstMatch(env: Env, c: Capability, listing: seq<Grant>, attempt: Scope): Option<Grant> {
    if listing == [] then None
    else if Matches(env, c, listing[0], attempt) then Some(listing[0])
    else FirstMatch(env, c, listing[1..], attempt)
  }

  function Decide(env: Env, c: Capability, listing: seq<Grant>, attempt: Scope): Decision {
    match FirstMatch(env, c, listing, attempt)
    case None => Deny
    case Some(g) => if AsksUser(c, g) then NeedsApproval(g.id) else Allow(g.id)
  }

  /** The first match is a match before which there is none. */
  lemma {:induction false} FirstMatchIs(env: Env, c: Capability, listing: seq<Grant>, attempt: Scope)
    ensures match FirstMatch(env, c, listing, attempt)
            case None => forall i :: 0 <= i < |listing| ==> !Matches(env, c, listing[i], attempt)
            case Some(g) =>
              exists i :: 0 <= i < |listing| && listing[i] == g && Matches(env, c, listing[i], attempt)
                          && forall j :: 0 <= j < i ==> !Matches(env, c, listing[j], attempt)
  {
    hide Matches;
    if listing != [] && !Matches(env, c, listing[0], attempt) {
      FirstMatchIs(env, c, listing[1..], attempt);
      if FirstMatch(env, c, listing, attempt).Some? {
        var rest := listing[1..];
        var g := FirstMatch(env, c, rest, attempt).value;
        var i :| 0 <= i < |rest| && rest[i] == g && Matches(env, c, rest[i], attempt)
                 && forall j :: 0 <= j < i ==> !Matches(env, c, rest[j], attempt);
        assert listing[i + 1] == g;
        forall j | 0 <= j < i + 1 ensures !Matches(env, c, listing[j], attempt) {
          assert j > 0 ==> listing[j] == rest[j - 1];
        }
      }
    }
  }

  /** The i-th grant is the first of the listing whose scope encloses the attempt. */
  ghost predicate IsFirstMatch(env: Env, c: Capability, listing: seq<Grant>, attempt: Scope, i: int) {
    && 0 <= i < |listing| && ScopeMatches(env, c.schema, listing[i].scope, attempt)
    && forall j :: 0 <= j < i ==> !ScopeMatches(env, c.schema, listing[j].scope, attempt)
  }

  /**
   * The first grant that matches decides: access is allowed by it if neither the capability's default nor the
   * grant asks for approval, and otherwise needs an approval for it.
   */
  lemma {:induction false} FirstMatchDecides(env: Env, c: Capability, listing: seq<Grant>, attempt: Scope, i: int)
    requires IsFirstMatch(env, c, listing, attempt, i)
    ensures Decide(env, c, listing, attempt) ==
            if !c.defaultApproval && !listing[i].requiresApproval then Allow(listing[i].id) else NeedsApproval(listing[i].id)
  {
    hide ScopeMatches;
    if i > 0 {
      FirstMatchDecides(env, c, listing[1..], attempt, i - 1);
    }
  }

  // ---------------------------------------------------------------- what decides whether access is denied

  /** Access is denied exactly when no listed grant matches, whatever the order of the listing. */
  lemma DeniedIffNoMatch(env: Env, c: Capability, listing: seq<Grant>, attempt: Scope)
    ensures Decide(env, c, listing, attempt).Deny? <==> forall g :: g in listing ==> !Matches(env, c, g, attempt)
  {
    FirstMatchIs(env, c, listing, attempt);
    hide FirstMatch, Matches;
  }

  /** More grants never turn access that was not denied into a denial. */
  lemma MoreGrantsNeverDeny(env: Env, c: Capability, listing: seq<Grant>, more: seq<Grant>, attempt: Scope)
    requires forall g :: g in listing ==> g in more
    requires !Decide(env, c, listing, attempt).Deny?
    ensures !Decide(env, c, more, attempt).Deny?
  {
    DeniedIffNoMatch(env, c, listing, attempt);
    DeniedIffNoMatch(env, c, more, attempt);
    hide Decide, Matches;
  }

  /** Widening any of the grants' scopes never turns access that was not denied into a denial. */
  lemma WiderGrantsNeverDeny(env: Env, c: Capability, listing: seq<Grant>, wide: seq<Grant>, attempt: Scope)
    requires |listing| == |wide|
    requires forall i :: 0 <= i < |listing| ==> ScopeWider(env, c.schema, listing[i].scope, wide[i].scope)
    requires !Decide(env, c, listing, attempt).Deny?
    ensures !Decide(env, c, wide, attempt).Deny?
  {
    DeniedIffNoMatch(env, c, listing, attempt);
    DeniedIffNoMatch(env, c, wide, attempt);
    hide Decide, ScopeWider, ScopeMatches;
    var g :| g in listing && Matches(env, c, g, attempt);
    var i :| 0 <= i < |listing| && listing[i] == g;
    WiderScopeKeepsMatch(env, c.schema, listing[i].scope, wide[i].scope, attempt);
    assert Matches(env, c, wide[i], attempt) && wide[i] in wide;
  }

  /** No grant relaxes a capability's default approval. */
  lemma DefaultNeverAllows(env: Env, c: Capability, listing: seq<Grant>, attempt: Scope)
    requires c.defaultApproval
    ensures !Decide(env, c, listing, attempt).Allow?
  {
  }

  // ---------------------------------------------------------------- the order of listings

  /** How SQL orders stored instants: by their texts, so any two compare and ties are an equivalence. */
  ghost predicate TextOrder(later: Later) {
    && (forall a, b :: later(a, b) ==> !later(b, a))
    && (forall a, b, c :: later(a, c) ==> later(a, b) || later(b, c))
  }

  /** The order that a way of writing instants as text induces. */
  function TextLater(text: int -> string): Later {
    (a, b) => Less(text(b), text(a))
  }

  /** Every way of writing instants gives such an order. */
  lemma TextsAreOrdered(text: int -> string)
    ensures TextOrder(TextLater(text))
  {
    var later := TextLater(text);
    hide Less;
    forall a, b | later(a, b) ensures !later(b, a) {
      LessTotal(text(a), text(b));
    }
    forall a, b, c | later(a, c) ensures later(a, b) || later(b, c) {
      LessTotal(text(b), text(a));
      LessTotal(text(c), text(b));
      if Less(text(a), text(b)) && Less(text(c), text(a)) {
        LessTransitive(text(c), text(a), text(b));
      }
    }
  }

  type Precedes = (Grant, Grant) -> bool

  /** ORDER BY issued_at ASC, with ties in any order. */
  function Older(later: Later): Precedes {
    (g: Grant, h: Grant) => later(h.issuedAt, g.issuedAt)
  }

  /** ORDER BY issued_at DESC, id DESC. */
  function NewestFirst(later: Later): Precedes {
    (g: Grant, h: Grant) => later(g.issuedAt, h.issuedAt) || (!later(h.issuedAt, g.issuedAt) && g.id > h.id)
  }

  ghost predicate WeakOrder(before: Precedes) {
    && (forall g, h :: before(g, h) ==> !before(h, g))
    && (forall f, g, h :: before(f, h) ==> before(f, g) || before(g, h))
  }

  lemma OldestFirstOrders(later: Later)
    requires TextOrder(later)
    ensures WeakOrder(Older(later))
  {
  }

  lemma NewestFirstOrders(later: Later)
    requires TextOrder(later)
    ensures WeakOrder(NewestFirst(later))
  {
    var before := NewestFirst(later);
    forall f, g, h | before(f, h) ensures before(f, g) || before(g, h) {
      assert later(f.issuedAt, h.issuedAt) ==> later(f.issuedAt, g.issuedAt) || later(g.issuedAt, h.issuedAt);
      assert later(g.issuedAt, f.issuedAt) ==> later(g.issuedAt, h.issuedAt) || later(h.issuedAt, f.issuedAt);
      assert later(h.issuedAt, g.issuedAt) ==> later(h.issuedAt, f.issuedAt) || later(f.issuedAt, g.issuedAt);
    }
  }

  predicate Sorted(before: Precedes, rows: seq<Grant>) {
    forall i, j :: 0 <= i < j < |rows| ==> !before(rows[j], rows[i])
  }

  /** Puts a row before the first that does not precede it. */
  function InsertBy(before: Precedes, g: Grant, rows: seq<Grant>): seq<Grant> {
    if rows == [] || !before(rows[0], g) then [g] + rows else [rows[0]] + InsertBy(before, g, rows[1..])
  }

  function SortBy(before: Precedes, rows: seq<Grant>): seq<Grant> {
    if rows == [] then [] else InsertBy(before, rows[0], SortBy(before, rows[1..]))
  }

  lemma {:induction false} InsertHas(before: Precedes, g: Grant, rows: seq<Grant>)
    ensures |InsertBy(before, g, rows)| == |rows| + 1
    ensures forall x :: x in InsertBy(before, g, rows) <==> x == g || x in rows
  {
    if rows != [] && before(rows[0], g) {
      InsertHas(before, g, rows[1..]);
      assert rows == [rows[0]] + rows[1..];
    }
  }

  lemma NotBefore(before: Precedes, f: Grant, g: Grant, h: Grant)
    requires WeakOrder(before) && !before(f, g) && !before(g, h)
    ensures !before(f, h)
  {
  }

  lemma {:induction false} InsertSorts(before: Precedes, g: Grant, rows: seq<Grant>)
    requires WeakOrder(before) && Sorted(before, rows)
    ensures Sorted(before, InsertBy(before, g, rows))
  {
    var r := InsertBy(before, g, rows);
    if rows != [] && before(rows[0], g) {
      var rest := InsertBy(before, g, rows[1..]);
      InsertSorts(before, g, rows[1..]);
      InsertHas(before, g, rows[1..]);
      assert r == [rows[0]] + rest;
      forall x | x in rest ensures !before(x, rows[0]) {
        if x != g {
          var i :| 0 <= i < |rows[1..]| && rows[1..][i] == x;
          assert rows[i + 1] == x;
        }
      }
    } else {
      assert r == [g] + rows;
      forall j | 0 < j < |rows| ensures !before(rows[j], g) {
        NotBefore(before, rows[j], rows[0], g);
      }
    }
  }

  /** Sorting keeps the rows and puts them in order. */
  lemma {:induction false} SortSorts(before: Precedes, rows: seq<Grant>)
    requires WeakOrder(before)
    ensures Sorted(before, SortBy(before, rows)) && |SortBy(before, rows)| == |rows|
    ensures forall x :: x in SortBy(before, rows) <==> x in rows
  {
    hide Sorted, WeakOrder, InsertBy;
    if rows == [] {
      assert SortBy(before, rows) == [];
      NoneSorted(before);
    } else {
      SortSorts(before, rows[1..]);
      InsertSorts(before, rows[0], SortBy(before, rows[1..]));
      InsertHas(before, rows[0], SortBy(before, rows[1..]));
      assert rows == [rows[0]] + rows[1..];
    }
  }

  lemma NoneSorted(before: Precedes)
    ensures Sorted(before, [])
  {
  }

  predicate Distinct(rows: seq<Grant>) {
    forall i, j :: 0 <= i < j < |rows| ==> rows[i] != rows[j]
  }

  lemma {:induction false} InsertDistinct(before: Precedes, g: Grant, rows: seq<Grant>)
    requires Distinct(rows) && g !in rows
    ensures Distinct(InsertBy(before, g, rows))
  {
    if rows != [] && before(rows[0], g) {
      var rest := InsertBy(before, g, rows[1..]);
      InsertDistinct(before, g, rows[1..]);
      InsertHas(before, g, rows[1..]);
      forall x | x in rest ensures x != rows[0] {
        if x != g {
          var i :| 0 <= i < |rows[1..]| && rows[1..][i] == x;
          assert rows[i + 1] == x;
        }
      }
      DistinctCons(rows[0], rest);
      assert InsertBy(before, g, rows) == [rows[0]] + rest;
    } else {
      DistinctCons(g, rows);
    }
  }

  lemma DistinctCons(g: Grant, rows: seq<Grant>)
    requires Distinct(rows) && g !in rows
    ensures Distinct([g] + rows)
  {
    var r := [g] + rows;
    forall i, j | 0 <= i < j < |r| ensures r[i] != r[j] {
      assert r[j] == rows[j - 1];
      assert i > 0 ==> r[i] == rows[i - 1];
    }
  }

  lemma {:induction false} SortDistinct(before: Precedes, rows: seq<Grant>)
    requires WeakOrder(before) && Distinct(rows)
    ensures Distinct(SortBy(before, rows))
  {
    hide WeakOrder, InsertBy;
    if rows != [] {
      SortDistinct(before, rows[1..]);
      SortSorts(before, rows[1..]);
      assert rows[0] !in rows[1..] by {
        forall i | 0 <= i < |rows[1..]| ensures rows[1..][i] != rows[0] {
          assert rows[i + 1] == rows[1..][i];
        }
      }
      hide Distinct, SortBy;
      SortUnfolds(before, rows);
      InsertDistinct(before, rows[0], SortBy(before, rows[1..]));
    }
  }

  lemma SortUnfolds(before: Precedes, rows: seq<Grant>)
    requires rows != []
    ensures SortBy(before, rows) == InsertBy(before, rows[0], SortBy(before, rows[1..]))
  {
  }

  // ---------------------------------------------------------------- allow or ask

  /** A listing the query may yield: each grant once, by the text of its issue time, ties in any order. */
  ghost predicate ListingOf(later: Later, listing: seq<Grant>, grants: set<Grant>) {
    (forall g :: g in listing <==> g in grants) && Distinct(listing) && Sorted(Older(later), listing)
  }

  /** A matching grant with the least issue text among the matching ones. */
  predicate LeastMatch(env: Env, c: Capability, later: Later, grants: set<Grant>, attempt: Scope, g: Grant) {
    && g in grants && Matches(env, c, g, attempt)
    && forall h | h in grants && Matches(env, c, h, attempt) :: !later(g.issuedAt, h.issuedAt)
  }

  /** The grant that decides has the least issue text among the matching ones, whichever listing was yielded. */
  lemma LeastDecides(env: Env, c: Capability, later: Later, listing: seq<Grant>, grants: set<Grant>, attempt: Scope)
    requires ListingOf(later, listing, grants) && FirstMatch(env, c, listing, attempt).Some?
    requires forall a :: !later(a, a)
    ensures LeastMatch(env, c, later, grants, attempt, FirstMatch(env, c, listing, attempt).value)
  {
    hide Matches, Distinct;
    FirstMatchIs(env, c, listing, attempt);
    var g := FirstMatch(env, c, listing, attempt).value;
    hide FirstMatch;
    var i :| 0 <= i < |listing| && listing[i] == g && Matches(env, c, listing[i], attempt)
             && forall j :: 0 <= j < i ==> !Matches(env, c, listing[j], attempt);
    forall h | h in grants && Matches(env, c, h, attempt) ensures !later(g.issuedAt, h.issuedAt) {
      var j :| 0 <= j < |listing| && listing[j] == h;
      assert j >= i;
    }
  }

  lemma {:induction false} SomeRows(grants: set<Grant>) returns (rows: seq<Grant>)
    ensures Distinct(rows) && forall g :: g in rows <==> g in grants
    decreases |grants|
  {
    if grants == {} {
      rows := [];
    } else {
      var g :| g in grants;
      var rest := SomeRows(grants - {g});
      rows := [g] + rest;
    }
  }

  lemma {:induction false} InsertedDecides(env: Env, c: Capability, later: Later, g: Grant, rows: seq<Grant>, attempt: Scope)
    requires Matches(env, c, g, attempt)
    requires forall h :: h in rows && Matches(env, c, h, attempt) ==> !later(g.issuedAt, h.issuedAt)
    ensures FirstMatch(env, c, InsertBy(Older(later), g, rows), attempt) == Some(g)
  {
    hide Matches;
    var r := InsertBy(Older(later), g, rows);
    if rows != [] && Older(later)(rows[0], g) {
      InsertedDecides(env, c, later, g, rows[1..], attempt);
      assert rows[0] in rows;
      assert r[0] == rows[0] && r[1..] == InsertBy(Older(later), g, rows[1..]);
    } else {
      assert r[0] == g;
    }
  }

  /** Every matching grant with the least issue text decides in some listing the query may yield. */
  lemma LeastMayDecide(env: Env, c: Capability, later: Later, grants: set<Grant>, attempt: Scope, g: Grant) returns (listing: seq<Grant>)
    requires TextOrder(later) && LeastMatch(env, c, later, grants, attempt, g)
    ensures ListingOf(later, listing, grants) && FirstMatch(env, c, listing, attempt) == Some(g)
  {
    hide Matches, FirstMatch, Distinct, Sorted, InsertBy, SortBy, Older, WeakOrder, TextOrder;
    OldestFirstOrders(later);
    var rest := SomeRows(grants - {g});
    var rows := SortBy(Older(later), rest);
    SortSorts(Older(later), rest);
    SortDistinct(Older(later), rest);
    listing := InsertBy(Older(later), g, rows);
    InsertHas(Older(later), g, rows);
    InsertSorts(Older(later), g, rows);
    InsertDistinct(Older(later), g, rows);
    InsertedDecides(env, c, later, g, rows, attempt);
  }

  /** Whatever two orders make of a set of grants, the kind of decision is the same. */
  ghost predicate SameKind(env: Env, c: Capability, first: Later, second: Later, grants: set<Grant>, attempt: Scope) {
    forall a, b :: ListingOf(first, a, grants) && ListingOf(second, b, grants) ==>
      && Decide(env, c, a, attempt).Deny? == Decide(env, c, b, attempt).Deny?
      && Decide(env, c, a, attempt).Allow? == Decide(env, c, b, attempt).Allow?
  }

  /** The matching grants that are least by one order and those that are least by the other agree on asking. */
  predicate LeastAgree(env: Env, c: Capability, first: Later, second: Later, grants: set<Grant>, attempt: Scope) {
    forall g, h | g in grants && h in grants
                  && LeastMatch(env, c, first, grants, attempt, g) && LeastMatch(env, c, second, grants, attempt, h) ::
      (c.defaultApproval || g.requiresApproval) == (c.defaultApproval || h.requiresApproval)
  }

  /**
   * Ordering grants one way or another, with ties broken in any way, makes no difference to the kind of
   * decision if and only if the matching grants least by the one and those least by the other agree on asking.
   */
  lemma OrdersAgreeExactly(env: Env, c: Capability, first: Later, second: Later, grants: set<Grant>, attempt: Scope)
    requires TextOrder(first) && TextOrder(second)
    ensures SameKind(env, c, first, second, grants, attempt) <==> LeastAgree(env, c, first, second, grants, attempt)
  {
    hide LeastMatch, ListingOf, TextOrder, FirstMatch;
    if LeastAgree(env, c, first, second, grants, attempt) {
      forall a, b | ListingOf(first, a, grants) && ListingOf(second, b, grants)
        ensures && Decide(env, c, a, attempt).Deny? == Decide(env, c, b, attempt).Deny?
                && Decide(env, c, a, attempt).Allow? == Decide(env, c, b, attempt).Allow?
      {
        AgreeingDecide(env, c, first, second, grants, a, b, attempt);
      }
    } else {
      var g, h :| g in grants && h in grants && LeastMatch(env, c, first, grants, attempt, g)
                  && LeastMatch(env, c, second, grants, attempt, h)
                  && (c.defaultApproval || g.requiresApproval) != (c.defaultApproval || h.requiresApproval);
      var a := LeastMayDecide(env, c, first, grants, attempt, g);
      var b := LeastMayDecide(env, c, second, grants, attempt, h);
      assert Decide(env, c, a, attempt).Allow? != Decide(env, c, b, attempt).Allow?;
    }
  }

  lemma AgreeingDecide(env: Env, c: Capability, first: Later, second: Later, grants: set<Grant>, a: seq<Grant>, b: seq<Grant>,
                       attempt: Scope)
    requires TextOrder(first) && TextOrder(second) && LeastAgree(env, c, first, second, grants, attempt)
    requires ListingOf(first, a, grants) && ListingOf(second, b, grants)
    ensures Decide(env, c, a, attempt).Deny? == Decide(env, c, b, attempt).Deny?
    ensures Decide(env, c, a, attempt).Allow? == Decide(env, c, b, attempt).Allow?
  {
    hide Matches, FirstMatch, Sorted, Distinct;
    DeniedIffNoMatch(env, c, a, attempt);
    DeniedIffNoMatch(env, c, b, attempt);
    if FirstMatch(env, c, a, attempt).Some? && FirstMatch(env, c, b, attempt).Some? {
      LeastDecides(env, c, first, a, grants, attempt);
      LeastDecides(env, c, second, b, grants, attempt);
      hide LeastMatch, TextOrder, ListingOf;
      var g, h := FirstMatch(env, c, a, attempt).value, FirstMatch(env, c, b, attempt).value;
      InGrants(env, c, first, grants, attempt, g);
      InGrants(env, c, second, grants, attempt, h);
    }
  }

  /**
   * How ties of issue texts are broken makes no difference to whether the user is asked if and only if the
   * matching grants with the least issue text agree on asking.
   */
  lemma TiesMatterExactly(env: Env, c: Capability, later: Later, grants: set<Grant>, attempt: Scope)
    requires TextOrder(later)
    ensures (forall a, b :: ListingOf(later, a, grants) && ListingOf(later, b, grants) ==>
               Decide(env, c, a, attempt).Allow? == Decide(env, c, b, attempt).Allow?)
            <==> LeastAgree(env, c, later, later, grants, attempt)
  {
    hide LeastAgree, ListingOf, Matches, FirstMatch, TextOrder;
    OrdersAgreeExactly(env, c, later, later, grants, attempt);
    if forall a, b :: ListingOf(later, a, grants) && ListingOf(later, b, grants) ==>
         Decide(env, c, a, attempt).Allow? == Decide(env, c, b, attempt).Allow?
    {
      forall a, b | ListingOf(later, a, grants) && ListingOf(later, b, grants)
        ensures Decide(env, c, a, attempt).Deny? == Decide(env, c, b, attempt).Deny?
      {
        SameRowsDeny(env, c, later, grants, a, b, attempt);
      }
      hide Decide;
    }
  }

  lemma SameRowsDeny(env: Env, c: Capability, later: Later, grants: set<Grant>, a: seq<Grant>, b: seq<Grant>, attempt: Scope)
    requires ListingOf(later, a, grants) && ListingOf(later, b, grants)
    ensures Decide(env, c, a, attempt).Deny? == Decide(env, c, b, attempt).Deny?
  {
    hide Matches, FirstMatch, Sorted, Distinct;
    DeniedIffNoMatch(env, c, a, attempt);
    DeniedIffNoMatch(env, c, b, attempt);
  }

  lemma InGrants(env: Env, c: Capability, later: Later, grants: set<Grant>, attempt: Scope, g: Grant)
    requires LeastMatch(env, c, later, grants, attempt, g)
    ensures g in grants
  {
  }

  // ---------------------------------------------------------------- instants and their texts

  /** Instants ordered as such. */
  const CHRONOLOGICAL: Later := (expires, now) => now < expires

  lemma InstantsAreOrdered()
    ensures TextOrder(CHRONOLOGICAL)
  {
  }

  /**
   * However instants are written, walking grants in the order of the texts of their issue times decides in the
   * same kind as walking them in the order of issue if and only if the matching grants first by text and those
   * first by time agree on asking.
   */
  lemma IssueOrderExactly(env: Env, c: Capability, text: int -> string, grants: set<Grant>, attempt: Scope)
    ensures SameKind(env, c, TextLater(text), CHRONOLOGICAL, grants, attempt)
            <==> LeastAgree(env, c, TextLater(text), CHRONOLOGICAL, grants, attempt)
  {
    hide SameKind, LeastAgree, TextOrder;
    TextsAreOrdered(text);
    InstantsAreOrdered();
    OrdersAgreeExactly(env, c, TextLater(text), CHRONOLOGICAL, grants, attempt);
  }

  /** A fraction of a second, in hundredths, as RFC3339Nano ends a timestamp: without trailing zeros. */
  function FractionText(hundredths: int): string {
    var tens, ones := hundredths / 10 % 10, hundredths % 10;
    if tens == 0 && ones == 0 then "00Z"
    else if ones == 0 then "00." + [Digit(tens)] + "Z"
    else "00." + [Digit(tens), Digit(ones)] + "Z"
  }

  /** The text of .3 s sorts after those of .31 s and .35 s. */
  lemma FractionsMisorder()
    ensures var later := TextLater(FractionText);
            later(30, 31) && !later(31, 30) && !later(35, 30) && later(35, 31)
  {
    assert FractionText(30) == "00.3Z" && FractionText(31) == "00.31Z" && FractionText(35) == "00.35Z";
    FractionLess("00.", "31Z", "3Z");
    FractionLess("00.", "35Z", "3Z");
    FractionLess("00.", "31Z", "35Z");
    assert Less("1Z", "Z") && Less("5Z", "Z") && Less("1Z", "5Z");
    assert "00." + "3Z" == "00.3Z" && "00." + "31Z" == "00.31Z" && "00." + "35Z" == "00.35Z";
    assert "31Z"[1..] == "1Z" && "35Z"[1..] == "5Z" && "3Z"[1..] == "Z";
    LessTotal("00.3Z", "00.31Z");
    LessTotal("00.3Z", "00.35Z");
  }

  lemma {:induction false} FractionLess(head: string, a: string, b: string)
    ensures Less(head + a, head + b) <==> Less(a, b)
  {
    if head == "" {
      assert head + a == a && head + b == b;
    } else {
      FractionLess(head[1..], a, b);
      assert (head + a)[1..] == head[1..] + a && (head + b)[1..] == head[1..] + b;
    }
  }

  /** A grant that may allow, issued at .3 s, and one that asks the user, issued at .31 s. */
  function FractionGrant(asks: bool): Grant {
    Grant(if asks then 2 else 1, Principal(ClientPrincipal, "cli-a"), "files.read", map[], asks,
          if asks then 31 else 30, None, None)
  }

  function ReadFiles(): Capability {
    Capability("files.read", "files", "inbound", "", false, map[])
  }

  /** Where the texts of issue times sort otherwise than the times, the grant issued later decides. */
  lemma TextOrderMatters(env: Env)
    ensures exists c, grants, attempt, byTime, byText ::
              && ListingOf(CHRONOLOGICAL, byTime, grants) && ListingOf(TextLater(FractionText), byText, grants)
              && Decide(env, c, byTime, attempt) == Allow(1) && Decide(env, c, byText, attempt) == NeedsApproval(2)
  {
    FractionsMisorder();
    hide FractionText, Less;
    var g, h := FractionGrant(false), FractionGrant(true);
    assert g.issuedAt == 30 && h.issuedAt == 31;
    assert ListingOf(CHRONOLOGICAL, [g, h], {g, h});
    assert ListingOf(TextLater(FractionText), [h, g], {g, h});
    SampleMatches(env, g);
    SampleMatches(env, h);
    hide Matches, ListingOf;
    assert Decide(env, ReadFiles(), [g, h], map[]) == Allow(1);
    assert Decide(env, ReadFiles(), [h, g], map[]) == NeedsApproval(2);
  }

  lemma SampleMatches(env: Env, g: Grant)
    ensures Matches(env, ReadFiles(), g, map[])
  {
  }
}
