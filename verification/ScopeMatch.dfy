/**
 * Scope matching (runtime/internal/permission/match.go): eight primitives over decoded JSON values, and the
 * scan of a schema whose fields come in no particular order. Glob matching and time parsing are parameters.
 */
module ScopeMatch {
  import opened Wrappers

  /** A scope value as decoding or Go code can produce it. */
  datatype Value =
    | Nil
    | Str(text: string)
    | StrList(strings: seq<string>)
    | AnyList(values: seq<Value>)
    | Dict(entries: map<string, Value>)
    | Instant(time: int)
    | OtherValue

  datatype Primitive = Equals | GlobList | Prefix | SetIntersect | SetSubset | SetExcludes | RangeIncludes | SenderGlob | Unknown

  /** path.Match (false on a bad pattern) and the two RFC 3339 parses. */
  datatype Env = Env(glob: (string, string) -> bool, parseTime: string -> Option<int>)

  type Scope = map<string, Value>
  type Schema = map<string, Primitive>

  // ---------------------------------------------------------------- decoding values

  /** The strings of a list, unless one of its items is not a string. */
  function AllStrings(values: seq<Value>): Option<seq<string>> {
    if values == [] then Some([])
    else if !values[0].Str? then None
    else
      match AllStrings(values[1..])
      case Some(rest) => Some([values[0].text] + rest)
      case None => None
  }

  function AsStringList(v: Value): Option<seq<string>> {
    match v
    case StrList(strings) => Some(strings)
    case AnyList(values) => AllStrings(values)
    case _ => None
  }

  /** A list, or a single string taken as a list of one. */
  function AsStrings(v: Value): Option<seq<string>> {
    if AsStringList(v).Some? then AsStringList(v)
    else if v.Str? then Some([v.text])
    else None
  }

  function AsTime(env: Env, v: Value): Option<int> {
    match v
    case Instant(t) => Some(t)
    case Str(s) => env.parseTime(s)
    case _ => None
  }

  /** A bound of a range; one that is missing or does not parse is no bound. */
  function Bound(env: Env, v: Value, name: string): Option<int> {
    if v.Dict? && name in v.entries then AsTime(env, v.entries[name]) else None
  }

  // ---------------------------------------------------------------- what matches

  predicate Shares(a: seq<string>, b: seq<string>) {
    exists x :: x in a && x in b
  }

  predicate Within(a: seq<string>, b: seq<string>) {
    forall x :: x in a ==> x in b
  }

  predicate AnyGlob(env: Env, globs: seq<string>, text: string) {
    exists g :: g in globs && env.glob(g, text)
  }

  predicate InRange(since: Option<int>, until: Option<int>, t: int) {
    (since.Some? ==> since.value <= t) && (until.Some? ==> t <= until.value)
  }

  predicate ValueMatches(env: Env, p: Primitive, scope: Value, attempt: Value) {
    match p
    case Equals => scope.Str? && attempt == scope
    case GlobList => AsStrings(scope).Some? && attempt.Str? && AnyGlob(env, AsStrings(scope).value, attempt.text)
    case Prefix => scope.Str? && attempt.Str? && scope.text <= attempt.text
    case SetIntersect =>
      AsStringList(scope).Some? && AsStrings(attempt).Some? && Shares(AsStringList(scope).value, AsStrings(attempt).value)
    case SetSubset =>
      AsStringList(scope).Some? && AsStrings(attempt).Some? && Within(AsStrings(attempt).value, AsStringList(scope).value)
    case SetExcludes =>
      AsStringList(scope).Some? && AsStrings(attempt).Some? && !Shares(AsStringList(scope).value, AsStrings(attempt).value)
    case RangeIncludes =>
      AsTime(env, attempt).Some?
      && InRange(Bound(env, scope, "since"), Bound(env, scope, "until"), AsTime(env, attempt).value)
    case SenderGlob => scope.Str? && attempt.Str? && env.glob(scope.text, attempt.text)
    case Unknown => false
  }

  /** Every dimension the scope constrains is attempted, with a value that matches. */
  predicate ScopeMatches(env: Env, schema: Schema, scope: Scope, attempt: Scope) {
    forall f | f in schema && f in scope :: f in attempt && ValueMatches(env, schema[f], scope[f], attempt[f])
  }

  // ---------------------------------------------------------------- what the primitives mean

  /** A list of strings, or one whose items are all strings. */
  predicate IsList(v: Value) {
    v.StrList? || (v.AnyList? && forall x | x in v.values :: x.Str?)
  }

  predicate Lists(v: Value, text: string) {
    IsList(v) && if v.StrList? then text in v.strings else Str(text) in v.values
  }

  predicate ListsOrIs(v: Value, text: string) {
    Lists(v, text) || v == Str(text)
  }

  /** The value is an instant, or a text that parses as it. */
  predicate TellsTime(env: Env, v: Value, t: int) {
    v == Instant(t) || (v.Str? && env.parseTime(v.text) == Some(t))
  }

  lemma {:induction false} AllStringsIs(values: seq<Value>)
    ensures AllStrings(values).Some? <==> forall x | x in values :: x.Str?
    ensures AllStrings(values).Some? ==> forall text :: text in AllStrings(values).value <==> Str(text) in values
  {
    if values != [] {
      AllStringsIs(values[1..]);
      assert values == [values[0]] + values[1..];
    }
  }

  lemma ListIs(v: Value)
    ensures AsStringList(v).Some? <==> IsList(v)
    ensures AsStringList(v).Some? ==> forall text :: text in AsStringList(v).value <==> Lists(v, text)
    ensures AsStrings(v).Some? <==> IsList(v) || v.Str?
    ensures AsStrings(v).Some? ==> forall text :: text in AsStrings(v).value <==> ListsOrIs(v, text)
    ensures forall text :: (Lists(v, text) ==> IsList(v)) && (ListsOrIs(v, text) ==> IsList(v) || v.Str?)
  {
    if v.AnyList? {
      AllStringsIs(v.values);
    }
    hide AllStrings;
  }

  lemma TimeIs(env: Env, v: Value, t: int)
    ensures AsTime(env, v) == Some(t) <==> TellsTime(env, v, t)
  {
  }

  /** When an attempted value matches a scope's, primitive by primitive, by the texts and instants that the two hold. */
  lemma MatchesExactly(env: Env, p: Primitive, scope: Value, attempt: Value)
    ensures var m := ValueMatches(env, p, scope, attempt);
            match p
            case Equals => m <==> scope.Str? && attempt.Str? && scope.text == attempt.text
            case GlobList => m <==> attempt.Str? && exists g :: ListsOrIs(scope, g) && env.glob(g, attempt.text)
            case Prefix => m <==> scope.Str? && attempt.Str? && |scope.text| <= |attempt.text| && attempt.text[..|scope.text|] == scope.text
            case SetIntersect => m <==> exists x :: Lists(scope, x) && ListsOrIs(attempt, x)
            case SetSubset =>
              m <==> IsList(scope) && (IsList(attempt) || attempt.Str?) && forall x :: ListsOrIs(attempt, x) ==> Lists(scope, x)
            case SetExcludes =>
              m <==> IsList(scope) && (IsList(attempt) || attempt.Str?) && forall x :: ListsOrIs(attempt, x) ==> !Lists(scope, x)
            case RangeIncludes =>
              m <==> exists t ::
                       && TellsTime(env, attempt, t)
                       && (forall b :: scope.Dict? && "since" in scope.entries && TellsTime(env, scope.entries["since"], b) ==> b <= t)
                       && (forall b :: scope.Dict? && "until" in scope.entries && TellsTime(env, scope.entries["until"], b) ==> t <= b)
            case SenderGlob => m <==> scope.Str? && attempt.Str? && env.glob(scope.text, attempt.text)
            case Unknown => !m
  {
    if p.RangeIncludes? {
      RangeExactly(env, scope, attempt);
      hide *;
    } else {
      ListIs(scope);
      ListIs(attempt);
      hide AsStringList, AsStrings, Lists, ListsOrIs, IsList;
    }
  }

  lemma RangeExactly(env: Env, scope: Value, attempt: Value)
    ensures ValueMatches(env, RangeIncludes, scope, attempt) <==>
            exists t ::
              && TellsTime(env, attempt, t)
              && (forall b :: scope.Dict? && "since" in scope.entries && TellsTime(env, scope.entries["since"], b) ==> b <= t)
              && (forall b :: scope.Dict? && "until" in scope.entries && TellsTime(env, scope.entries["until"], b) ==> t <= b)
  {
    hide AsTime, TellsTime;
    forall v, t ensures AsTime(env, v) == Some(t) <==> TellsTime(env, v, t) {
      TimeIs(env, v, t);
    }
    if ValueMatches(env, RangeIncludes, scope, attempt) {
      assert TellsTime(env, attempt, AsTime(env, attempt).value);
    }
  }

  // ---------------------------------------------------------------- the loops

  /** A list put before one still to be decoded. */
  function After(out: seq<string>, rest: Option<seq<string>>): Option<seq<string>> {
    if rest.Some? then Some(out + rest.value) else None
  }

  lemma AfterStep(out: seq<string>, text: string, rest: Option<seq<string>>)
    ensures After(out, After([text], rest)) == After(out + [text], rest)
  {
    if rest.Some? {
      assert out + ([text] + rest.value) == (out + [text]) + rest.value;
    }
  }

  lemma AfterEnds(out: seq<string>, rest: Option<seq<string>>)
    ensures After([], rest) == rest && After(out, Some([])) == Some(out)
  {
    assert out + [] == out;
    if rest.Some? {
      assert [] + rest.value == rest.value;
    }
  }

  method ListOf(v: Value) returns (r: Option<seq<string>>)
    ensures r == AsStringList(v)
  {
    match v {
      case StrList(strings) => return Some(strings);
      case AnyList(values) =>
        var out: seq<string> := [];
        assert values[0..] == values;
        AfterEnds([], AllStrings(values));
        for i := 0 to |values|
          invariant AllStrings(values) == After(out, AllStrings(values[i..]))
        {
          assert values[i..][0] == values[i] && values[i..][1..] == values[i + 1..];
          if !values[i].Str? {
            return None;
          }
          AfterStep(out, values[i].text, AllStrings(values[i + 1..]));
          out := out + [values[i].text];
        }
        assert values[|values|..] == [];
        AfterEnds(out, None);
        return Some(out);
      case _ => return None;
    }
  }

  /** A list or a single string. */
  method ListOrOne(v: Value) returns (r: Option<seq<string>>)
    ensures r == AsStrings(v)
  {
    r := ListOf(v);
    if r.None? && v.Str? {
      r := Some([v.text]);
    }
  }

  method HasIntersection(a: seq<string>, b: seq<string>) returns (r: bool)
    ensures r <==> Shares(a, b)
  {
    var members := set x | x in a;
    for i := 0 to |b|
      invariant forall j :: 0 <= j < i ==> b[j] !in a
    {
      if b[i] in members {
        return true;
      }
    }
    return false;
  }

  method IsSubset(attempt: seq<string>, allowed: seq<string>) returns (r: bool)
    ensures r <==> Within(attempt, allowed)
  {
    var members := set x | x in allowed;
    for i := 0 to |attempt|
      invariant forall j :: 0 <= j < i ==> attempt[j] in allowed
    {
      if attempt[i] !in members {
        return false;
      }
    }
    return true;
  }

  method MatchGlobs(env: Env, globs: seq<string>, text: string) returns (r: bool)
    ensures r <==> AnyGlob(env, globs, text)
  {
    for i := 0 to |globs|
      invariant forall j :: 0 <= j < i ==> !env.glob(globs[j], text)
    {
      if env.glob(globs[i], text) {
        return true;
      }
    }
    return false;
  }

  method MatchRange(env: Env, scope: Value, attempt: Value) returns (r: bool)
    ensures r <==> ValueMatches(env, RangeIncludes, scope, attempt)
  {
    var since, until := Bound(env, scope, "since"), Bound(env, scope, "until");
    var t := AsTime(env, attempt);
    if t.None? {
      return false;
    }
    if since.Some? && t.value < since.value {
      return false;
    }
    if until.Some? && t.value > until.value {
      return false;
    }
    return true;
  }

  method MatchSets(p: Primitive, env: Env, scope: Value, attempt: Value) returns (r: bool)
    requires p.SetIntersect? || p.SetSubset? || p.SetExcludes?
    ensures r <==> ValueMatches(env, p, scope, attempt)
  {
    var s := ListOf(scope);
    if s.None? {
      return false;
    }
    var a := ListOrOne(attempt);
    if a.None? {
      return false;
    }
    if p.SetSubset? {
      r := IsSubset(a.value, s.value);
    } else {
      r := HasIntersection(s.value, a.value);
      if p.SetExcludes? {
        r := !r;
      }
    }
  }

  method MatchValue(env: Env, p: Primitive, scope: Value, attempt: Value) returns (r: bool)
    ensures r <==> ValueMatches(env, p, scope, attempt)
  {
    match p {
      case Equals => return scope.Str? && attempt.Str? && scope.text == attempt.text;
      case GlobList =>
        var globs := ListOrOne(scope);
        if globs.None? || !attempt.Str? {
          return false;
        }
        r := MatchGlobs(env, globs.value, attempt.text);
      case Prefix => return scope.Str? && attempt.Str? && scope.text <= attempt.text;
      case RangeIncludes => r := MatchRange(env, scope, attempt);
      case SenderGlob => return scope.Str? && attempt.Str? && env.glob(scope.text, attempt.text);
      case Unknown => return false;
      case _ => r := MatchSets(p, env, scope, attempt);
    }
  }

  /** Visits the schema in any order: the answer does not depend on which, only the reason may. */
  method MatchScope(env: Env, schema: Schema, scope: Scope, attempt: Scope) returns (ok: bool, reason: string)
    ensures ok <==> ScopeMatches(env, schema, scope, attempt)
    ensures ok <==> forall f | f in schema && f in scope :: f in attempt && ValueMatches(env, schema[f], scope[f], attempt[f])
    ensures reason == "" <==> ok
  {
    hide ValueMatches;
    var todo := schema.Keys;
    while todo != {}
      invariant todo <= schema.Keys
      invariant forall f | f in schema && f !in todo && f in scope ::
                  f in attempt && ValueMatches(env, schema[f], scope[f], attempt[f])
    {
      var field :| field in todo;
      todo := todo - {field};
      if field in scope {
        if field !in attempt {
          return false, "attempt missing dimension " + field + " constrained by scope";
        }
        var matches := MatchValue(env, schema[field], scope[field], attempt[field]);
        if !matches {
          return false, "scope " + field + " rejects attempted value";
        }
      }
    }
    return true, "";
  }

  // ---------------------------------------------------------------- widening

  /** Accepts at least the instants that another pair of bounds accepts, bound by bound. */
  predicate Looser(a: Option<int>, b: Option<int>, lower: bool) {
    b.None? || (a.Some? && if lower then b.value <= a.value else a.value <= b.value)
  }

  /** wide constrains no more than narrow under a primitive, judged on the two values alone. */
  predicate Wider(env: Env, p: Primitive, narrow: Value, wide: Value) {
    match p
    case Equals => narrow.Str? ==> wide == narrow
    case GlobList =>
      AsStrings(narrow).Some? ==> AsStrings(wide).Some? && Within(AsStrings(narrow).value, AsStrings(wide).value)
    case Prefix => narrow.Str? ==> wide.Str? && wide.text <= narrow.text
    case SetIntersect =>
      AsStringList(narrow).Some? && AsStringList(narrow).value != [] ==>
        AsStringList(wide).Some? && Within(AsStringList(narrow).value, AsStringList(wide).value)
    case SetSubset =>
      AsStringList(narrow).Some? ==> AsStringList(wide).Some? && Within(AsStringList(narrow).value, AsStringList(wide).value)
    case SetExcludes =>
      AsStringList(narrow).Some? ==> AsStringList(wide).Some? && Within(AsStringList(wide).value, AsStringList(narrow).value)
    case RangeIncludes =>
      Looser(Bound(env, narrow, "since"), Bound(env, wide, "since"), true)
      && Looser(Bound(env, narrow, "until"), Bound(env, wide, "until"), false)
    case SenderGlob => narrow.Str? ==> wide == narrow
    case Unknown => true
  }

  /** A scope each of whose constraints is one of the other's, no tighter. */
  predicate ScopeWider(env: Env, schema: Schema, narrow: Scope, wide: Scope) {
    forall f | f in schema && f in wide :: f in narrow && Wider(env, schema[f], narrow[f], wide[f])
  }

  /** A wider value loses no match, under any of the primitives. */
  lemma WiderKeepsMatch(env: Env, p: Primitive, narrow: Value, wide: Value, attempt: Value)
    requires Wider(env, p, narrow, wide) && ValueMatches(env, p, narrow, attempt)
    ensures ValueMatches(env, p, wide, attempt)
  {
    hide AsStrings, AsStringList, AsTime, Bound;
    if p.GlobList? {
      var g :| g in AsStrings(narrow).value && env.glob(g, attempt.text);
      assert g in AsStrings(wide).value;
    } else if p.SetIntersect? {
      var x :| x in AsStringList(narrow).value && x in AsStrings(attempt).value;
      assert x in AsStringList(wide).value;
    }
  }

  lemma WiderScopeKeepsMatch(env: Env, schema: Schema, narrow: Scope, wide: Scope, attempt: Scope)
    requires ScopeWider(env, schema, narrow, wide) && ScopeMatches(env, schema, narrow, attempt)
    ensures ScopeMatches(env, schema, wide, attempt)
  {
    hide Wider, ValueMatches;
    forall f | f in schema && f in wide ensures f in attempt && ValueMatches(env, schema[f], wide[f], attempt[f]) {
      WiderKeepsMatch(env, schema[f], narrow[f], wide[f], attempt[f]);
    }
  }

  /** Every attempt one value matches, the other matches. */
  ghost predicate AcceptsAll(env: Env, p: Primitive, narrow: Value, wide: Value) {
    forall attempt :: ValueMatches(env, p, narrow, attempt) ==> ValueMatches(env, p, wide, attempt)
  }

  /** For five of the primitives the value test is exact: it fails only where some attempt would be lost. */
  lemma WiderIsExact(env: Env, p: Primitive, narrow: Value, wide: Value)
    requires p.Equals? || p.Prefix? || p.SetIntersect? || p.SetSubset? || p.SetExcludes?
    ensures Wider(env, p, narrow, wide) <==> AcceptsAll(env, p, narrow, wide)
  {
    hide AsStringList;
    if Wider(env, p, narrow, wide) {
      forall attempt | ValueMatches(env, p, narrow, attempt) ensures ValueMatches(env, p, wide, attempt) {
        WiderKeepsMatch(env, p, narrow, wide, attempt);
      }
    } else {
      var attempt := LostAttempt(env, p, narrow, wide);
    }
  }

  /** An attempt that a value not wider loses. */
  lemma LostAttempt(env: Env, p: Primitive, narrow: Value, wide: Value) returns (attempt: Value)
    requires p.Equals? || p.Prefix? || p.SetIntersect? || p.SetSubset? || p.SetExcludes?
    requires !Wider(env, p, narrow, wide)
    ensures ValueMatches(env, p, narrow, attempt) && !ValueMatches(env, p, wide, attempt)
  {
    if p.Equals? || p.Prefix? {
      attempt := narrow;
    } else {
      hide AllStrings;
      var a, b := AsStringList(narrow).value, AsStringList(wide);
      if b.None? {
        attempt := StrList(if p.SetIntersect? then [a[0]] else []);
      } else {
        var x :| if p.SetExcludes? then x in b.value && x !in a else x in a && x !in b.value;
        attempt := StrList([x]);
      }
      assert AsStrings(attempt) == Some(attempt.strings);
      if p.SetIntersect? {
        assert attempt.strings[0] in a && attempt.strings[0] in attempt.strings;
      } else if p.SetExcludes? && b.Some? {
        assert attempt.strings[0] in b.value && attempt.strings[0] in attempt.strings;
      } else if p.SetSubset? && b.Some? {
        assert attempt.strings[0] in attempt.strings;
      }
    }
  }

  /** A range with one of its members dropped. */
  function Without(scope: Value, name: string): Value {
    if scope.Dict? then Dict(scope.entries - {name}) else scope
  }

  /** Dropping a bound that does not parse never changes what a range matches; nor does it change the other bound. */
  lemma UnparsedBoundDrops(env: Env, scope: Value, name: string, attempt: Value)
    requires Bound(env, scope, name).None?
    ensures ValueMatches(env, RangeIncludes, Without(scope, name), attempt) == ValueMatches(env, RangeIncludes, scope, attempt)
  {
    hide AsTime;
    BoundOf(env, scope, name, "since");
    BoundOf(env, scope, name, "until");
  }

  lemma BoundOf(env: Env, scope: Value, name: string, other: string)
    ensures Bound(env, Without(scope, name), other) == if other == name then None else Bound(env, scope, other)
  {
    hide AsTime;
  }

  /** A range matches every attempt that carries an instant. */
  ghost predicate MatchesAllInstants(env: Env, scope: Value) {
    forall attempt :: AsTime(env, attempt).Some? ==> ValueMatches(env, RangeIncludes, scope, attempt)
  }

  /** A range constrains nothing if and only if neither of its bounds is there and parses. */
  lemma UnboundedExactly(env: Env, scope: Value)
    ensures MatchesAllInstants(env, scope) <==> Bound(env, scope, "since").None? && Bound(env, scope, "until").None?
  {
    hide Bound;
    if Bound(env, scope, "since").Some? {
      var early := Instant(Bound(env, scope, "since").value - 1);
      assert AsTime(env, early).Some? && !ValueMatches(env, RangeIncludes, scope, early);
    } else if Bound(env, scope, "until").Some? {
      var late := Instant(Bound(env, scope, "until").value + 1);
      assert AsTime(env, late).Some? && !ValueMatches(env, RangeIncludes, scope, late);
    }
  }

  /** The range test with the upper bound left out, as its documentation has it. */
  predicate ExclusiveRange(env: Env, scope: Value, attempt: Value) {
    && AsTime(env, attempt).Some?
    && (Bound(env, scope, "since").Some? ==> Bound(env, scope, "since").value <= AsTime(env, attempt).value)
    && (Bound(env, scope, "until").Some? ==> AsTime(env, attempt).value < Bound(env, scope, "until").value)
  }

  /**
   * The range test takes the upper bound as part of the range: for every range and attempt it agrees with the
   * exclusive test if and only if the attempt is not the instant of the upper bound, or the lower one rejects it.
   */
  lemma UntilIsInclusive(env: Env, scope: Value, attempt: Value)
    ensures ValueMatches(env, RangeIncludes, scope, attempt) == ExclusiveRange(env, scope, attempt) <==>
            || AsTime(env, attempt).None?
            || Bound(env, scope, "until") != AsTime(env, attempt)
            || (Bound(env, scope, "since").Some? && AsTime(env, attempt).value < Bound(env, scope, "since").value)
  {
    hide Bound, AsTime;
  }

  /** The upper bound of a range matches, and the next instant does not. */
  lemma UntilMatches(env: Env, until: int)
    ensures ValueMatches(env, RangeIncludes, Dict(map["until" := Instant(until)]), Instant(until))
    ensures !ValueMatches(env, RangeIncludes, Dict(map["until" := Instant(until)]), Instant(until + 1))
  {
    var range := map["until" := Instant(until)];
    assert "since"[0] == 's' && "until"[0] == 'u';
    assert "since" !in range && range["until"] == Instant(until);
  }
}
