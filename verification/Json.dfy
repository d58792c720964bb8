/**
 * JSON values and their text: the canonical printer of runtime/internal/audit/chain.go and a reader to
 * check it against. The reader follows RFC 8259 (sections 2 to 7); a name that occurs twice keeps its
 * last value and a lone surrogate escape reads as U+FFFD, as in encoding/json.
 *
 * A number is its literal text, as json.Number keeps it. Text is a sequence of Unicode scalar values.
 */
module Json {
  import opened Decimal
  import opened Hexadecimal
  import opened Strings

  datatype Json =
    | Null
    | Bool(b: bool)
    | Number(literal: string)
    | String(text: string)
    | Array(items: seq<Json>)
    | Object(members: map<string, Json>)

  // ---------------------------------------------------------------- key order

  /** Byte order of the UTF-8 encodings, which is the order of the scalar values. */
  predicate Less(a: string, b: string) {
    b != "" && (a == "" || a[0] < b[0] || (a[0] == b[0] && Less(a[1..], b[1..])))
  }

  predicate Increasing(keys: seq<string>) {
    forall i, j :: 0 <= i < j < |keys| ==> Less(keys[i], keys[j])
  }

  function KeySet(keys: seq<string>): (s: set<string>) {
    set k | k in keys
  }

  lemma {:induction false} LessTotal(a: string, b: string)
    ensures Less(a, b) || a == b || Less(b, a)
    ensures !(Less(a, b) && Less(b, a))
    ensures !Less(a, a)
  {
    if a != "" && b != "" && a[0] == b[0] {
      LessTotal(a[1..], b[1..]);
      assert a == [a[0]] + a[1..] && b == [b[0]] + b[1..];
    }
    if a != "" {
      LessTotal(a[1..], a[1..]);
    }
  }

  lemma {:induction false} LessTransitive(a: string, b: string, c: string)
    requires Less(a, b) && Less(b, c)
    ensures Less(a, c)
  {
    if a != "" && a[0] == b[0] == c[0] {
      LessTransitive(a[1..], b[1..], c[1..]);
    }
  }

  /** One text is less than another if it is a proper prefix of it or smaller at the first place where they differ. */
  lemma {:induction false} LessIs(a: string, b: string)
    ensures Less(a, b) <==>
            exists k :: 0 <= k <= |a| && k < |b| && a[..k] == b[..k] && (k == |a| || a[k] < b[k])
  {
    if a == "" || b == "" || a[0] != b[0] {
      if b != "" && (a == "" || a[0] < b[0]) {
        assert a[..0] == b[..0];
      }
      forall k | 0 < k <= |a| && k < |b| ensures a[..k] != b[..k] {
        assert a[..k][0] == a[0] && b[..k][0] == b[0];
      }
    } else {
      LessIs(a[1..], b[1..]);
      if Less(a, b) {
        var k :| 0 <= k <= |a[1..]| && k < |b[1..]| && a[1..][..k] == b[1..][..k] && (k == |a[1..]| || a[1..][k] < b[1..][k]);
        assert a[..k + 1] == [a[0]] + a[1..][..k] && b[..k + 1] == [b[0]] + b[1..][..k];
      }
      forall k | 0 < k <= |a| && k < |b| && a[..k] == b[..k] && (k == |a| || a[k] < b[k]) ensures Less(a, b) {
        assert a[1..][..k - 1] == a[..k][1..] && b[1..][..k - 1] == b[..k][1..];
        assert k < |a| ==> a[1..][k - 1] == a[k];
        assert b[1..][k - 1] == b[k];
      }
    }
  }

  lemma ConsKeys(k: string, keys: seq<string>)
    ensures KeySet([k] + keys) == {k} + KeySet(keys)
  {
    var all := [k] + keys;
    forall x | x in {k} + KeySet(keys) ensures x in KeySet(all) {
      if x == k {
        assert all[0] == k;
      } else {
        var i :| 0 <= i < |keys| && keys[i] == x;
        assert all[i + 1] == x;
      }
    }
  }

  lemma SomeKey(keys: seq<string>)
    requires keys != []
    ensures KeySet(keys) != {}
  {
    assert keys[0] in KeySet(keys);
  }

  /** One step of an insertion sort. */
  function Insert(k: string, keys: seq<string>): (r: seq<string>)
    requires Increasing(keys)
    ensures Increasing(r) && KeySet(r) == KeySet(keys) + {k}
  {
    if keys == [] then [k]
    else if k == keys[0] then keys
    else if Less(k, keys[0]) then
      ConsKeys(k, keys);
      assert forall j :: 1 <= j < |keys| ==> Less(k, keys[j]) by {
        forall j | 1 <= j < |keys| ensures Less(k, keys[j]) { LessTransitive(k, keys[0], keys[j]); }
      }
      [k] + keys
    else
      LessTotal(k, keys[0]);
      var rest := Insert(k, keys[1..]);
      assert forall j :: 0 <= j < |rest| ==> Less(keys[0], rest[j]) by {
        forall j | 0 <= j < |rest| ensures Less(keys[0], rest[j]) {
          assert rest[j] in KeySet(rest);
        }
      }
      ConsKeys(keys[0], keys[1..]);
      ConsKeys(keys[0], rest);
      assert keys == [keys[0]] + keys[1..];
      [keys[0]] + rest
  }

  /** sort.Strings on distinct keys. */
  function Sort(keys: seq<string>): (r: seq<string>)
    ensures Increasing(r) && KeySet(r) == KeySet(keys)
  {
    if keys == [] then [] else Insert(keys[0], Sort(keys[1..]))
  }

  /** The keys of an object in increasing order. */
  ghost function SortedKeys(s: set<string>): (r: seq<string>)
    ensures Increasing(r) && KeySet(r) == s
    decreases |s|
  {
    if s == {} then [] else var k :| k in s; Insert(k, SortedKeys(s - {k}))
  }

  /** A set of keys has one increasing listing. */
  lemma {:induction false} IncreasingUnique(a: seq<string>, b: seq<string>)
    requires Increasing(a) && Increasing(b) && KeySet(a) == KeySet(b)
    ensures a == b
  {
    if a == [] {
      if b != [] {
        SomeKey(b);
      }
    } else {
      SomeKey(a);
      assert a[0] in KeySet(a);
      assert b[0] in KeySet(b);
      LessTotal(a[0], b[0]);
      assert a[0] == b[0];
      assert KeySet(a[1..]) == KeySet(a) - {a[0]} by { TailKeys(a); }
      assert KeySet(b[1..]) == KeySet(b) - {b[0]} by { TailKeys(b); }
      IncreasingUnique(a[1..], b[1..]);
      assert a == [a[0]] + a[1..] && b == [b[0]] + b[1..];
    }
  }

  lemma TailKeys(a: seq<string>)
    requires Increasing(a) && a != []
    ensures KeySet(a[1..]) == KeySet(a) - {a[0]}
  {
    assert a == [a[0]] + a[1..];
    forall k | k in a[1..] ensures k != a[0] {
      LessTotal(a[0], a[0]);
    }
  }

  // ---------------------------------------------------------------- numbers

  predicate NumberChar(c: char) {
    IsDigit(c) || c in {'-', '+', '.', 'e', 'E'}
  }

  /** End of the run of digits that starts at i. */
  function DigitsEnd(s: string, i: nat): (e: nat)
    requires i <= |s|
    ensures i <= e <= |s|
    ensures forall k :: i <= k < e ==> IsDigit(s[k])
    decreases |s| - i
  {
    if i < |s| && IsDigit(s[i]) then DigitsEnd(s, i + 1) else i
  }

  /** End of the optional fraction at i; i itself when there is none or it is malformed. */
  function FractionEnd(s: string, i: nat): (e: nat)
    requires i <= |s|
    ensures i <= e <= |s|
    ensures forall k :: i <= k < e ==> NumberChar(s[k])
  {
    if At(s, i, '.') && DigitsEnd(s, i + 1) > i + 1 then DigitsEnd(s, i + 1) else i
  }

  function ExponentEnd(s: string, i: nat): (e: nat)
    requires i <= |s|
    ensures i <= e <= |s|
    ensures forall k :: i <= k < e ==> NumberChar(s[k])
  {
    if At(s, i, 'e') || At(s, i, 'E') then
      var j := if At(s, i + 1, '+') || At(s, i + 1, '-') then i + 2 else i + 1;
      if DigitsEnd(s, j) > j then DigitsEnd(s, j) else i
    else i
  }

  /** The number grammar of RFC 8259, section 6. */
  predicate IsNumber(s: string) {
    var a := if At(s, 0, '-') then 1 else 0;
    var b := DigitsEnd(s, a);
    && a < b
    && (s[a] == '0' ==> b == a + 1)
    && ExponentEnd(s, FractionEnd(s, b)) == |s|
  }

  lemma NumberChars(s: string)
    requires IsNumber(s)
    ensures s != "" && (s[0] == '-' || IsDigit(s[0]))
    ensures forall k :: 0 <= k < |s| ==> NumberChar(s[k])
  {
    var a := if At(s, 0, '-') then 1 else 0;
    var b := DigitsEnd(s, a);
    var c := FractionEnd(s, b);
    forall k | 0 <= k < |s| ensures NumberChar(s[k]) {
      assert k < a || a <= k < b || b <= k < c || c <= k < ExponentEnd(s, c);
    }
  }

  lemma {:induction false} AllDigitsEnd(s: string, i: nat)
    requires i <= |s| && forall k :: i <= k < |s| ==> IsDigit(s[k])
    ensures DigitsEnd(s, i) == |s|
    decreases |s| - i
  {
    if i < |s| {
      AllDigitsEnd(s, i + 1);
    }
  }

  lemma IntegerNumber(digits: string, literal: string)
    requires digits != "" && forall k :: 0 <= k < |digits| ==> IsDigit(digits[k])
    requires digits[0] == '0' ==> |digits| == 1
    requires literal == digits || literal == "-" + digits
    ensures IsNumber(literal)
  {
    var a := if At(literal, 0, '-') then 1 else 0;
    assert IsDigit(digits[0]);
    assert literal[a..] == digits;
    forall k | a <= k < |literal| ensures IsDigit(literal[k]) {
      assert literal[k] == digits[k - a];
    }
    AllDigitsEnd(literal, a);
    hide DigitsEnd;
    assert literal[a] == digits[0];
  }

  /** Values whose numbers are literals of the grammar. */
  predicate WellFormed(v: Json) {
    match v
    case Number(literal) => IsNumber(literal)
    case Array(items) => forall x | x in items :: WellFormed(x)
    case Object(members) => forall k | k in members :: WellFormed(members[k])
    case _ => true
  }

  // ---------------------------------------------------------------- printer

  function HexEscape(n: nat): string
    requires n < 0x10000
  {
    ['\\', 'u', HexDigit(n / 0x1000), HexDigit(n / 0x100 % 16), HexDigit(n / 16 % 16), HexDigit(n % 16)]
  }

  /** One character of a string literal, as encoding/json writes it (HTML characters escaped). */
  function Escape(c: char): string {
    if c == '\"' || c == '\\' then ['\\', c]
    else if c as int == 8 then "\\b"
    else if c as int == 12 then "\\f"
    else if c == '\n' then "\\n"
    else if c == '\r' then "\\r"
    else if c == '\t' then "\\t"
    else if c < ' ' || c in {'<', '>', '&'} || c as int in {0x2028, 0x2029} then HexEscape(c as int)
    else [c]
  }

  function EscapeAll(s: string): string {
    if s == "" then "" else Escape(s[0]) + EscapeAll(s[1..])
  }

  function Quote(s: string): string {
    "\"" + EscapeAll(s) + "\""
  }

  /** The canonical text of a value: keys sorted at every depth, no whitespace. */
  ghost function Print(v: Json): string
    decreases v, 1
  {
    match v
    case Null => "null"
    case Bool(b) => if b then "true" else "false"
    case Number(literal) => literal
    case String(text) => Quote(text)
    case Array(items) => "[" + PrintItems(v, 0)
    case Object(members) => "{" + PrintMembers(v, SortedKeys(members.Keys), 0)
  }

  /** The items of an array from i on, with the comma before and the bracket after. */
  ghost function PrintItems(v: Json, i: nat): string
    requires v.Array? && i <= |v.items|
    decreases v, 0, |v.items| - i
  {
    if i == |v.items| then "]"
    else Comma(i) + (Print(v.items[i]) + PrintItems(v, i + 1))
  }

  /** The members of an object in the given key order, from i on. */
  ghost function PrintMembers(v: Json, keys: seq<string>, i: nat): string
    requires v.Object? && KeySet(keys) <= v.members.Keys && i <= |keys|
    decreases v, 0, |keys| - i
  {
    if i == |keys| then "}"
    else
      assert keys[i] in KeySet(keys);
      Comma(i) + (Quote(keys[i]) + (":" + (Print(v.members[keys[i]]) + PrintMembers(v, keys, i + 1))))
  }

  function Comma(i: nat): string {
    if i > 0 then "," else ""
  }

  // ---------------------------------------------------------------- reader

  /** What reading one element leaves: the value and the text after it. */
  datatype Read<+T> = Got(value: T, rest: string) | Bad

  /** Four hexadecimal digits, or -1. */
  function HexUnit(s: string): (n: int)
    ensures n == -1 || (0 <= n < 0x10000 && |s| >= 4)
  {
    if |s| < 4 || HexValue(s[0]) < 0 || HexValue(s[1]) < 0 || HexValue(s[2]) < 0 || HexValue(s[3]) < 0 then -1
    else ((HexValue(s[0]) * 16 + HexValue(s[1])) * 16 + HexValue(s[2])) * 16 + HexValue(s[3])
  }

  const REPLACEMENT: char := '\U{FFFD}'

  /** The digits of a \u escape, with the second half of a surrogate pair when there is one. */
  function ReadUnicode(s: string): (r: Read<char>)
    ensures r.Got? ==> |r.rest| < |s|
  {
    var n := HexUnit(s);
    if n == -1 then Bad
    else if n < 0xD800 || n >= 0xE000 then Got(n as char, s[4..])
    else
      var low := if At(s, 4, '\\') && At(s, 5, 'u') then HexUnit(s[6..]) else -1;
      if n < 0xDC00 && 0xDC00 <= low < 0xE000
      then Got((0x10000 + (n - 0xD800) * 0x400 + (low - 0xDC00)) as char, s[10..])
      else Got(REPLACEMENT, s[4..])
  }

  /** One character of a string literal. */
  function ReadChar(s: string): (r: Read<char>)
    ensures r.Got? ==> |r.rest| < |s|
  {
    if s == "" || s[0] < ' ' || s[0] == '\"' then Bad
    else if s[0] != '\\' then Got(s[0], s[1..])
    else if |s| == 1 then Bad
    else
      match s[1]
      case '\"' => Got('\"', s[2..])
      case '\\' => Got('\\', s[2..])
      case '/' => Got('/', s[2..])
      case 'b' => Got(8 as char, s[2..])
      case 'f' => Got(12 as char, s[2..])
      case 'n' => Got('\n', s[2..])
      case 'r' => Got('\r', s[2..])
      case 't' => Got('\t', s[2..])
      case 'u' => ReadUnicode(s[2..])
      case _ => Bad
  }

  /** The characters of a string literal up to and including its closing quote. */
  function ReadChars(s: string): (r: Read<string>)
    ensures r.Got? ==> |r.rest| < |s|
    decreases |s|
  {
    if At(s, 0, '\"') then Got("", s[1..])
    else
      match ReadChar(s)
      case Bad => Bad
      case Got(c, rest) =>
        match ReadChars(rest)
        case Bad => Bad
        case Got(t, rest') => Got([c] + t, rest')
  }

  function NumberEnd(s: string, i: nat): (e: nat)
    requires i <= |s|
    ensures i <= e <= |s|
    decreases |s| - i
  {
    if i < |s| && NumberChar(s[i]) then NumberEnd(s, i + 1) else i
  }

  /** The longest run of number characters, when it is a number. */
  function ReadNumber(s: string): (r: Read<Json>)
    ensures r.Got? ==> |r.rest| < |s|
  {
    var e := NumberEnd(s, 0);
    if IsNumber(s[..e]) then NumberChars(s[..e]); Got(Number(s[..e]), s[e..]) else Bad
  }

  predicate Space(c: char) {
    c in {' ', '\t', '\n', '\r'}
  }

  /** The text after any insignificant whitespace. */
  function Skip(s: string): (t: string)
    ensures |t| <= |s|
  {
    if s != "" && Space(s[0]) then Skip(s[1..]) else s
  }

  function ReadValue(text: string): (r: Read<Json>)
    ensures r.Got? ==> |r.rest| < |text|
    decreases |text|, 0
  {
    var s := Skip(text);
    if s == "" then Bad
    else if s[0] == '\"' then
      match ReadChars(s[1..])
      case Bad => Bad
      case Got(t, rest) => Got(String(t), rest)
    else if s[0] == '[' then
      match ReadItems(s[1..], true)
      case Bad => Bad
      case Got(items, rest) => Got(Array(items), rest)
    else if s[0] == '{' then
      match ReadMembers(s[1..], true)
      case Bad => Bad
      case Got(members, rest) => Got(Object(members), rest)
    else if "null" <= s then Got(Null, s[4..])
    else if "true" <= s then Got(Bool(true), s[4..])
    else if "false" <= s then Got(Bool(false), s[5..])
    else ReadNumber(s)
  }

  /** The rest of an array; every item but the first follows a comma. */
  function ReadItems(text: string, first: bool): (r: Read<seq<Json>>)
    ensures r.Got? ==> |r.rest| < |text|
    decreases |text|, 1
  {
    var s := Skip(text);
    if At(s, 0, ']') then Got([], s[1..])
    else if !first && !At(s, 0, ',') then Bad
    else
      match ReadValue(if first then s else s[1..])
      case Bad => Bad
      case Got(v, rest) =>
        match ReadItems(rest, false)
        case Bad => Bad
        case Got(items, rest') => Got([v] + items, rest')
  }

  function ReadMembers(text: string, first: bool): (r: Read<map<string, Json>>)
    ensures r.Got? ==> |r.rest| < |text|
    decreases |text|, 1
  {
    var s := Skip(text);
    if At(s, 0, '}') then Got(map[], s[1..])
    else if !first && !At(s, 0, ',') then Bad
    else
      var t := if first then s else Skip(s[1..]);
      if !At(t, 0, '\"') then Bad
      else
        match ReadChars(t[1..])
        case Bad => Bad
        case Got(k, r0) =>
          var r1 := Skip(r0);
          if !At(r1, 0, ':') then Bad
          else
            match ReadValue(r1[1..])
            case Bad => Bad
            case Got(v, r2) =>
              match ReadMembers(r2, false)
              case Bad => Bad
              case Got(members, r3) => Got(map[k := v] + members, r3)
  }

  // ---------------------------------------------------------------- reading back what was printed

  lemma HexParts(n: nat)
    requires n < 0x10000
    ensures ((n / 0x1000 * 16 + n / 0x100 % 16) * 16 + n / 16 % 16) * 16 + n % 16 == n
  {
    assert n / 0x100 == n / 16 / 16 && n / 0x1000 == n / 0x100 / 16;
  }

  lemma HexUnitReads(n: nat, s: string)
    requires n < 0x10000 && |s| >= 4
    requires s[..4] == [HexDigit(n / 0x1000), HexDigit(n / 0x100 % 16), HexDigit(n / 16 % 16), HexDigit(n % 16)]
    ensures HexUnit(s) == n
  {
    HexDigitReads(n / 0x1000);
    HexDigitReads(n / 0x100 % 16);
    HexDigitReads(n / 16 % 16);
    HexDigitReads(n % 16);
    hide HexDigit;
    assert s[0] == s[..4][0] && s[1] == s[..4][1] && s[2] == s[..4][2] && s[3] == s[..4][3];
    hide HexValue;
    HexParts(n);
  }

  lemma HexEscapeReads(n: nat, rest: string)
    requires n < 0xD800
    ensures ReadChar(HexEscape(n) + rest) == Got(n as char, rest)
  {
    var s := HexEscape(n) + rest;
    var t := s[2..];
    assert t[..4] == [HexDigit(n / 0x1000), HexDigit(n / 0x100 % 16), HexDigit(n / 16 % 16), HexDigit(n % 16)];
    HexUnitReads(n, t);
    hide HexUnit, HexDigit;
    assert t[4..] == rest;
    assert s[0] == '\\' && s[1] == 'u';
  }

  predicate EscapedInHex(c: char) {
    |Escape(c)| == 6
  }

  lemma EscapeReads(c: char, rest: string)
    ensures ReadChar(Escape(c) + rest) == Got(c, rest)
    ensures Escape(c) != "" && Escape(c)[0] != '\"'
  {
    if EscapedInHex(c) {
      HexEscapeReads(c as int, rest);
      assert Escape(c) == HexEscape(c as int);
      hide ReadChar;
    } else {
      ShortEscapeReads(c, rest);
      hide ReadChar, HexEscape;
    }
  }

  lemma ShortEscapeReads(c: char, rest: string)
    requires !EscapedInHex(c)
    ensures ReadChar(Escape(c) + rest) == Got(c, rest)
  {
    hide ReadUnicode;
    var s := Escape(c) + rest;
    if |Escape(c)| == 2 {
      assert s[0] == Escape(c)[0] && s[1] == Escape(c)[1] && s[2..] == rest;
    } else {
      assert Escape(c) == [c] && s[0] == c && s[1..] == rest;
    }
  }

  /** A string literal reads back, whatever follows it. */
  lemma {:induction false} QuoteReads(t: string, rest: string)
    ensures ReadChars(EscapeAll(t) + ("\"" + rest)) == Got(t, rest)
  {
    if t == "" {
      assert EscapeAll(t) + ("\"" + rest) == "\"" + rest;
    } else {
      var tail := EscapeAll(t[1..]) + ("\"" + rest);
      QuoteReads(t[1..], rest);
      EscapeReads(t[0], tail);
      Assoc(Escape(t[0]), EscapeAll(t[1..]), "\"" + rest);
      assert t == [t[0]] + t[1..];
    }
  }

  lemma {:induction false} NumberRunEnds(literal: string, rest: string, i: nat)
    requires forall k :: 0 <= k < |literal| ==> NumberChar(literal[k])
    requires rest == "" || !NumberChar(rest[0])
    requires i <= |literal|
    ensures NumberEnd(literal + rest, i) == |literal|
    decreases |literal| - i
  {
    if i < |literal| {
      NumberRunEnds(literal, rest, i + 1);
    }
  }

  /**
   * The text after a value must not extend it. Only a number can be extended by what follows it; every
   * other value ends itself.
   */
  predicate Ends(v: Json, rest: string) {
    v.Number? ==> rest == "" || !NumberChar(rest[0])
  }

  lemma NumberReads(v: Json, rest: string)
    requires v.Number? && WellFormed(v) && Ends(v, rest)
    ensures ReadValue(Print(v) + rest) == Got(v, rest)
  {
    NumberChars(v.literal);
    NumberRunEnds(v.literal, rest, 0);
    var s := v.literal + rest;
    assert s[0] == v.literal[0];
    assert s[..|v.literal|] == v.literal && s[|v.literal|..] == rest;
    assert !("null" <= s) && !("true" <= s) && !("false" <= s) by {
      assert "null"[0] == 'n' && "true"[0] == 't' && "false"[0] == 'f';
    }
  }

  lemma PrintStarts(v: Json)
    requires WellFormed(v)
    ensures Print(v) != "" && Print(v)[0] !in {']', '}', ','} && !Space(Print(v)[0])
  {
    if v.Number? {
      NumberChars(v.literal);
    }
  }

  lemma PrintItemsStarts(v: Json, i: nat)
    requires v.Array? && 0 < i <= |v.items|
    ensures PrintItems(v, i) != "" && PrintItems(v, i)[0] in {']', ','}
  {
  }

  lemma WordReads(v: Json, rest: string)
    requires v.Null? || v.Bool?
    ensures ReadValue(Print(v) + rest) == Got(v, rest)
  {
    var s := Print(v) + rest;
    assert s[..|Print(v)|] == Print(v) && s[|Print(v)|..] == rest;
    assert s[0] == Print(v)[0];
    assert "true"[0] == 't' && "null"[0] == 'n' && "false"[0] == 'f';
  }

  lemma StringReads(v: Json, rest: string)
    requires v.String? && ReadChars(EscapeAll(v.text) + ("\"" + rest)) == Got(v.text, rest)
    ensures ReadValue(Print(v) + rest) == Got(v, rest)
  {
    hide ReadChars, EscapeAll, ReadItems, ReadMembers, ReadNumber;
    var s := Print(v) + rest;
    assert s[0] == '\"' && s[1..] == EscapeAll(v.text) + ("\"" + rest);
  }

  lemma ArrayReads(v: Json, rest: string)
    requires v.Array? && ReadItems(PrintItems(v, 0) + rest, true) == Got(v.items[0..], rest)
    ensures ReadValue(Print(v) + rest) == Got(v, rest)
  {
    hide ReadChars, PrintItems, ReadItems, ReadMembers, ReadNumber;
    var s := Print(v) + rest;
    assert s[0] == '[' && s[1..] == PrintItems(v, 0) + rest;
    assert v.items[0..] == v.items;
  }

  lemma ObjectReads(v: Json, rest: string)
    requires v.Object?
    requires var keys := SortedKeys(v.members.Keys);
             ReadMembers(PrintMembers(v, keys, 0) + rest, true) == Got(Listed(v, keys, 0), rest)
    ensures ReadValue(Print(v) + rest) == Got(v, rest)
  {
    hide ReadChars, PrintMembers, PrintItems, ReadItems, ReadMembers, ReadNumber, Listed, SortedKeys, EscapeAll;
    var keys := SortedKeys(v.members.Keys);
    var s := Print(v) + rest;
    assert s[0] == '{' && s[1..] == PrintMembers(v, keys, 0) + rest;
    ListedAll(v, keys);
  }

  lemma ListedAll(v: Json, keys: seq<string>)
    requires v.Object? && KeySet(keys) == v.members.Keys
    ensures Listed(v, keys, 0) == v.members
  {
    assert keys[0..] == keys;
    assert forall k :: k in v.members ==> k in KeySet(keys);
  }

  /** The reader recovers exactly the printed value, and leaves exactly what followed it. */
  lemma {:induction false} PrintReads(v: Json, rest: string)
    requires WellFormed(v) && Ends(v, rest)
    ensures ReadValue(Print(v) + rest) == Got(v, rest)
    decreases v, 2
  {
    match v
    case Null => WordReads(v, rest);
    case Bool(b) => WordReads(v, rest);
    case Number(literal) => NumberReads(v, rest);
    case String(text) =>
      hide *;
      QuoteReads(text, rest);
      StringReads(v, rest);
    case Array(items) =>
      ItemsRead(v, 0, rest);
      ArrayReads(v, rest);
    case Object(members) =>
      var keys := SortedKeys(members.Keys);
      IncreasingDistinct(keys);
      MembersRead(v, keys, 0, rest);
      ObjectReads(v, rest);
  }

  lemma {:induction false} ItemsRead(v: Json, i: nat, rest: string)
    requires WellFormed(v) && v.Array? && i <= |v.items|
    ensures ReadItems(PrintItems(v, i) + rest, i == 0) == Got(v.items[i..], rest)
    decreases v, 1, |v.items| - i
  {
    hide ReadItems, ReadValue, PrintItems, Print, WellFormed;
    if i == |v.items| {
      ItemsEndReads(v, rest);
    } else {
      ItemWellFormed(v, i);
      PrintItemsStarts(v, i + 1);
      PrintReads(v.items[i], PrintItems(v, i + 1) + rest);
      ItemsRead(v, i + 1, rest);
      ItemReads(v, i, rest);
    }
  }

  lemma ItemsEndReads(v: Json, rest: string)
    requires v.Array?
    ensures ReadItems(PrintItems(v, |v.items|) + rest, |v.items| == 0) == Got(v.items[|v.items|..], rest)
  {
    var s := "]" + rest;
    assert PrintItems(v, |v.items|) == "]";
    assert s[0] == ']' && s[1..] == rest;
    assert v.items[|v.items|..] == [];
  }

  lemma ItemWellFormed(v: Json, i: nat)
    requires WellFormed(v) && v.Array? && i < |v.items|
    ensures WellFormed(v.items[i])
  {
  }

  lemma ItemText(v: Json, i: nat, rest: string)
    requires v.Array? && i < |v.items|
    ensures PrintItems(v, i) + rest == Comma(i) + (Print(v.items[i]) + (PrintItems(v, i + 1) + rest))
  {
    var p, tail := Print(v.items[i]), PrintItems(v, i + 1);
    assert PrintItems(v, i) == Comma(i) + (p + tail);
    hide PrintItems, Print;
    Assoc(Comma(i), p + tail, rest);
    Assoc(p, tail, rest);
  }

  /** Reading one item and going on. */
  lemma ItemsStep(t: string, first: bool, v: Json, tail: string, items: seq<Json>, rest: string)
    requires t != "" && t[0] !in {']', '}', ','} && !Space(t[0])
    requires ReadValue(t) == Got(v, tail) && ReadItems(tail, false) == Got(items, rest)
    ensures ReadItems((if first then "" else ",") + t, first) == Got([v] + items, rest)
  {
    hide ReadValue, ReadChars, ReadMembers;
    var s := (if first then "" else ",") + t;
    assert !first ==> s[0] == ',' && s[1..] == t;
    assert first ==> s == t;
    assert |tail| < |t| && Skip(s) == s;
    ItemsUnfold(s, first);
    hide ReadItems;
  }

  lemma ItemsUnfold(s: string, first: bool)
    requires s != "" && !Space(s[0]) && s[0] != ']' && (!first ==> s[0] == ',')
    ensures ReadItems(s, first) ==
            match ReadValue(if first then s else s[1..])
            case Bad => Bad
            case Got(v, rest) =>
              match ReadItems(rest, false)
              case Bad => Bad
              case Got(items, rest') => Got([v] + items, rest')
  {
    hide ReadValue;
    assert Skip(s) == s;
  }

  /** The item at i, given that it and the items after it read back. */
  lemma ItemReads(v: Json, i: nat, rest: string)
    requires WellFormed(v) && v.Array? && i < |v.items|
    requires var tail := PrintItems(v, i + 1) + rest;
             && ReadValue(Print(v.items[i]) + tail) == Got(v.items[i], tail)
             && ReadItems(tail, false) == Got(v.items[i + 1..], rest)
    ensures ReadItems(PrintItems(v, i) + rest, i == 0) == Got(v.items[i..], rest)
  {
    hide ReadItems, ReadValue, Print, PrintItems;
    PrintStarts(v.items[i]);
    ItemText(v, i, rest);
    var tail := PrintItems(v, i + 1) + rest;
    var t := Print(v.items[i]) + tail;
    assert t[0] == Print(v.items[i])[0];
    ItemsStep(t, i == 0, v.items[i], tail, v.items[i + 1..], rest);
    assert v.items[i..] == [v.items[i]] + v.items[i + 1..];
  }

  predicate Distinct(keys: seq<string>) {
    forall i, j :: 0 <= i < j < |keys| ==> keys[i] != keys[j]
  }

  lemma IncreasingDistinct(keys: seq<string>)
    requires Increasing(keys)
    ensures Distinct(keys)
  {
    forall i, j | 0 <= i < j < |keys| ensures keys[i] != keys[j] {
      LessTotal(keys[i], keys[j]);
    }
  }

  /** The members listed from i on. */
  ghost function Listed(v: Json, keys: seq<string>, i: nat): map<string, Json>
    requires v.Object? && KeySet(keys) <= v.members.Keys && i <= |keys|
  {
    map k | k in v.members && k in keys[i..] :: v.members[k]
  }

  /** An object reads back from its members in any order, so the key order carries no meaning. */
  lemma {:induction false} MembersRead(v: Json, keys: seq<string>, i: nat, rest: string)
    requires WellFormed(v) && v.Object?
    requires KeySet(keys) <= v.members.Keys && Distinct(keys) && i <= |keys|
    ensures ReadMembers(PrintMembers(v, keys, i) + rest, i == 0) == Got(Listed(v, keys, i), rest)
    decreases v, 1, |keys| - i
  {
    if i == |keys| {
      MembersEndReads(v, keys, rest);
    } else {
      hide ReadMembers, ReadValue, ReadChars, PrintMembers, Print, Listed, EscapeAll;
      var k := keys[i];
      assert k in KeySet(keys);
      var tail := PrintMembers(v, keys, i + 1) + rest;
      QuoteReads(k, ":" + (Print(v.members[k]) + tail));
      PrintReads(v.members[k], tail);
      MembersRead(v, keys, i + 1, rest);
      MemberReads(v, keys, i, rest);
    }
  }

  lemma MembersEndReads(v: Json, keys: seq<string>, rest: string)
    requires v.Object? && KeySet(keys) <= v.members.Keys
    ensures ReadMembers(PrintMembers(v, keys, |keys|) + rest, |keys| == 0) == Got(Listed(v, keys, |keys|), rest)
  {
    var s := "}" + rest;
    assert s[0] == '}' && s[1..] == rest;
    assert Listed(v, keys, |keys|) == map[];
  }

  lemma MembersUnfold(s: string, first: bool, t: string, k: string, r0: string)
    requires s != "" && !Space(s[0]) && s[0] != '}' && (!first ==> s[0] == ',')
    requires t == (if first then s else s[1..]) && At(t, 0, '\"') && ReadChars(t[1..]) == Got(k, r0) && At(r0, 0, ':')
    ensures ReadMembers(s, first) ==
            match ReadValue(r0[1..])
            case Bad => Bad
            case Got(v, r2) =>
              match ReadMembers(r2, false)
              case Bad => Bad
              case Got(members, r3) => Got(map[k := v] + members, r3)
  {
    hide ReadValue, ReadChars;
    assert Skip(s) == s && Skip(t) == t && Skip(r0) == r0;
  }

  /** The member at i, given that its key, its value and the members after it read back. */
  lemma MemberReads(v: Json, keys: seq<string>, i: nat, rest: string)
    requires WellFormed(v) && v.Object?
    requires KeySet(keys) <= v.members.Keys && Distinct(keys) && i < |keys| && keys[i] in v.members
    requires var tail := PrintMembers(v, keys, i + 1) + rest;
             var u := Print(v.members[keys[i]]) + tail;
             && ReadChars(EscapeAll(keys[i]) + ("\"" + (":" + u))) == Got(keys[i], ":" + u)
             && ReadValue(u) == Got(v.members[keys[i]], tail)
             && ReadMembers(tail, false) == Got(Listed(v, keys, i + 1), rest)
    ensures ReadMembers(PrintMembers(v, keys, i) + rest, i == 0) == Got(Listed(v, keys, i), rest)
  {
    hide ReadChars, EscapeAll, ReadValue, Print, Listed, ReadMembers, PrintMembers, WellFormed;
    var k := keys[i];
    var tail := PrintMembers(v, keys, i + 1) + rest;
    var u := Print(v.members[k]) + tail;
    var t := "\"" + (EscapeAll(k) + ("\"" + (":" + u)));
    var s := PrintMembers(v, keys, i) + rest;
    MemberText(v, keys, i, rest);
    assert i > 0 ==> s[0] == ',' && s[1..] == t;
    assert i == 0 ==> s == t;
    assert t[0] == '\"' && t[1..] == EscapeAll(k) + ("\"" + (":" + u));
    assert (":" + u)[0] == ':' && (":" + u)[1..] == u;
    MembersUnfold(s, i == 0, t, k, ":" + u);
    ListedStep(v, keys, i);
  }

  lemma MemberText(v: Json, keys: seq<string>, i: nat, rest: string)
    requires v.Object? && KeySet(keys) <= v.members.Keys && i < |keys| && keys[i] in v.members
    ensures PrintMembers(v, keys, i) + rest ==
            Comma(i) + ("\"" + (EscapeAll(keys[i]) +
              ("\"" + (":" + (Print(v.members[keys[i]]) + (PrintMembers(v, keys, i + 1) + rest))))))
  {
    var k := keys[i];
    var p, q := Print(v.members[k]), PrintMembers(v, keys, i + 1);
    assert PrintMembers(v, keys, i) == Comma(i) + (Quote(k) + (":" + (p + q)));
    assert Quote(k) == ("\"" + EscapeAll(k)) + "\"";
    Flatten(Comma(i), EscapeAll(k), p, q, rest);
  }

  lemma Flatten(c: string, e: string, p: string, q: string, rest: string)
    ensures (c + ((("\"" + e) + "\"") + (":" + (p + q)))) + rest == c + ("\"" + (e + ("\"" + (":" + (p + (q + rest))))))
  {
    var m := ("\"" + e) + "\"";
    var u := p + (q + rest);
    Assoc(c, m + (":" + (p + q)), rest);
    Assoc(m, ":" + (p + q), rest);
    Assoc(":", p + q, rest);
    Assoc(p, q, rest);
    Assoc("\"" + e, "\"", ":" + u);
    Assoc("\"", e, "\"" + (":" + u));
  }

  lemma ListedStep(v: Json, keys: seq<string>, i: nat)
    requires v.Object? && KeySet(keys) <= v.members.Keys && Distinct(keys) && i < |keys|
    ensures keys[i] in v.members && Listed(v, keys, i) == map[keys[i] := v.members[keys[i]]] + Listed(v, keys, i + 1)
  {
    assert keys[i] in KeySet(keys);
    assert keys[i..] == [keys[i]] + keys[i + 1..];
  }

  /** Different values print differently, even with different text after them. */
  lemma PrintInjective(v: Json, w: Json, rest: string, rest': string)
    requires WellFormed(v) && WellFormed(w) && Ends(v, rest) && Ends(w, rest')
    requires Print(v) + rest == Print(w) + rest'
    ensures v == w && rest == rest'
  {
    PrintReads(v, rest);
    PrintReads(w, rest');
  }

  lemma {:induction false} RunReaches(s: string, n: nat, i: nat)
    requires i <= n <= |s| && forall k :: 0 <= k < n ==> NumberChar(s[k])
    ensures NumberEnd(s, i) >= n
    decreases n - i
  {
    if i < n {
      RunReaches(s, n, i + 1);
    }
  }

  /** A number followed by a character that can go on a number is read as something else, or not at all. */
  lemma NumberGoesOn(v: Json, rest: string)
    requires v.Number? && WellFormed(v) && !Ends(v, rest)
    ensures ReadValue(Print(v) + rest) != Got(v, rest)
  {
    NumberChars(v.literal);
    var s := v.literal + rest;
    assert s[0] == v.literal[0] && s[|v.literal|] == rest[0];
    RunReaches(s, |v.literal| + 1, 0);
    hide NumberEnd, IsNumber;
    assert !("null" <= s) && !("true" <= s) && !("false" <= s) by {
      assert "null"[0] == 'n' && "true"[0] == 't' && "false"[0] == 'f';
    }
    assert ReadValue(s) == ReadNumber(s);
    assert ReadNumber(s).Got? ==> |ReadNumber(s).rest| < |rest|;
  }

  /** The printed value reads back with what follows it if and only if that does not go on a number. */
  lemma PrintReadsExactly(v: Json, rest: string)
    requires WellFormed(v)
    ensures ReadValue(Print(v) + rest) == Got(v, rest) <==> Ends(v, rest)
  {
    if Ends(v, rest) {
      PrintReads(v, rest);
    } else {
      NumberGoesOn(v, rest);
    }
    hide ReadValue, Print, WellFormed;
  }

  // ---------------------------------------------------------------- whole texts

  /** json.Unmarshal: one value, with nothing but whitespace after it. */
  function Parse(text: string): (r: Read<Json>) {
    match ReadValue(text)
    case Got(v, rest) => if Skip(rest) == "" then Got(v, "") else Bad
    case Bad => Bad
  }

  lemma PrintParses(v: Json)
    requires WellFormed(v)
    ensures Parse(Print(v)) == Got(v, "")
  {
    PrintReads(v, "");
    assert Print(v) + "" == Print(v);
  }

  lemma {:induction false} ReadValueWellFormed(text: string)
    ensures ReadValue(text).Got? ==> WellFormed(ReadValue(text).value)
    decreases |text|, 0
  {
    var s := Skip(text);
    if At(s, 0, '[') {
      ReadItemsWellFormed(s[1..], true);
    } else if At(s, 0, '{') {
      ReadMembersWellFormed(s[1..], true);
    }
  }

  lemma {:induction false} ReadItemsWellFormed(text: string, first: bool)
    ensures ReadItems(text, first).Got? ==> forall x | x in ReadItems(text, first).value :: WellFormed(x)
    decreases |text|, 1
  {
    var s := Skip(text);
    if ReadItems(text, first).Got? && !At(s, 0, ']') {
      var t := if first then s else s[1..];
      ReadValueWellFormed(t);
      ReadItemsWellFormed(ReadValue(t).rest, false);
    }
  }

  lemma {:induction false} ReadMembersWellFormed(text: string, first: bool)
    ensures ReadMembers(text, first).Got? ==>
              forall k | k in ReadMembers(text, first).value :: WellFormed(ReadMembers(text, first).value[k])
    decreases |text|, 1
  {
    var s := Skip(text);
    if ReadMembers(text, first).Got? && !At(s, 0, '}') {
      var t := if first then s else Skip(s[1..]);
      var r1 := Skip(ReadChars(t[1..]).rest);
      ReadValueWellFormed(r1[1..]);
      ReadMembersWellFormed(ReadValue(r1[1..]).rest, false);
    }
  }

  // ---------------------------------------------------------------- what the text looks like

  /** The parts from i on, each but the first after a comma. */
  function Joined(parts: seq<string>, i: nat): string
    requires i <= |parts|
    decreases |parts| - i
  {
    if i == |parts| then "" else (if i > 0 then "," else "") + (parts[i] + Joined(parts, i + 1))
  }

  lemma {:induction false} ItemsJoined(v: Json, parts: seq<string>, i: nat)
    requires v.Array? && |parts| == |v.items| && i <= |parts|
    requires forall k :: 0 <= k < |parts| ==> parts[k] == Print(v.items[k])
    ensures PrintItems(v, i) == Joined(parts, i) + "]"
    decreases |parts| - i
  {
    hide Print;
    if i < |parts| {
      ItemsJoined(v, parts, i + 1);
      Assoc(parts[i], Joined(parts, i + 1), "]");
      Assoc(if i > 0 then "," else "", parts[i] + Joined(parts, i + 1), "]");
    }
  }

  lemma {:induction false} MembersJoined(v: Json, keys: seq<string>, parts: seq<string>, i: nat)
    requires v.Object? && KeySet(keys) <= v.members.Keys && |parts| == |keys| && i <= |parts|
    requires forall k :: 0 <= k < |keys| ==> keys[k] in v.members && parts[k] == Quote(keys[k]) + (":" + Print(v.members[keys[k]]))
    ensures PrintMembers(v, keys, i) == Joined(parts, i) + "}"
    decreases |parts| - i
  {
    hide Print, Quote;
    if i < |parts| {
      MembersJoined(v, keys, parts, i + 1);
      var q, p, rest := Quote(keys[i]), Print(v.members[keys[i]]), Joined(parts, i + 1);
      assert keys[i] in KeySet(keys);
      assert PrintMembers(v, keys, i) == Comma(i) + (q + (":" + (p + (rest + "}"))));
      hide PrintMembers, Joined;
      Regroup(Comma(i), q, ":", p, rest, "}");
    }
  }

  lemma Regroup(comma: string, a: string, b: string, c: string, rest: string, end: string)
    ensures comma + (a + (b + (c + (rest + end)))) == comma + ((a + (b + c)) + rest) + end
  {
    Assoc(c, rest, end);
    Assoc(b, c + rest, end);
    Assoc(b, c, rest);
    Assoc(a, b + (c + rest), end);
    Assoc(a, b + c, rest);
    Assoc(comma, (a + (b + c)) + rest, end);
  }

  /** An array is its items' texts in brackets, with commas between and nothing else. */
  lemma ArrayText(items: seq<Json>, parts: seq<string>)
    requires |parts| == |items| && forall k :: 0 <= k < |parts| ==> parts[k] == Print(items[k])
    ensures Print(Array(items)) == "[" + (Joined(parts, 0) + "]")
  {
    ItemsJoined(Array(items), parts, 0);
    hide PrintItems, Joined;
  }

  /** An object is its members' texts in braces, in increasing order of the names, with commas and colons and nothing else. */
  lemma ObjectText(members: map<string, Json>, keys: seq<string>, parts: seq<string>)
    requires Increasing(keys) && (forall k :: k in keys <==> k in members) && |parts| == |keys|
    requires forall k :: 0 <= k < |keys| ==> keys[k] in members && parts[k] == Quote(keys[k]) + (":" + Print(members[keys[k]]))
    ensures Print(Object(members)) == "{" + (Joined(parts, 0) + "}")
  {
    hide Increasing, Quote, PrintMembers, Joined;
    assert KeySet(keys) == members.Keys;
    IncreasingUnique(keys, SortedKeys(members.Keys));
    MembersJoined(Object(members), keys, parts, 0);
  }

  /** The text of a value that holds no others. */
  lemma ScalarText(v: Json)
    requires !v.Array? && !v.Object?
    ensures v.Null? ==> Print(v) == "null"
    ensures v.Bool? ==> Print(v) == if v.b then "true" else "false"
    ensures v.Number? ==> Print(v) == v.literal
    ensures v.String? ==> Print(v) == "\"" + EscapeAll(v.text) + "\""
  {
  }

  /** Strings escape character by character. */
  lemma {:induction false} EscapeJoins(a: string, b: string)
    ensures EscapeAll(a + b) == EscapeAll(a) + EscapeAll(b)
  {
    hide Escape;
    if a == "" {
      assert a + b == b;
    } else {
      assert (a + b)[0] == a[0] && (a + b)[1..] == a[1..] + b;
      EscapeJoins(a[1..], b);
      Assoc(Escape(a[0]), EscapeAll(a[1..]), EscapeAll(b));
    }
  }

  /** What becomes of one character: which are kept, which have a short form, and the hexadecimal form of the others. */
  lemma EscapeOne(c: char)
    ensures EscapeAll([c]) == Escape(c)
    ensures Escape(c) == [c] <==> c >= ' ' && c !in "\"\\<>&\U{2028}\U{2029}"
    ensures Escape('\"') == "\\\"" && Escape('\\') == "\\\\" && Escape('\n') == "\\n" && Escape('\r') == "\\r" && Escape('\t') == "\\t"
    ensures Escape(8 as char) == "\\b" && Escape(12 as char) == "\\f"
    ensures Escape('<') == "\\u003c" && Escape('>') == "\\u003e" && Escape('&') == "\\u0026" && Escape(0x1F as char) == "\\u001f"
    ensures Escape('\U{2028}') == "\\u2028" && Escape('\U{2029}') == "\\u2029"
  {
    assert [c][1..] == "";
  }
}
