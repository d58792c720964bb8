/**
 * The placeholder rewriter of runtime/internal/database/database.go: `?` becomes `$1`, `$2`, ...
 * outside string literals and comments. A character stands for one byte of the query; the scanner
 * only ever compares bytes with ASCII ones.
 *
 * The scanner is specified by a lexer. Its lexical grammar is the one the code scans: inside a
 * literal a doubled quote is tried before the backslash look-behind, and a block comment may be
 * closed by the star that opened it.
 */
module Rebind {
  import opened Decimal
  import opened Strings

  datatype Token =
    | Placeholder
    | CodeByte(c: char)
    | Literal(text: string)
    | LineComment(text: string)
    | BlockComment(text: string)

  /** End of the literal whose opening quote lies before i. */
  function LiteralEnd(q: string, i: nat): (e: nat)
    requires 0 < i <= |q|
    ensures i <= e <= |q|
    decreases |q| - i
  {
    if i == |q| then i
    else if q[i] != '\'' then LiteralEnd(q, i + 1)
    else if At(q, i + 1, '\'') then LiteralEnd(q, i + 2)
    else if q[i - 1] == '\\' then LiteralEnd(q, i + 1)
    else i + 1
  }

  /** End of a line comment that covers i: one past the next newline, or the end of the query. */
  function LineEnd(q: string, i: nat): (e: nat)
    requires i <= |q|
    ensures i <= e <= |q|
    decreases |q| - i
  {
    if i == |q| then i else if q[i] == '\n' then i + 1 else LineEnd(q, i + 1)
  }

  /** End of a block comment that covers i: one past the next star and slash. */
  function BlockEnd(q: string, i: nat): (e: nat)
    requires i <= |q|
    ensures i <= e <= |q|
    decreases |q| - i
  {
    if i == |q| then i
    else if q[i] == '*' && At(q, i + 1, '/') then i + 2
    else BlockEnd(q, i + 1)
  }

  predicate StartsLine(q: string) {
    At(q, 0, '-') && At(q, 1, '-')
  }

  predicate StartsBlock(q: string) {
    At(q, 0, '/') && At(q, 1, '*')
  }

  /** The first token of a non-empty query, with its length. */
  function FirstToken(q: string): (r: (Token, nat))
    requires q != []
    ensures 0 < r.1 <= |q|
    ensures TokenText(r.0) == q[..r.1]
  {
    if q[0] == '\'' then var e := LiteralEnd(q, 1); (Literal(q[..e]), e)
    else if StartsLine(q) then var e := LineEnd(q, 1); (LineComment(q[..e]), e)
    else if StartsBlock(q) then var e := BlockEnd(q, 1); (BlockComment(q[..e]), e)
    else if q[0] == '?' then (Placeholder, 1)
    else (CodeByte(q[0]), 1)
  }

  function Lex(q: string): seq<Token> {
    if q == [] then []
    else
      var (t, k) := FirstToken(q);
      [t] + Lex(q[k..])
  }

  function TokenText(t: Token): string {
    match t
    case Placeholder => "?"
    case CodeByte(c) => [c]
    case Literal(text) => text
    case LineComment(text) => text
    case BlockComment(text) => text
  }

  /** The query a token sequence came from. */
  function Source(ts: seq<Token>): string {
    if ts == [] then "" else TokenText(ts[0]) + Source(ts[1..])
  }

  /** What the database driver receives: the k-th placeholder, counted from n, prints as `$k`. */
  function Numbered(ts: seq<Token>, n: nat): string {
    if ts == [] then ""
    else if ts[0].Placeholder? then "$" + Numeral(n) + Numbered(ts[1..], n + 1)
    else TokenText(ts[0]) + Numbered(ts[1..], n)
  }

  function CodeBytes(s: string): (ts: seq<Token>) {
    if s == "" then [] else [CodeByte(s[0])] + CodeBytes(s[1..])
  }

  /** The tokens with every placeholder replaced by the code bytes of its number. */
  function Expand(ts: seq<Token>, n: nat): seq<Token> {
    if ts == [] then []
    else if ts[0].Placeholder? then CodeBytes("$" + Numeral(n)) + Expand(ts[1..], n + 1)
    else [ts[0]] + Expand(ts[1..], n)
  }

  predicate NoPlaceholder(ts: seq<Token>) {
    forall k :: 0 <= k < |ts| ==> !ts[k].Placeholder?
  }

  /** The query as the driver receives it. */
  function Rebound(q: string): string {
    Numbered(Lex(q), 1)
  }

  // ---------------------------------------------------------------- the lexer loses nothing

  lemma {:induction false} LexKeepsText(q: string)
    ensures Source(Lex(q)) == q
  {
    hide FirstToken, Lex, TokenText, Source;
    if q == [] {
      NothingLexed();
    } else {
      var (t, k) := FirstToken(q);
      LexKeepsText(q[k..]);
      LexStep(q);
      SourceStep(t, Lex(q[k..]));
      assert q == q[..k] + q[k..];
    }
  }

  lemma NothingLexed()
    ensures Source(Lex("")) == ""
  {
  }

  lemma LexStep(q: string)
    requires q != []
    ensures Lex(q) == [FirstToken(q).0] + Lex(q[FirstToken(q).1..])
  {
    hide FirstToken;
  }

  lemma SourceStep(t: Token, ts: seq<Token>)
    ensures Source([t] + ts) == TokenText(t) + Source(ts)
  {
    hide TokenText;
    assert ([t] + ts)[1..] == ts;
  }

  // ---------------------------------------------------------------- what a token is

  /** How many quotes stand directly before j, not counting the opening one at 0. */
  function QuotesBefore(s: string, j: nat): nat
    requires j <= |s|
  {
    if j <= 1 || s[j - 1] != '\'' then 0 else 1 + QuotesBefore(s, j - 1)
  }

  /**
   * The quote at j closes the literal that opens at 0: it is the last of a run of quotes, those before it in the
   * run pair up, and it does not stand alone after a backslash.
   */
  predicate Closes(s: string, j: nat) {
    && 0 < j < |s| && s[j] == '\'' && (j + 1 < |s| ==> s[j + 1] != '\'')
    && QuotesBefore(s, j) % 2 == 0
    && (QuotesBefore(s, j) == 0 ==> s[j - 1] != '\\')
  }

  lemma {:induction false} LiteralCloses(q: string, i: nat)
    requires 0 < i <= |q| && q[0] == '\''
    requires QuotesBefore(q, i) % 2 == 0 || i == |q| || q[i] != '\''
    ensures var e := LiteralEnd(q, i);
            && (forall j :: i <= j < e - 1 ==> !Closes(q, j))
            && (e < |q| ==> i < e && Closes(q, e - 1))
    decreases |q| - i
  {
    if i < |q| {
      if q[i] != '\'' {
        LiteralCloses(q, i + 1);
      } else if At(q, i + 1, '\'') {
        assert QuotesBefore(q, i + 1) == 1 + QuotesBefore(q, i) && QuotesBefore(q, i + 2) == 2 + QuotesBefore(q, i);
        LiteralCloses(q, i + 2);
      } else if q[i - 1] == '\\' {
        assert QuotesBefore(q, i) == 0;
        LiteralCloses(q, i + 1);
      }
    }
  }

  lemma {:induction false} LineCloses(q: string, i: nat)
    requires i <= |q|
    ensures var e := LineEnd(q, i);
            && (forall j :: i <= j < e - 1 ==> q[j] != '\n')
            && (e < |q| ==> i < e && q[e - 1] == '\n')
    decreases |q| - i
  {
    if i < |q| && q[i] != '\n' {
      LineCloses(q, i + 1);
    }
  }

  lemma {:induction false} BlockCloses(q: string, i: nat)
    requires i <= |q|
    ensures var e := BlockEnd(q, i);
            && (forall j :: i <= j < e - 2 ==> !(q[j] == '*' && q[j + 1] == '/'))
            && (e < |q| ==> i + 2 <= e && q[e - 2] == '*' && q[e - 1] == '/')
    decreases |q| - i
  {
    if i < |q| && !(q[i] == '*' && At(q, i + 1, '/')) {
      BlockCloses(q, i + 1);
    }
  }

  /** What the first token of a query is, and where it ends, byte by byte; rest is what follows it. */
  ghost predicate Shaped(t: Token, rest: string) {
    match t
    case Placeholder => true
    case CodeByte(c) =>
      && c != '?' && c != '\'' && !(c == '-' && rest != "" && rest[0] == '-') && !(c == '/' && rest != "" && rest[0] == '*')
    case Literal(text) =>
      && text != "" && text[0] == '\''
      && (forall j :: 0 < j < |text| - 1 ==> !Closes(text + rest, j))
      && (rest != "" ==> Closes(text + rest, |text| - 1))
    case LineComment(text) =>
      && |text| >= 2 && text[..2] == "--"
      && (forall j :: 0 <= j < |text| - 1 ==> text[j] != '\n')
      && (rest != "" ==> text[|text| - 1] == '\n')
    case BlockComment(text) =>
      && |text| >= 2 && text[..2] == "/*"
      && (forall j :: 1 <= j < |text| - 2 ==> !(text[j] == '*' && text[j + 1] == '/'))
      && (rest != "" ==> |text| >= 3 && text[|text| - 2] == '*' && text[|text| - 1] == '/')
  }

  lemma FirstShaped(q: string)
    requires q != ""
    ensures Shaped(FirstToken(q).0, q[FirstToken(q).1..])
  {
    var (t, k) := FirstToken(q);
    assert q == q[..k] + q[k..];
    if q[0] == '\'' {
      LiteralCloses(q, 1);
    } else if StartsLine(q) {
      LineCloses(q, 1);
      LineAdvances(q);
      hide LineEnd;
    } else if StartsBlock(q) {
      BlockCloses(q, 1);
      BlockAdvances(q);
      hide BlockEnd;
    }
  }

  lemma LineAdvances(q: string)
    requires StartsLine(q)
    ensures 2 <= LineEnd(q, 1)
  {
  }

  lemma BlockAdvances(q: string)
    requires StartsBlock(q)
    ensures 2 <= BlockEnd(q, 1)
  {
  }

  /**
   * Every token of every query is what its bytes and those after it say. A code byte opens no literal, no comment
   * and is no placeholder. A literal runs from its quote to the first that closes it, a line comment from two
   * dashes to the first newline, a block comment from slash and star to the first star and slash after the slash;
   * each of them that is not closed is the last token.
   */
  lemma {:induction false} TokensShaped(q: string, k: nat)
    requires k < |Lex(q)|
    ensures var rest := Source(Lex(q)[k + 1..]);
            match Lex(q)[k]
            case Placeholder => true
            case CodeByte(c) =>
              && c != '?' && c != '\'' && !(c == '-' && rest != "" && rest[0] == '-') && !(c == '/' && rest != "" && rest[0] == '*')
            case Literal(text) =>
              && text != "" && text[0] == '\''
              && (forall j :: 0 < j < |text| - 1 ==> !Closes(text + rest, j))
              && (rest != "" ==> Closes(text + rest, |text| - 1))
            case LineComment(text) =>
              && |text| >= 2 && text[..2] == "--"
              && (forall j :: 0 <= j < |text| - 1 ==> text[j] != '\n')
              && (rest != "" ==> text[|text| - 1] == '\n')
            case BlockComment(text) =>
              && |text| >= 2 && text[..2] == "/*"
              && (forall j :: 1 <= j < |text| - 2 ==> !(text[j] == '*' && text[j + 1] == '/'))
              && (rest != "" ==> |text| >= 3 && text[|text| - 2] == '*' && text[|text| - 1] == '/')
    decreases k
  {
    TokenShaped(q, k);
    hide Lex, Source, Closes;
  }

  lemma {:induction false} TokenShaped(q: string, k: nat)
    requires k < |Lex(q)|
    ensures Shaped(Lex(q)[k], Source(Lex(q)[k + 1..]))
    decreases k
  {
    hide FirstToken, Lex, Source, Shaped;
    if q == "" {
      NothingLexed();
      LexEmpty();
    } else {
      var n := FirstToken(q).1;
      LexStep(q);
      LexKeepsText(q[n..]);
      if k == 0 {
        FirstShaped(q);
        assert Lex(q)[1..] == Lex(q[n..]);
      } else {
        TokenShaped(q[n..], k - 1);
        assert Lex(q)[k + 1..] == Lex(q[n..])[k..];
      }
    }
  }

  lemma LexEmpty()
    ensures Lex("") == []
  {
  }

  // ---------------------------------------------------------------- lexing the rewritten query

  /** p copies the first k bytes of q, and its next byte is q's, with `$` standing for `?`. */
  ghost predicate CopiesThrough(q: string, p: string, k: nat) {
    && k <= |q| && k <= |p|
    && q[..k] == p[..k]
    && (k == |q| <==> k == |p|)
    && (k < |q| ==> p[k] == if q[k] == '?' then '$' else q[k])
  }

  lemma CopiedByte(q: string, p: string, k: nat, i: nat, c: char)
    requires CopiesThrough(q, p, k) && i <= k && c != '?' && c != '$'
    ensures At(p, i, c) <==> At(q, i, c)
  {
    if i < k {
      assert q[..k][i] == p[..k][i];
    }
  }

  /** A literal ends where it did: its end depends on at most one byte after it. */
  lemma {:induction false} LiteralEndCopied(q: string, p: string, k: nat, i: nat)
    requires CopiesThrough(q, p, k)
    requires 0 < i <= k && LiteralEnd(q, i) == k
    ensures LiteralEnd(p, i) == k
    decreases k - i
  {
    if i < k {
      CopiedByte(q, p, k, i, '\'');
      CopiedByte(q, p, k, i + 1, '\'');
      CopiedByte(q, p, k, i - 1, '\\');
      if q[i] != '\'' {
        LiteralEndCopied(q, p, k, i + 1);
      } else if At(q, i + 1, '\'') {
        LiteralEndCopied(q, p, k, i + 2);
      } else if q[i - 1] == '\\' {
        LiteralEndCopied(q, p, k, i + 1);
      }
    } else if i < |q| {
      LiteralEndAdvances(q, i);
    }
  }

  lemma LiteralEndAdvances(q: string, i: nat)
    requires 0 < i < |q|
    ensures LiteralEnd(q, i) > i
  {
  }

  lemma {:induction false} LineEndCopied(q: string, p: string, k: nat, i: nat)
    requires CopiesThrough(q, p, k)
    requires i <= k && LineEnd(q, i) == k
    ensures LineEnd(p, i) == k
    decreases k - i
  {
    if i < k {
      CopiedByte(q, p, k, i, '\n');
      if q[i] != '\n' {
        LineEndCopied(q, p, k, i + 1);
      }
    }
  }

  lemma {:induction false} BlockEndCopied(q: string, p: string, k: nat, i: nat)
    requires CopiesThrough(q, p, k)
    requires i <= k && BlockEnd(q, i) == k
    ensures BlockEnd(p, i) == k
    decreases k - i
  {
    if i < k {
      CopiedByte(q, p, k, i, '*');
      CopiedByte(q, p, k, i + 1, '/');
      if !(q[i] == '*' && At(q, i + 1, '/')) {
        BlockEndCopied(q, p, k, i + 1);
      }
    }
  }

  lemma FirstTokenCopied(q: string, p: string)
    requires q != [] && !FirstToken(q).0.Placeholder?
    requires CopiesThrough(q, p, FirstToken(q).1)
    ensures p != [] && FirstToken(p) == FirstToken(q)
  {
    var k := FirstToken(q).1;
    assert q[..k][0] == p[..k][0];
    CopiedByte(q, p, k, 1, '-');
    CopiedByte(q, p, k, 1, '*');
    if q[0] == '\'' {
      LiteralEndCopied(q, p, k, 1);
    } else if StartsLine(q) {
      LineEndCopied(q, p, k, 1);
    } else if StartsBlock(q) {
      BlockEndCopied(q, p, k, 1);
    }
  }

  /** Bytes that open no token of their own. */
  predicate Plain(s: string) {
    forall k :: 0 <= k < |s| ==> s[k] != '\'' && s[k] != '-' && s[k] != '/' && s[k] != '?'
  }

  lemma {:induction false} LexPlain(s: string, rest: string)
    requires Plain(s)
    ensures Lex(s + rest) == CodeBytes(s) + Lex(rest)
  {
    if s == "" {
      assert s + rest == rest;
    } else {
      var p := s + rest;
      assert p[0] == s[0];
      assert FirstToken(p) == (CodeByte(s[0]), 1);
      hide FirstToken;
      assert p[1..] == s[1..] + rest;
      LexPlain(s[1..], rest);
      assert Lex(p) == [CodeByte(s[0])] + Lex(p[1..]);
    }
  }

  /** The rewritten query starts with the byte the query starts with, or `$` for `?`. */
  lemma NumberedHead(q: string, n: nat)
    ensures CopiesThrough(q, Numbered(Lex(q), n), 0)
  {
    if q != [] {
      var (t, k) := FirstToken(q);
      assert Lex(q)[0] == t;
    }
  }

  /**
   * Rewriting keeps the lexical structure: lexing the rewritten query yields the same tokens in the
   * same order, each placeholder replaced by the code bytes of its number. So every copied byte is in
   * the lexical state (code, literal, line comment, block comment) it was in.
   */
  lemma {:induction false} NumberedRelexes(q: string, n: nat)
    ensures Lex(Numbered(Lex(q), n)) == Expand(Lex(q), n)
    decreases |q|
  {
    if q != [] {
      var (t, k) := FirstToken(q);
      var rest := q[k..];
      assert Lex(q) == [t] + Lex(rest) && Lex(q)[1..] == Lex(rest);
      if t.Placeholder? {
        var tail := Numbered(Lex(rest), n + 1);
        NumberedRelexes(rest, n + 1);
        LexPlain("$" + Numeral(n), tail);
      } else {
        var tail := Numbered(Lex(rest), n);
        var p := TokenText(t) + tail;
        NumberedRelexes(rest, n);
        NumberedHead(rest, n);
        assert CopiesThrough(q, p, k) by {
          assert p[..k] == q[..k];
          assert k < |q| ==> q[k] == rest[0] && p[k] == tail[0];
        }
        FirstTokenCopied(q, p);
        assert p[k..] == tail;
      }
    }
  }

  lemma ReboundRelexes(q: string)
    ensures Lex(Rebound(q)) == Expand(Lex(q), 1)
  {
    NumberedRelexes(q, 1);
  }

  // ---------------------------------------------------------------- rebinding twice

  lemma {:induction false} CodeBytesNoPlaceholder(s: string)
    ensures NoPlaceholder(CodeBytes(s))
  {
    if s != "" {
      CodeBytesNoPlaceholder(s[1..]);
    }
  }

  lemma {:induction false} ExpandNoPlaceholder(ts: seq<Token>, n: nat)
    ensures NoPlaceholder(Expand(ts, n))
  {
    if ts != [] {
      CodeBytesNoPlaceholder("$" + Numeral(n));
      ExpandNoPlaceholder(ts[1..], n + 1);
      ExpandNoPlaceholder(ts[1..], n);
    }
  }

  lemma {:induction false} NumberedWithoutPlaceholder(ts: seq<Token>, n: nat)
    requires NoPlaceholder(ts)
    ensures Numbered(ts, n) == Source(ts)
  {
    if ts != [] {
      NumberedWithoutPlaceholder(ts[1..], n);
    }
  }

  /** Rebinding a rebound query changes nothing. */
  lemma ReboundIdempotent(q: string)
    ensures Rebound(Rebound(q)) == Rebound(q)
  {
    var r := Rebound(q);
    ReboundRelexes(q);
    ExpandNoPlaceholder(Lex(q), 1);
    NumberedWithoutPlaceholder(Lex(r), 1);
    LexKeepsText(r);
  }

  /** Moving s from what is left to what is written. */
  lemma Written(b: string, s: string, r: string, whole: string)
    requires b + (s + r) == whole
    ensures (b + s) + r == whole
  {
    assert (b + s) + r == b + (s + r);
  }

  // ---------------------------------------------------------------- the numbers

  function Placeholders(ts: seq<Token>): nat {
    if ts == [] then 0 else (if ts[0].Placeholder? then 1 else 0) + Placeholders(ts[1..])
  }

  function Printed(t: Token, n: nat): string {
    if t.Placeholder? then "$" + Numeral(n) else TokenText(t)
  }

  lemma NumberedCons(t: Token, ts: seq<Token>, n: nat)
    ensures Numbered([t] + ts, n) == Printed(t, n) + Numbered(ts, n + Placeholders([t]))
  {
    assert ([t] + ts)[1..] == ts;
    assert [t][1..] == [];
  }

  /**
   * Each token prints in its place, whatever surrounds it; a placeholder prints n plus the number of
   * placeholders before it.
   */
  lemma {:induction false} NumberedConcat(ts: seq<Token>, us: seq<Token>, n: nat)
    ensures Numbered(ts + us, n) == Numbered(ts, n) + Numbered(us, n + Placeholders(ts))
  {
    if ts == [] {
      assert ts + us == us;
    } else {
      var t, rest := ts[0], ts[1..];
      var m := n + Placeholders([t]);
      assert [t][1..] == [];
      assert ts == [t] + rest && ts + us == [t] + (rest + us);
      NumberedCons(t, rest, n);
      NumberedCons(t, rest + us, n);
      NumberedConcat(rest, us, m);
      Written(Printed(t, n), Numbered(rest, m), Numbered(us, n + Placeholders(ts)), Numbered(ts + us, n));
    }
  }

  /** The k-th token's print, with everything before and after it. */
  lemma NumberedAt(ts: seq<Token>, n: nat, k: nat)
    requires k < |ts|
    ensures var m := n + Placeholders(ts[..k]);
            Numbered(ts, n) == Numbered(ts[..k], n) + (Printed(ts[k], m) + Numbered(ts[k + 1..], m + Placeholders([ts[k]])))
  {
    var m := n + Placeholders(ts[..k]);
    assert ts == ts[..k] + ([ts[k]] + ts[k + 1..]);
    NumberedConcat(ts[..k], [ts[k]] + ts[k + 1..], n);
    NumberedCons(ts[k], ts[k + 1..], m);
  }

  lemma {:induction false} PlaceholdersLast(ts: seq<Token>, t: Token)
    ensures Placeholders(ts + [t]) == Placeholders(ts) + if t.Placeholder? then 1 else 0
  {
    if ts == [] {
      assert ts + [t] == [t] && [t][1..] == [];
    } else {
      assert (ts + [t])[1..] == ts[1..] + [t];
      PlaceholdersLast(ts[1..], t);
    }
  }

  /** The count is the number of placeholders. */
  lemma {:induction false} PlaceholdersCount(ts: seq<Token>)
    ensures Placeholders(ts) == |set k | 0 <= k < |ts| && ts[k].Placeholder?|
    decreases |ts|
  {
    hide Placeholders;
    var all := set k | 0 <= k < |ts| && ts[k].Placeholder?;
    if ts == [] {
      assert all == {};
      NoPlaceholders();
    } else {
      var n := |ts| - 1;
      var front := ts[..n];
      var before := set k | 0 <= k < |front| && front[k].Placeholder?;
      PlaceholdersCount(front);
      PlaceholdersLast(front, ts[n]);
      assert ts == front + [ts[n]];
      assert all == if ts[n].Placeholder? then before + {n} else before;
    }
  }

  lemma NoPlaceholders()
    ensures Placeholders([]) == 0
  {
  }

  /** The texts put together. */
  function Flat(texts: seq<string>): string {
    if texts == [] then "" else texts[0] + Flat(texts[1..])
  }

  lemma {:induction false} NumberedIs(ts: seq<Token>, n: nat, texts: seq<string>)
    requires |texts| == |ts|
    requires forall k :: 0 <= k < |ts| ==>
               texts[k] == if ts[k].Placeholder? then "$" + Numeral(n + Placeholders(ts[..k])) else TokenText(ts[k])
    ensures Numbered(ts, n) == Flat(texts)
  {
    hide Numeral, TokenText;
    if ts != [] {
      var m := if ts[0].Placeholder? then n + 1 else n;
      assert ts[..0] == [];
      forall k | 0 <= k < |ts| - 1
        ensures texts[1..][k] == if ts[1..][k].Placeholder? then "$" + Numeral(m + Placeholders(ts[1..][..k])) else TokenText(ts[1..][k])
      {
        assert ts[..k + 1][1..] == ts[1..][..k];
        assert texts[1..][k] == texts[k + 1];
      }
      NumberedIs(ts[1..], m, texts[1..]);
    }
  }

  lemma PlaceholdersBefore(ts: seq<Token>, k: nat)
    requires k <= |ts|
    ensures Placeholders(ts[..k]) == |set j | 0 <= j < k && ts[j].Placeholder?|
  {
    hide Placeholders;
    PlaceholdersCount(ts[..k]);
    assert (set j | 0 <= j < |ts[..k]| && ts[..k][j].Placeholder?) == set j | 0 <= j < k && ts[j].Placeholder?;
  }

  /** The text of the k-th token in the rewritten query. */
  ghost function TextAt(ts: seq<Token>, k: nat): string
    requires k < |ts|
  {
    match ts[k]
    case Placeholder => "$" + Numeral(1 + |set j | 0 <= j < k && ts[j].Placeholder?|)
    case CodeByte(c) => [c]
    case Literal(text) => text
    case LineComment(text) => text
    case BlockComment(text) => text
  }

  lemma TextIsPrinted(ts: seq<Token>, k: nat)
    requires k < |ts|
    ensures TextAt(ts, k) == if ts[k].Placeholder? then "$" + Numeral(1 + Placeholders(ts[..k])) else TokenText(ts[k])
  {
    hide Numeral, Placeholders;
    PlaceholdersBefore(ts, k);
  }

  /**
   * The rewritten query is its tokens put together, each as it stands but for the placeholders, the k-th of which
   * is a dollar sign and the numeral of k.
   */
  lemma ReboundIs(q: string, texts: seq<string>)
    requires |texts| == |Lex(q)|
    requires forall k :: 0 <= k < |texts| ==> texts[k] == TextAt(Lex(q), k)
    ensures Rebound(q) == Flat(texts)
  {
    hide Lex, Numeral, Flat, Numbered, Placeholders, TokenText, TextAt;
    var ts := Lex(q);
    forall k | 0 <= k < |ts|
      ensures texts[k] == if ts[k].Placeholder? then "$" + Numeral(1 + Placeholders(ts[..k])) else TokenText(ts[k])
    {
      TextIsPrinted(ts, k);
    }
    NumberedIs(ts, 1, texts);
  }

  // ---------------------------------------------------------------- the scanner

  lemma NumberedStep(q: string, i: nat, n: nat)
    requires i < |q|
    ensures var (t, k) := FirstToken(q[i..]);
            Numbered(Lex(q[i..]), n) == Printed(t, n) + Numbered(Lex(q[i + k..]), if t.Placeholder? then n + 1 else n)
  {
    hide FirstToken;
    var (t, k) := FirstToken(q[i..]);
    assert q[i..][k..] == q[i + k..];
    assert Lex(q[i..])[1..] == Lex(q[i + k..]);
  }

  /** The end functions do not depend on what precedes the token (for a literal: its own quote aside). */
  lemma {:induction false} LiteralEndDrop(q: string, s: nat, i: nat)
    requires s < i <= |q|
    ensures LiteralEnd(q, i) == s + LiteralEnd(q[s..], i - s)
    decreases |q| - i
  {
    hide LiteralEnd;
    if i < |q| {
      LiteralEndDrop(q, s, i + 1);
      if i + 1 < |q| {
        LiteralEndDrop(q, s, i + 2);
      }
      LiteralEndAt(q, i);
      LiteralEndAt(q[s..], i - s);
    } else {
      LiteralEndLast(q);
      LiteralEndLast(q[s..]);
    }
  }

  lemma LiteralEndLast(q: string)
    requires q != ""
    ensures LiteralEnd(q, |q|) == |q|
  {
  }

  /** One step of the literal's grammar. */
  lemma LiteralEndAt(q: string, i: nat)
    requires 0 < i < |q|
    ensures LiteralEnd(q, i) ==
            if q[i] != '\'' then LiteralEnd(q, i + 1)
            else if At(q, i + 1, '\'') then LiteralEnd(q, i + 2)
            else if q[i - 1] == '\\' then LiteralEnd(q, i + 1)
            else i + 1
  {
  }

  lemma {:induction false} LineEndDrop(q: string, s: nat, i: nat)
    requires s <= i <= |q|
    ensures LineEnd(q, i) == s + LineEnd(q[s..], i - s)
    decreases |q| - i
  {
    if i < |q| {
      LineEndDrop(q, s, i + 1);
    }
  }

  lemma {:induction false} BlockEndDrop(q: string, s: nat, i: nat)
    requires s <= i <= |q|
    ensures BlockEnd(q, i) == s + BlockEnd(q[s..], i - s)
    decreases |q| - i
  {
    if i < |q| {
      BlockEndDrop(q, s, i + 1);
    }
  }

  /** What is still to be written inside a token that ends at e. */
  ghost function TokenRest(q: string, i: nat, e: nat, n: nat): string
    requires i <= e <= |q|
  {
    q[i..e] + Numbered(Lex(q[e..]), n)
  }

  lemma TokenRestStep(q: string, i: nat, e: nat, n: nat)
    requires i < e <= |q|
    ensures TokenRest(q, i, e, n) == [q[i]] + TokenRest(q, i + 1, e, n)
  {
    assert q[i..e] == [q[i]] + q[i + 1..e];
  }

  lemma TokenRestDone(q: string, e: nat, n: nat)
    requires e <= |q|
    ensures TokenRest(q, e, e, n) == Numbered(Lex(q[e..]), n)
  {
    assert q[e..e] == "";
  }

  /** What is still to be written when the scan has reached i, inside a literal or not. */
  ghost function Remaining(q: string, i: nat, inStr: bool, n: nat): string
    requires i <= |q| && (inStr ==> 0 < i)
  {
    if inStr then TokenRest(q, i, LiteralEnd(q, i), n) else Numbered(Lex(q[i..]), n)
  }

  lemma RemainingInLiteral(q: string, i: nat, n: nat)
    requires 0 < i < |q|
    ensures q[i] == '\'' && At(q, i + 1, '\'') ==>
              Remaining(q, i, true, n) == [q[i]] + ([q[i + 1]] + Remaining(q, i + 2, true, n))
    ensures q[i] != '\'' || (!At(q, i + 1, '\'') && q[i - 1] == '\\') ==>
              Remaining(q, i, true, n) == [q[i]] + Remaining(q, i + 1, true, n)
    ensures q[i] == '\'' && !At(q, i + 1, '\'') && q[i - 1] != '\\' ==>
              Remaining(q, i, true, n) == [q[i]] + Remaining(q, i + 1, false, n)
  {
    var e := LiteralEnd(q, i);
    LiteralEndAdvances(q, i);
    TokenRestStep(q, i, e, n);
    if q[i] == '\'' && At(q, i + 1, '\'') {
      TokenRestStep(q, i + 1, e, n);
    }
    TokenRestDone(q, e, n);
  }

  lemma RemainingEnd(q: string, inStr: bool, n: nat)
    requires inStr ==> q != ""
    ensures Remaining(q, |q|, inStr, n) == ""
  {
  }

  lemma FirstTokenRest(q: string, i: nat, e: nat, n: nat)
    requires i < e <= |q|
    requires FirstToken(q[i..]).1 == e - i && !FirstToken(q[i..]).0.Placeholder?
    ensures Remaining(q, i, false, n) == TokenRest(q, i, e, n)
  {
    hide FirstToken, Lex, Numbered, TokenText, LiteralEnd, Numeral;
    NumberedStep(q, i, n);
    assert q[i..][..e - i] == q[i..e];
  }

  lemma RemainingQuote(q: string, i: nat, n: nat)
    requires At(q, i, '\'')
    ensures Remaining(q, i, false, n) == [q[i]] + Remaining(q, i + 1, true, n)
  {
    LiteralEndDrop(q, i, i + 1);
    FirstTokenRest(q, i, LiteralEnd(q, i + 1), n);
    TokenRestStep(q, i, LiteralEnd(q, i + 1), n);
  }

  lemma RemainingLine(q: string, i: nat, n: nat)
    requires At(q, i, '-') && At(q, i + 1, '-')
    ensures Remaining(q, i, false, n) == TokenRest(q, i, LineEnd(q, i + 1), n)
  {
    LineEndDrop(q, i, i + 1);
    FirstTokenRest(q, i, LineEnd(q, i + 1), n);
  }

  lemma RemainingBlock(q: string, i: nat, n: nat)
    requires At(q, i, '/') && At(q, i + 1, '*')
    ensures Remaining(q, i, false, n) == TokenRest(q, i, BlockEnd(q, i + 1), n)
  {
    BlockEndDrop(q, i, i + 1);
    FirstTokenRest(q, i, BlockEnd(q, i + 1), n);
  }

  lemma RemainingByte(q: string, i: nat, n: nat)
    requires i < |q| && q[i] != '\''
    requires !(At(q, i, '-') && At(q, i + 1, '-')) && !(At(q, i, '/') && At(q, i + 1, '*'))
    ensures q[i] == '?' ==> Remaining(q, i, false, n) == "$" + Numeral(n) + Remaining(q, i + 1, false, n + 1)
    ensures q[i] != '?' ==> Remaining(q, i, false, n) == [q[i]] + Remaining(q, i + 1, false, n)
  {
    hide FirstToken, Lex, Numbered, LiteralEnd, Numeral;
    assert i + 1 < |q| ==> q[i..][1] == q[i + 1];
    FirstByte(q[i..]);
    NumberedStep(q, i, n);
    assert q[i..][..1] == [q[i]];
  }

  /** A byte that opens no literal and no comment is a token by itself. */
  lemma FirstByte(q: string)
    requires q != "" && q[0] != '\'' && !StartsLine(q) && !StartsBlock(q)
    ensures FirstToken(q) == (if q[0] == '?' then (Placeholder, 1) else (CodeByte(q[0]), 1))
  {
  }

  /** Position i of the scan, which after an unclosed comment is one past the end. */
  function Clip(q: string, i: nat): (p: nat)
    ensures p <= |q|
  {
    if i > |q| then |q| else i
  }

  ghost predicate ScanInvariant(q: string, b: string, i: nat, inStr: bool, n: nat) {
    && i <= |q| + 1
    && (inStr ==> 0 < i <= |q|)
    && b + Remaining(q, Clip(q, i), inStr, n) == Rebound(q)
  }

  /** The inner loop over a line comment: i is left on its newline, or at the end of the query. */
  method CopyLine(query: string, start: nat, written: string, ghost n: nat) returns (b: string, i: nat)
    requires At(query, start, '-') && At(query, start + 1, '-')
    requires ScanInvariant(query, written, start, false, n)
    ensures start <= i && ScanInvariant(query, b, i + 1, false, n)
  {
    hide Lex, FirstToken, Numbered, TokenRest, Numeral;
    b, i := written, start;
    RemainingLine(query, start, n);
    ghost var e := LineEnd(query, start + 1);
    while i < |query| && query[i] != '\n'
      invariant start <= i <= |query|
      invariant LineEnd(query, i) == e
      invariant b + TokenRest(query, i, e, n) == Rebound(query)
    {
      TokenRestStep(query, i, e, n);
      Written(b, [query[i]], TokenRest(query, i + 1, e, n), Rebound(query));
      b := b + [query[i]];
      i := i + 1;
    }
    if i < |query| {
      TokenRestStep(query, i, e, n);
      Written(b, [query[i]], TokenRest(query, i + 1, e, n), Rebound(query));
      b := b + [query[i]];
    }
    TokenRestDone(query, e, n);
  }

  /** The inner loop over a block comment: i is left on its last slash, or at the end of the query. */
  method CopyBlock(query: string, start: nat, written: string, ghost n: nat) returns (b: string, i: nat)
    requires At(query, start, '/') && At(query, start + 1, '*')
    requires ScanInvariant(query, written, start, false, n)
    ensures start <= i && ScanInvariant(query, b, i + 1, false, n)
  {
    hide Lex, FirstToken, Numbered, TokenRest, Numeral;
    RemainingBlock(query, start, n);
    ghost var e := BlockEnd(query, start + 1);
    TokenRestStep(query, start, e, n);
    Written(written, [query[start]], TokenRest(query, start + 1, e, n), Rebound(query));
    b, i := written + [query[start]], start + 1;
    TokenRestDone(query, e, n);
    while i < |query|
      invariant start < i <= |query|
      invariant BlockEnd(query, i) == e
      invariant b + TokenRest(query, i, e, n) == Rebound(query)
    {
      TokenRestStep(query, i, e, n);
      Written(b, [query[i]], TokenRest(query, i + 1, e, n), Rebound(query));
      b := b + [query[i]];
      if query[i] == '*' && i + 1 < |query| && query[i + 1] == '/' {
        TokenRestStep(query, i + 1, e, n);
        Written(b, [query[i + 1]], TokenRest(query, i + 2, e, n), Rebound(query));
        b := b + [query[i + 1]];
        i := i + 1;
        return;
      }
      i := i + 1;
    }
  }

  /** The index loop of the source, byte by byte. */
  method Rebind(query: string) returns (b: string)
    ensures b == Rebound(query)
  {
    hide Lex, FirstToken, Numbered, TokenRest, Numeral;
    b := "";
    var inStr := false;
    var n := 1;
    var i := 0;
    assert query[0..] == query;
    while i < |query|
      invariant ScanInvariant(query, b, i, inStr, n)
      decreases |query| + 1 - i
    {
      var c := query[i];
      if inStr {
        RemainingInLiteral(query, i, n);
        if c == '\'' {
          if i + 1 < |query| && query[i + 1] == '\'' {
            Written(b, [c], [query[i + 1]] + Remaining(query, i + 2, true, n), Rebound(query));
            b := b + [c];
            Written(b, [query[i + 1]], Remaining(query, i + 2, true, n), Rebound(query));
            b := b + [query[i + 1]];
            i := i + 2;
            continue;
          }
          if i > 0 && query[i - 1] == '\\' {
            Written(b, [c], Remaining(query, i + 1, true, n), Rebound(query));
            b := b + [c];
            i := i + 1;
            continue;
          }
          inStr := false;
        }
        Written(b, [c], Remaining(query, i + 1, inStr, n), Rebound(query));
        b := b + [c];
      } else if c == '\'' {
        RemainingQuote(query, i, n);
        inStr := true;
        Written(b, [c], Remaining(query, i + 1, inStr, n), Rebound(query));
        b := b + [c];
      } else if c == '-' && i + 1 < |query| && query[i + 1] == '-' {
        b, i := CopyLine(query, i, b, n);
      } else if c == '/' && i + 1 < |query| && query[i + 1] == '*' {
        b, i := CopyBlock(query, i, b, n);
      } else {
        RemainingByte(query, i, n);
        if c == '?' {
          Written(b, "$" + Numeral(n), Remaining(query, i + 1, false, n + 1), Rebound(query));
          b := b + ("$" + Numeral(n));
          n := n + 1;
        } else {
          Written(b, [c], Remaining(query, i + 1, false, n), Rebound(query));
          b := b + [c];
        }
      }
      i := i + 1;
    }
    RemainingEnd(query, inStr, n);
  }
}
