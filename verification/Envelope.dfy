/**
 * JSON-RPC envelopes (runtime/internal/mcp/protocol.go:63-118, transport.go:229-270): what the transport
 * writes for each kind of message, how the peer's dispatch classifies the line, and that concurrent writers'
 * messages arrive whole, in order, and as the kinds they were sent as (JSON-RPC 2.0, sections 4, 4.1 and 5).
 */
module Envelope {
  import opened Wrappers
  import opened Strings
  import opened Decimal
  import J = Json
  import opened Framing

  datatype RpcError = RpcError(code: int, message: string, data: Option<J.Json>)

  /** What the transport sends: a request, a notification, or one of the two responses. */
  datatype Message =
    | Call(id: J.Json, name: string, params: Option<J.Json>)
    | Note(name: string, params: Option<J.Json>)
    | Success(id: J.Json, result: Option<J.Json>)
    | Failed(id: J.Json, error: RpcError)

  /** What dispatch makes of a line. */
  datatype Dispatched =
    | Malformed
    | Unrecognized
    | ToCaller(id: J.Json, result: Option<J.Json>, error: Option<RpcError>)
    | ToHandler(id: J.Json, name: string, params: Option<J.Json>)
    | ToNotification(name: string, params: Option<J.Json>)

  const MIN_INT: int := -0x8000_0000_0000_0000
  const MAX_INT: int := 0x7FFF_FFFF_FFFF_FFFF

  // ---------------------------------------------------------------- writing

  function IntText(n: int): string {
    if n < 0 then "-" + Numeral(-n) else Numeral(n)
  }

  function ErrorJson(e: RpcError): J.Json {
    J.Object(map["code" := J.Number(IntText(e.code)), "message" := J.String(e.message)]
             + if e.data.Some? then map["data" := e.data.value] else map[])
  }

  /** The members of the envelope; an absent value leaves its member out. */
  function Members(m: Message): map<string, J.Json> {
    map["jsonrpc" := J.String("2.0")] +
    match m
    case Call(id, name, params) =>
      map["id" := id, "method" := J.String(name)] + if params.Some? then map["params" := params.value] else map[]
    case Note(name, params) =>
      map["method" := J.String(name)] + if params.Some? then map["params" := params.value] else map[]
    case Success(id, result) => map["id" := id] + if result.Some? then map["result" := result.value] else map[]
    case Failed(id, error) => map["id" := id, "error" := ErrorJson(error)]
  }

  /** The order of the fields in the structs that are marshalled. */
  function Keys(m: Message): seq<string> {
    match m
    case Call(_, _, params) => ["jsonrpc", "id", "method"] + if params.Some? then ["params"] else []
    case Note(_, params) => ["jsonrpc", "method"] + if params.Some? then ["params"] else []
    case Success(_, result) => ["jsonrpc", "id"] + if result.Some? then ["result"] else []
    case Failed(_, _) => ["jsonrpc", "id", "error"]
  }

  lemma KeysAreMembers(m: Message)
    ensures J.KeySet(Keys(m)) == Members(m).Keys && J.Distinct(Keys(m))
  {
    KeysDistinct(m);
    var keys := Keys(m);
    forall k | k in Members(m) ensures k in keys {
      KeyListed(m, k);
    }
    hide J.Distinct, ErrorJson;
  }

  lemma KeyListed(m: Message, k: string)
    requires k in Members(m)
    ensures k in Keys(m)
  {
    hide ErrorJson;
    assert k == "jsonrpc" || k == "id" || k == "method" || k == "params" || k == "result" || k == "error";
  }

  lemma KeysDistinct(m: Message)
    ensures J.Distinct(Keys(m))
  {
    assert "jsonrpc"[0] == 'j' && "id"[0] == 'i' && "method"[0] == 'm' && "params"[0] == 'p';
    assert "result"[0] == 'r' && "error"[0] == 'e';
  }

  ghost function Text(m: Message): string {
    KeysAreMembers(m);
    "{" + J.PrintMembers(J.Object(Members(m)), Keys(m), 0)
  }

  // ---------------------------------------------------------------- the text of an envelope

  /** A member with a plain name. */
  function Member(name: string, value: string): string {
    "\"" + (name + ("\":" + value))
  }

  predicate Plain(s: string) {
    forall i :: 0 <= i < |s| ==> 'a' <= s[i] <= 'z'
  }

  lemma {:induction false} PlainEscapes(s: string)
    requires Plain(s)
    ensures J.EscapeAll(s) == s
  {
    if s != "" {
      PlainEscapes(s[1..]);
    }
  }

  lemma MemberIs(name: string, v: J.Json)
    requires Plain(name)
    ensures J.Quote(name) + (":" + J.Print(v)) == Member(name, J.Print(v))
  {
    PlainEscapes(name);
    hide J.Print, J.EscapeAll;
    var text := J.Print(v);
    Assoc("\"", name, "\"");
    assert J.Quote(name) == "\"" + (name + "\"");
    Assoc("\"", name + "\"", ":" + text);
    Assoc(name, "\"", ":" + text);
    assert "\"" + (":" + text) == "\":" + text;
  }

  /** The members' texts, in the order in which they are written. */
  ghost function Parts(m: Message): seq<string> {
    match m
    case Call(id, name, params) =>
      [Member("jsonrpc", J.Print(J.String("2.0"))), Member("id", J.Print(id)), Member("method", J.Print(J.String(name)))]
      + if params.Some? then [Member("params", J.Print(params.value))] else []
    case Note(name, params) =>
      [Member("jsonrpc", J.Print(J.String("2.0"))), Member("method", J.Print(J.String(name)))]
      + if params.Some? then [Member("params", J.Print(params.value))] else []
    case Success(id, result) =>
      [Member("jsonrpc", J.Print(J.String("2.0"))), Member("id", J.Print(id))]
      + if result.Some? then [Member("result", J.Print(result.value))] else []
    case Failed(id, error) =>
      [Member("jsonrpc", J.Print(J.String("2.0"))), Member("id", J.Print(id)), Member("error", J.Print(ErrorJson(error)))]
  }

  /**
   * The envelope on the wire: the version 2.0, then the id unless it is a notification, then the method with its
   * parameters, the result or the error, whichever the message has, and nothing else.
   */
  lemma TextIs(m: Message)
    ensures Text(m) == "{" + (J.Joined(Parts(m), 0) + "}")
  {
    var v, keys := J.Object(Members(m)), Keys(m);
    KeysAreMembers(m);
    PlainNames();
    forall k | 0 <= k < |keys|
      ensures keys[k] in v.members && Parts(m)[k] == J.Quote(keys[k]) + (":" + J.Print(v.members[keys[k]]))
    {
      PartIs(m, k);
    }
    hide J.Print, J.Quote, J.PrintMembers, J.Joined, Members, Member, ErrorJson;
    J.MembersJoined(v, keys, Parts(m), 0);
  }

  lemma PlainNames()
    ensures Plain("jsonrpc") && Plain("id") && Plain("method") && Plain("params") && Plain("result") && Plain("error")
  {
  }

  lemma PartIs(m: Message, k: nat)
    requires k < |Keys(m)|
    ensures |Parts(m)| == |Keys(m)| && Keys(m)[k] in Members(m)
    ensures Parts(m)[k] == J.Quote(Keys(m)[k]) + (":" + J.Print(Members(m)[Keys(m)[k]]))
  {
    hide J.Print, J.Quote, ErrorJson, Member;
    PlainNames();
    MemberIs(Keys(m)[k], Members(m)[Keys(m)[k]]);
  }

  predicate WellFormedIf(v: Option<J.Json>) {
    v.Some? ==> J.WellFormed(v.value)
  }

  /** Values are JSON, codes are machine integers, and an absent datum is not written as null. */
  predicate Proper(m: Message) {
    match m
    case Call(id, _, params) => J.WellFormed(id) && WellFormedIf(params)
    case Note(_, params) => WellFormedIf(params)
    case Success(id, result) => J.WellFormed(id) && WellFormedIf(result)
    case Failed(id, e) =>
      J.WellFormed(id) && WellFormedIf(e.data) && MIN_INT <= e.code <= MAX_INT && e.data != Some(J.Null)
  }

  // ---------------------------------------------------------------- dispatching

  /** A string field of the envelope: absent and null both read as empty, anything else is an error. */
  function TextField(members: map<string, J.Json>, k: string): Option<string> {
    if k !in members || members[k].Null? then Some("")
    else if members[k].String? then Some(members[k].text)
    else None
  }

  function RawField(members: map<string, J.Json>, k: string): Option<J.Json> {
    if k in members then Some(members[k]) else None
  }

  predicate AllDigits(s: string) {
    forall i :: 0 <= i < |s| ==> IsDigit(s[i])
  }

  /** The integer a number literal denotes, if it is written as one and fits. */
  function IntOf(literal: string): Option<int> {
    var digits := if At(literal, 0, '-') then literal[1..] else literal;
    if digits == "" || !AllDigits(digits) then None
    else
      var size: int := NumeralValue(digits);
      var n := if At(literal, 0, '-') then -size else size;
      if MIN_INT <= n <= MAX_INT then Some(n) else None
  }

  function CodeField(members: map<string, J.Json>): Option<int> {
    if "code" !in members || members["code"].Null? then Some(0)
    else if members["code"].Number? then IntOf(members["code"].literal)
    else None
  }

  datatype ErrorField = NoError | BadError | HasError(error: RpcError)

  function ReadError(members: map<string, J.Json>): ErrorField {
    if "error" !in members || members["error"].Null? then NoError
    else if !members["error"].Object? then BadError
    else
      var e := members["error"].members;
      match CodeField(e)
      case None => BadError
      case Some(code) =>
        match TextField(e, "message")
        case None => BadError
        case Some(message) =>
          HasError(RpcError(code, message, if "data" in e && !e["data"].Null? then Some(e["data"]) else None))
  }

  function Probe(members: map<string, J.Json>): Dispatched {
    if TextField(members, "jsonrpc").None? || TextField(members, "method").None? || ReadError(members).BadError?
    then Malformed
    else
      var hasId := "id" in members && !members["id"].Null?;
      var name := TextField(members, "method").value;
      var error := ReadError(members);
      if ("result" in members || error.HasError?) && hasId then
        ToCaller(members["id"], RawField(members, "result"), if error.HasError? then Some(error.error) else None)
      else if name != "" && hasId then ToHandler(members["id"], name, RawField(members, "params"))
      else if name != "" then ToNotification(name, RawField(members, "params"))
      else Unrecognized
  }

  function Dispatch(line: string): Dispatched {
    match J.Parse(line)
    case Bad => Malformed
    case Got(v, _) =>
      if v.Null? then Unrecognized
      else if !v.Object? then Malformed
      else Probe(v.members)
  }

  /** A member that is there and not null. */
  predicate Given(members: map<string, J.Json>, name: string) {
    name in members && !members[name].Null?
  }

  /** A text that is absent, null or a string. */
  predicate TextOrNone(members: map<string, J.Json>, name: string) {
    Given(members, name) ==> members[name].String?
  }

  /**
   * What is made of any object: one with an id and a result or an error is for a caller, even if it names a
   * method; another with an id and a method is a request, one with a method alone a notification, and the rest is
   * not recognized.
   */
  lemma ObjectDispatched(line: string, members: map<string, J.Json>)
    requires J.Parse(line) == J.Got(J.Object(members), "")
    ensures var d := Dispatch(line);
            var named := Given(members, "method") && members["method"] != J.String("");
            var answers := Given(members, "id") && ("result" in members || Given(members, "error"));
            && (d.Malformed? <==> !TextOrNone(members, "jsonrpc") || !TextOrNone(members, "method") || ReadError(members).BadError?)
            && (!d.Malformed? ==>
                 && (d.ToCaller? <==> answers)
                 && (d.ToHandler? <==> !answers && named && Given(members, "id"))
                 && (d.ToNotification? <==> !answers && named && !Given(members, "id")))
            && (d.ToCaller? ==> d.id == members["id"])
            && (d.ToHandler? ==> d.id == members["id"] && J.String(d.name) == members["method"])
            && (d.ToNotification? ==> J.String(d.name) == members["method"])
  {
    hide J.Parse;
    ErrorGiven(members);
    hide ReadError;
  }

  lemma ErrorGiven(members: map<string, J.Json>)
    ensures ReadError(members).NoError? <==> !Given(members, "error")
  {
    hide CodeField, TextField;
  }

  // ---------------------------------------------------------------- classification

  function Meant(m: Message): Dispatched {
    match m
    case Call(id, name, params) => ToHandler(id, name, params)
    case Note(name, params) => ToNotification(name, params)
    case Success(id, result) => ToCaller(id, result, None)
    case Failed(id, error) => ToCaller(id, None, Some(error))
  }

  /** A caller can check this before sending: the id is not null, the method is named, a result is there. */
  predicate Classifiable(m: Message) {
    match m
    case Call(id, name, _) => !id.Null? && name != ""
    case Note(name, _) => name != ""
    case Success(id, result) => !id.Null? && result.Some?
    case Failed(id, _) => !id.Null?
  }

  lemma IntIsNumber(n: int)
    ensures J.IsNumber(IntText(n))
  {
    var size := if n < 0 then -n else n;
    NumeralFirst(size);
    hide Numeral, J.IsNumber;
    J.IntegerNumber(Numeral(size), IntText(n));
  }

  lemma IntReads(n: int)
    requires MIN_INT <= n <= MAX_INT
    ensures IntOf(IntText(n)) == Some(n)
  {
    hide Numeral, NumeralValue;
    if n < 0 {
      NumeralRoundTrip(-n);
      assert ("-" + Numeral(-n))[1..] == Numeral(-n);
    } else {
      NumeralRoundTrip(n);
    }
  }

  lemma ErrorReads(m: Message)
    requires m.Failed? && Proper(m)
    ensures ReadError(Members(m)) == HasError(m.error)
    ensures J.WellFormed(ErrorJson(m.error))
  {
    var x := ErrorJson(m.error).members;
    assert "error" in Members(m) && Members(m)["error"] == ErrorJson(m.error);
    hide Members;
    ErrorMembers(m.error);
    ErrorWellFormed(m.error);
    hide ErrorJson, J.WellFormed;
    IntReads(m.error.code);
    hide IntOf, IntText;
    assert CodeField(x) == Some(m.error.code) && TextField(x, "message") == Some(m.error.message);
  }

  /** The members of an error object. */
  lemma ErrorMembers(e: RpcError)
    ensures var x := ErrorJson(e).members;
            && "code" in x && x["code"] == J.Number(IntText(e.code))
            && "message" in x && x["message"] == J.String(e.message)
            && ("data" in x <==> e.data.Some?) && (e.data.Some? ==> x["data"] == e.data.value)
            && (forall k :: k in x ==> k == "code" || k == "message" || k == "data")
  {
    hide IntText;
    assert "code"[0] == 'c' && "message"[0] == 'm' && "data"[0] == 'd';
  }

  lemma ErrorWellFormed(e: RpcError)
    requires WellFormedIf(e.data)
    ensures J.WellFormed(ErrorJson(e))
  {
    ErrorMembers(e);
    IntIsNumber(e.code);
    assert ErrorJson(e).Object?;
    var x := ErrorJson(e).members;
    hide ErrorJson, IntText, J.IsNumber;
    forall k | k in x ensures J.WellFormed(x[k]) {
    }
  }

  lemma MembersWellFormed(m: Message)
    requires Proper(m)
    ensures J.WellFormed(J.Object(Members(m)))
  {
    hide ErrorJson, ReadError, J.IsNumber;
    if m.Failed? {
      ErrorReads(m);
    }
    var x := Members(m);
    forall k | k in x ensures J.WellFormed(x[k]) {
      assert k == "jsonrpc" || k == "id" || k == "method" || k == "params" || k == "result" || k == "error";
    }
    hide Members;
  }

  lemma TextParses(m: Message)
    requires Proper(m)
    ensures J.Parse(Text(m)) == J.Got(J.Object(Members(m)), "")
  {
    hide Members, Keys, J.ReadMembers, J.PrintMembers, J.ReadItems, J.ReadChars, J.Listed, J.WellFormed;
    KeysAreMembers(m);
    MembersWellFormed(m);
    var v, keys := J.Object(Members(m)), Keys(m);
    J.MembersRead(v, keys, 0, "");
    J.ListedAll(v, keys);
    var s := Text(m);
    assert s[0] == '{' && s[1..] == J.PrintMembers(v, keys, 0) + "";
  }

  /** What dispatch makes of a message: what was meant if it is classifiable, otherwise nothing or a notification. */
  function Read(m: Message): Dispatched {
    if Classifiable(m) then Meant(m)
    else if m.Call? && m.name != "" then ToNotification(m.name, m.params)
    else Unrecognized
  }

  lemma CallProbes(m: Message)
    requires m.Call?
    ensures Probe(Members(m)) == Read(m)
  {
    var x := Members(m);
    assert "error" !in x && "result" !in x && x["id"] == m.id && x["method"] == J.String(m.name);
    assert RawField(x, "params") == m.params && x["jsonrpc"] == J.String("2.0");
    hide Members, RawField;
  }

  lemma NoteProbes(m: Message)
    requires m.Note?
    ensures Probe(Members(m)) == Read(m)
  {
    var x := Members(m);
    assert "error" !in x && "result" !in x && "id" !in x && x["method"] == J.String(m.name);
    assert RawField(x, "params") == m.params && x["jsonrpc"] == J.String("2.0");
    hide Members, RawField;
  }

  lemma SuccessProbes(m: Message)
    requires m.Success?
    ensures Probe(Members(m)) == Read(m)
  {
    var x := Members(m);
    assert "error" !in x && "method" !in x && x["id"] == m.id && ("result" in x <==> m.result.Some?);
    assert RawField(x, "result") == m.result && x["jsonrpc"] == J.String("2.0");
    hide Members, RawField;
  }

  lemma FailedProbes(m: Message)
    requires m.Failed? && Proper(m)
    ensures Probe(Members(m)) == Read(m)
  {
    ErrorReads(m);
    FailedMembers(m);
    hide ErrorJson, ReadError, Proper, Members, J.WellFormed;
  }

  lemma FailedMembers(m: Message)
    requires m.Failed?
    ensures var x := Members(m);
            "result" !in x && "method" !in x && "id" in x && x["id"] == m.id && "jsonrpc" in x && x["jsonrpc"] == J.String("2.0")
  {
    hide ErrorJson;
  }

  /** Dispatch reads every message as what it was sent as, exactly when it is classifiable. */
  lemma DispatchClassifies(m: Message)
    requires Proper(m)
    ensures Dispatch(Text(m)) == Read(m)
    ensures Dispatch(Text(m)) == Meant(m) <==> Classifiable(m)
  {
    hide Text, J.Parse, Members, Probe, Proper;
    TextParses(m);
    match m {
      case Call(_, _, _) => CallProbes(m);
      case Note(_, _) => NoteProbes(m);
      case Success(_, _) => SuccessProbes(m);
      case Failed(_, _) => FailedProbes(m);
    }
  }

  /** A parse error is answered with a null id, which the peer does not recognise as a response. */
  lemma ParseErrorIsDropped(message: string)
    ensures Dispatch(Text(Failed(J.Null, RpcError(-32700, message, None)))) == Unrecognized
  {
    DispatchClassifies(Failed(J.Null, RpcError(-32700, message, None)));
    hide Dispatch, Text;
  }

  // ---------------------------------------------------------------- one line each

  predicate Clean(s: string) {
    forall i :: 0 <= i < |s| ==> s[i] >= ' '
  }

  lemma {:induction false} QuoteClean(s: string)
    ensures Clean(J.EscapeAll(s))
  {
    if s != "" {
      QuoteClean(s[1..]);
      EscapeClean(s[0]);
      hide J.Escape;
    }
  }

  lemma QuotedClean(s: string)
    ensures Clean(J.Quote(s))
  {
    QuoteClean(s);
    hide J.EscapeAll;
  }

  lemma EscapeClean(c: char)
    ensures Clean(J.Escape(c))
  {
  }

  /** Printed JSON holds no control character, so none that would end or alter a line. */
  lemma {:induction false} PrintClean(v: J.Json)
    requires J.WellFormed(v)
    ensures Clean(J.Print(v))
    decreases v, 2
  {
    match v
    case Number(literal) => J.NumberChars(literal);
    case String(text) => QuotedClean(text);
    case Array(items) => ItemsClean(v, 0);
    case Object(members) => MembersClean(v, J.SortedKeys(members.Keys), 0);
    case _ =>
  }

  lemma {:induction false} ItemsClean(v: J.Json, i: nat)
    requires v.Array? && J.WellFormed(v) && i <= |v.items|
    ensures Clean(J.PrintItems(v, i))
    decreases v, 0, |v.items| - i
  {
    if i < |v.items| {
      J.ItemWellFormed(v, i);
      PrintClean(v.items[i]);
      ItemsClean(v, i + 1);
    }
  }

  lemma {:induction false} MembersClean(v: J.Json, keys: seq<string>, i: nat)
    requires v.Object? && J.WellFormed(v) && J.KeySet(keys) <= v.members.Keys && i <= |keys|
    ensures Clean(J.PrintMembers(v, keys, i))
    decreases v, 0, |keys| - i
  {
    if i < |keys| {
      assert keys[i] in J.KeySet(keys);
      QuotedClean(keys[i]);
      PrintClean(v.members[keys[i]]);
      MembersClean(v, keys, i + 1);
      hide J.Print, J.EscapeAll, J.KeySet, Clean, J.WellFormed;
      var p, rest := J.Print(v.members[keys[i]]), J.PrintMembers(v, keys, i + 1);
      CleanPair(J.Quote(keys[i]), p, rest);
      assert Clean(J.Comma(i)) by {
        CleanComma(i);
      }
      CleanAppend(J.Comma(i), J.Quote(keys[i]) + (":" + (p + rest)));
    }
  }

  lemma CleanComma(i: nat)
    ensures Clean(J.Comma(i))
  {
  }

  lemma CleanAppend(a: string, b: string)
    requires Clean(a) && Clean(b)
    ensures Clean(a + b)
  {
  }

  lemma CleanPair(k: string, p: string, rest: string)
    requires Clean(k) && Clean(p) && Clean(rest)
    ensures Clean(k + (":" + (p + rest)))
  {
    CleanAppend(p, rest);
    CleanAppend(":", p + rest);
    CleanAppend(k, ":" + (p + rest));
  }

  lemma TextIsOneLine(m: Message)
    requires Proper(m)
    ensures OneLine(Text(m))
  {
    hide Members, Keys, J.PrintMembers, J.WellFormed;
    KeysAreMembers(m);
    MembersWellFormed(m);
    MembersClean(J.Object(Members(m)), Keys(m), 0);
  }

  ghost function Texts(ms: seq<Message>): seq<string> {
    seq(|ms|, i requires 0 <= i < |ms| => Text(ms[i]))
  }

  /**
   * For any interleaving of concurrent writers whose messages fit the limit, the peer's lines are the
   * messages in lock order, and dispatch reads each as what it was sent as.
   */
  lemma MessagesArrive(ms: seq<Message>, steps: seq<Step>, t: Wire)
    requires Runs(QUIET, steps, t) && (forall step :: step in steps ==> Succeeds(step)) && t.holder.Free?
    requires t.locked == Texts(ms)
    requires forall i :: 0 <= i < |ms| ==> Proper(ms[i]) && Classifiable(ms[i]) && |Text(ms[i])| < MAX_TOKEN
    ensures Scan(t.stream) == Scanned(Texts(ms), false)
    ensures forall i :: 0 <= i < |ms| ==> Dispatch(Scan(t.stream).lines[i]) == Meant(ms[i])
  {
    hide Dispatch, Text, Scan, Runs, Proper, Classifiable, Meant, OneLine;
    forall m | m in t.locked ensures OneLine(m) && |m| < MAX_TOKEN {
      var i :| 0 <= i < |ms| && m == Text(ms[i]);
      TextIsOneLine(ms[i]);
    }
    WritersFrame(steps, t);
    forall i | 0 <= i < |ms| ensures Dispatch(Texts(ms)[i]) == Meant(ms[i]) {
      DispatchClassifies(ms[i]);
    }
  }
}
