/** The canonical encoder of runtime/internal/audit/chain.go, which appends to a shared buffer. */
module Canonical {
  import opened Json
  import opened Strings

  /** bytes.Buffer, as far as the encoder uses it. */
  class Buffer {
    var data: string

    constructor ()
      ensures data == ""
    {
      data := "";
    }

    method WriteString(s: string)
      modifies this
      ensures data == old(data) + s
    {
      data := data + s;
    }
  }

  /** The keys of a map in the order iteration happens to visit them. */
  method VisitKeys(members: map<string, Json>) returns (keys: seq<string>)
    ensures KeySet(keys) == members.Keys
  {
    keys := [];
    var rest := members.Keys;
    while rest != {}
      invariant KeySet(keys) + rest == members.Keys
      decreases rest
    {
      var k :| k in rest;
      AppendKey(keys, k);
      keys := keys + [k];
      rest := rest - {k};
    }
  }

  lemma AppendKey(keys: seq<string>, k: string)
    ensures KeySet(keys + [k]) == KeySet(keys) + {k}
  {
    var all := keys + [k];
    assert all[|keys|] == k;
    forall x | x in keys ensures x in all {
      var i :| 0 <= i < |keys| && keys[i] == x;
      assert all[i] == x;
    }
  }

  /**
   * Appends the canonical text of v, whatever order the maps in it are visited in.
   */
  method WriteCanonical(buf: Buffer, v: Json)
    modifies buf
    ensures buf.data == old(buf.data) + Print(v)
    decreases v, 1
  {
    match v {
      case Null => buf.WriteString("null");
      case Bool(b) =>
        if b {
          buf.WriteString("true");
        } else {
          buf.WriteString("false");
        }
      case Number(literal) => buf.WriteString(literal);
      case String(text) => buf.WriteString(Quote(text));
      case Array(items) => WriteArray(buf, v);
      case Object(members) => WriteObject(buf, v);
    }
  }

  /** The loop over the items of an array. */
  method WriteArray(buf: Buffer, v: Json)
    requires v.Array?
    modifies buf
    ensures buf.data == old(buf.data) + Print(v)
    decreases v, 0
  {
    hide Print, PrintItems, PrintMembers;
    ghost var start := buf.data;
    buf.WriteString("[");
    ItemsStart(start, v);
    for i := 0 to |v.items|
      invariant buf.data + PrintItems(v, i) == start + Print(v)
    {
      ghost var before := buf.data;
      if i > 0 {
        buf.WriteString(",");
      }
      WriteCanonical(buf, v.items[i]);
      ItemWritten(before, buf.data, v, i);
    }
    buf.WriteString("]");
    ItemsEnd(v);
  }

  /** The loops over the keys of an object: collect, sort, write. */
  method WriteObject(buf: Buffer, v: Json)
    requires v.Object?
    modifies buf
    ensures buf.data == old(buf.data) + Print(v)
    decreases v, 0, 1
  {
    hide Print, Sort, Increasing, PrintMembers;
    ghost var start := buf.data;
    var keys := VisitKeys(v.members);
    keys := Sort(keys);
    buf.WriteString("{");
    MembersStart(start, v, keys);
    WriteMembers(buf, v, keys);
  }

  /** The loop that writes members in the order given, and the closing brace. */
  method WriteMembers(buf: Buffer, v: Json, keys: seq<string>)
    requires v.Object? && KeySet(keys) <= v.members.Keys
    modifies buf
    ensures buf.data == old(buf.data) + PrintMembers(v, keys, 0)
    decreases v, 0, 0
  {
    hide Print, PrintMembers, Quote;
    ghost var start := buf.data;
    for i := 0 to |keys|
      invariant buf.data + PrintMembers(v, keys, i) == start + PrintMembers(v, keys, 0)
    {
      ghost var before := buf.data;
      assert keys[i] in KeySet(keys);
      if i > 0 {
        buf.WriteString(",");
      }
      buf.WriteString(Quote(keys[i]));
      buf.WriteString(":");
      WriteCanonical(buf, v.members[keys[i]]);
      MemberWritten(before, buf.data, v, keys, i);
    }
    buf.WriteString("}");
    MembersEnd(v, keys);
  }

  lemma ItemsStart(start: string, v: Json)
    requires v.Array?
    ensures start + "[" + PrintItems(v, 0) == start + Print(v)
  {
    Assoc(start, "[", PrintItems(v, 0));
  }

  lemma ItemsEnd(v: Json)
    requires v.Array?
    ensures PrintItems(v, |v.items|) == "]"
  {
  }

  /** Any order the keys were visited in gives, once sorted, the members of the canonical text. */
  lemma MembersStart(start: string, v: Json, keys: seq<string>)
    requires v.Object? && Increasing(keys) && KeySet(keys) == v.members.Keys
    ensures start + "{" + PrintMembers(v, keys, 0) == start + Print(v)
  {
    IncreasingUnique(keys, SortedKeys(v.members.Keys));
    Assoc(start, "{", PrintMembers(v, keys, 0));
  }

  lemma MembersEnd(v: Json, keys: seq<string>)
    requires v.Object? && KeySet(keys) <= v.members.Keys
    ensures PrintMembers(v, keys, |keys|) == "}"
  {
  }

  lemma ItemWritten(before: string, after: string, v: Json, i: nat)
    requires v.Array? && i < |v.items|
    requires after == before + Comma(i) + Print(v.items[i])
    ensures after + PrintItems(v, i + 1) == before + PrintItems(v, i)
  {
    var p, q := Print(v.items[i]), PrintItems(v, i + 1);
    Assoc(before + Comma(i), p, q);
    Assoc(before, Comma(i), p + q);
  }

  lemma MemberWritten(before: string, after: string, v: Json, keys: seq<string>, i: nat)
    requires v.Object? && KeySet(keys) <= v.members.Keys && i < |keys| && keys[i] in v.members
    requires after == before + Comma(i) + Quote(keys[i]) + ":" + Print(v.members[keys[i]])
    ensures after + PrintMembers(v, keys, i + 1) == before + PrintMembers(v, keys, i)
  {
    var p, q := Print(v.members[keys[i]]), PrintMembers(v, keys, i + 1);
    assert PrintMembers(v, keys, i) == Comma(i) + (Quote(keys[i]) + (":" + (p + q)));
    hide *;
    var a := before + Comma(i);
    Assoc(a + Quote(keys[i]) + ":", p, q);
    Assoc(a + Quote(keys[i]), ":", p + q);
    Assoc(a, Quote(keys[i]), ":" + (p + q));
    Assoc(before, Comma(i), Quote(keys[i]) + (":" + (p + q)));
  }

  /** canonicalJSON: the text of a value written to a fresh buffer. */
  method CanonicalJson(v: Json) returns (text: string)
    ensures text == Print(v)
  {
    var buf := new Buffer();
    WriteCanonical(buf, v);
    text := buf.data;
  }
}
