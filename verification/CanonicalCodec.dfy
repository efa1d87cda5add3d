/** The printer and the strict parser of canonical JSON as loops over a builder and a decoder. */
module CanonicalCodec {
  import opened CanonicalJson
  import opened Strings
  import opened Wrappers

  // ---- Writing is appending ----

  lemma {:induction false} CharsAppend(s: string, rest: string)
    ensures WriteChars(s, rest) == WriteChars(s, "") + rest
    decreases |s|
  {
    if s != "" {
      CharsAppend(s[1..], rest);
      Associate(EscapeChar(s[0]), WriteChars(s[1..], ""), rest);
    }
  }

  lemma AssociateStep(a: string, b: string, c: string, d: string)
    ensures a + (b + c + d) == (a + b + c) + d
  {
  }

  lemma Associate(a: string, b: string, c: string)
    ensures a + (b + c) == (a + b) + c
  {
  }

  /** Writing a value in front of a text puts its canonical text before it. */
  lemma {:induction false} WriteAppends(v: Json, rest: string)
    ensures Write(v, rest) == Encode(v) + rest
    decreases v, 1, 0
  {
    match v {
      case Str(s) =>
        CharsAppend(s, rest);
        Associate("\"", WriteChars(s, ""), rest);
      case Arr(items) =>
        ItemsAppend(v, 0, rest);
        Associate("[", WriteItems(v, 0, ""), rest);
      case Obj(fields) =>
        var keys := SortedKeys(fields.Keys);
        MembersAppend(v, keys, 0, rest);
        Associate("{", WriteMembers(v, keys, 0, ""), rest);
      case _ =>
    }
  }

  lemma {:induction false} ItemsAppend(v: Json, i: nat, rest: string)
    requires v.Arr? && i <= |v.items|
    ensures WriteItems(v, i, rest) == WriteItems(v, i, "") + rest
    decreases v, 0, |v.items| - i
  {
    if i < |v.items| {
      var sep, item, tail := if i > 0 then "," else "", Encode(v.items[i]), WriteItems(v, i + 1, "");
      ItemsAppend(v, i + 1, rest);
      WriteAppends(v.items[i], WriteItems(v, i + 1, rest));
      WriteAppends(v.items[i], tail);
      assert sep + (item + (tail + rest)) == (sep + (item + tail)) + rest;
    }
  }

  ghost function MemberText(v: Json, key: string): string
    requires v.Obj? && key in v.fields
  {
    "\"" + WriteChars(key, ":" + Encode(v.fields[key]))
  }

  /** One member, its separator and what follows. */
  lemma MemberSplits(v: Json, keys: seq<string>, i: nat, rest: string)
    requires v.Obj? && Elements(keys) <= v.fields.Keys && i < |keys| && keys[i] in v.fields
    requires Write(v.fields[keys[i]], WriteMembers(v, keys, i + 1, rest))
          == Encode(v.fields[keys[i]]) + WriteMembers(v, keys, i + 1, rest)
    ensures WriteMembers(v, keys, i, rest)
         == (if i > 0 then "," else "") + MemberText(v, keys[i]) + WriteMembers(v, keys, i + 1, rest)
  {
    var sep, key, child, tail := if i > 0 then "," else "", keys[i], Encode(v.fields[keys[i]]),
                                 WriteMembers(v, keys, i + 1, rest);
    CharsAppend(key, ":" + (child + tail));
    CharsAppend(key, ":" + child);
    AssociateMember(sep, WriteChars(key, ""), child, tail);
  }

  lemma AssociateMember(sep: string, chars: string, child: string, tail: string)
    ensures sep + "\"" + (chars + (":" + (child + tail))) == sep + ("\"" + (chars + (":" + child))) + tail
  {
    assert ":" + (child + tail) == (":" + child) + tail;
    var m := chars + (":" + child);
    assert chars + ((":" + child) + tail) == m + tail;
    assert sep + "\"" + (m + tail) == sep + ("\"" + m) + tail;
  }

  lemma {:induction false} MembersAppend(v: Json, keys: seq<string>, i: nat, rest: string)
    requires v.Obj? && Elements(keys) <= v.fields.Keys && i <= |keys|
    ensures WriteMembers(v, keys, i, rest) == WriteMembers(v, keys, i, "") + rest
    decreases v, 0, |keys| - i
  {
    if i < |keys| {
      assert keys[i] in Elements(keys);
      var sep, tail := if i > 0 then "," else "", WriteMembers(v, keys, i + 1, "");
      MembersAppend(v, keys, i + 1, rest);
      WriteAppends(v.fields[keys[i]], WriteMembers(v, keys, i + 1, rest));
      WriteAppends(v.fields[keys[i]], tail);
      MemberSplits(v, keys, i, rest);
      MemberSplits(v, keys, i, "");
      Associate(sep + MemberText(v, keys[i]), tail, rest);
    }
  }

  lemma AssociateText(start: string, chars: string, child: string)
    ensures start + "\"" + chars + ":" + child == start + ("\"" + (chars + (":" + child)))
  {
  }

  // ---- The printer ----

  class Builder {
    var text: string

    constructor ()
      ensures text == ""
    {
      text := "";
    }

    method WriteString(s: string)
      modifies this
      ensures text == old(text) + s
    {
      text := text + s;
    }
  }

  /** `encodeJSONString` */
  method EncodeString(b: Builder, value: string)
    modifies b
    ensures b.text == old(b.text) + "\"" + WriteChars(value, "")
  {
    ghost var start := b.text + "\"";
    b.WriteString("\"");
    for i := 0 to |value|
      invariant b.text + WriteChars(value[i..], "") == start + WriteChars(value, "")
    {
      assert value[i..][0] == value[i] && value[i..][1..] == value[i + 1..];
      Associate(b.text, EscapeChar(value[i]), WriteChars(value[i + 1..], ""));
      b.WriteString(EscapeChar(value[i]));
    }
    assert value[|value|..] == "";
    b.WriteString("\"");
  }

  /** The keys in the order of `sort.Strings`. */
  method KeysInOrder(fields: map<string, Json>) returns (keys: seq<string>)
    ensures keys == SortedKeys(fields.Keys)
  {
    var listed := ListOf(fields.Keys);
    SortDistinct(listed);
    keys := Sort(listed);
    AscendingUnique(keys, SortedKeys(fields.Keys));
  }

  /** `encodeCanonicalValue`: what is appended is the canonical text. */
  method EncodeValue(b: Builder, v: Json)
    modifies b
    ensures b.text == old(b.text) + Encode(v)
    decreases v, 2
  {
    match v {
      case Null => b.WriteString("null");
      case Bool(flag) => b.WriteString(if flag then "true" else "false");
      case Num(text) => b.WriteString(text);
      case Str(s) =>
        EncodeString(b, s);
        Associate(old(b.text), "\"", WriteChars(s, ""));
      case Arr(items) => EncodeItems(b, v);
      case Obj(fields) => EncodeMembers(b, v);
    }
  }

  method EncodeItems(b: Builder, v: Json)
    requires v.Arr?
    modifies b
    ensures b.text == old(b.text) + Encode(v)
    decreases v, 1
  {
    ghost var start := b.text;
    b.WriteString("[");
    Associate(start, "[", WriteItems(v, 0, ""));
    for i := 0 to |v.items|
      invariant b.text + WriteItems(v, i, "") == start + Encode(v)
    {
      ghost var before, sep, item, tail := b.text, if i > 0 then "," else "", Encode(v.items[i]),
                                           WriteItems(v, i + 1, "");
      WriteAppends(v.items[i], tail);
      Associate(sep, item, tail);
      AssociateStep(before, sep, item, tail);
      if i > 0 {
        b.WriteString(",");
      }
      assert b.text == before + sep;
      EncodeValue(b, v.items[i]);
    }
    b.WriteString("]");
  }

  method EncodeMembers(b: Builder, v: Json)
    requires v.Obj?
    modifies b
    ensures b.text == old(b.text) + Encode(v)
    decreases v, 1
  {
    ghost var start := b.text;
    var keys := KeysInOrder(v.fields);
    b.WriteString("{");
    Associate(start, "{", WriteMembers(v, keys, 0, ""));
    for i := 0 to |keys|
      invariant b.text + WriteMembers(v, keys, i, "") == start + Encode(v)
    {
      assert keys[i] in Elements(keys);
      ghost var before, sep, member, tail := b.text, if i > 0 then "," else "", MemberText(v, keys[i]),
                                             WriteMembers(v, keys, i + 1, "");
      WriteAppends(v.fields[keys[i]], tail);
      MemberSplits(v, keys, i, "");
      AssociateStep(before, sep, member, tail);
      if i > 0 {
        b.WriteString(",");
      }
      assert b.text == before + sep;
      EncodeMember(b, v, keys[i]);
    }
    b.WriteString("}");
  }

  method EncodeMember(b: Builder, v: Json, key: string)
    requires v.Obj? && key in v.fields
    modifies b
    ensures b.text == old(b.text) + MemberText(v, key)
    decreases v, 0
  {
    ghost var start := b.text;
    EncodeString(b, key);
    b.WriteString(":");
    EncodeValue(b, v.fields[key]);
    ghost var chars, child := WriteChars(key, ""), Encode(v.fields[key]);
    CharsAppend(key, ":" + child);
    AssociateText(start, chars, child);
  }

  // ---- The parser ----

  class Decoder {
    var rest: string

    constructor (text: string)
      ensures rest == text
    {
      rest := text;
    }

    method SkipSpace()
      modifies this
      ensures rest == Skip(old(rest))
    {
      while rest != "" && Space(rest[0])
        invariant Skip(rest) == Skip(old(rest))
        decreases |rest|
      {
        rest := rest[1..];
      }
    }

    method Take(n: nat)
      requires n <= |rest|
      modifies this
      ensures rest == old(rest)[n..]
    {
      rest := rest[n..];
    }

    /** `strictJSONToken`: succeeds on exactly the texts the grammar accepts, with its value and what is left. */
    method Value() returns (v: Option<Json>)
      modifies this
      ensures v.None? <==> ParseValue(old(rest)).None?
      ensures v.Some? ==> ParseValue(old(rest)) == Some(Parsed(v.value, rest))
      decreases |rest|, 1
    {
      ghost var start := rest;
      SkipSpace();
      if rest == "" {
        return None;
      }
      var c := rest[0];
      if c == '{' {
        Take(1);
        v := Members();
      } else if c == '[' {
        Take(1);
        var items := Elems();
        v := if items.Some? then Some(Arr(items.value)) else None;
      } else {
        v := Leaf();
      }
    }

    /** A string, a literal or a number. */
    method Leaf() returns (v: Option<Json>)
      requires rest != "" && !Space(rest[0]) && rest[0] != '{' && rest[0] != '['
      modifies this
      ensures v.None? <==> ParseValue(old(rest)).None?
      ensures v.Some? ==> ParseValue(old(rest)) == Some(Parsed(v.value, rest))
    {
      var c := rest[0];
      if c == '"' {
        var chars := ParseChars(rest[1..]);
        if chars.None? {
          return None;
        }
        rest := chars.value.rest;
        return Some(Str(chars.value.s));
      }
      var p := if c == 't' then ParseLiteral(rest, "true", Bool(true))
      else if c == 'f' then ParseLiteral(rest, "false", Bool(false))
      else if c == 'n' then ParseLiteral(rest, "null", Null)
      else if c == '-' || IsDigit(c) then ParseNumber(rest)
      else None;
      if p.None? {
        return None;
      }
      rest := p.value.rest;
      v := Some(p.value.value);
    }

    method Elems() returns (items: Option<seq<Json>>)
      modifies this
      ensures items.None? <==> ParseItems(old(rest), true).None?
      ensures items.Some? ==> ParseItems(old(rest), true) == Some(Items(items.value, rest))
      decreases |rest|, 2
    {
      var result: seq<Json> := [];
      var first := true;
      ghost var start := rest;
      JoinedEnds(result, ParseItems(rest, first));
      while true
        invariant |rest| <= |start|
        invariant ParseItems(start, true) == Joined(result, ParseItems(rest, first))
        decreases |rest|
      {
        ghost var before := rest;
        SkipSpace();
        if rest == "" {
          return None;
        }
        if rest[0] == ']' {
          JoinedEnds(result, ParseItems(before, first));
          Take(1);
          return Some(result);
        }
        if !first {
          if rest[0] != ',' {
            return None;
          }
          Take(1);
        }
        ghost var at := rest;
        var child := Value();
        if child.None? {
          return None;
        }
        JoinedStep(result, child.value, ParseItems(rest, false));
        result, first := result + [child.value], false;
      }
    }

    method Members() returns (v: Option<Json>)
      modifies this
      ensures v.None? <==> ParseMembers(old(rest), map[], true).None?
      ensures v.Some? ==> ParseMembers(old(rest), map[], true) == Some(Parsed(v.value, rest))
      decreases |rest|, 2
    {
      var result: map<string, Json> := map[];
      var first := true;
      ghost var start := rest;
      while true
        invariant |rest| <= |start|
        invariant ParseMembers(start, map[], true) == ParseMembers(rest, result, first)
        decreases |rest|
      {
        SkipSpace();
        if rest == "" {
          return None;
        }
        if rest[0] == '}' {
          Take(1);
          return Some(Obj(result));
        }
        if !first {
          if rest[0] != ',' {
            return None;
          }
          Take(1);
          SkipSpace();
        }
        if rest == "" || rest[0] != '"' {
          return None;
        }
        var key := ParseChars(rest[1..]);
        if key.None? || key.value.s in result {
          return None;
        }
        rest := key.value.rest;
        SkipSpace();
        if rest == "" || rest[0] != ':' {
          return None;
        }
        Take(1);
        var child := Value();
        if child.None? {
          return None;
        }
        result, first := result[key.value.s := child.value], false;
      }
    }
  }

  ghost function Joined(read: seq<Json>, more: Option<Items>): Option<Items> {
    if more.Some? then Some(Items(read + more.value.items, more.value.rest)) else None
  }

  lemma JoinedEnds(read: seq<Json>, more: Option<Items>)
    ensures Joined([], more) == more
    ensures more.Some? && more.value.items == [] ==> Joined(read, more) == Some(Items(read, more.value.rest))
  {
    if more.Some? {
      assert [] + more.value.items == more.value.items;
      assert more.value.items == [] ==> read + more.value.items == read;
    }
  }

  lemma JoinedStep(read: seq<Json>, item: Json, more: Option<Items>)
    ensures Joined(read + [item], more) == Joined(read, Joined([item], more))
  {
    if more.Some? {
      assert read + [item] + more.value.items == read + ([item] + more.value.items);
    }
  }

  /** `CanonicalJSON` on raw text. */
  method Canonicalize(raw: string) returns (text: Option<string>)
    ensures text == Canonical(raw)
  {
    var d := new Decoder(raw);
    var v := d.Value();
    if v.None? {
      return None;
    }
    d.SkipSpace();
    if d.rest != "" {
      return None;
    }
    var b := new Builder();
    EncodeValue(b, v.value);
    assert "" + Encode(v.value) == Encode(v.value);
    text := Some(b.text);
  }
}
