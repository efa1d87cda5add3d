/**
 The catalog's canonical JSON: a strict parser and a printer that undo each other.
 Text is a sequence of Unicode scalar values, which is what valid UTF-8 decodes to.
 */
module CanonicalJson {
  import opened Strings
  import opened Wrappers

  datatype Json =
    | Null
    | Bool(b: bool)
    | Num(text: string)
    | Str(s: string)
    | Arr(items: seq<Json>)
    | Obj(fields: map<string, Json>)

  // ---- Characters ----

  predicate Space(c: char) {
    c == ' ' || c == '\t' || c == '\n' || c == '\r'
  }

  function Skip(t: string): (r: string)
    ensures |r| <= |t| && (r != "" ==> !Space(r[0]))
  {
    if t != "" && Space(t[0]) then Skip(t[1..]) else t
  }

  predicate IsDigit(c: char) {
    '0' <= c <= '9'
  }

  predicate IsHex(c: char) {
    IsDigit(c) || 'a' <= c <= 'f' || 'A' <= c <= 'F'
  }

  function HexValue(c: char): (n: nat)
    requires IsHex(c)
    ensures n < 16
  {
    if IsDigit(c) then c as int - '0' as int
    else if 'a' <= c <= 'f' then c as int - 'a' as int + 10
    else c as int - 'A' as int + 10
  }

  function HexDigit(n: nat): (c: char)
    requires n < 16
    ensures IsHex(c) && HexValue(c) == n
  {
    if n < 10 then ('0' as int + n) as char else ('a' as int + n - 10) as char
  }

  /** Does a `\uXXXX` escape stand at position `i`? */
  predicate UnitAt(t: string, i: nat) {
    i + 6 <= |t| && t[i] == '\\' && t[i + 1] == 'u' && IsHex(t[i + 2]) && IsHex(t[i + 3]) && IsHex(t[i + 4])
    && IsHex(t[i + 5])
  }

  function Unit(t: string, i: nat): (n: nat)
    requires UnitAt(t, i)
    ensures n < 0x10000
  {
    HexValue(t[i + 2]) * 4096 + HexValue(t[i + 3]) * 256 + HexValue(t[i + 4]) * 16 + HexValue(t[i + 5])
  }

  const REPLACEMENT: char := '\U{FFFD}'

  /** The character of an escape and how much text it takes; an unpaired surrogate is replaced. */
  function EscapedUnit(t: string): (r: (char, nat))
    requires UnitAt(t, 0)
    ensures r.1 == 6 || (r.1 == 12 && 12 <= |t|)
  {
    var u := Unit(t, 0);
    if u < 0xD800 || 0xE000 <= u then (u as char, 6)
    else if u < 0xDC00 && UnitAt(t, 6) && 0xDC00 <= Unit(t, 6) < 0xE000 then
      ((0x10000 + (u - 0xD800) * 0x400 + (Unit(t, 6) - 0xDC00)) as char, 12)
    else (REPLACEMENT, 6)
  }

  /** The one-letter escapes. */
  function Unescape(c: char): Option<char> {
    if c == '"' then Some('"')
    else if c == '\\' then Some('\\')
    else if c == '/' then Some('/')
    else if c == 'b' then Some(8 as char)
    else if c == 'f' then Some(12 as char)
    else if c == 'n' then Some('\n')
    else if c == 'r' then Some('\r')
    else if c == 't' then Some('\t')
    else None
  }

  // ---- The parser ----

  datatype Chars = Chars(s: string, rest: string)
  datatype Parsed = Parsed(value: Json, rest: string)
  datatype Items = Items(items: seq<Json>, rest: string)

  function Prepend(c: char, r: Option<Chars>): Option<Chars> {
    if r.Some? then Some(Chars([c] + r.value.s, r.value.rest)) else None
  }

  /** A string after its opening quote. */
  function ParseChars(t: string): (r: Option<Chars>)
    ensures r.Some? ==> |r.value.rest| < |t|
    decreases |t|
  {
    if t == "" then None
    else if t[0] == '"' then Some(Chars("", t[1..]))
    else if t[0] as int < 0x20 then None
    else if t[0] != '\\' then Prepend(t[0], ParseChars(t[1..]))
    else if |t| < 2 then None
    else if Unescape(t[1]).Some? then Prepend(Unescape(t[1]).value, ParseChars(t[2..]))
    else if UnitAt(t, 0) then Prepend(EscapedUnit(t).0, ParseChars(t[EscapedUnit(t).1..]))
    else None
  }

  function DigitRun(t: string): (n: nat)
    ensures n <= |t| && forall i :: 0 <= i < n ==> IsDigit(t[i])
    ensures n < |t| ==> !IsDigit(t[n])
  {
    if t != "" && IsDigit(t[0]) then
      var n := DigitRun(t[1..]);
      assert forall i :: 1 <= i < n + 1 ==> t[i] == t[1..][i - 1];
      n + 1
    else 0
  }

  function Magnitude(t: string): string {
    if t != "" && t[0] == '-' then t[1..] else t
  }

  predicate AllDigits(d: string) {
    d != "" && forall i :: 0 <= i < |d| ==> IsDigit(d[i])
  }

  /** The integers that are accepted: no leading zero, no minus zero. */
  predicate IntegerText(t: string) {
    AllDigits(Magnitude(t)) && (Magnitude(t)[0] == '0' ==> Magnitude(t) == "0") && t != "-0"
  }

  lemma NumberText(t: string, sign: nat, n: nat)
    requires sign + n <= |t| && n > 0 && sign == if t[0] == '-' then 1 else 0
    requires n == if t[sign] == '0' then 1 else DigitRun(t[sign..])
    requires t[..sign + n] != "-0"
    ensures IntegerText(t[..sign + n])
  {
    var text, body := t[..sign + n], t[sign..];
    var d := Magnitude(text);
    assert d == body[..n] && body[0] == t[sign];
    assert t[sign] == '0' ==> body[..1] == "0";
  }

  /** A number ends where the grammar ends it; a fraction, an exponent or minus zero is refused. */
  function ParseNumber(t: string): (r: Option<Parsed>)
    ensures r.Some? ==> |r.value.rest| < |t|
    ensures r.Some? ==> r.value.value.Num? && IntegerText(r.value.value.text)
  {
    var sign := if t != "" && t[0] == '-' then 1 else 0;
    var body := t[sign..];
    var n := if body != "" && body[0] == '0' then 1 else DigitRun(body);
    if n == 0 then None
    else
      var text, rest := t[..sign + n], t[sign + n..];
      if rest != "" && (rest[0] == '.' || rest[0] == 'e' || rest[0] == 'E') then None
      else if text == "-0" then None
      else
        NumberText(t, sign, n);
        Some(Parsed(Num(text), rest))
  }

  function ParseLiteral(t: string, word: string, v: Json): (r: Option<Parsed>)
    requires word != ""
    ensures r.Some? ==> |r.value.rest| < |t|
  {
    if word <= t then Some(Parsed(v, t[|word|..])) else None
  }

  /** `strictJSONToken` */
  function ParseValue(t: string): (r: Option<Parsed>)
    ensures r.Some? ==> |r.value.rest| < |t|
    decreases |t|, 0
  {
    var u := Skip(t);
    if u == "" then None
    else if u[0] == '{' then ParseMembers(u[1..], map[], true)
    else if u[0] == '[' then
      match ParseItems(u[1..], true)
      case None => None
      case Some(items) => Some(Parsed(Arr(items.items), items.rest))
    else if u[0] == '"' then
      match ParseChars(u[1..])
      case None => None
      case Some(chars) => Some(Parsed(Str(chars.s), chars.rest))
    else if u[0] == 't' then ParseLiteral(u, "true", Bool(true))
    else if u[0] == 'f' then ParseLiteral(u, "false", Bool(false))
    else if u[0] == 'n' then ParseLiteral(u, "null", Null)
    else if u[0] == '-' || IsDigit(u[0]) then ParseNumber(u)
    else None
  }

  /** The rest of an array: after its bracket, or after an item. */
  function ParseItems(t: string, first: bool): (r: Option<Items>)
    ensures r.Some? ==> |r.value.rest| < |t|
    decreases |t|, 1
  {
    var u := Skip(t);
    if u == "" then None
    else if u[0] == ']' then Some(Items([], u[1..]))
    else if !first && u[0] != ',' then None
    else
      match ParseValue(if first then u else u[1..])
      case None => None
      case Some(item) =>
        match ParseItems(item.rest, false)
        case None => None
        case Some(more) => Some(Items([item.value] + more.items, more.rest))
  }

  /** The rest of an object, with the members read so far; a key that was read before is refused. */
  function ParseMembers(t: string, read: map<string, Json>, first: bool): (r: Option<Parsed>)
    ensures r.Some? ==> |r.value.rest| < |t|
    decreases |t|, 1
  {
    var u := Skip(t);
    if u == "" then None
    else if u[0] == '}' then Some(Parsed(Obj(read), u[1..]))
    else if !first && u[0] != ',' then None
    else
      var k := if first then u else Skip(u[1..]);
      if k == "" || k[0] != '"' then None
      else
        match ParseChars(k[1..])
        case None => None
        case Some(key) =>
          var colon := Skip(key.rest);
          if key.s in read || colon == "" || colon[0] != ':' then None
          else
            match ParseValue(colon[1..])
            case None => None
            case Some(child) => ParseMembers(child.rest, read[key.s := child.value], false)
  }

  /** `strictJSONValue`: one value and nothing but space after it. */
  function Parse(t: string): Option<Json> {
    match ParseValue(t)
    case None => None
    case Some(p) => if Skip(p.rest) == "" then Some(p.value) else None
  }

  // ---- The printer ----

  function EscapeChar(c: char): (r: string)
    ensures r != ""
  {
    if c == '"' || c == '\\' then ['\\', c]
    else if c == 8 as char then "\\b"
    else if c == 12 as char then "\\f"
    else if c == '\n' then "\\n"
    else if c == '\r' then "\\r"
    else if c == '\t' then "\\t"
    else if c as int < 0x20 then "\\u00" + [HexDigit(c as int / 16), HexDigit(c as int % 16)]
    else [c]
  }

  /** The text of a string's characters with its closing quote, in front of `rest`. */
  function WriteChars(s: string, rest: string): string {
    if s == "" then "\"" + rest else EscapeChar(s[0]) + WriteChars(s[1..], rest)
  }

  /** The ascending listing of a set of keys. */
  ghost function SortedKeys(keys: set<string>): (list: seq<string>)
    ensures Ascending(list) && Elements(list) == keys
  {
    HasListing(keys);
    var list :| Ascending(list) && Elements(list) == keys;
    list
  }

  lemma HasListing(keys: set<string>)
    ensures exists list :: Ascending(list) && Elements(list) == keys
  {
    var list := Listing(keys);
    ListingIsDistinct(keys);
    SortDistinct(list);
    assert Ascending(Sort(list)) && Elements(Sort(list)) == keys;
  }

  /** `encodeCanonicalValue`, in front of `rest`. */
  ghost function Write(v: Json, rest: string): string
    decreases v, 1, 0
  {
    match v
    case Null => "null" + rest
    case Bool(b) => (if b then "true" else "false") + rest
    case Num(text) => text + rest
    case Str(s) => "\"" + WriteChars(s, rest)
    case Arr(items) => "[" + WriteItems(v, 0, rest)
    case Obj(fields) => "{" + WriteMembers(v, SortedKeys(fields.Keys), 0, rest)
  }

  ghost function WriteItems(v: Json, i: nat, rest: string): string
    requires v.Arr? && i <= |v.items|
    decreases v, 0, |v.items| - i
  {
    if i == |v.items| then "]" + rest
    else (if i > 0 then "," else "") + Write(v.items[i], WriteItems(v, i + 1, rest))
  }

  /** The members of an object under the listed keys, in that order. */
  ghost function WriteMembers(v: Json, keys: seq<string>, i: nat, rest: string): string
    requires v.Obj? && i <= |keys| && Elements(keys) <= v.fields.Keys
    decreases v, 0, |keys| - i
  {
    if i == |keys| then "}" + rest
    else
      assert keys[i] in Elements(keys);
      (if i > 0 then "," else "") + "\""
      + WriteChars(keys[i], ":" + Write(v.fields[keys[i]], WriteMembers(v, keys, i + 1, rest)))
  }

  ghost function Encode(v: Json): string {
    Write(v, "")
  }

  /** The values the parser can produce: every number is an accepted integer. */
  ghost predicate Valid(v: Json) {
    match v
    case Num(text) => IntegerText(text)
    case Arr(items) => forall i :: 0 <= i < |items| ==> Valid(items[i])
    case Obj(fields) => forall k :: k in fields ==> Valid(fields[k])
    case _ => true
  }

  // ---- Reading back what was written ----

  lemma SkipNothing(t: string)
    requires t != "" && !Space(t[0])
    ensures Skip(t) == t
  {
  }

  lemma EscapedReadsBack(c: char, t: string)
    ensures ParseChars(EscapeChar(c) + t) == Prepend(c, ParseChars(t))
  {
    var text := EscapeChar(c) + t;
    assert text[|EscapeChar(c)|..] == t;
    if c as int < 0x20 && c != 8 as char && c != 12 as char && c != '\n' && c != '\r' && c != '\t' {
      assert UnitAt(text, 0);
      assert Unit(text, 0) == c as int;
    }
  }

  lemma {:induction false} CharsReadBack(s: string, rest: string)
    ensures ParseChars(WriteChars(s, rest)) == Some(Chars(s, rest))
    decreases |s|
  {
    if s == "" {
      assert ("\"" + rest)[1..] == rest;
    } else {
      CharsReadBack(s[1..], rest);
      EscapedReadsBack(s[0], WriteChars(s[1..], rest));
      assert s == [s[0]] + s[1..];
    }
  }

  /** What may follow a value: anything that does not continue a number. */
  predicate Continues(c: char) {
    IsDigit(c) || c == '.' || c == 'e' || c == 'E'
  }

  predicate Follows(v: Json, rest: string) {
    v.Num? && rest != "" ==> !Continues(rest[0])
  }

  lemma DigitRunOf(d: string, rest: string)
    requires forall i :: 0 <= i < |d| ==> IsDigit(d[i])
    requires rest != "" ==> !IsDigit(rest[0])
    ensures DigitRun(d + rest) == |d|
  {
    var t := d + rest;
    var n := DigitRun(t);
    forall i | 0 <= i < |d|
      ensures IsDigit(t[i])
    {
    }
    assert |d| < |t| ==> t[|d|] == rest[0];
  }

  lemma NumberReadsBack(text: string, rest: string)
    requires IntegerText(text) && Follows(Num(text), rest)
    ensures ParseNumber(text + rest) == Some(Parsed(Num(text), rest))
  {
    var t := text + rest;
    var sign := if text[0] == '-' then 1 else 0;
    var d := text[sign..];
    var body := t[sign..];
    assert body == d + rest;
    DigitRunOf(d, rest);
    assert t[..sign + |d|] == text && t[sign + |d|..] == rest;
  }

  /** No written value starts with a space or a delimiter that would end its container. */
  lemma WrittenHead(v: Json, rest: string)
    requires Valid(v)
    ensures Write(v, rest) != "" && !Space(Write(v, rest)[0]) && Write(v, rest)[0] != ']' && Write(v, rest)[0] != '}'
  {
    if v.Num? {
      assert IsDigit(Magnitude(v.text)[0]);
      assert Write(v, rest)[0] == v.text[0];
    }
  }

  /** The fields under the listed keys. */
  ghost function Restrict(fields: map<string, Json>, keys: seq<string>): map<string, Json> {
    map k | k in fields && k in keys :: fields[k]
  }

  /** Writing a value in front of a legal continuation and parsing gives back the value and the continuation. */
  lemma {:induction false} ReadsBack(v: Json, rest: string)
    requires Valid(v) && Follows(v, rest)
    ensures ParseValue(Write(v, rest)) == Some(Parsed(v, rest))
    decreases v, 1, 0
  {
    var t := Write(v, rest);
    WrittenHead(v, rest);
    SkipNothing(t);
    match v {
      case Null => assert t == "null" + rest;
      case Bool(b) => assert t == (if b then "true" else "false") + rest;
      case Num(text) => NumberReadsBack(text, rest);
      case Str(s) =>
        CharsReadBack(s, rest);
        assert t[1..] == WriteChars(s, rest);
      case Arr(items) =>
        ItemsReadBack(v, 0, rest);
        assert t[1..] == WriteItems(v, 0, rest) && items[0..] == items;
      case Obj(fields) =>
        var keys := SortedKeys(fields.Keys);
        assert t[1..] == WriteMembers(v, keys, 0, rest);
        AscendingIsDistinct(keys);
        assert Restrict(fields, keys[..0]) == map[];
        MembersReadBack(v, keys, 0, rest);
        AllFields(fields, keys);
    }
  }

  lemma AllFields(fields: map<string, Json>, keys: seq<string>)
    requires Elements(keys) == fields.Keys
    ensures Restrict(fields, keys) == fields
  {
    assert forall k :: k in fields ==> k in Elements(keys);
    assert Restrict(fields, keys).Keys == fields.Keys;
  }

  lemma {:induction false} ItemsReadBack(v: Json, i: nat, rest: string)
    requires v.Arr? && Valid(v) && i <= |v.items|
    ensures ParseItems(WriteItems(v, i, rest), i == 0) == Some(Items(v.items[i..], rest))
    decreases v, 0, |v.items| - i
  {
    var t := WriteItems(v, i, rest);
    if i == |v.items| {
      SkipNothing(t);
      assert t[1..] == rest && v.items[i..] == [];
    } else {
      var item, more := v.items[i], WriteItems(v, i + 1, rest);
      ItemsReadBack(v, i + 1, rest);
      ItemHead(v, i, rest);
      ReadsBack(item, more);
      ItemsStep(t, i == 0, Parsed(item, more), Items(v.items[i + 1..], rest));
      assert v.items[i..] == [item] + v.items[i + 1..];
    }
  }

  /** One item and the rest of its array. */
  lemma ItemsStep(t: string, first: bool, item: Parsed, more: Items)
    requires t != "" && Skip(t) == t && t[0] != ']' && (!first ==> t[0] == ',')
    requires ParseValue(if first then t else t[1..]) == Some(item) && ParseItems(item.rest, false) == Some(more)
    ensures ParseItems(t, first) == Some(Items([item.value] + more.items, more.rest))
  {
  }

  /** Where the next item starts, and what stands behind it. */
  lemma ItemHead(v: Json, i: nat, rest: string)
    requires v.Arr? && Valid(v) && i < |v.items|
    ensures var t, more := WriteItems(v, i, rest), WriteItems(v, i + 1, rest);
            && t != "" && Skip(t) == t && more != "" && !Continues(more[0])
            && (i == 0 ==> t == Write(v.items[i], more) && t[0] != ']')
            && (i > 0 ==> t[0] == ',' && t[1..] == Write(v.items[i], more))
  {
    var t, more := WriteItems(v, i, rest), WriteItems(v, i + 1, rest);
    WrittenHead(v.items[i], more);
    if i == 0 {
      assert t == "" + Write(v.items[i], more);
    } else {
      assert t == "," + Write(v.items[i], more);
    }
    SkipNothing(t);
  }

  lemma RestrictGrows(fields: map<string, Json>, keys: seq<string>, i: nat)
    requires i < |keys| && keys[i] in fields
    ensures Restrict(fields, keys[..i])[keys[i] := fields[keys[i]]] == Restrict(fields, keys[..i + 1])
    ensures keys[i] in Restrict(fields, keys[..i]) <==> keys[i] in keys[..i]
  {
    assert keys[..i + 1] == keys[..i] + [keys[i]];
    assert Restrict(fields, keys[..i + 1]).Keys == Restrict(fields, keys[..i]).Keys + {keys[i]};
  }

  lemma DistinctGrows(keys: seq<string>, i: nat)
    requires i < |keys| && Distinct(keys[..i])
    ensures keys[i] !in keys[..i] ==> Distinct(keys[..i + 1])
    ensures keys[i] in keys[..i] ==> !Distinct(keys)
  {
    assert keys[..i + 1] == keys[..i] + [keys[i]];
    if keys[i] in keys[..i] {
      var j :| 0 <= j < i && keys[..i][j] == keys[i];
      assert keys[j] == keys[i];
    }
  }

  /** Members are read back in whatever order they stand, and refused as soon as a key repeats. */
  lemma {:induction false} MembersReadBack(v: Json, keys: seq<string>, i: nat, rest: string)
    requires v.Obj? && Valid(v) && Elements(keys) <= v.fields.Keys && i <= |keys| && Distinct(keys[..i])
    ensures ParseMembers(WriteMembers(v, keys, i, rest), Restrict(v.fields, keys[..i]), i == 0)
         == if Distinct(keys) then Some(Parsed(Obj(Restrict(v.fields, keys)), rest)) else None
    decreases v, 0, |keys| - i
  {
    var t, read := WriteMembers(v, keys, i, rest), Restrict(v.fields, keys[..i]);
    if i == |keys| {
      SkipNothing(t);
      assert t[1..] == rest && keys[..i] == keys;
    } else {
      assert keys[i] in Elements(keys);
      var key, more := keys[i], WriteMembers(v, keys, i + 1, rest);
      var child := Write(v.fields[key], more);
      MemberHead(v, keys, i, rest);
      CharsReadBack(key, ":" + child);
      SkipNothing(":" + child);
      assert (":" + child)[1..] == child;
      RestrictGrows(v.fields, keys, i);
      DistinctGrows(keys, i);
      if key !in keys[..i] {
        MembersReadBack(v, keys, i + 1, rest);
        MoreFollows(v, keys, i + 1, rest);
        ReadsBack(v.fields[key], more);
      }
    }
  }

  lemma MoreFollows(v: Json, keys: seq<string>, i: nat, rest: string)
    requires v.Obj? && Elements(keys) <= v.fields.Keys && 0 < i <= |keys|
    ensures var more := WriteMembers(v, keys, i, rest); more != "" && !Continues(more[0])
  {
  }

  /** Where the key of the next member starts. */
  lemma MemberHead(v: Json, keys: seq<string>, i: nat, rest: string)
    requires v.Obj? && Elements(keys) <= v.fields.Keys && i < |keys| && keys[i] in v.fields
    ensures var t := WriteMembers(v, keys, i, rest);
            var chars := WriteChars(keys[i], ":" + Write(v.fields[keys[i]], WriteMembers(v, keys, i + 1, rest)));
            && t != "" && Skip(t) == t && t[0] == (if i == 0 then '"' else ',')
            && (i == 0 ==> t[1..] == chars)
            && (i > 0 ==> Skip(t[1..]) == t[1..] && t[1..] != "" && t[1] == '"' && t[1..][1..] == chars)
  {
    var t := WriteMembers(v, keys, i, rest);
    var chars := WriteChars(keys[i], ":" + Write(v.fields[keys[i]], WriteMembers(v, keys, i + 1, rest)));
    if i > 0 {
      assert t == "," + "\"" + chars;
      assert t[1..] == "\"" + chars;
    } else {
      assert t == "\"" + chars;
    }
  }

  // ---- Every parsed value can be written ----

  ghost predicate AllValid(items: seq<Json>) {
    forall i :: 0 <= i < |items| ==> Valid(items[i])
  }

  ghost predicate FieldsValid(fields: map<string, Json>) {
    forall k :: k in fields ==> Valid(fields[k])
  }

  lemma {:induction false} ParsedIsValid(t: string)
    ensures ParseValue(t).Some? ==> Valid(ParseValue(t).value.value)
    decreases |t|, 0
  {
    var u := Skip(t);
    if u != "" && u[0] == '{' {
      MembersAreValid(u[1..], map[], true);
    } else if u != "" && u[0] == '[' {
      ItemsAreValid(u[1..], true);
    }
  }

  lemma {:induction false} ItemsAreValid(t: string, first: bool)
    ensures ParseItems(t, first).Some? ==> AllValid(ParseItems(t, first).value.items)
    decreases |t|, 1
  {
    var u := Skip(t);
    if u != "" && u[0] != ']' && (first || u[0] == ',') {
      var at := if first then u else u[1..];
      ParsedIsValid(at);
      if ParseValue(at).Some? {
        ItemsAreValid(ParseValue(at).value.rest, false);
      }
    }
  }

  lemma {:induction false} MembersAreValid(t: string, read: map<string, Json>, first: bool)
    requires FieldsValid(read)
    ensures ParseMembers(t, read, first).Some? ==>
              ParseMembers(t, read, first).value.value.Obj?
              && FieldsValid(ParseMembers(t, read, first).value.value.fields)
    decreases |t|, 1
  {
    var u := Skip(t);
    if u != "" && u[0] != '}' && (first || u[0] == ',') {
      var k := if first then u else Skip(u[1..]);
      if k != "" && k[0] == '"' && ParseChars(k[1..]).Some? {
        var key := ParseChars(k[1..]).value;
        var colon := Skip(key.rest);
        if key.s !in read && colon != "" && colon[0] == ':' {
          ParsedIsValid(colon[1..]);
          if ParseValue(colon[1..]).Some? {
            var child := ParseValue(colon[1..]).value;
            MembersAreValid(child.rest, read[key.s := child.value], false);
          }
        }
      }
    }
  }

  // ---- Canonicalisation ----

  /** `CanonicalJSON` on raw text. */
  ghost function Canonical(t: string): Option<string> {
    match Parse(t)
    case None => None
    case Some(v) => Some(Encode(v))
  }

  lemma ParseEncode(v: Json)
    requires Valid(v)
    ensures Parse(Encode(v)) == Some(v)
  {
    ReadsBack(v, "");
  }

  /** Canonical text is its own canonical form, and keeps the value. */
  lemma CanonicalIsIdempotent(t: string)
    requires Canonical(t).Some?
    ensures Canonical(Canonical(t).value) == Canonical(t)
    ensures Parse(Canonical(t).value) == Parse(t)
  {
    ParsedIsValid(t);
    ParseEncode(Parse(t).value);
  }

  /** Two texts have the same canonical form exactly when they denote the same value. */
  lemma CanonicalIsInjective(t: string, u: string)
    requires Parse(t).Some? && Parse(u).Some?
    ensures Canonical(t) == Canonical(u) <==> Parse(t) == Parse(u)
  {
    ParsedIsValid(t);
    ParsedIsValid(u);
    ParseEncode(Parse(t).value);
    ParseEncode(Parse(u).value);
  }

  /** An object text whose members repeat a key is refused, wherever the repetition is. */
  lemma RepeatedKeyIsRefused(fields: map<string, Json>, keys: seq<string>, rest: string)
    requires Valid(Obj(fields)) && Elements(keys) <= fields.Keys && !Distinct(keys)
    ensures ParseValue("{" + WriteMembers(Obj(fields), keys, 0, rest)).None?
  {
    var v := Obj(fields);
    var t := "{" + WriteMembers(v, keys, 0, rest);
    assert t[1..] == WriteMembers(v, keys, 0, rest);
    assert Restrict(fields, keys[..0]) == map[];
    MembersReadBack(v, keys, 0, rest);
  }

  /** The order of the members in a text does not matter. */
  lemma MemberOrderIsIrrelevant(fields: map<string, Json>, keys: seq<string>)
    requires Valid(Obj(fields)) && Elements(keys) == fields.Keys && Distinct(keys)
    ensures Canonical("{" + WriteMembers(Obj(fields), keys, 0, "")) == Some(Encode(Obj(fields)))
  {
    var v := Obj(fields);
    var t := "{" + WriteMembers(v, keys, 0, "");
    assert t[1..] == WriteMembers(v, keys, 0, "");
    assert Restrict(fields, keys[..0]) == map[];
    MembersReadBack(v, keys, 0, "");
    AllFields(fields, keys);
  }
}
