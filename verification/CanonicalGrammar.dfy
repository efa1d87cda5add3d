/**
 The strict grammar that the parser accepts, as a relation between texts and values: integers
 only, no key twice, and nothing but space around the parts.
 */
module CanonicalGrammar {
  import opened CanonicalJson
  import opened CanonicalStrings
  import opened Wrappers

  predicate Blanks(w: string) {
    forall i :: 0 <= i < |w| ==> w[i] in {' ', '\t', '\n', '\r'}
  }

  predicate Digits(d: string) {
    d != "" && forall i :: 0 <= i < |d| ==> d[i] in "0123456789"
  }

  /** A magnitude has no leading zero. */
  predicate IsMagnitude(d: string) {
    d == "0" || (Digits(d) && d[0] != '0')
  }

  /** An integer, without minus zero. */
  predicate IsInteger(text: string) {
    IsMagnitude(text) || (text != "" && text[0] == '-' && IsMagnitude(text[1..]) && text != "-0")
  }

  /** A number takes all the digits it can, and is no fraction and has no exponent. */
  predicate EndsNumber(text: string, rest: string) {
    rest != "" ==> rest[0] !in {'.', 'e', 'E'} && (text == "0" || rest[0] !in "0123456789")
  }

  /** Blanks, and then the rest of the text. */
  ghost predicate After(t: string, u: string) {
    exists w :: t == w + u && Blanks(w)
  }

  datatype Member = Member(key: string, value: Json)

  /** The text starts with the value, blanks before it included, and goes on with the rest. */
  ghost predicate Denotes(t: string, j: Json, rest: string)
    decreases |t|, 1
  {
    exists u :: |u| <= |t| && After(t, u) && Starts(u, j, rest)
  }

  ghost predicate Starts(u: string, j: Json, rest: string)
    decreases |u|, 0
  {
    match j
    case Null => u == "null" + rest
    case Bool(b) => u == (if b then "true" else "false") + rest
    case Num(text) => u == text + rest && IsInteger(text) && EndsNumber(text, rest)
    case Str(s) => u != "" && u[0] == '"' && SpellsString(u[1..], s, rest)
    case Arr(items) => u != "" && u[0] == '[' && DenotesItems(u[1..], items, true, rest)
    case Obj(fields) =>
      && u != "" && u[0] == '{'
      && exists members :: DenotesMembers(u[1..], members, true, rest) && Unrepeated({}, members)
                           && fields == Gathered(map[], members)
  }

  /** Items up to the closing bracket, with commas between them. */
  ghost predicate DenotesItems(t: string, items: seq<Json>, first: bool, rest: string)
    decreases |t|, 2
  {
    if items == [] then After(t, "]" + rest)
    else
      exists u, next :: |u| <= |t| && |next| < |u| && After(t, if first then u else "," + u)
                        && Denotes(u, items[0], next) && DenotesItems(next, items[1..], false, rest)
  }

  /** A key, a colon and a value. */
  ghost predicate DenotesMember(t: string, m: Member, rest: string)
    decreases |t|, 2
  {
    exists quoted, colon, value ::
      && After(t, "\"" + quoted) && SpellsString(quoted, m.key, colon)
      && |value| < |t| && After(colon, ":" + value) && Denotes(value, m.value, rest)
  }

  ghost predicate DenotesMembers(t: string, members: seq<Member>, first: bool, rest: string)
    decreases |t|, 3
  {
    if members == [] then After(t, "}" + rest)
    else
      exists u, next :: |u| <= |t| && |next| < |u| && After(t, if first then u else "," + u)
                        && DenotesMember(u, members[0], next) && DenotesMembers(next, members[1..], false, rest)
  }

  ghost predicate Unrepeated(read: set<string>, members: seq<Member>)
    decreases |members|
  {
    members != [] ==> members[0].key !in read && Unrepeated(read + {members[0].key}, members[1..])
  }

  ghost function Gathered(read: map<string, Json>, members: seq<Member>): map<string, Json>
    decreases |members|
  {
    if members == [] then read else Gathered(read[members[0].key := members[0].value], members[1..])
  }

  // ---- Blanks ----

  lemma {:induction false} SkipsBlanks(t: string)
    ensures After(t, Skip(t))
    decreases |t|
  {
    if t != "" && Space(t[0]) {
      SkipsBlanks(t[1..]);
      var w :| t[1..] == w + Skip(t) && Blanks(w);
      assert t == [t[0]] + w + Skip(t) && Blanks([t[0]] + w);
    } else {
      assert t == "" + t && Blanks("");
    }
  }

  lemma {:induction false} SkipsTo(t: string, w: string, u: string)
    requires t == w + u && Blanks(w) && u != "" && !Space(u[0])
    ensures Skip(t) == u
    decreases |w|
  {
    if w == "" {
      assert t == u;
    } else {
      assert t[0] == w[0] && t[1..] == w[1..] + u;
      SkipsTo(t[1..], w[1..], u);
    }
  }

  lemma SkipsOnce(t: string)
    ensures Skip(Skip(t)) == Skip(t)
  {
  }

  lemma AfterMeansSkip(t: string, u: string)
    requires After(t, u) && u != "" && !Space(u[0])
    ensures Skip(t) == u
  {
    var w :| t == w + u && Blanks(w);
    SkipsTo(t, w, u);
  }

  // ---- Numbers ----

  lemma DigitMeans(c: char)
    ensures c in "0123456789" <==> IsDigit(c)
  {
    if IsDigit(c) {
      assert "0123456789"[c as int - '0' as int] == c;
    }
  }

  lemma DigitsMean(d: string)
    ensures Digits(d) <==> AllDigits(d)
  {
    forall i | 0 <= i < |d|
      ensures d[i] in "0123456789" <==> IsDigit(d[i])
    {
      DigitMeans(d[i]);
    }
  }

  lemma IntegerMeans(text: string)
    ensures IsInteger(text) <==> IntegerText(text)
  {
    DigitsMean(text);
    if text != "" && text[0] == '-' {
      DigitMeans('-');
      DigitsMean(text[1..]);
      assert text == ['-'] + text[1..];
    }
  }

  lemma {:induction false} RunOfDigits(d: string, rest: string)
    requires (forall i :: 0 <= i < |d| ==> IsDigit(d[i])) && (rest != "" ==> !IsDigit(rest[0]))
    ensures DigitRun(d + rest) == |d|
    decreases |d|
  {
    if d == "" {
      assert d + rest == rest;
    } else {
      assert (d + rest)[1..] == d[1..] + rest;
      RunOfDigits(d[1..], rest);
    }
  }

  lemma NumberStarts(t: string, text: string, rest: string)
    requires t == text + rest && IsInteger(text) && EndsNumber(text, rest)
    ensures Starts(t, Num(text), rest)
  {
  }

  lemma NumberParts(t: string, text: string, rest: string)
    requires ParseNumber(t) == Some(Parsed(Num(text), rest))
    ensures t == text + rest && IntegerText(text)
    ensures rest != "" ==> rest[0] != '.' && rest[0] != 'e' && rest[0] != 'E'
  {
  }

  /** Unless it is zero, a number is not followed by another digit. */
  lemma RestOfNumber(t: string, text: string, rest: string)
    requires ParseNumber(t) == Some(Parsed(Num(text), rest)) && rest != ""
    ensures text == "0" || !IsDigit(rest[0])
  {
    var sign := if t[0] == '-' then 1 else 0;
    var body := t[sign..];
    var n := if body[0] == '0' then 1 else DigitRun(body);
    assert t[sign + n..] == body[n..];
    if body[0] == '0' {
      assert t[..sign + 1] == t[..sign] + ['0'];
    }
  }

  lemma NumberIsRead(t: string, j: Json, rest: string)
    requires ParseNumber(t) == Some(Parsed(j, rest))
    ensures Starts(t, j, rest)
  {
    NumberParts(t, j.text, rest);
    IntegerMeans(j.text);
    if rest != "" {
      DigitMeans(rest[0]);
      RestOfNumber(t, j.text, rest);
    }
    NumberStarts(t, j.text, rest);
  }

  lemma MagnitudeRun(body: string, d: string, rest: string)
    requires body == d + rest && AllDigits(d) && (d[0] == '0' ==> d == "0")
    requires rest != "" && d != "0" ==> !IsDigit(rest[0])
    ensures body != "" && |d| == if body[0] == '0' then 1 else DigitRun(body)
  {
    assert body[0] == d[0];
    if d[0] != '0' {
      RunOfDigits(d, rest);
    }
  }

  lemma SignedParses(t: string, sign: nat, d: string, rest: string)
    requires sign == (if t != "" && t[0] == '-' then 1 else 0) && t[sign..] == d + rest
    requires d != "" && |d| == if t[sign..][0] == '0' then 1 else DigitRun(t[sign..])
    requires t[..sign + |d|] != "-0" && t[sign + |d|..] == rest
    requires rest != "" ==> rest[0] != '.' && rest[0] != 'e' && rest[0] != 'E'
    ensures ParseNumber(t) == Some(Parsed(Num(t[..sign + |d|]), rest))
  {
  }

  lemma NumberParses(t: string, text: string, rest: string)
    requires t == text + rest && IsInteger(text) && EndsNumber(text, rest)
    ensures ParseNumber(t) == Some(Parsed(Num(text), rest))
  {
    IntegerMeans(text);
    var sign := if text[0] == '-' then 1 else 0;
    var d := text[sign..];
    assert t[0] == text[0] && d == Magnitude(text);
    assert t[sign..] == d + rest && t[..sign + |d|] == text && t[sign + |d|..] == rest;
    if rest != "" {
      DigitMeans(rest[0]);
    }
    assert d == "0" ==> text == "0" || text == "-0";
    MagnitudeRun(t[sign..], d, rest);
    SignedParses(t, sign, d, rest);
  }

  // ---- One step of the parser ----

  function ItemsAsValue(r: Option<Items>): Option<Parsed> {
    if r.Some? then Some(Parsed(Arr(r.value.items), r.value.rest)) else None
  }

  function CharsAsValue(r: Option<Chars>): Option<Parsed> {
    if r.Some? then Some(Parsed(Str(r.value.s), r.value.rest)) else None
  }

  /** What comes after the blanks decides how a value is read. */
  lemma ValueStep(t: string, u: string)
    requires u == Skip(t)
    ensures u == "" ==> ParseValue(t) == None
    ensures u != "" && u[0] == '{' ==> ParseValue(t) == ParseMembers(u[1..], map[], true)
    ensures u != "" && u[0] == '[' ==> ParseValue(t) == ItemsAsValue(ParseItems(u[1..], true))
    ensures u != "" && u[0] == '"' ==> ParseValue(t) == CharsAsValue(ParseChars(u[1..]))
    ensures u != "" && u[0] == 't' ==> ParseValue(t) == ParseLiteral(u, "true", Bool(true))
    ensures u != "" && u[0] == 'f' ==> ParseValue(t) == ParseLiteral(u, "false", Bool(false))
    ensures u != "" && u[0] == 'n' ==> ParseValue(t) == ParseLiteral(u, "null", Null)
    ensures u != "" && (u[0] == '-' || IsDigit(u[0])) ==> ParseValue(t) == ParseNumber(u)
    ensures u != "" && u[0] !in {'{', '[', '"', 't', 'f', 'n', '-'} && !IsDigit(u[0]) ==> ParseValue(t) == None
  {
  }

  function ItemFirst(r: Option<Parsed>, more: Option<Items>): Option<Items> {
    if r.Some? && more.Some? then Some(Items([r.value.value] + more.value.items, more.value.rest)) else None
  }

  lemma ItemsStep(t: string, u: string, first: bool)
    requires u == Skip(t)
    ensures u == "" ==> ParseItems(t, first) == None
    ensures u != "" && u[0] == ']' ==> ParseItems(t, first) == Some(Items([], u[1..]))
    ensures u != "" && u[0] != ']' && !first && u[0] != ',' ==> ParseItems(t, first) == None
    ensures u != "" && u[0] != ']' && (first || u[0] == ',') ==>
              var value := ParseValue(if first then u else u[1..]);
              ParseItems(t, first) == if value.None?
              then None else ItemFirst(value, ParseItems(value.value.rest, false))
  {
  }

  /** The member that starts here, and what follows it. */
  function ReadMember(k: string): (r: Option<(Member, string)>)
    ensures r.Some? ==> |r.value.1| < |k|
  {
    if k == "" || k[0] != '"' || ParseChars(k[1..]).None? then None
    else
      var key := ParseChars(k[1..]).value;
      var colon := Skip(key.rest);
      if colon == "" || colon[0] != ':' || ParseValue(colon[1..]).None? then None
      else Some((Member(key.s, ParseValue(colon[1..]).value.value), ParseValue(colon[1..]).value.rest))
  }

  lemma MembersStep(t: string, u: string, read: map<string, Json>, first: bool)
    requires u == Skip(t)
    ensures u == "" ==> ParseMembers(t, read, first) == None
    ensures u != "" && u[0] == '}' ==> ParseMembers(t, read, first) == Some(Parsed(Obj(read), u[1..]))
    ensures u != "" && u[0] != '}' && !first && u[0] != ',' ==> ParseMembers(t, read, first) == None
    ensures u != "" && u[0] != '}' && (first || u[0] == ',') ==>
              var m := ReadMember(if first then u else Skip(u[1..]));
              ParseMembers(t, read, first)
              == if m.None? || m.value.0.key in read then None
              else ParseMembers(m.value.1, read[m.value.0.key := m.value.0.value], false)
  {
  }

  // ---- How parts make up a whole ----

  lemma StringStarts(u: string, s: string, rest: string)
    requires u != "" && u[0] == '"' && SpellsString(u[1..], s, rest)
    ensures Starts(u, Str(s), rest)
  {
  }

  lemma ArrayStarts(u: string, items: seq<Json>, rest: string)
    requires u != "" && u[0] == '[' && DenotesItems(u[1..], items, true, rest)
    ensures Starts(u, Arr(items), rest)
  {
  }

  lemma ObjectStarts(u: string, members: seq<Member>, fields: map<string, Json>, rest: string)
    requires u != "" && u[0] == '{' && DenotesMembers(u[1..], members, true, rest) && Unrepeated({}, members)
    requires fields == Gathered(map[], members)
    ensures Starts(u, Obj(fields), rest)
  {
  }

  lemma ArrayIsDenoted(t: string, u: string, items: seq<Json>, rest: string)
    requires After(t, u) && u != "" && u[0] == '[' && DenotesItems(u[1..], items, true, rest)
    ensures Denotes(t, Arr(items), rest)
  {
    ArrayStarts(u, items, rest);
  }

  lemma ObjectIsDenoted(t: string, u: string, none: map<string, Json>, members: seq<Member>, rest: string)
    requires After(t, u) && u != "" && u[0] == '{' && DenotesMembers(u[1..], members, true, rest)
    requires none == map[] && Unrepeated(none.Keys, members)
    ensures Denotes(t, Obj(Gathered(none, members)), rest)
  {
    assert none.Keys == {};
    ObjectStarts(u, members, Gathered(none, members), rest);
  }

  lemma StartsIsDenoted(t: string, u: string, j: Json, rest: string)
    requires After(t, u) && Starts(u, j, rest)
    ensures Denotes(t, j, rest)
  {
  }

  lemma FirstItem(t: string, u: string, first: bool, item: Json, next: string, items: seq<Json>, rest: string)
    requires |next| < |u| && After(t, if first then u else "," + u)
    requires Denotes(u, item, next) && DenotesItems(next, items, false, rest)
    ensures DenotesItems(t, [item] + items, first, rest)
  {
    var all := [item] + items;
    assert all[0] == item && all[1..] == items;
  }

  lemma FirstMember(t: string, u: string, first: bool, m: Member, next: string, members: seq<Member>, rest: string)
    requires |next| < |u| && After(t, if first then u else "," + u)
    requires DenotesMember(u, m, next) && DenotesMembers(next, members, false, rest)
    ensures DenotesMembers(t, [m] + members, first, rest)
  {
    var all := [m] + members;
    assert all[0] == m && all[1..] == members;
  }

  lemma PartsOfMember(t: string, quoted: string, m: Member, colon: string, value: string, rest: string)
    requires After(t, "\"" + quoted) && SpellsString(quoted, m.key, colon)
    requires |value| < |t| && After(colon, ":" + value) && Denotes(value, m.value, rest)
    ensures DenotesMember(t, m, rest)
  {
  }

  lemma FirstGathered(read: map<string, Json>, m: Member, members: seq<Member>)
    ensures Gathered(read, [m] + members) == Gathered(read[m.key := m.value], members)
    ensures Unrepeated(read.Keys, [m] + members) <==>
            m.key !in read && Unrepeated(read[m.key := m.value].Keys, members)
  {
    var all := [m] + members;
    assert all[0] == m && all[1..] == members;
    assert read[m.key := m.value].Keys == read.Keys + {m.key};
  }

  // ---- What is read is denoted ----

  lemma LiteralIsRead(u: string, word: string, v: Json, j: Json, rest: string)
    requires word != "" && ParseLiteral(u, word, v) == Some(Parsed(j, rest))
    ensures j == v && u == word + rest
  {
  }

  lemma ScalarIsRead(u: string, t: string, j: Json, rest: string)
    requires u == Skip(t) && u != "" && u[0] != '{' && u[0] != '[' && ParseValue(t) == Some(Parsed(j, rest))
    ensures Starts(u, j, rest)
  {
    ValueStep(t, u);
    if u[0] == '"' {
      ParsedStringIsSpelled(u[1..]);
      StringStarts(u, j.s, rest);
    } else if u[0] == 't' {
      LiteralIsRead(u, "true", Bool(true), j, rest);
    } else if u[0] == 'f' {
      LiteralIsRead(u, "false", Bool(false), j, rest);
    } else if u[0] == 'n' {
      LiteralIsRead(u, "null", Null, j, rest);
    } else {
      NumberIsRead(u, j, rest);
    }
  }

  lemma {:induction false} ReadIsDenoted(t: string, j: Json, rest: string)
    requires ParseValue(t) == Some(Parsed(j, rest))
    ensures Denotes(t, j, rest)
    decreases |t|, 2
  {
    var u := Skip(t);
    ValueStep(t, u);
    SkipsBlanks(t);
    if u[0] == '{' {
      ReadObjectIsDenoted(t, u, j, rest);
    } else if u[0] == '[' {
      ReadArrayIsDenoted(t, u, j, rest);
    } else {
      ScalarIsRead(u, t, j, rest);
      StartsIsDenoted(t, u, j, rest);
    }
  }

  lemma {:induction false} ReadObjectIsDenoted(t: string, u: string, j: Json, rest: string)
    requires After(t, u) && |u| <= |t| && u != "" && u[0] == '{'
    requires ParseMembers(u[1..], map[], true) == Some(Parsed(j, rest))
    ensures Denotes(t, j, rest)
    decreases |t|, 1
  {
    var members := ReadMembersAreDenoted(u[1..], map[], true, j, rest);
    ObjectIsDenoted(t, u, map[], members, rest);
  }

  lemma {:induction false} ReadArrayIsDenoted(t: string, u: string, j: Json, rest: string)
    requires After(t, u) && |u| <= |t| && u != "" && u[0] == '['
    requires ItemsAsValue(ParseItems(u[1..], true)) == Some(Parsed(j, rest))
    ensures Denotes(t, j, rest)
    decreases |t|, 1
  {
    ReadItemsAreDenoted(u[1..], true, j.items, rest);
    ArrayIsDenoted(t, u, j.items, rest);
  }

  lemma {:induction false} ReadItemsAreDenoted(t: string, first: bool, items: seq<Json>, rest: string)
    requires ParseItems(t, first) == Some(Items(items, rest))
    ensures DenotesItems(t, items, first, rest)
    decreases |t|, 4
  {
    var u := Skip(t);
    ItemsStep(t, u, first);
    SkipsBlanks(t);
    if u[0] == ']' {
      assert u == "]" + rest;
    } else {
      var v := if first then u else u[1..];
      assert u == if first then v else "," + v;
      ReadMoreItems(t, v, first, ParseValue(v).value, items, rest);
    }
  }

  lemma {:induction false} ReadMoreItems(
    t: string, v: string, first: bool, p: Parsed, items: seq<Json>, rest: string)
    requires After(t, if first then v else "," + v) && |v| <= |t| && |p.rest| < |v|
    requires ParseValue(v) == Some(p) && ItemFirst(Some(p), ParseItems(p.rest, false)) == Some(Items(items, rest))
    ensures DenotesItems(t, items, first, rest)
    decreases |t|, 3
  {
    var more := ParseItems(p.rest, false).value;
    ReadIsDenoted(v, p.value, p.rest);
    ReadItemsAreDenoted(p.rest, false, more.items, rest);
    FirstItem(t, v, first, p.value, p.rest, more.items, rest);
  }

  lemma MemberParts(k: string, m: Member, rest: string) returns (key: string, colon: string, value: string)
    requires ReadMember(k) == Some((m, rest))
    ensures k != "" && k == "\"" + k[1..] && ParseChars(k[1..]) == Some(Chars(key, colon)) && key == m.key
    ensures Skip(colon) == ":" + value && |value| < |k| && ParseValue(value) == Some(Parsed(m.value, rest))
  {
    var chars := ParseChars(k[1..]).value;
    key, colon, value := chars.s, chars.rest, Skip(chars.rest)[1..];
  }

  lemma {:induction false} ReadMemberIsDenoted(t: string, k: string, m: Member, rest: string)
    requires k == Skip(t) && ReadMember(k) == Some((m, rest))
    ensures DenotesMember(t, m, rest)
    decreases |t|, 3
  {
    var key, colon, value := MemberParts(k, m, rest);
    SkipsBlanks(t);
    SkipsBlanks(colon);
    ParsedStringIsSpelled(k[1..]);
    ReadIsDenoted(value, m.value, rest);
    PartsOfMember(t, k[1..], m, colon, value, rest);
  }

  lemma MembersNext(t: string, v: string, read: map<string, Json>, first: bool, j: Json, rest: string)
    requires ParseMembers(t, read, first) == Some(Parsed(j, rest)) && Skip(t) != "" && Skip(t)[0] != '}'
    requires v == if first then Skip(t) else Skip(t)[1..]
    ensures Skip(t) == if first then v else "," + v
    ensures var m := ReadMember(Skip(v));
            && m.Some? && m.value.0.key !in read
            && ParseMembers(m.value.1, read[m.value.0.key := m.value.0.value], false) == Some(Parsed(j, rest))
  {
    MembersStep(t, Skip(t), read, first);
    SkipsOnce(t);
  }

  lemma MembersEnd(t: string, read: map<string, Json>, first: bool, j: Json, rest: string)
    requires ParseMembers(t, read, first) == Some(Parsed(j, rest)) && Skip(t) != "" && Skip(t)[0] == '}'
    ensures Skip(t) == "}" + rest && j == Obj(read)
  {
    MembersStep(t, Skip(t), read, first);
  }

  lemma {:induction false} ReadMembersAreDenoted(
    t: string, read: map<string, Json>, first: bool, j: Json, rest: string) returns (members: seq<Member>)
    requires ParseMembers(t, read, first) == Some(Parsed(j, rest))
    ensures DenotesMembers(t, members, first, rest) && Unrepeated(read.Keys, members)
    ensures j == Obj(Gathered(read, members))
    decreases |t|, 5
  {
    SkipsBlanks(t);
    MembersStep(t, Skip(t), read, first);
    if Skip(t)[0] == '}' {
      MembersEnd(t, read, first, j, rest);
      members := [];
    } else {
      var v := if first then Skip(t) else Skip(t)[1..];
      MembersNext(t, v, read, first, j, rest);
      members := ReadMoreMembers(t, v, read, first, j, rest);
    }
  }

  lemma {:induction false} ReadMoreMembers(
    t: string, v: string, read: map<string, Json>, first: bool, j: Json, rest: string) returns (members: seq<Member>)
    requires After(t, if first then v else "," + v) && |v| <= |t|
    requires var m := ReadMember(Skip(v));
             && m.Some? && m.value.0.key !in read
             && ParseMembers(m.value.1, read[m.value.0.key := m.value.0.value], false) == Some(Parsed(j, rest))
    ensures DenotesMembers(t, members, first, rest) && Unrepeated(read.Keys, members)
    ensures j == Obj(Gathered(read, members))
    decreases |t|, 4
  {
    var (m, next) := ReadMember(Skip(v)).value;
    ReadMemberIsDenoted(v, Skip(v), m, next);
    var more := ReadMembersAreDenoted(next, read[m.key := m.value], false, j, rest);
    members := [m] + more;
    FirstMember(t, v, first, m, next, more, rest);
    FirstGathered(read, m, more);
  }

  // ---- What is denoted is read ----

  lemma LiteralParses(u: string, word: string, v: Json, rest: string)
    requires word != "" && u == word + rest
    ensures ParseLiteral(u, word, v) == Some(Parsed(v, rest))
  {
    assert word <= u && u[|word|..] == rest;
  }

  /** A text that starts with a value does not start with a blank, a bracket that closes or a comma. */
  lemma StartsWith(u: string, j: Json, rest: string)
    requires Starts(u, j, rest)
    ensures u != "" && !Space(u[0]) && u[0] != ']' && u[0] != '}' && u[0] != ','
    ensures j.Null? <==> u[0] == 'n'
    ensures j.Bool? <==> u[0] == 't' || u[0] == 'f'
    ensures j.Bool? ==> (j.b <==> u[0] == 't')
    ensures j.Num? <==> u[0] == '-' || IsDigit(u[0])
    ensures j.Str? <==> u[0] == '"'
    ensures j.Arr? <==> u[0] == '['
    ensures j.Obj? <==> u[0] == '{'
  {
    if j.Num? {
      IntegerMeans(j.text);
    }
  }

  lemma ScalarParses(t: string, u: string, j: Json, rest: string)
    requires u == Skip(t) && Starts(u, j, rest) && !j.Arr? && !j.Obj?
    ensures ParseValue(t) == Some(Parsed(j, rest))
  {
    StartsWith(u, j, rest);
    ValueStep(t, u);
    match j
    case Null => LiteralParses(u, "null", Null, rest);
    case Bool(b) => LiteralParses(u, if b then "true" else "false", j, rest);
    case Num(text) => NumberParses(u, text, rest);
    case Str(s) => SpelledStringParses(u[1..], s, rest);
  }

  lemma {:induction false} DenotedIsRead(t: string, j: Json, rest: string)
    requires Denotes(t, j, rest)
    ensures ParseValue(t) == Some(Parsed(j, rest))
    decreases |t|, 2
  {
    var u :| |u| <= |t| && After(t, u) && Starts(u, j, rest);
    StartsWith(u, j, rest);
    AfterMeansSkip(t, u);
    if j.Arr? {
      DenotedItemsAreRead(u[1..], j.items, true, rest);
      ValueStep(t, u);
    } else if j.Obj? {
      DenotedObjectIsRead(u, j.fields, rest);
      ValueStep(t, u);
    } else {
      ScalarParses(t, u, j, rest);
    }
  }

  lemma {:induction false} DenotedObjectIsRead(u: string, fields: map<string, Json>, rest: string)
    requires Starts(u, Obj(fields), rest)
    ensures u != "" && ParseMembers(u[1..], map[], true) == Some(Parsed(Obj(fields), rest))
    decreases |u|, 1
  {
    var members :| DenotesMembers(u[1..], members, true, rest) && Unrepeated({}, members)
                   && fields == Gathered(map[], members);
    var none: map<string, Json> := map[];
    assert none.Keys == {};
    DenotedMembersAreRead(u[1..], none, members, true, rest);
  }

  lemma {:induction false} DenotedItemsAreRead(t: string, items: seq<Json>, first: bool, rest: string)
    requires DenotesItems(t, items, first, rest)
    ensures ParseItems(t, first) == Some(Items(items, rest))
    decreases |t|, 3
  {
    if items == [] {
      AfterMeansSkip(t, "]" + rest);
      ItemsStep(t, "]" + rest, first);
      assert ("]" + rest)[1..] == rest;
    } else {
      var u, next :| |u| <= |t| && |next| < |u| && After(t, if first then u else "," + u)
                     && Denotes(u, items[0], next) && DenotesItems(next, items[1..], false, rest);
      DenotedIsRead(u, items[0], next);
      DenotedItemsAreRead(next, items[1..], false, rest);
      ItemsGoOn(t, u, first, items, next, rest);
    }
  }

  lemma {:induction false} DenotedItemFollows(t: string, u: string, j: Json, next: string)
    requires Denotes(u, j, next) && After(t, u)
    ensures Skip(t) == Skip(u) && Skip(u) != "" && Skip(u)[0] != ']'
  {
    var v :| |v| <= |u| && After(u, v) && Starts(v, j, next);
    StartsWith(v, j, next);
    AfterMeansSkip(u, v);
    AfterTwice(t, u, v);
    AfterMeansSkip(t, v);
  }

  lemma AfterTwice(t: string, u: string, v: string)
    requires After(t, u) && After(u, v)
    ensures After(t, v)
  {
    var a :| t == a + u && Blanks(a);
    var b :| u == b + v && Blanks(b);
    assert t == (a + b) + v && Blanks(a + b);
  }

  lemma ItemsGoOn(t: string, u: string, first: bool, items: seq<Json>, next: string, rest: string)
    requires items != [] && After(t, if first then u else "," + u) && Denotes(u, items[0], next)
    requires ParseValue(u) == Some(Parsed(items[0], next))
    requires ParseItems(next, false) == Some(Items(items[1..], rest))
    ensures ParseItems(t, first) == Some(Items(items, rest))
  {
    assert [items[0]] + items[1..] == items;
    if first {
      DenotedItemFollows(t, u, items[0], next);
      ItemsStep(t, Skip(t), first);
      SkipsOnce(u);
      SameValue(u);
    } else {
      AfterMeansSkip(t, "," + u);
      ItemsStep(t, "," + u, first);
      assert ("," + u)[1..] == u;
    }
  }

  lemma SameValue(u: string)
    ensures ParseValue(Skip(u)) == ParseValue(u)
  {
    SkipsOnce(u);
  }

  lemma {:induction false} DenotedMemberIsRead(u: string, m: Member, next: string)
    requires DenotesMember(u, m, next)
    ensures Skip(u) != "" && Skip(u)[0] == '"' && ReadMember(Skip(u)) == Some((m, next))
    decreases |u|, 3
  {
    var quoted, colon, value :|
      && After(u, "\"" + quoted) && SpellsString(quoted, m.key, colon)
      && |value| < |u| && After(colon, ":" + value) && Denotes(value, m.value, next);
    AfterMeansSkip(u, "\"" + quoted);
    AfterMeansSkip(colon, ":" + value);
    SpelledStringParses(quoted, m.key, colon);
    DenotedIsRead(value, m.value, next);
    assert ("\"" + quoted)[1..] == quoted && (":" + value)[1..] == value;
  }

  lemma {:induction false} DenotedMembersAreRead(
    t: string, read: map<string, Json>, members: seq<Member>, first: bool, rest: string)
    requires DenotesMembers(t, members, first, rest) && Unrepeated(read.Keys, members)
    ensures ParseMembers(t, read, first) == Some(Parsed(Obj(Gathered(read, members)), rest))
    decreases |t|, 4
  {
    if members == [] {
      AfterMeansSkip(t, "}" + rest);
      MembersStep(t, "}" + rest, read, first);
      assert ("}" + rest)[1..] == rest;
    } else {
      var u, next :| |u| <= |t| && |next| < |u| && After(t, if first then u else "," + u)
                     && DenotesMember(u, members[0], next) && DenotesMembers(next, members[1..], false, rest);
      var m, more := members[0], members[1..];
      assert members == [m] + more;
      FirstGathered(read, m, more);
      DenotedMemberIsRead(u, m, next);
      DenotedMembersAreRead(next, read[m.key := m.value], more, false, rest);
      MembersGoOn(t, u, first, read, m, next, Gathered(read, members), rest);
    }
  }

  lemma MembersGoOn(
    t: string, u: string, first: bool, read: map<string, Json>, m: Member, next: string, fields: map<string, Json>,
    rest: string)
    requires After(t, if first then u else "," + u) && m.key !in read
    requires Skip(u) != "" && Skip(u)[0] == '"' && ReadMember(Skip(u)) == Some((m, next))
    requires ParseMembers(next, read[m.key := m.value], false) == Some(Parsed(Obj(fields), rest))
    ensures ParseMembers(t, read, first) == Some(Parsed(Obj(fields), rest))
  {
    if first {
      SkipsBlanks(u);
      AfterTwice(t, u, Skip(u));
      AfterMeansSkip(t, Skip(u));
      MembersStep(t, Skip(u), read, first);
    } else {
      AfterMeansSkip(t, "," + u);
      MembersStep(t, "," + u, read, first);
      assert ("," + u)[1..] == u;
    }
  }

  // ---- The whole text ----

  lemma {:induction false} OnlyBlanks(t: string)
    ensures Skip(t) == "" <==> Blanks(t)
    decreases |t|
  {
    if t != "" {
      assert t == [t[0]] + t[1..];
      OnlyBlanks(t[1..]);
      if Space(t[0]) {
        assert Blanks(t) <==> Blanks(t[1..]);
      }
    }
  }

  /** The parser accepts exactly the texts of the grammar, as the value that they denote. */
  lemma ParsesTheGrammar(t: string, j: Json)
    ensures Parse(t) == Some(j) <==> exists rest :: Denotes(t, j, rest) && Blanks(rest)
  {
    if Parse(t) == Some(j) {
      var rest := ParseValue(t).value.rest;
      ReadIsDenoted(t, j, rest);
      OnlyBlanks(rest);
    }
    if rest :| Denotes(t, j, rest) && Blanks(rest) {
      DenotedIsRead(t, j, rest);
      OnlyBlanks(rest);
    }
  }
}
