/** The canonical text of a value is the shortest of all texts that denote it. */
module CanonicalMinimal {
  import opened CanonicalGrammar
  import opened CanonicalJson
  import opened CanonicalStrings
  import opened Strings
  import opened Wrappers

  // ---- Characters and strings ----

  /** No spelling of a character is shorter than the canonical one. */
  lemma ShortestChar(piece: string, c: char, after: string)
    requires SpellsChar(piece, c, after)
    ensures |EscapeChar(c)| <= |piece|
  {
  }

  lemma LowDigits(n: nat)
    requires n < 16
    ensures IsDigitFor(HexDigit(n), n) && Lower([HexDigit(n)]) == [HexDigit(n)]
  {
    HexDigitMeans(HexDigit(n), n);
  }

  lemma ControlIsSpelled(c: char, t: string)
    requires c as int < 0x20 && t == "\\u00" + [HexDigit(c as int / 16), HexDigit(c as int % 16)]
    ensures Single(t, c) && Lower(t) == t
  {
    var n := c as int;
    LowDigits(n / 16);
    LowDigits(n % 16);
    assert t[..2] == "\\u" && t[2..] == ['0', '0', HexDigit(n / 16), HexDigit(n % 16)];
    assert AreDigits(t[2..], 0, 0, n / 16, n % 16);
  }

  /** The canonical spelling is one of them, with lower-case digits where it takes any. */
  lemma EscapedIsSpelled(c: char, after: string)
    ensures SpellsChar(EscapeChar(c), c, after)
    ensures |EscapeChar(c)| == 6 ==> Lower(EscapeChar(c)) == EscapeChar(c)
  {
    var n := c as int;
    if n < 0x20 {
      ControlIsSpelled(c, "\\u00" + [HexDigit(n / 16), HexDigit(n % 16)]);
    }
  }

  lemma {:induction false} CharsAdd(s: string, rest: string)
    ensures |WriteChars(s, rest)| == |WriteChars(s, "")| + |rest|
    decreases |s|
  {
    if s != "" {
      CharsAdd(s[1..], rest);
    }
  }

  lemma {:induction false} ShortestString(t: string, s: string, rest: string)
    requires SpellsString(t, s, rest)
    ensures |WriteChars(s, rest)| <= |t|
    decreases |s|
  {
    if s != "" {
      var n: nat :| n <= |t| && SpellsChar(t[..n], s[0], t[n..]) && SpellsString(t[n..], s[1..], rest);
      ShortestChar(t[..n], s[0], t[n..]);
      ShortestString(t[n..], s[1..], rest);
    }
  }

  // ---- Sums over keys ----

  ghost function SumOf(keys: seq<string>, f: string -> nat): nat {
    if keys == [] then 0 else f(keys[0]) + SumOf(keys[1..], f)
  }

  lemma {:induction false} SumJoins(a: seq<string>, b: seq<string>, f: string -> nat)
    ensures SumOf(a + b, f) == SumOf(a, f) + SumOf(b, f)
    decreases |a|
  {
    if a == [] {
      assert a + b == b;
    } else {
      assert (a + b)[1..] == a[1..] + b;
      SumJoins(a[1..], b, f);
    }
  }

  lemma SumWithout(keys: seq<string>, j: nat, f: string -> nat)
    requires j < |keys|
    ensures SumOf(keys, f) == f(keys[j]) + SumOf(keys[..j] + keys[j + 1..], f)
  {
    var front, back := keys[..j], keys[j + 1..];
    SumJoins(front, keys[j..], f);
    SumJoins(front, back, f);
    assert keys == front + keys[j..] && keys[j..][1..] == back;
  }

  /** The order of the keys does not matter to a sum. */
  lemma {:induction false} SumAnyOrder(a: seq<string>, b: seq<string>, f: string -> nat)
    requires Distinct(a) && Distinct(b) && Elements(a) == Elements(b)
    ensures SumOf(a, f) == SumOf(b, f)
    decreases |a|
  {
    if a == [] {
      DistinctSize(b);
    } else {
      assert a[0] in Elements(b);
      var j :| 0 <= j < |b| && b[j] == a[0];
      SumWithout(b, j, f);
      TakenOut(a, b, j);
      SumAnyOrder(a[1..], b[..j] + b[j + 1..], f);
    }
  }

  lemma TakenOut(a: seq<string>, b: seq<string>, j: nat)
    requires Distinct(a) && Distinct(b) && Elements(a) == Elements(b) && a != [] && j < |b| && b[j] == a[0]
    ensures Distinct(a[1..]) && Distinct(b[..j] + b[j + 1..]) && Elements(a[1..]) == Elements(b[..j] + b[j + 1..])
  {
    var c := b[..j] + b[j + 1..];
    forall i, k | 0 <= i < k < |c|
      ensures c[i] != c[k]
    {
      assert c[i] == b[if i < j then i else i + 1] && c[k] == b[if k < j then k else k + 1];
    }
    forall x
      ensures x in Elements(a[1..]) <==> x in Elements(a) && x != a[0]
    {
      assert a == [a[0]] + a[1..];
    }
    forall x
      ensures x in Elements(c) <==> x in Elements(b) && x != b[j]
    {
      if x in Elements(b) && x != b[j] {
        var i :| 0 <= i < |b| && b[i] == x;
        assert c[if i < j then i else i - 1] == x;
      }
      if x in Elements(c) {
        var i :| 0 <= i < |c| && c[i] == x;
        assert b[if i < j then i else i + 1] == x;
      }
    }
    SameElements(Elements(a[1..]), Elements(c));
  }

  // ---- The length of what is written ----

  lemma {:induction false} WriteAdds(v: Json, rest: string)
    ensures |Write(v, rest)| == |Write(v, "")| + |rest|
    decreases v, 1, 0
  {
    match v
    case Str(s) => CharsAdd(s, rest);
    case Arr(items) => ItemsAdd(v, 0, rest);
    case Obj(fields) => MembersAdd(v, SortedKeys(fields.Keys), 0, rest);
    case _ =>
  }

  lemma {:induction false} ItemsAdd(v: Json, i: nat, rest: string)
    requires v.Arr? && i <= |v.items|
    ensures |WriteItems(v, i, rest)| == |WriteItems(v, i, "")| + |rest|
    decreases v, 0, |v.items| - i
  {
    if i < |v.items| {
      ItemsAdd(v, i + 1, rest);
      WriteAdds(v.items[i], WriteItems(v, i + 1, rest));
      WriteAdds(v.items[i], WriteItems(v, i + 1, ""));
    }
  }

  lemma {:induction false} MembersAdd(v: Json, keys: seq<string>, i: nat, rest: string)
    requires v.Obj? && i <= |keys| && Elements(keys) <= v.fields.Keys
    ensures |WriteMembers(v, keys, i, rest)| == |WriteMembers(v, keys, i, "")| + |rest|
    decreases v, 0, |keys| - i
  {
    if i < |keys| {
      assert keys[i] in Elements(keys);
      var value := v.fields[keys[i]];
      MembersAdd(v, keys, i + 1, rest);
      MemberAdds(keys[i], value, WriteMembers(v, keys, i + 1, rest));
      MemberAdds(keys[i], value, WriteMembers(v, keys, i + 1, ""));
      WriteAdds(value, WriteMembers(v, keys, i + 1, rest));
      WriteAdds(value, WriteMembers(v, keys, i + 1, ""));
    }
  }

  lemma MemberAdds(key: string, value: Json, rest: string)
    ensures |WriteChars(key, ":" + Write(value, rest))| == |WriteChars(key, "")| + 1 + |Write(value, rest)|
  {
    CharsAdd(key, ":" + Write(value, rest));
  }

  /** A quoted key, a colon and a value. */
  ghost function SizeOf(key: string, value: Json): nat {
    2 + |WriteChars(key, "")| + |Write(value, "")|
  }

  ghost function MemberSize(fields: map<string, Json>, key: string): nat {
    if key in fields then SizeOf(key, fields[key]) else 0
  }

  /** The members of an object take their sizes, a comma between any two and the closing brace. */
  lemma {:induction false} MembersLength(v: Json, keys: seq<string>, i: nat)
    requires v.Obj? && i <= |keys| && Elements(keys) <= v.fields.Keys
    ensures |WriteMembers(v, keys, i, "")| ==
            1 + SumOf(keys[i..], k => MemberSize(v.fields, k)) + |keys| - i - if i == 0 && keys != [] then 1 else 0
    decreases |keys| - i
  {
    var f := k => MemberSize(v.fields, k);
    if i < |keys| {
      assert keys[i] in Elements(keys);
      var value := v.fields[keys[i]];
      MembersLength(v, keys, i + 1);
      MemberAdds(keys[i], value, WriteMembers(v, keys, i + 1, ""));
      WriteAdds(value, WriteMembers(v, keys, i + 1, ""));
      assert keys[i..][1..] == keys[i + 1..];
    }
  }

  // ---- The members of an object, in the order of a text ----

  ghost function KeysOf(members: seq<Member>): (keys: seq<string>)
    ensures |keys| == |members|
  {
    seq(|members|, i requires 0 <= i < |members| => members[i].key)
  }

  ghost function TotalSize(members: seq<Member>): nat {
    if members == [] then 0 else SizeOf(members[0].key, members[0].value) + TotalSize(members[1..])
  }

  lemma {:induction false} GatheredHas(read: map<string, Json>, members: seq<Member>, k: string)
    requires Unrepeated(read.Keys, members)
    ensures k in Gathered(read, members) <==> k in read || k in KeysOf(members)
    ensures k in read ==> k !in KeysOf(members) && Gathered(read, members)[k] == read[k]
    decreases |members|
  {
    if members != [] {
      var m, more := members[0], read[members[0].key := members[0].value];
      assert more.Keys == read.Keys + {m.key};
      GatheredHas(more, members[1..], k);
      assert KeysOf(members) == [m.key] + KeysOf(members[1..]);
    }
  }

  /** Keys that are not repeated are a listing of the object's keys, with the sizes of its members. */
  lemma {:induction false} GatheredSizes(read: map<string, Json>, members: seq<Member>, all: map<string, Json>)
    requires Unrepeated(read.Keys, members) && all == Gathered(read, members)
    ensures Distinct(KeysOf(members))
    ensures SumOf(KeysOf(members), k => MemberSize(all, k)) == TotalSize(members)
    decreases |members|
  {
    if members != [] {
      var m, more := members[0], read[members[0].key := members[0].value];
      var tail := KeysOf(members[1..]);
      assert more.Keys == read.Keys + {m.key};
      GatheredSizes(more, members[1..], all);
      GatheredHas(more, members[1..], m.key);
      assert KeysOf(members) == [m.key] + tail && KeysOf(members)[1..] == tail;
    }
  }

  /** The canonical text of an object is as long as its members in any order, without blanks. */
  lemma ObjectLength(fields: map<string, Json>, members: seq<Member>, rest: string)
    requires Unrepeated({}, members) && fields == Gathered(map[], members)
    ensures |Write(Obj(fields), rest)| == 2 + TotalSize(members) + |members| - (if members != [] then 1 else 0) + |rest|
  {
    var v, sorted, keys := Obj(fields), SortedKeys(fields.Keys), KeysOf(members);
    var none: map<string, Json> := map[];
    assert none.Keys == {};
    GatheredSizes(none, members, fields);
    forall k
      ensures k in Elements(keys) <==> k in fields
    {
      GatheredHas(none, members, k);
    }
    SameElements(Elements(keys), Elements(sorted));
    AscendingIsDistinct(sorted);
    SumAnyOrder(sorted, keys, k => MemberSize(fields, k));
    SameSize(sorted, keys);
    MembersLength(v, sorted, 0);
    assert sorted[0..] == sorted;
    WriteAdds(v, rest);
  }

  lemma SameSize(a: seq<string>, b: seq<string>)
    requires Distinct(a) && Distinct(b) && Elements(a) == Elements(b)
    ensures |a| == |b|
  {
    DistinctSize(a);
    DistinctSize(b);
  }

  ghost function ItemSizes(items: seq<Json>): nat {
    if items == [] then 0 else |Write(items[0], "")| + ItemSizes(items[1..])
  }

  lemma {:induction false} ItemsLength(v: Json, i: nat)
    requires v.Arr? && i <= |v.items|
    ensures |WriteItems(v, i, "")| ==
            1 + ItemSizes(v.items[i..]) + |v.items| - i - if i == 0 && v.items != [] then 1 else 0
    decreases |v.items| - i
  {
    if i < |v.items| {
      ItemsLength(v, i + 1);
      WriteAdds(v.items[i], WriteItems(v, i + 1, ""));
      assert v.items[i..][1..] == v.items[i + 1..];
    }
  }

  lemma ArrayLength(items: seq<Json>, rest: string)
    ensures |Write(Arr(items), rest)| == 2 + ItemSizes(items) + |items| - (if items != [] then 1 else 0) + |rest|
  {
    ItemsLength(Arr(items), 0);
    assert items[0..] == items;
    WriteAdds(Arr(items), rest);
  }

  // ---- Values ----

  lemma AfterLength(t: string, u: string)
    requires After(t, u)
    ensures |u| <= |t|
  {
  }

  lemma {:induction false} ShortestValue(t: string, j: Json, rest: string)
    requires Denotes(t, j, rest)
    ensures |Write(j, rest)| <= |t|
    decreases |t|, 1
  {
    var u :| |u| <= |t| && After(t, u) && Starts(u, j, rest);
    ShortestStart(u, j, rest);
  }

  lemma {:induction false} ShortestStart(u: string, j: Json, rest: string)
    requires Starts(u, j, rest)
    ensures |Write(j, rest)| <= |u|
    decreases |u|, 0
  {
    match j
    case Str(s) => ShortestString(u[1..], s, rest);
    case Arr(items) =>
      ShortestItems(u[1..], items, true, rest);
      ArrayLength(items, rest);
    case Obj(fields) =>
      var members :| DenotesMembers(u[1..], members, true, rest) && Unrepeated({}, members)
                     && fields == Gathered(map[], members);
      ShortestMembers(u[1..], members, true, rest);
      ObjectLength(fields, members, rest);
    case _ =>
  }

  lemma {:induction false} ShortestItems(t: string, items: seq<Json>, first: bool, rest: string)
    requires DenotesItems(t, items, first, rest)
    ensures 1 + ItemSizes(items) + |items| - (if first && items != [] then 1 else 0) + |rest| <= |t|
    decreases |t|, 2
  {
    if items == [] {
      AfterLength(t, "]" + rest);
    } else {
      var u, next :| |u| <= |t| && |next| < |u| && After(t, if first then u else "," + u)
                     && Denotes(u, items[0], next) && DenotesItems(next, items[1..], false, rest);
      ShortestValue(u, items[0], next);
      WriteAdds(items[0], next);
      ShortestItems(next, items[1..], false, rest);
      AfterLength(t, if first then u else "," + u);
    }
  }

  lemma {:induction false} ShortestMember(t: string, m: Member, rest: string)
    requires DenotesMember(t, m, rest)
    ensures SizeOf(m.key, m.value) + |rest| <= |t|
    decreases |t|, 2
  {
    var quoted, colon, value :|
      && After(t, "\"" + quoted) && SpellsString(quoted, m.key, colon)
      && |value| < |t| && After(colon, ":" + value) && Denotes(value, m.value, rest);
    ShortestString(quoted, m.key, colon);
    CharsAdd(m.key, colon);
    ShortestValue(value, m.value, rest);
    WriteAdds(m.value, rest);
    AfterLength(t, "\"" + quoted);
    AfterLength(colon, ":" + value);
  }

  lemma {:induction false} ShortestMembers(t: string, members: seq<Member>, first: bool, rest: string)
    requires DenotesMembers(t, members, first, rest)
    ensures 1 + TotalSize(members) + |members| - (if first && members != [] then 1 else 0) + |rest| <= |t|
    decreases |t|, 3
  {
    if members == [] {
      AfterLength(t, "}" + rest);
    } else {
      var u, next :| |u| <= |t| && |next| < |u| && After(t, if first then u else "," + u)
                     && DenotesMember(u, members[0], next) && DenotesMembers(next, members[1..], false, rest);
      ShortestMember(u, members[0], next);
      ShortestMembers(next, members[1..], false, rest);
      AfterLength(t, if first then u else "," + u);
    }
  }

  /** No text of a value is shorter than its canonical text. */
  lemma CanonicalIsShortest(t: string, j: Json)
    requires Parse(t) == Some(j)
    ensures |Encode(j)| <= |t|
  {
    ParsesTheGrammar(t, j);
    var rest :| Denotes(t, j, rest) && Blanks(rest);
    ShortestValue(t, j, rest);
    WriteAdds(j, rest);
  }
}
