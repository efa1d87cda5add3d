/**
 The strings of a JSON text as the grammar spells them: each character stands for itself or
 is escaped, by one letter or by one or two groups of four hexadecimal digits.
 */
module CanonicalStrings {
  import opened CanonicalJson
  import opened Wrappers

  /** The digit of value `n`, in either case. */
  predicate IsDigitFor(c: char, n: int) {
    0 <= n < 16 && (c == "0123456789abcdef"[n] || c == "0123456789ABCDEF"[n])
  }

  predicate AreDigits(t: string, a: int, b: int, c: int, d: int) {
    |t| == 4 && IsDigitFor(t[0], a) && IsDigitFor(t[1], b) && IsDigitFor(t[2], c) && IsDigitFor(t[3], d)
  }

  /** `\u` and the four digits of `n`. */
  ghost predicate IsUnit(t: string, n: nat) {
    && |t| == 6 && t[..2] == "\\u"
    && exists a, b, c, d :: AreDigits(t[2..], a, b, c, d) && n == ((a * 16 + b) * 16 + c) * 16 + d
  }

  const SHORT := map['"' := '"', '\\' := '\\', '/' := '/', 'b' := '\U{0008}', 'f' := '\U{000C}', 'n' := '\n',
                     'r' := '\r', 't' := '\t']

  predicate IsHigh(n: nat) {
    0xD800 <= n < 0xDC00
  }

  predicate IsLow(n: nat) {
    0xDC00 <= n < 0xE000
  }

  /** The escape of a low surrogate comes next. */
  ghost predicate LowFollows(after: string) {
    |after| >= 6 && exists n :: IsLow(n) && IsUnit(after[..6], n)
  }

  ghost predicate Plain(piece: string, c: char) {
    piece == [c] && c as int >= 0x20 && c != '"' && c != '\\'
  }

  ghost predicate Short(piece: string, c: char) {
    |piece| == 2 && piece[0] == '\\' && piece[1] in SHORT && SHORT[piece[1]] == c
  }

  ghost predicate Single(piece: string, c: char) {
    IsUnit(piece, c as int)
  }

  /** A character beyond the first plane, as its two surrogates of ten bits each. */
  ghost predicate Paired(piece: string, c: char) {
    |piece| == 12 && exists high, low :: IsPair(piece[..6], piece[6..], high, low, c)
  }

  ghost predicate IsPair(first: string, second: string, high: nat, low: nat, c: char) {
    && IsHigh(high) && IsLow(low) && IsUnit(first, high) && IsUnit(second, low)
    && c as int - 0x10000 == (high - 0xD800) * 1024 + low - 0xDC00
  }

  /** A surrogate without its partner reads as the replacement character. */
  ghost predicate Unpaired(piece: string, c: char, after: string) {
    && c == '\U{FFFD}'
    && exists n :: IsUnit(piece, n) && (IsLow(n) || (IsHigh(n) && !LowFollows(after)))
  }

  ghost predicate SpellsChar(piece: string, c: char, after: string) {
    Plain(piece, c) || Short(piece, c) || Single(piece, c) || Paired(piece, c) || Unpaired(piece, c, after)
  }

  /** The text spells the string, character by character, up to its closing quote. */
  ghost predicate SpellsString(t: string, s: string, rest: string)
    decreases |s|
  {
    if s == "" then t == "\"" + rest
    else exists n: nat :: n <= |t| && SpellsChar(t[..n], s[0], t[n..]) && SpellsString(t[n..], s[1..], rest)
  }

  // ---- Escapes of four digits ----

  lemma HexDigitMeans(c: char, n: int)
    ensures IsDigitFor(c, n) <==> IsHex(c) && HexValue(c) == n
  {
  }

  lemma HexDigitsMean(t: string, a: int, b: int, c: int, d: int)
    requires |t| == 4
    ensures AreDigits(t, a, b, c, d) <==>
            && IsHex(t[0]) && IsHex(t[1]) && IsHex(t[2]) && IsHex(t[3])
            && a == HexValue(t[0]) && b == HexValue(t[1]) && c == HexValue(t[2]) && d == HexValue(t[3])
  {
    HexDigitMeans(t[0], a);
    HexDigitMeans(t[1], b);
    HexDigitMeans(t[2], c);
    HexDigitMeans(t[3], d);
  }

  lemma UnitMeans(t: string, n: nat)
    requires |t| >= 6
    ensures IsUnit(t[..6], n) <==> UnitAt(t, 0) && Unit(t, 0) == n
  {
    var u := t[..6];
    assert u[..2] == [t[0], t[1]] && u[2..] == [t[2], t[3], t[4], t[5]];
    if UnitAt(t, 0) {
      HexDigitsMean(u[2..], HexValue(t[2]), HexValue(t[3]), HexValue(t[4]), HexValue(t[5]));
    }
    if |u| == 6 && u[..2] == "\\u" {
      forall a, b, c, d | AreDigits(u[2..], a, b, c, d)
        ensures UnitAt(t, 0) && Unit(t, 0) == ((a * 16 + b) * 16 + c) * 16 + d
      {
        HexDigitsMean(u[2..], a, b, c, d);
      }
    }
  }

  lemma NextUnitMeans(t: string, n: nat)
    requires |t| >= 12
    ensures IsUnit(t[6..12], n) <==> UnitAt(t, 6) && Unit(t, 6) == n
  {
    var u := t[6..];
    assert u[..6] == t[6..12];
    assert u[0] == t[6] && u[1] == t[7] && u[2] == t[8] && u[3] == t[9] && u[4] == t[10] && u[5] == t[11];
    UnitMeans(u, n);
  }

  lemma LowFollowsMeans(t: string)
    requires |t| >= 6
    ensures LowFollows(t[6..]) <==> UnitAt(t, 6) && IsLow(Unit(t, 6))
  {
    if |t| >= 12 {
      assert t[6..][..6] == t[6..12];
      if UnitAt(t, 6) {
        NextUnitMeans(t, Unit(t, 6));
      }
      if n :| IsLow(n) && IsUnit(t[6..12], n) {
        NextUnitMeans(t, n);
      }
    }
  }

  // ---- One character ----

  lemma ShortMeans(letter: char)
    ensures Unescape(letter).Some? <==> letter in SHORT
    ensures letter in SHORT ==> Unescape(letter) == Some(SHORT[letter])
  {
  }

  /** What the parser does with an escape of four digits. */
  lemma ParsesUnit(t: string)
    requires UnitAt(t, 0)
    ensures ParseChars(t) == Prepend(EscapedUnit(t).0, ParseChars(t[EscapedUnit(t).1..]))
  {
    ShortMeans('u');
  }

  lemma SingleParses(t: string, c: char)
    requires |t| >= 6 && Single(t[..6], c)
    ensures ParseChars(t) == Prepend(c, ParseChars(t[6..]))
  {
    UnitMeans(t, c as int);
    ParsesUnit(t);
  }

  lemma PairReads(t: string, high: nat, low: nat, c: char)
    requires |t| >= 12 && IsPair(t[..6], t[6..12], high, low, c)
    ensures UnitAt(t, 0) && EscapedUnit(t) == (c, 12)
  {
    UnitMeans(t, high);
    NextUnitMeans(t, low);
  }

  lemma PairedParses(t: string, c: char)
    requires |t| >= 12 && Paired(t[..12], c)
    ensures ParseChars(t) == Prepend(c, ParseChars(t[12..]))
  {
    assert t[..12][..6] == t[..6] && t[..12][6..] == t[6..12];
    var high, low :| IsPair(t[..6], t[6..12], high, low, c);
    PairReads(t, high, low, c);
    ParsesUnit(t);
  }

  lemma UnpairedParses(t: string, c: char)
    requires |t| >= 6 && Unpaired(t[..6], c, t[6..])
    ensures ParseChars(t) == Prepend(c, ParseChars(t[6..]))
  {
    var n :| IsUnit(t[..6], n) && (IsLow(n) || (IsHigh(n) && !LowFollows(t[6..])));
    UnitMeans(t, n);
    LowFollowsMeans(t);
    ParsesUnit(t);
  }

  lemma PlainParses(t: string, c: char, rest: string)
    requires t == [c] + rest && Plain([c], c)
    ensures ParseChars(t) == Prepend(c, ParseChars(rest))
  {
    assert t[0] == c && t[1..] == rest;
  }

  lemma ShortParses(t: string, c: char)
    requires |t| >= 2 && Short(t[..2], c)
    ensures ParseChars(t) == Prepend(c, ParseChars(t[2..]))
  {
    ShortMeans(t[1]);
  }

  /** A spelled character is read as what it spells. */
  lemma SpelledParses(t: string, n: nat, c: char)
    requires n <= |t| && SpellsChar(t[..n], c, t[n..])
    ensures ParseChars(t) == Prepend(c, ParseChars(t[n..]))
  {
    if Plain(t[..n], c) {
      assert t == [c] + t[n..];
      PlainParses(t, c, t[n..]);
    } else if Short(t[..n], c) {
      ShortParses(t, c);
    } else if Single(t[..n], c) {
      SingleParses(t, c);
    } else if Paired(t[..n], c) {
      PairedParses(t, c);
    } else {
      UnpairedParses(t, c);
    }
  }

  lemma UnitIsSpelled(t: string)
    requires UnitAt(t, 0)
    ensures var (c, n) := EscapedUnit(t); SpellsChar(t[..n], c, t[n..])
  {
    var u := Unit(t, 0);
    UnitMeans(t, u);
    LowFollowsMeans(t);
    var (c, n) := EscapedUnit(t);
    if n == 12 {
      PairIsSpelled(t, u, Unit(t, 6), c);
    }
  }

  lemma PairIsSpelled(t: string, high: nat, low: nat, c: char)
    requires UnitAt(t, 0) && Unit(t, 0) == high && IsHigh(high) && UnitAt(t, 6) && Unit(t, 6) == low && IsLow(low)
    requires c as int == 0x10000 + (high - 0xD800) * 0x400 + (low - 0xDC00)
    ensures Paired(t[..12], c)
  {
    UnitMeans(t, high);
    NextUnitMeans(t, low);
    var piece := t[..12];
    assert piece[..6] == t[..6] && piece[6..] == t[6..12];
    assert IsPair(piece[..6], piece[6..], high, low, c);
  }

  /** Whatever the parser reads as the first character is a spelling of it. */
  lemma ParsedIsSpelled(t: string) returns (n: nat, c: char)
    requires ParseChars(t).Some? && t[0] != '"'
    ensures n <= |t| && SpellsChar(t[..n], c, t[n..]) && ParseChars(t) == Prepend(c, ParseChars(t[n..]))
  {
    if t[0] != '\\' {
      n, c := 1, t[0];
      assert Plain(t[..1], c);
    } else if Unescape(t[1]).Some? {
      ShortMeans(t[1]);
      n, c := 2, SHORT[t[1]];
      assert Short(t[..2], c);
    } else {
      ParsesUnit(t);
      UnitIsSpelled(t);
      n, c := EscapedUnit(t).1, EscapedUnit(t).0;
    }
  }

  // ---- Strings ----

  lemma {:induction false} ParsedStringIsSpelled(t: string)
    requires ParseChars(t).Some?
    ensures SpellsString(t, ParseChars(t).value.s, ParseChars(t).value.rest)
    decreases |ParseChars(t).value.s|
  {
    if t[0] == '"' {
      assert t == "\"" + t[1..];
    } else {
      var n, c := ParsedIsSpelled(t);
      var r := ParseChars(t[n..]);
      var s := ParseChars(t).value.s;
      assert s[0] == c && s[1..] == r.value.s;
      ParsedStringIsSpelled(t[n..]);
    }
  }

  lemma QuoteParses(t: string, rest: string)
    requires t == "\"" + rest
    ensures ParseChars(t) == Some(Chars("", rest))
  {
    assert t[1..] == rest;
  }

  lemma PrependJoins(c: char, s: string, rest: string, r: Option<Chars>)
    requires s != "" && s[0] == c && r == Some(Chars(s[1..], rest))
    ensures Prepend(c, r) == Some(Chars(s, rest))
  {
    assert [s[0]] + s[1..] == s;
  }

  lemma {:induction false} SpelledStringParses(t: string, s: string, rest: string)
    requires SpellsString(t, s, rest)
    ensures ParseChars(t) == Some(Chars(s, rest))
    decreases |s|
  {
    if s == "" {
      QuoteParses(t, rest);
    } else {
      var n: nat :| n <= |t| && SpellsChar(t[..n], s[0], t[n..]) && SpellsString(t[n..], s[1..], rest);
      SpelledStringParses(t[n..], s[1..], rest);
      SpelledParses(t, n, s[0]);
      PrependJoins(s[0], s, rest, ParseChars(t[n..]));
    }
  }

  /** A string is read exactly as the grammar spells it. */
  lemma StringsAreSpelled(t: string, s: string, rest: string)
    ensures ParseChars(t) == Some(Chars(s, rest)) <==> SpellsString(t, s, rest)
  {
    if ParseChars(t) == Some(Chars(s, rest)) {
      ParsedStringIsSpelled(t);
    }
    if SpellsString(t, s, rest) {
      SpelledStringParses(t, s, rest);
    }
  }
}
