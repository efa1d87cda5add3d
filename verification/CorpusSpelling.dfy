/**
 What a corpus text says, read off its bytes: a digest stands on a line in either case,
 between blanks.  The normalisation of lines is proved to find exactly that.
 */
module CorpusSpelling {
  import opened CorpusLines

  // ---- One line ----

  /** ASCII white space: tab to carriage return, and the space. */
  predicate White(c: char) {
    9 <= c as int <= 13 || c == ' '
  }

  predicate AllWhite(s: string) {
    forall i :: 0 <= i < |s| ==> White(s[i])
  }

  const HEX := "0123456789ABCDEF"

  /** The letter as the digest has it, or as the lower-case letter 32 places further on. */
  predicate InEitherCase(c: char, letter: char) {
    c == letter || ('A' <= letter <= 'Z' && c as int == letter as int + 32)
  }

  /** An upper-case digest, and the same letters in either case. */
  predicate SpellsDigest(s: string, d: string) {
    && (|d| == 40 || |d| == 64) && |s| == |d|
    && forall i :: 0 <= i < |d| ==> d[i] in HEX && InEitherCase(s[i], d[i])
  }

  /** The line holds the spelled digest from `a` to `b` and nothing but blanks around it. */
  predicate SpellsAt(line: string, a: nat, b: nat, d: string) {
    a <= b <= |line| && AllWhite(line[..a]) && SpellsDigest(line[a..b], d) && AllWhite(line[b..])
  }

  ghost predicate Spells(line: string, d: string) {
    exists a: nat, b: nat :: SpellsAt(line, a, b, d)
  }

  /** Nothing but blanks, or a number sign as the first thing that is not blank. */
  ghost predicate Skipped(line: string) {
    AllWhite(line) || exists a: nat :: a < |line| && AllWhite(line[..a]) && line[a] == '#'
  }

  lemma WhiteIsBlank(c: char)
    ensures White(c) <==> Blank(c)
  {
  }

  lemma {:induction false} LeftIsTrimmed(s: string) returns (a: nat)
    ensures a <= |s| && AllWhite(s[..a]) && TrimLeft(s) == s[a..]
    ensures a < |s| ==> !White(s[a])
    decreases |s|
  {
    a := 0;
    if s != "" && Blank(s[0]) {
      var k := LeftIsTrimmed(s[1..]);
      a := k + 1;
      assert s[..a] == [s[0]] + s[1..][..k];
      assert s[1..][k..] == s[a..];
    }
  }

  lemma {:induction false} RightIsTrimmed(s: string) returns (b: nat)
    ensures b <= |s| && AllWhite(s[b..]) && TrimRight(s) == s[..b]
    ensures b > 0 ==> !White(s[b - 1])
    decreases |s|
  {
    b := |s|;
    if s != "" && Blank(s[|s| - 1]) {
      b := RightIsTrimmed(s[..|s| - 1]);
      assert s[b..] == s[..|s| - 1][b..] + [s[|s| - 1]];
      assert s[..|s| - 1][..b] == s[..b];
    }
  }

  /** Trimming leaves the stretch between the outer blanks. */
  lemma TrimmedStretch(line: string) returns (a: nat, b: nat)
    ensures a <= b <= |line| && AllWhite(line[..a]) && AllWhite(line[b..])
    ensures TrimRight(TrimLeft(line)) == line[a..b]
    ensures a < b ==> !White(line[a]) && !White(line[b - 1])
  {
    a := LeftIsTrimmed(line);
    var k := RightIsTrimmed(line[a..]);
    b := a + k;
    assert line[a..][..k] == line[a..b] && line[a..][k..] == line[b..];
    if a < b {
      assert line[a..][k - 1] == line[b - 1];
    }
  }

  /** Every place outside the stretch is blank. */
  lemma BlankAround(line: string, a: nat, b: nat)
    requires a <= b <= |line| && AllWhite(line[..a]) && AllWhite(line[b..])
    ensures forall i :: 0 <= i < a || b <= i < |line| ==> White(line[i])
  {
    forall i | 0 <= i < a || b <= i < |line|
      ensures White(line[i])
    {
      assert i < a ==> line[..a][i] == line[i];
      assert b <= i ==> line[b..][i - b] == line[i];
    }
  }

  /** Two stretches between blanks that neither start nor end with one are the same. */
  lemma SameStretch(line: string, a: nat, b: nat, c: nat, d: nat)
    requires a < b <= |line| && AllWhite(line[..a]) && AllWhite(line[b..]) && !White(line[a]) && !White(line[b - 1])
    requires c < d <= |line| && AllWhite(line[..c]) && AllWhite(line[d..]) && !White(line[c]) && !White(line[d - 1])
    ensures a == c && b == d
  {
    BlankAround(line, a, b);
    BlankAround(line, c, d);
  }

  lemma HexLetter(c: char)
    ensures c in HEX <==> '0' <= c <= '9' || 'A' <= c <= 'F'
  {
    if '0' <= c <= '9' {
      assert HEX[c as int - '0' as int] == c;
    } else if 'A' <= c <= 'F' {
      assert HEX[c as int - 'A' as int + 10] == c;
    }
  }

  lemma HexIsDigest(d: string)
    ensures IsDigest(d) <==> (|d| == 40 || |d| == 64) && forall i :: 0 <= i < |d| ==> d[i] in HEX
  {
    forall i | 0 <= i < |d|
      ensures d[i] in HEX <==> '0' <= d[i] <= '9' || 'A' <= d[i] <= 'F'
    {
      HexLetter(d[i]);
    }
  }

  lemma UpperLetter(c: char, letter: char)
    requires letter in HEX
    ensures InEitherCase(c, letter) <==> Upper([c]) == [letter]
  {
    HexLetter(letter);
    assert Upper([c])[0] == letter <==> InEitherCase(c, letter);
  }

  lemma UpperAt(s: string, i: nat)
    requires i < |s|
    ensures Upper(s)[i] == Upper([s[i]])[0]
  {
  }

  lemma UpperSpells(s: string, d: string)
    ensures IsDigest(d) && Upper(s) == d <==> SpellsDigest(s, d)
  {
    HexIsDigest(d);
    if IsDigest(d) && |s| == |d| {
      forall i | 0 <= i < |d|
        ensures Upper(s)[i] == d[i] <==> InEitherCase(s[i], d[i])
      {
        UpperLetter(s[i], d[i]);
        UpperAt(s, i);
      }
    }
  }

  lemma SpelledEnds(s: string, d: string)
    requires SpellsDigest(s, d)
    ensures !White(s[0]) && s[0] != '#' && !White(s[|s| - 1])
  {
    HexLetter(d[0]);
    HexLetter(d[|d| - 1]);
  }

  lemma SpelledStretch(line: string, c: nat, e: nat, d: string, a: nat, b: nat)
    requires SpellsAt(line, c, e, d)
    requires a <= b <= |line| && AllWhite(line[..a]) && AllWhite(line[b..])
    requires a < b ==> !White(line[a]) && !White(line[b - 1])
    ensures a == c && b == e
  {
    var s := line[c..e];
    SpelledEnds(s, d);
    assert s[0] == line[c] && s[|s| - 1] == line[e - 1];
    BlankAround(line, a, b);
    SameStretch(line, a, b, c, e);
  }

  lemma NormalizeTrimmed(line: string, a: nat, b: nat, d: string)
    requires a <= b <= |line| && TrimRight(TrimLeft(line)) == line[a..b]
    ensures Normalize(line) == Digest(d) <==> SpellsDigest(line[a..b], d)
  {
    var s := line[a..b];
    UpperSpells(s, d);
    if SpellsDigest(s, d) {
      SpelledEnds(s, d);
    }
  }

  /** A line normalises to a digest exactly if it spells it, in either case and between blanks. */
  lemma NormalizeMeansSpelling(line: string, d: string)
    ensures Normalize(line) == Digest(d) <==> Spells(line, d)
  {
    var a, b := TrimmedStretch(line);
    NormalizeTrimmed(line, a, b, d);
    if Normalize(line) == Digest(d) {
      assert SpellsAt(line, a, b, d);
    }
    if c: nat, e: nat :| SpellsAt(line, c, e, d) {
      SpelledStretch(line, c, e, d, a, b);
    }
  }

  /** A line is skipped exactly if it is blank or its first mark is a number sign. */
  lemma NormalizeMeansSkipped(line: string)
    ensures Normalize(line) == Ignored <==> Skipped(line)
  {
    var a, b := TrimmedStretch(line);
    if a == b {
      assert line == line[..a] + line[b..];
    } else {
      assert line[a..b][0] == line[a];
      assert !AllWhite(line);
      if c: nat :| c < |line| && AllWhite(line[..c]) && line[c] == '#' {
        BlankAround(line, a, b);
        BlankAround(line, c, |line|);
      }
    }
  }

  // ---- A whole text ----

  /** The stretch from `a` to `b` is one line: bounded by line feeds or the ends of the text. */
  predicate LineAt(text: string, a: nat, b: nat) {
    && a <= b <= |text| && (a == 0 || text[a - 1] == '\n') && (b == |text| || text[b] == '\n')
    && forall i :: a <= i < b ==> text[i] != '\n'
  }

  /** A line of the text after the first line feed is a line of the whole text. */
  lemma LineMoves(text: string, k: nat, c: nat, d: nat)
    requires k < |text| && text[k] == '\n' && c <= d <= |text[k + 1..]|
    ensures LineAt(text[k + 1..], c, d) <==> LineAt(text, k + 1 + c, k + 1 + d)
    ensures text[k + 1..][c..d] == text[k + 1 + c..k + 1 + d]
  {
    var rest := text[k + 1..];
    assert forall j :: 0 <= j < |rest| ==> rest[j] == text[k + 1 + j];
    assert forall j :: k < j < |text| ==> text[j] == rest[j - k - 1];
  }

  ghost predicate StandsIn(text: string, line: string) {
    exists a: nat, b: nat :: LineAt(text, a, b) && text[a..b] == line
  }

  /** The listed lines are exactly the lines of the text, but for an empty one that may be left out. */
  ghost predicate ListsLines(text: string, raw: seq<string>) {
    && (forall line :: line in raw ==> StandsIn(text, line))
    && forall line :: StandsIn(text, line) && line != "" ==> line in raw
  }

  lemma FirstLineStands(text: string, k: nat)
    requires LineAt(text, 0, k)
    ensures StandsIn(text, text[..k])
  {
    assert text[0..k] == text[..k];
  }

  lemma LaterLineStands(text: string, k: nat, line: string)
    requires k < |text| && text[k] == '\n' && StandsIn(text[k + 1..], line)
    ensures StandsIn(text, line)
  {
    var c: nat, d: nat :| LineAt(text[k + 1..], c, d) && text[k + 1..][c..d] == line;
    LineMoves(text, k, c, d);
  }

  lemma LineIsFirstOrLater(text: string, k: nat, line: string)
    requires k < |text| && text[k] == '\n' && LineAt(text, 0, k) && StandsIn(text, line)
    ensures line == text[..k] || StandsIn(text[k + 1..], line)
  {
    var a: nat, b: nat :| LineAt(text, a, b) && text[a..b] == line;
    if a == 0 {
      assert b == k;
    } else {
      var c, d: nat := a - k - 1, b - k - 1;
      LineMoves(text, k, c, d);
    }
  }

  lemma BrokenText(text: string, k: nat, more: seq<string>)
    requires k < |text| && text[k] == '\n' && LineAt(text, 0, k) && ListsLines(text[k + 1..], more)
    ensures ListsLines(text, [text[..k]] + more)
  {
    FirstLineStands(text, k);
    forall line | line in more
      ensures StandsIn(text, line)
    {
      LaterLineStands(text, k, line);
    }
    forall line | StandsIn(text, line) && line != ""
      ensures line in [text[..k]] + more
    {
      LineIsFirstOrLater(text, k, line);
    }
  }

  lemma UnbrokenText(text: string)
    requires LineAt(text, 0, |text|)
    ensures ListsLines(text, [text])
  {
    assert text[..|text|] == text;
    FirstLineStands(text, |text|);
    forall line | StandsIn(text, line)
      ensures line == text
    {
      var a: nat, b: nat :| LineAt(text, a, b) && text[a..b] == line;
    }
  }

  lemma EmptyText()
    ensures ListsLines("", [])
  {
  }

  /** The scanner's lines are the stretches between the line feeds. */
  lemma {:induction false} RawLinesAreLines(text: string)
    ensures ListsLines(text, RawLines(text))
    decreases |text|
  {
    var k := FirstBreak(text);
    if text == "" {
      EmptyText();
    } else if k == |text| {
      UnbrokenText(text);
    } else {
      RawLinesAreLines(text[k + 1..]);
      BrokenText(text, k, RawLines(text[k + 1..]));
    }
  }

  lemma SameBefore(line: string, c: char, a: nat, b: nat)
    requires a <= b <= |line|
    ensures (line + [c])[..a] == line[..a] && (line + [c])[a..b] == line[a..b]
    ensures (line + [c])[b..] == line[b..] + [c]
  {
  }

  lemma BlankAdded(line: string, c: char, a: nat, b: nat, d: string)
    requires White(c) && SpellsAt(line, a, b, d)
    ensures SpellsAt(line + [c], a, b, d)
  {
    SameBefore(line, c, a, b);
  }

  lemma BlankTaken(line: string, c: char, a: nat, b: nat, d: string)
    requires White(c) && SpellsAt(line + [c], a, b, d)
    ensures SpellsAt(line, a, b, d)
  {
    var long := line + [c];
    SpelledEnds(long[a..b], d);
    assert long[a..b][|d| - 1] == long[b - 1];
    SameBefore(line, c, a, b);
    forall i | 0 <= i < |line[b..]|
      ensures White(line[b..][i])
    {
      assert long[b..][i] == line[b..][i];
    }
  }

  /** A blank added at the end of a line changes nothing. */
  lemma BlankAtEnd(line: string, c: char, d: string)
    requires White(c)
    ensures Spells(line + [c], d) <==> Spells(line, d)
  {
    if a: nat, b: nat :| SpellsAt(line, a, b, d) {
      BlankAdded(line, c, a, b, d);
    }
    if a: nat, b: nat :| SpellsAt(line + [c], a, b, d) {
      BlankTaken(line, c, a, b, d);
    }
  }

  /** A carriage return before the line feed is a blank like any other. */
  lemma ReturnIsBlank(line: string, d: string)
    ensures Spells(DropReturn(line), d) <==> Spells(line, d)
  {
    var short := DropReturn(line);
    if short != line {
      assert line == short + ['\r'];
      BlankAtEnd(short, '\r', d);
    }
  }

  /** Some line of the text spells the digest. */
  ghost predicate HoldsDigest(text: string, d: string) {
    exists line :: StandsIn(text, line) && Spells(line, d)
  }

  lemma NormalizedMeansSpelling(line: string, d: string)
    ensures Normalize(DropReturn(line)) == Digest(d) <==> Spells(line, d)
    ensures Spells(line, d) ==> line != ""
  {
    ReturnIsBlank(line, d);
    NormalizeMeansSpelling(DropReturn(line), d);
  }

  lemma ScanMeansSpelling(text: string, raw: seq<string>, d: string)
    requires ListsLines(text, raw)
    ensures (exists i :: 0 <= i < |raw| && Normalize(DropReturn(raw[i])) == Digest(d)) <==> HoldsDigest(text, d)
  {
    if i :| 0 <= i < |raw| && Normalize(DropReturn(raw[i])) == Digest(d) {
      NormalizedMeansSpelling(raw[i], d);
    }
    if line :| StandsIn(text, line) && Spells(line, d) {
      NormalizedMeansSpelling(line, d);
    }
  }

  lemma LinesMeanSpelling(text: string, raw: seq<string>, d: string)
    requires ListsLines(text, raw) && Digests(raw).Some?
    ensures d in Digests(raw).value <==> HoldsDigest(text, d)
  {
    DigestsMeanLines(raw, d);
    ScanMeansSpelling(text, raw, d);
  }

  /** A source contributes a digest exactly if one of the lines of its text spells it. */
  lemma EntriesMeanSpelling(text: string, d: string)
    requires SourceDigests(text).Some?
    ensures d in SourceDigests(text).value <==> HoldsDigest(text, d)
  {
    RawLinesAreLines(text);
    LinesMeanSpelling(text, RawLines(text), d);
  }

  // ---- Which texts are read at all ----

  ghost predicate Readable(line: string) {
    Skipped(line) || exists d :: Spells(line, d)
  }

  lemma ReadableMeansValid(line: string)
    ensures Readable(line) <==> Normalize(line) != Invalid
  {
    NormalizeMeansSkipped(line);
    if Normalize(line).Digest? {
      NormalizeMeansSpelling(line, Normalize(line).value);
    }
    if d :| Spells(line, d) {
      NormalizeMeansSpelling(line, d);
    }
  }

  lemma SkippedAtEnd(line: string, c: char)
    requires White(c)
    ensures Skipped(line + [c]) <==> Skipped(line)
  {
    var long := line + [c];
    assert forall i :: 0 <= i < |line| ==> line[i] == long[i];
    if a: nat :| a < |line| && AllWhite(line[..a]) && line[a] == '#' {
      assert long[..a] == line[..a] && long[a] == '#';
    }
    if a: nat :| a < |long| && AllWhite(long[..a]) && long[a] == '#' {
      assert long[..a] == line[..a] && line[a] == '#';
    }
  }

  lemma ReadableReturn(line: string)
    ensures Readable(DropReturn(line)) <==> Readable(line)
  {
    var short := DropReturn(line);
    if short != line {
      assert line == short + ['\r'];
      SkippedAtEnd(short, '\r');
    }
    forall d
      ensures Spells(short, d) <==> Spells(line, d)
    {
      ReturnIsBlank(line, d);
    }
  }

  ghost predicate AcceptableLine(line: string) {
    |line| <= 4096 && Readable(line)
  }

  lemma {:induction false} AcceptedLines(raw: seq<string>)
    ensures Digests(raw).Some? <==> forall line :: line in raw ==> Readable(line)
    decreases |raw|
  {
    if raw != [] {
      var before, last := raw[..|raw| - 1], raw[|raw| - 1];
      AcceptedLines(before);
      ReadableReturn(last);
      ReadableMeansValid(DropReturn(last));
      assert raw == before + [last];
    }
  }

  lemma LinesFitMeans(raw: seq<string>)
    ensures LinesFit(raw) <==> forall line :: line in raw ==> |line| <= 4096
  {
  }

  /** A source is read exactly if every line of its text is short enough and is skipped or spells a digest. */
  lemma SourceIsReadIff(text: string)
    ensures SourceDigests(text).Some? <==> forall line :: StandsIn(text, line) ==> AcceptableLine(line)
  {
    var raw := RawLines(text);
    RawLinesAreLines(text);
    AcceptedLines(raw);
    LinesFitMeans(raw);
    if SourceDigests(text).Some? {
      forall line | StandsIn(text, line)
        ensures AcceptableLine(line)
      {
        assert line == "" ==> AllWhite(line);
      }
    }
  }
}
