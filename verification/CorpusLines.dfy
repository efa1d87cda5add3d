/**
 Corpus text as the line scanner sees it, and the digests its lines stand for.
 Characters are bytes.
 */
module CorpusLines {
  import opened Wrappers

  const MAXIMUM_LINE_BYTES := 4096

  // ---- Lines ----

  function FirstBreak(text: string): (k: nat)
    ensures k <= |text|
    ensures forall i :: 0 <= i < k ==> text[i] != '\n'
    ensures k < |text| ==> text[k] == '\n'
  {
    if text == "" then 0
    else if text[0] == '\n' then 0
    else
      var k := FirstBreak(text[1..]);
      assert forall i :: 1 <= i < k + 1 ==> text[i] == text[1..][i - 1];
      k + 1
  }

  /** The stretches between line feeds; a last stretch without one counts when it is not empty. */
  function RawLines(text: string): seq<string>
    decreases |text|
  {
    if text == "" then []
    else
      var k := FirstBreak(text);
      if k == |text| then [text] else [text[..k]] + RawLines(text[k + 1..])
  }

  function DropReturn(line: string): string {
    if line != "" && line[|line| - 1] == '\r' then line[..|line| - 1] else line
  }

  predicate LinesFit(raw: seq<string>) {
    forall i :: 0 <= i < |raw| ==> |raw[i]| <= MAXIMUM_LINE_BYTES
  }

  // ---- Normalisation ----

  predicate Blank(c: char) {
    c == ' ' || c == '\t' || c == '\n' || c == '\r' || c == 11 as char || c == 12 as char
  }

  function TrimLeft(s: string): string {
    if s != "" && Blank(s[0]) then TrimLeft(s[1..]) else s
  }

  function TrimRight(s: string): string {
    if s != "" && Blank(s[|s| - 1]) then TrimRight(s[..|s| - 1]) else s
  }

  function Upper(s: string): (u: string)
    ensures |u| == |s|
  {
    seq(|s|, i requires 0 <= i < |s| => if 'a' <= s[i] <= 'z'
      then (s[i] as int - 'a' as int + 'A' as int) as char else s[i])
  }

  predicate Hexadecimal(s: string) {
    forall i :: 0 <= i < |s| ==> '0' <= s[i] <= '9' || 'A' <= s[i] <= 'F'
  }

  /** An upper-case SHA-1 or SHA-256 digest. */
  predicate IsDigest(d: string) {
    (|d| == 40 || |d| == 64) && Hexadecimal(d)
  }

  datatype Normalized = Digest(value: string) | Ignored | Invalid

  /** `NormalizeLine` */
  function Normalize(line: string): (r: Normalized)
    ensures r.Digest? ==> IsDigest(r.value)
  {
    var trimmed := TrimRight(TrimLeft(line));
    if trimmed == "" || trimmed[0] == '#' then Ignored
    else if IsDigest(Upper(trimmed)) then Digest(Upper(trimmed))
    else Invalid
  }

  lemma TrimIsShorter(line: string)
    ensures |TrimRight(TrimLeft(line))| <= |line|
  {
    TrimLeftIsShorter(line);
    TrimRightIsShorter(TrimLeft(line));
  }

  lemma {:induction false} TrimLeftIsShorter(s: string)
    ensures |TrimLeft(s)| <= |s|
    decreases |s|
  {
    if s != "" && Blank(s[0]) {
      TrimLeftIsShorter(s[1..]);
    }
  }

  lemma {:induction false} TrimRightIsShorter(s: string)
    ensures |TrimRight(s)| <= |s|
    decreases |s|
  {
    if s != "" && Blank(s[|s| - 1]) {
      TrimRightIsShorter(s[..|s| - 1]);
    }
  }

  /** A canonical digest line stands for itself. */
  lemma DigestIsNormal(d: string)
    requires IsDigest(d)
    ensures Normalize(d) == Digest(d)
  {
    assert !Blank(d[0]) && !Blank(d[|d| - 1]);
    assert TrimLeft(d) == d;
    assert Upper(d) == d;
  }

  // ---- The digests of a text ----

  /** The digests of the lines, in order and with repetitions; nothing if a line is malformed. */
  function Digests(raw: seq<string>): Option<seq<string>> {
    if raw == [] then Some([])
    else
      match Digests(raw[..|raw| - 1])
      case None => None
      case Some(before) =>
        match Normalize(DropReturn(raw[|raw| - 1]))
        case Invalid => None
        case Ignored => Some(before)
        case Digest(d) => Some(before + [d])
  }

  /** What one source contributes: nothing at all when a line is too long or malformed. */
  function SourceDigests(text: string): Option<seq<string>> {
    if LinesFit(RawLines(text)) then Digests(RawLines(text)) else None
  }

  predicate AllDigests(list: seq<string>) {
    forall i :: 0 <= i < |list| ==> IsDigest(list[i])
  }

  lemma {:induction false} DigestsAreDigests(raw: seq<string>)
    requires Digests(raw).Some?
    ensures AllDigests(Digests(raw).value)
    decreases |raw|
  {
    if raw != [] {
      DigestsAreDigests(raw[..|raw| - 1]);
    }
  }

  /** The plain scan: a digest is listed exactly when some line normalises to it. */
  lemma {:induction false} DigestsMeanLines(raw: seq<string>, d: string)
    requires Digests(raw).Some?
    ensures d in Digests(raw).value <==> exists i :: 0 <= i < |raw| && Normalize(DropReturn(raw[i])) == Digest(d)
    decreases |raw|
  {
    if raw != [] {
      var before := raw[..|raw| - 1];
      DigestsMeanLines(before, d);
      if i :| 0 <= i < |raw| && Normalize(DropReturn(raw[i])) == Digest(d) {
        assert i < |before| ==> before[i] == raw[i];
      }
      if i :| 0 <= i < |before| && Normalize(DropReturn(before[i])) == Digest(d) {
        assert raw[i] == before[i];
      }
    }
  }

  // ---- How many digests fit into a text ----

  function TotalLength(raw: seq<string>): nat {
    if raw == [] then 0 else TotalLength(raw[..|raw| - 1]) + |raw[|raw| - 1]| + 1
  }

  /** Each digest takes a line of at least 40 bytes and its line feed. */
  lemma {:induction false} DigestsTakeSpace(raw: seq<string>)
    requires Digests(raw).Some?
    ensures 41 * |Digests(raw).value| <= TotalLength(raw)
    decreases |raw|
  {
    if raw != [] {
      DigestsTakeSpace(raw[..|raw| - 1]);
      var line := DropReturn(raw[|raw| - 1]);
      TrimIsShorter(line);
    }
  }

  lemma {:induction false} TotalLengthJoin(a: seq<string>, b: seq<string>)
    ensures TotalLength(a + b) == TotalLength(a) + TotalLength(b)
    decreases |b|
  {
    if b == [] {
      assert a + b == a;
    } else {
      TotalLengthJoin(a, b[..|b| - 1]);
      assert (a + b)[..|a + b| - 1] == a + b[..|b| - 1];
    }
  }

  predicate EndsWithBreak(text: string) {
    text == "" || text[|text| - 1] == '\n'
  }

  /** The lines with their line feeds are the text, plus one byte when the last line feed is missing. */
  lemma FirstLineFills(text: string, k: nat)
    requires k < |text| && k == FirstBreak(text)
    ensures TotalLength(RawLines(text)) == k + 1 + TotalLength(RawLines(text[k + 1..]))
  {
    var rest := text[k + 1..];
    TotalLengthJoin([text[..k]], RawLines(rest));
    assert [text[..k]][..0] == [];
    assert TotalLength([text[..k]]) == k + 1;
  }

  lemma RestEndsAlike(text: string, k: nat)
    requires 0 < k <= |text| && text[k - 1] == '\n'
    ensures EndsWithBreak(text) <==> EndsWithBreak(text[k..])
  {
    var rest := text[k..];
    assert rest != "" ==> rest[|rest| - 1] == text[|text| - 1];
  }

  lemma {:induction false} LinesFillText(text: string)
    ensures TotalLength(RawLines(text)) == |text| + if EndsWithBreak(text) then 0 else 1
    decreases |text|
  {
    if text != "" {
      var k := FirstBreak(text);
      if k == |text| {
        assert text[|text| - 1] != '\n';
        assert RawLines(text) == [text] && [text][..0] == [];
        assert TotalLength([text]) == TotalLength([]) + |text| + 1;
      } else {
        LinesFillText(text[k + 1..]);
        FirstLineFills(text, k);
        RestEndsAlike(text, k + 1);
      }
    }
  }

  lemma SourceTakesSpace(text: string)
    requires SourceDigests(text).Some?
    ensures 41 * |SourceDigests(text).value| <= |text| + if EndsWithBreak(text) then 0 else 1
  {
    DigestsTakeSpace(RawLines(text));
    LinesFillText(text);
  }

  // ---- Canonical text ----

  /** One digest per line. */
  function Text(lines: seq<string>): string {
    if lines == [] then "" else lines[0] + "\n" + Text(lines[1..])
  }

  lemma FirstBreakOf(line: string, rest: string)
    requires forall i :: 0 <= i < |line| ==> line[i] != '\n'
    ensures FirstBreak(line + "\n" + rest) == |line|
  {
    var text := line + "\n" + rest;
    assert text[|line|] == '\n';
    forall i | 0 <= i < |line|
      ensures text[i] == line[i]
    {
    }
  }

  /** Writing digests as lines and scanning them gives them back. */
  lemma {:induction false} ScanText(lines: seq<string>)
    requires AllDigests(lines)
    ensures RawLines(Text(lines)) == lines
    decreases |lines|
  {
    if lines != [] {
      var line, rest := lines[0], Text(lines[1..]);
      assert IsDigest(line);
      FirstBreakOf(line, rest);
      var text := Text(lines);
      assert text[..|line|] == line && text[|line| + 1..] == rest;
      assert AllDigests(lines[1..]);
      ScanText(lines[1..]);
    }
  }

  lemma {:induction false} TextLength(lines: seq<string>)
    ensures |Text(lines)| == TotalLength(lines)
    decreases |lines|
  {
    if lines != [] {
      TextLength(lines[1..]);
      TotalLengthJoin([lines[0]], lines[1..]);
      assert lines == [lines[0]] + lines[1..] && [lines[0]][..0] == [];
      assert TotalLength([lines[0]]) == |lines[0]| + 1;
    }
  }
}
