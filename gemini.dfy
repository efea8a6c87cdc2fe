/** The service layer (services/geminiService.ts): the parser that splits
    the model's reply into a three-bullet summary and a detailed summary,
    the rules of `analyzeAudio` around the external call, the mapping of
    error messages to user messages, and the chat-reply fallback. The
    external calls themselves are given as their outcomes. */
module Gemini {
  import opened Types
  import opened Text

  // ---------------------------------------------------------------------
  // Section markers and capture modes

  const ThreeLineMarker: string := "📌 3줄 핵심 요약"
  const DetailedMarker: string := "📝 상세 요약"

  /** Which section the parser is currently collecting. */
  datatype CaptureMode = NoCapture | ThreeLines | Detailed

  predicate IsMarkerLine(line: string) {
    Contains(line, ThreeLineMarker) || Contains(line, DetailedMarker)
  }

  /** How the scan reads a trimmed line: as the heading of a section, or
      as content. The three-line marker is tested first, so a line holding
      both markers opens the three-line section. */
  datatype LineKind = ThreeLineHeading | DetailedHeading | Content

  function KindOf(line: string): (k: LineKind)
    ensures k == Content <==> !IsMarkerLine(line)
    ensures k == ThreeLineHeading <==> Contains(line, ThreeLineMarker)
  {
    if Contains(line, ThreeLineMarker) then ThreeLineHeading
    else if Contains(line, DetailedMarker) then DetailedHeading
    else Content
  }

  /** The mode after a line of the given kind. */
  function NextMode(mode: CaptureMode, kind: LineKind): CaptureMode {
    match kind
    case ThreeLineHeading => ThreeLines
    case DetailedHeading => Detailed
    case Content => mode
  }

  /** Both markers are non-empty and start and end with a non-whitespace
      character, so trimming a line never cuts one apart: testing the
      trimmed line, as the scan does, finds the markers of the raw line. */
  lemma KindOfTrim(line: string)
    ensures Contains(Trim(line), ThreeLineMarker) <==> Contains(line, ThreeLineMarker)
    ensures Contains(Trim(line), DetailedMarker) <==> Contains(line, DetailedMarker)
    ensures KindOf(Trim(line)) == KindOf(line)
  {
    assert IsTrimmed(ThreeLineMarker) && IsTrimmed(DetailedMarker);
    if Contains(line, ThreeLineMarker) {
      TrimKeepsContains(line, ThreeLineMarker);
    }
    if Contains(line, DetailedMarker) {
      TrimKeepsContains(line, DetailedMarker);
    }
    if Contains(Trim(line), ThreeLineMarker) {
      TrimContains(line, ThreeLineMarker);
    }
    if Contains(Trim(line), DetailedMarker) {
      TrimContains(line, DetailedMarker);
    }
  }

  // ---------------------------------------------------------------------
  // List-marker stripping: line.replace(/^[-*•\d\.]+\s*/, '').trim()

  /** A character of the class [-*•\d.]; `\d` is ASCII 0-9 only. */
  predicate IsListMarkerChar(c: char) {
    c == '-' || c == '*' || c == '•' || IsDigit(c) || c == '.'
  }

  /** The length of the longest run of list-marker characters s starts with. */
  function ListMarkerLength(s: string): (k: nat)
    ensures k <= |s|
    ensures k == |s| || !IsListMarkerChar(s[k])
    ensures k == 0 <==> |s| == 0 || !IsListMarkerChar(s[0])
    decreases |s|
  {
    if |s| > 0 && IsListMarkerChar(s[0]) then 1 + ListMarkerLength(s[1..]) else 0
  }

  /** The run ListMarkerLength measures holds list-marker characters only. */
  lemma {:induction false} ListMarkerRun(s: string)
    ensures forall i :: 0 <= i < ListMarkerLength(s) ==> IsListMarkerChar(s[i])
    decreases |s|
  {
    if |s| > 0 && IsListMarkerChar(s[0]) {
      ListMarkerRun(s[1..]);
      assert forall i :: 1 <= i < |s| ==> s[i] == s[1..][i - 1];
    }
  }

  /** The regular-expression replacement: when s starts with a list-marker
      character, the whole marker run and the whitespace after it go;
      otherwise s is unchanged. */
  function StripListMarker(s: string): (r: string)
    ensures |r| <= |s|
    ensures (|s| == 0 || !IsListMarkerChar(s[0])) ==> r == s
    ensures |s| > 0 && IsListMarkerChar(s[0]) ==> |r| < |s| && (|r| == 0 || !IsWhitespace(r[0]))
  {
    var k := ListMarkerLength(s);
    if k == 0 then s else TrimStart(s[k..])
  }

  /** The replacement only removes a prefix: the result is a suffix of s. */
  lemma StripListMarkerIsSuffix(s: string)
    ensures StripListMarker(s) == s[|s| - |StripListMarker(s)|..]
  {
    var k := ListMarkerLength(s);
    if k > 0 {
      TrimStartIsSuffix(s[k..]);
      assert s[k..][|s| - k - |StripListMarker(s)|..] == s[|s| - |StripListMarker(s)|..];
    }
  }

  /** Every character the replacement removes is a list-marker character or
      whitespace. */
  lemma StripListMarkerRemoves(s: string)
    ensures forall i :: 0 <= i < |s| - |StripListMarker(s)| ==> IsListMarkerChar(s[i]) || IsWhitespace(s[i])
  {
    var k := ListMarkerLength(s);
    if k > 0 {
      ListMarkerRun(s);
      TrimStartDropsWhitespace(s[k..]);
      TrimStartIsSuffix(s[k..]);
      assert forall i :: k <= i < |s| ==> s[i] == s[k..][i - k];
    }
  }

  /** A bullet candidate after cleaning: marker stripped, then trimmed. */
  function CleanBullet(line: string): (r: string)
    ensures IsTrimmed(r)
  {
    Trim(StripListMarker(line))
  }

  /** A non-empty string with no whitespace at either end. */
  predicate IsCleanBullet(b: string) {
    |b| > 0 && IsTrimmed(b)
  }

  /** Cleaning only removes: what the cleaned line contains, the line contains. */
  lemma CleanBulletContains(line: string, m: string)
    requires Contains(CleanBullet(line), m)
    ensures Contains(line, m)
  {
    var s := StripListMarker(line);
    StripListMarkerIsSuffix(line);
    TrimContains(s, m);
    ContainsInSuffix(line, |line| - |s|, m);
  }

  // ---------------------------------------------------------------------
  // What each line contributes (the specification of the scan)

  /** A line as the scan sees it: trimmed, classified, and in the cleaned
      form it would have as a bullet. */
  datatype ScannedLine = ScannedLine(text: string, kind: LineKind, cleaned: string)

  function Read(line: string): ScannedLine {
    var t := Trim(line);
    ScannedLine(t, KindOf(t), CleanBullet(t))
  }

  function ReadLines(lines: seq<string>): (ls: seq<ScannedLine>)
    ensures |ls| == |lines|
  {
    seq(|lines|, j requires 0 <= j < |lines| => Read(lines[j]))
  }

  /** The mode in force when line i is reached. */
  function ModeAfter(ls: seq<ScannedLine>, i: nat): CaptureMode
    requires i <= |ls|
  {
    if i == 0 then NoCapture else NextMode(ModeAfter(ls, i - 1), ls[i - 1].kind)
  }

  /** What one line adds to the result. */
  datatype Contribution = Skip | Bullet(text: string) | DetailText(text: string)

  /** The contribution of a line read in the given mode: a heading and a
      line read before any heading add nothing; a three-line-mode line adds
      its cleaned form when the line and that form are not empty; a
      detailed-mode line adds itself, blank or not. */
  function Contribute(mode: CaptureMode, l: ScannedLine): (c: Contribution)
    ensures c.Bullet? ==>
      mode == ThreeLines && l.kind == Content && |l.text| > 0 && c.text == l.cleaned && |c.text| > 0
    ensures c.DetailText? ==> mode == Detailed && l.kind == Content && c.text == l.text
    ensures l.kind != Content || mode == NoCapture ==> c == Skip
    ensures mode == Detailed && l.kind == Content ==> c == DetailText(l.text)
    ensures mode == ThreeLines && l.kind == Content && |l.text| > 0 && |l.cleaned| > 0 ==> c == Bullet(l.cleaned)
  {
    if l.kind != Content then Skip
    else match mode
      case ThreeLines =>
        if |l.text| > 0 && |l.cleaned| > 0 then Bullet(l.cleaned) else Skip
      case Detailed => DetailText(l.text)
      case NoCapture => Skip
  }

  /** Line j contributes according to the mode in force at j. */
  function Contributions(ls: seq<ScannedLine>): (cs: seq<Contribution>)
    ensures |cs| == |ls|
  {
    seq(|ls|, j requires 0 <= j < |ls| => Contribute(ModeAfter(ls, j), ls[j]))
  }

  /** The lines of a reply, as the scan reads them. */
  function LinesOf(text: string): (ls: seq<ScannedLine>)
    ensures |ls| >= 1
  {
    ReadLines(Split(text))
  }

  /** What the lines of a reply contribute. */
  function ContributionsOf(text: string): (cs: seq<Contribution>)
    ensures |cs| == |LinesOf(text)|
  {
    Contributions(LinesOf(text))
  }

  /** The bullet texts, in order. */
  function BulletsOf(cs: seq<Contribution>): seq<string>
  {
    if |cs| == 0 then []
    else
      BulletsOf(cs[..|cs| - 1]) + BulletOf(cs[|cs| - 1])
  }

  function BulletOf(c: Contribution): seq<string> {
    if c.Bullet? then [c.text] else []
  }

  /** What a contribution appends to the detailed buffer. */
  function DetailOf(c: Contribution): string {
    if c.DetailText? then c.text + "\n" else ""
  }

  /** The detailed lines, in order. */
  function DetailsOf(cs: seq<Contribution>): seq<string>
  {
    if |cs| == 0 then []
    else
      var last := cs[|cs| - 1];
      DetailsOf(cs[..|cs| - 1]) + if last.DetailText? then [last.text] else []
  }

  /** The lines, each followed by a newline: how the detailed buffer grows. */
  function Terminated(ls: seq<string>): string
  {
    if |ls| == 0 then [] else ls[0] + "\n" + Terminated(ls[1..])
  }

  /** The first three elements, or all of them when there are fewer. */
  function FirstThree(s: seq<string>): (r: seq<string>)
    ensures |r| == if |s| < 3 then |s| else 3
    ensures r <= s
  {
    if |s| < 3 then s else s[..3]
  }

  /** Nothing was captured: no bullet, and a blank detailed buffer. */
  predicate FallsBack(cs: seq<Contribution>) {
    |BulletsOf(cs)| == 0 && |Trim(Terminated(DetailsOf(cs)))| == 0
  }

  /** The parse of a reply: the first three bullets and the trimmed
      detailed buffer, or no bullets and the trimmed reply when nothing was
      captured. */
  function Parse(text: string): AnalysisResult
  {
    var cs := ContributionsOf(text);
    if FallsBack(cs) then AnalysisResult([], Trim(text))
    else AnalysisResult(FirstThree(BulletsOf(cs)), Trim(Terminated(DetailsOf(cs))))
  }

  /** Every parse has at most three clean bullets and a trimmed detailed
      summary. */
  lemma ParseShape(text: string)
    ensures |Parse(text).summary3Lines| <= 3
    ensures forall i :: 0 <= i < |Parse(text).summary3Lines| ==> IsCleanBullet(Parse(text).summary3Lines[i])
    ensures IsTrimmed(Parse(text).detailedSummary)
  {
    BulletsAreClean(text);
    var bs := BulletsOf(ContributionsOf(text));
    assert forall k :: 0 <= k < |FirstThree(bs)| ==> FirstThree(bs)[k] == bs[k];
  }

  /** The final step of the scan: fall back to the whole text when nothing
      was captured. */
  lemma ScanResult(text: string, summary: seq<string>, detailed: string)
    requires summary == BulletsOf(ContributionsOf(text))
    requires detailed == Terminated(DetailsOf(ContributionsOf(text)))
    ensures Parse(text) == if |summary| == 0 && |Trim(detailed)| == 0 then AnalysisResult([], Trim(text))
      else AnalysisResult(FirstThree(summary), Trim(detailed))
  {
  }

  // ---------------------------------------------------------------------
  // parseResponse, as the source writes it

  /** parseResponse: scan the lines, then fall back to the whole reply
      when neither bullets nor detail text were captured. */
  method ParseResponse(text: string) returns (r: AnalysisResult)
    ensures r == Parse(text)
  {
    var summary, detailed := Scan(Split(text));
    ScanResult(text, summary, detailed);
    if |summary| == 0 && |Trim(detailed)| == 0 {
      detailed := text;
    }
    r := AnalysisResult(FirstThree(summary), Trim(detailed));
  }

  /** The line-scanning loop of parseResponse, proved to collect the
      bullets and the detail lines the scan specification assigns. */
  method Scan(lines: seq<string>) returns (summary: seq<string>, detailed: string)
    ensures summary == BulletsOf(Contributions(ReadLines(lines)))
    ensures detailed == Terminated(DetailsOf(Contributions(ReadLines(lines))))
  {
    ghost var ls := ReadLines(lines);
    summary, detailed := [], "";
    var mode := NoCapture;
    for i := 0 to |lines|
      invariant mode == ModeAfter(ls, i)
      invariant summary == BulletsOf(Contributions(ls)[..i])
      invariant detailed == Terminated(DetailsOf(Contributions(ls)[..i]))
    {
      mode, summary, detailed := ScanNext(lines, i, mode, summary, detailed);
    }
    assert Contributions(ls)[..|lines|] == Contributions(ls);
  }

  /** Line i of the scan: the state after the first i lines becomes the
      state after the first i + 1 lines. */
  method ScanNext(lines: seq<string>, i: nat, mode: CaptureMode, summary: seq<string>, detailed: string)
    returns (mode': CaptureMode, summary': seq<string>, detailed': string)
    requires i < |lines|
    requires mode == ModeAfter(ReadLines(lines), i)
    requires summary == BulletsOf(Contributions(ReadLines(lines))[..i])
    requires detailed == Terminated(DetailsOf(Contributions(ReadLines(lines))[..i]))
    ensures mode' == ModeAfter(ReadLines(lines), i + 1)
    ensures summary' == BulletsOf(Contributions(ReadLines(lines))[..i + 1])
    ensures detailed' == Terminated(DetailsOf(Contributions(ReadLines(lines))[..i + 1]))
  {
    ghost var ls := ReadLines(lines);
    assert ls[i] == Read(lines[i]);
    ScanStep(ls, i);
    mode', summary', detailed' := ScanLine(mode, lines[i], summary, detailed);
  }

  /** The body of the loop for one line: the line is trimmed; a marker line
      switches the mode and is skipped; otherwise the line is collected
      according to the mode. */
  method ScanLine(mode: CaptureMode, raw: string, summary: seq<string>, detailed: string)
    returns (mode': CaptureMode, summary': seq<string>, detailed': string)
    ensures mode' == NextMode(mode, Read(raw).kind)
    ensures summary' == summary + BulletOf(Contribute(mode, Read(raw)))
    ensures detailed' == detailed + DetailOf(Contribute(mode, Read(raw)))
  {
    mode', summary', detailed' := mode, summary, detailed;
    var line := Trim(raw);
    if Contains(line, ThreeLineMarker) {
      mode' := ThreeLines;
      return;
    } else if Contains(line, DetailedMarker) {
      mode' := Detailed;
      return;
    }
    if mode == ThreeLines {
      if |line| > 0 {
        var cleaned := CleanBullet(line);
        if |cleaned| > 0 {
          summary' := summary + [cleaned];
        }
      }
    } else if mode == Detailed {
      detailed' := detailed + line + "\n";
    }
  }

  /** One more line extends the mode, the bullets and the detailed buffer
      by what that line contributes. */
  lemma ScanStep(ls: seq<ScannedLine>, i: nat)
    requires i < |ls|
    ensures ModeAfter(ls, i + 1) == NextMode(ModeAfter(ls, i), ls[i].kind)
    ensures BulletsOf(Contributions(ls)[..i + 1]) ==
      BulletsOf(Contributions(ls)[..i]) + BulletOf(Contribute(ModeAfter(ls, i), ls[i]))
    ensures Terminated(DetailsOf(Contributions(ls)[..i + 1])) ==
      Terminated(DetailsOf(Contributions(ls)[..i])) + DetailOf(Contribute(ModeAfter(ls, i), ls[i]))
  {
    var cs := Contributions(ls);
    assert cs[i] == Contribute(ModeAfter(ls, i), ls[i]);
    BulletsSnoc(cs, i);
    DetailedSnoc(cs, i);
  }

  lemma BulletsSnoc(cs: seq<Contribution>, i: nat)
    requires i < |cs|
    ensures BulletsOf(cs[..i + 1]) == BulletsOf(cs[..i]) + BulletOf(cs[i])
  {
    FiltersSnoc(cs, i);
  }

  lemma DetailedSnoc(cs: seq<Contribution>, i: nat)
    requires i < |cs|
    ensures Terminated(DetailsOf(cs[..i + 1])) == Terminated(DetailsOf(cs[..i])) + DetailOf(cs[i])
  {
    FiltersSnoc(cs, i);
    if cs[i].DetailText? {
      TerminatedSnoc(DetailsOf(cs[..i]), cs[i].text);
    } else {
      assert DetailsOf(cs[..i + 1]) == DetailsOf(cs[..i]);
    }
  }

  /** Reading one more contribution extends each filter by at most it. */
  lemma FiltersSnoc(cs: seq<Contribution>, i: nat)
    requires i < |cs|
    ensures BulletsOf(cs[..i + 1]) == BulletsOf(cs[..i]) + BulletOf(cs[i])
    ensures DetailsOf(cs[..i + 1]) == DetailsOf(cs[..i]) + if cs[i].DetailText? then [cs[i].text] else []
  {
    assert cs[..i + 1][..i] == cs[..i];
  }

  lemma {:induction false} TerminatedSnoc(ls: seq<string>, l: string)
    ensures Terminated(ls + [l]) == Terminated(ls) + l + "\n"
    decreases |ls|
  {
    if |ls| > 0 {
      assert (ls + [l])[1..] == ls[1..] + [l];
      TerminatedSnoc(ls[1..], l);
    } else {
      assert [l][1..] == [];
    }
  }

  /** The detailed buffer is the lines joined by newlines, plus a final one. */
  lemma {:induction false} TerminatedIsJoin(ls: seq<string>)
    ensures Terminated(ls) == Join(ls + [""])
    decreases |ls|
  {
    if |ls| > 0 {
      assert (ls + [""])[1..] == ls[1..] + [""];
      TerminatedIsJoin(ls[1..]);
    }
  }

  // ---------------------------------------------------------------------
  // Filters over contributions

  /** Filtering a concatenation filters each part. */
  lemma FiltersConcat(a: seq<Contribution>, b: seq<Contribution>)
    ensures BulletsOf(a + b) == BulletsOf(a) + BulletsOf(b)
    ensures DetailsOf(a + b) == DetailsOf(a) + DetailsOf(b)
  {
    BulletsConcat(a, b);
    DetailsConcat(a, b);
  }

  /** Dropping the last contribution of a + b drops the last one of b. */
  lemma ConcatLast(a: seq<Contribution>, b: seq<Contribution>)
    requires |b| > 0
    ensures (a + b)[..|a + b| - 1] == a + b[..|b| - 1]
    ensures (a + b)[|a + b| - 1] == b[|b| - 1]
  {
  }

  lemma {:induction false} BulletsConcat(a: seq<Contribution>, b: seq<Contribution>)
    ensures BulletsOf(a + b) == BulletsOf(a) + BulletsOf(b)
    decreases |b|
  {
    if |b| == 0 {
      assert a + b == a;
    } else {
      ConcatLast(a, b);
      BulletsConcat(a, b[..|b| - 1]);
    }
  }

  lemma {:induction false} DetailsConcat(a: seq<Contribution>, b: seq<Contribution>)
    ensures DetailsOf(a + b) == DetailsOf(a) + DetailsOf(b)
    decreases |b|
  {
    if |b| == 0 {
      assert a + b == a;
    } else {
      ConcatLast(a, b);
      DetailsConcat(a, b[..|b| - 1]);
    }
  }

  /** Lines that contribute nothing leave both filters empty. */
  lemma {:induction false} FiltersOfSkips(cs: seq<Contribution>)
    requires forall j :: 0 <= j < |cs| ==> cs[j] == Skip
    ensures |BulletsOf(cs)| == 0 && |DetailsOf(cs)| == 0
    decreases |cs|
  {
    if |cs| > 0 {
      FiltersOfSkips(cs[..|cs| - 1]);
    }
  }

  /** Every bullet comes from a Bullet contribution. */
  lemma {:induction false} BulletSource(cs: seq<Contribution>, k: nat)
    requires k < |BulletsOf(cs)|
    ensures exists j :: 0 <= j < |cs| && cs[j] == Bullet(BulletsOf(cs)[k])
    decreases |cs|
  {
    var init := cs[..|cs| - 1];
    if k < |BulletsOf(init)| {
      BulletSource(init, k);
      var j :| 0 <= j < |init| && init[j] == Bullet(BulletsOf(init)[k]);
      assert cs[j] == Bullet(BulletsOf(cs)[k]);
    } else {
      assert cs[|cs| - 1] == Bullet(BulletsOf(cs)[k]);
    }
  }

  /** Every detailed line comes from a DetailText contribution. */
  lemma {:induction false} DetailSource(cs: seq<Contribution>, k: nat)
    requires k < |DetailsOf(cs)|
    ensures exists j :: 0 <= j < |cs| && cs[j] == DetailText(DetailsOf(cs)[k])
    decreases |cs|
  {
    var init := cs[..|cs| - 1];
    if k < |DetailsOf(init)| {
      DetailSource(init, k);
      var j :| 0 <= j < |init| && init[j] == DetailText(DetailsOf(init)[k]);
      assert cs[j] == DetailText(DetailsOf(cs)[k]);
    } else {
      assert cs[|cs| - 1] == DetailText(DetailsOf(cs)[k]);
    }
  }


  // ---------------------------------------------------------------------
  // Bullets

  /** Line j is a content line read in three-line mode whose cleaned form is b. */
  predicate IsBulletSource(ls: seq<ScannedLine>, j: nat, b: string)
    requires j < |ls|
  {
    ModeAfter(ls, j) == ThreeLines && ls[j].kind == Content && b == ls[j].cleaned
  }

  /** Every bullet is the cleaned form of a content line read in
      three-line mode. */
  lemma BulletOrigin(ls: seq<ScannedLine>, k: nat)
    requires k < |BulletsOf(Contributions(ls))|
    ensures exists j :: 0 <= j < |ls| && IsBulletSource(ls, j, BulletsOf(Contributions(ls))[k])
  {
    var cs := Contributions(ls);
    BulletSource(cs, k);
    var j :| 0 <= j < |cs| && cs[j] == Bullet(BulletsOf(cs)[k]);
    assert cs[j] == Contribute(ModeAfter(ls, j), ls[j]);
    assert IsBulletSource(ls, j, BulletsOf(cs)[k]);
  }

  /** Every bullet of a reply is the cleaned form of one of its lines:
      non-empty and trimmed. */
  lemma BulletsAreClean(text: string)
    ensures forall k :: 0 <= k < |BulletsOf(ContributionsOf(text))| ==>
      IsCleanBullet(BulletsOf(ContributionsOf(text))[k])
  {
    CleanedAreTrimmed(Split(text));
    BulletsOfTrimmed(LinesOf(text));
  }

  /** Every line read has a trimmed cleaned form. */
  lemma CleanedAreTrimmed(lines: seq<string>)
    ensures forall j :: 0 <= j < |ReadLines(lines)| ==> IsTrimmed(ReadLines(lines)[j].cleaned)
  {
    forall j | 0 <= j < |lines|
      ensures IsTrimmed(ReadLines(lines)[j].cleaned)
    {
      assert ReadLines(lines)[j] == Read(lines[j]);
    }
  }

  /** When every cleaned form is trimmed, every bullet is clean. */
  lemma BulletsOfTrimmed(ls: seq<ScannedLine>)
    requires forall j :: 0 <= j < |ls| ==> IsTrimmed(ls[j].cleaned)
    ensures forall k :: 0 <= k < |BulletsOf(Contributions(ls))| ==> IsCleanBullet(BulletsOf(Contributions(ls))[k])
  {
    var bs := BulletsOf(Contributions(ls));
    forall k | 0 <= k < |bs|
      ensures IsCleanBullet(bs[k])
    {
      BulletOrigin(ls, k);
      var j :| 0 <= j < |ls| && IsBulletSource(ls, j, bs[k]);
      BulletSource(Contributions(ls), k);
    }
  }

  /** Bullets only grow as lines are read: earlier bullets stay in front. */
  lemma BulletsGrow(cs: seq<Contribution>, m: nat)
    requires m <= |cs|
    ensures BulletsOf(cs[..m]) <= BulletsOf(cs)
  {
    assert cs == cs[..m] + cs[m..];
    FiltersConcat(cs[..m], cs[m..]);
  }

  /** The bullet of line j sits right after the bullets of the lines before it. */
  lemma BulletPosition(cs: seq<Contribution>, j: nat)
    requires j < |cs| && cs[j].Bullet?
    ensures |BulletsOf(cs[..j])| < |BulletsOf(cs)|
    ensures BulletsOf(cs)[|BulletsOf(cs[..j])|] == cs[j].text
  {
    assert cs[..j + 1][..j] == cs[..j];
    BulletsGrow(cs, j + 1);
  }

  /** The summary holds the first three bullets: once the first k lines
      have yielded three, the remaining lines change nothing in it. */
  lemma FirstThreeKept(text: string, k: nat)
    requires k <= |LinesOf(text)| && |BulletsOf(ContributionsOf(text)[..k])| >= 3
    ensures Parse(text).summary3Lines == BulletsOf(ContributionsOf(text)[..k])[..3]
  {
    var cs := ContributionsOf(text);
    BulletsGrow(cs, k);
    SummaryWithBullets(text);
    FirstThreeOfGrowing(cs, k);
  }

  /** With at least one bullet, the parse does not fall back. */
  lemma SummaryWithBullets(text: string)
    requires |BulletsOf(ContributionsOf(text))| > 0
    ensures Parse(text).summary3Lines == FirstThree(BulletsOf(ContributionsOf(text)))
  {
  }

  lemma FirstThreeOfGrowing(cs: seq<Contribution>, k: nat)
    requires k <= |cs| && |BulletsOf(cs[..k])| >= 3
    ensures FirstThree(BulletsOf(cs)) == BulletsOf(cs[..k])[..3]
  {
    BulletsGrow(cs, k);
  }

  // ---------------------------------------------------------------------
  // Markers never reach the output on the normal path

  /** Every detailed line is the text of a content line read in detailed
      mode. */
  lemma DetailOrigin(ls: seq<ScannedLine>, k: nat)
    requires k < |DetailsOf(Contributions(ls))|
    ensures exists j :: (0 <= j < |ls| && ModeAfter(ls, j) == Detailed && ls[j].kind == Content &&
                         DetailsOf(Contributions(ls))[k] == ls[j].text)
  {
    var cs := Contributions(ls);
    DetailSource(cs, k);
    var j :| 0 <= j < |cs| && cs[j] == DetailText(DetailsOf(cs)[k]);
    assert cs[j] == Contribute(ModeAfter(ls, j), ls[j]);
  }

  /** A line of a reply, as read, holds no newline, and a content line
      holds no marker. */
  lemma ReadLineFacts(text: string, j: nat)
    requires j < |LinesOf(text)|
    ensures '\n' !in LinesOf(text)[j].text
    ensures LinesOf(text)[j].kind == Content ==> !IsMarkerLine(LinesOf(text)[j].text)
  {
    var lines := Split(text);
    assert LinesOf(text)[j] == Read(lines[j]);
    if '\n' in Trim(lines[j]) {
      TrimChars(lines[j], '\n');
    }
  }

  /** No detailed line holds a newline or a marker. */
  lemma DetailLinesFacts(text: string)
    ensures forall k :: 0 <= k < |DetailsOf(ContributionsOf(text))| ==>
      !IsMarkerLine(DetailsOf(ContributionsOf(text))[k]) && '\n' !in DetailsOf(ContributionsOf(text))[k]
  {
    var ls := LinesOf(text);
    var ds := DetailsOf(Contributions(ls));
    forall k | 0 <= k < |ds|
      ensures !IsMarkerLine(ds[k]) && '\n' !in ds[k]
    {
      DetailOrigin(ls, k);
      var j :| 0 <= j < |ls| && ModeAfter(ls, j) == Detailed && ls[j].kind == Content && ds[k] == ls[j].text;
      ReadLineFacts(text, j);
    }
  }

  /** The trimmed detailed buffer of a reply holds no marker. */
  lemma DetailMarkerFree(text: string, m: string)
    requires m == ThreeLineMarker || m == DetailedMarker
    ensures !Contains(Trim(Terminated(DetailsOf(ContributionsOf(text)))), m)
  {
    var ls := DetailsOf(ContributionsOf(text));
    TerminatedIsJoin(ls);
    DetailPiecesMarkerFree(text, m);
    if Contains(Trim(Terminated(ls)), m) {
      TrimContains(Terminated(ls), m);
      JoinContains(ls + [""], m);
    }
  }

  /** No piece of the joined detailed buffer holds a marker. */
  lemma DetailPiecesMarkerFree(text: string, m: string)
    requires m == ThreeLineMarker || m == DetailedMarker
    ensures '\n' !in m
    ensures forall i :: 0 <= i < |DetailsOf(ContributionsOf(text)) + [""]| ==>
      !Contains((DetailsOf(ContributionsOf(text)) + [""])[i], m)
  {
    var ds := DetailsOf(ContributionsOf(text));
    DetailLinesFacts(text);
    MarkerFreeLacks(ds, m);
    MarkerShape(m);
    PiecesWithBlank(ds, m);
  }

  /** Lines that are not marker lines hold neither marker. */
  lemma MarkerFreeLacks(ds: seq<string>, m: string)
    requires m == ThreeLineMarker || m == DetailedMarker
    requires forall k :: 0 <= k < |ds| ==> !IsMarkerLine(ds[k])
    ensures forall k :: 0 <= k < |ds| ==> !Contains(ds[k], m)
  {
  }

  /** Both markers are non-empty and lie within one line. */
  lemma MarkerShape(m: string)
    requires m == ThreeLineMarker || m == DetailedMarker
    ensures |m| > 0 && '\n' !in m
  {
  }

  /** Adding the empty last piece keeps a non-empty string out of every piece. */
  lemma PiecesWithBlank(ds: seq<string>, m: string)
    requires |m| > 0
    requires forall k :: 0 <= k < |ds| ==> !Contains(ds[k], m)
    ensures forall i :: 0 <= i < |ds + [""]| ==> !Contains((ds + [""])[i], m)
  {
    var all := ds + [""];
    forall i | 0 <= i < |all|
      ensures !Contains(all[i], m)
    {
      if i < |ds| {
        assert all[i] == ds[i];
      } else {
        assert all[i] == "";
      }
    }
  }

  /** No bullet holds a marker. */
  lemma BulletMarkerFree(text: string, i: nat)
    requires i < |BulletsOf(ContributionsOf(text))|
    ensures !IsMarkerLine(BulletsOf(ContributionsOf(text))[i])
  {
    var lines := Split(text);
    var ls := LinesOf(text);
    var b := BulletsOf(Contributions(ls))[i];
    BulletOrigin(ls, i);
    var j :| 0 <= j < |ls| && IsBulletSource(ls, j, b);
    ReadLineFacts(text, j);
    assert ls[j] == Read(lines[j]);
    if Contains(b, ThreeLineMarker) {
      CleanBulletContains(ls[j].text, ThreeLineMarker);
    }
    if Contains(b, DetailedMarker) {
      CleanBulletContains(ls[j].text, DetailedMarker);
    }
  }

  /** When the reply was parsed into sections, neither marker occurs in any
      bullet or in the detailed summary. */
  lemma NoMarkerInOutput(text: string)
    requires !FallsBack(ContributionsOf(text))
    ensures forall i :: 0 <= i < |Parse(text).summary3Lines| ==>
      !IsMarkerLine(Parse(text).summary3Lines[i])
    ensures !IsMarkerLine(Parse(text).detailedSummary)
  {
    var r := Parse(text);
    DetailMarkerFree(text, ThreeLineMarker);
    DetailMarkerFree(text, DetailedMarker);
    forall i | 0 <= i < |r.summary3Lines|
      ensures !IsMarkerLine(r.summary3Lines[i])
    {
      BulletMarkerFree(text, i);
    }
  }

  // ---------------------------------------------------------------------
  // The detailed buffer keeps every detailed line, blank ones included

  /** Splitting the detailed buffer again gives back every detailed-mode
      line in order, blank lines included, then the empty piece after the
      final newline. */
  lemma DetailRoundTrip(text: string)
    ensures Split(Terminated(DetailsOf(ContributionsOf(text)))) == DetailsOf(ContributionsOf(text)) + [""]
  {
    var ls := DetailsOf(ContributionsOf(text));
    DetailLinesFacts(text);
    TerminatedIsJoin(ls);
    forall i | 0 <= i < |ls + [""]|
      ensures '\n' !in (ls + [""])[i]
    {
      if i < |ls| {
        assert (ls + [""])[i] == ls[i];
      }
    }
    SplitJoin(ls + [""]);
  }

  // ---------------------------------------------------------------------
  // Lines before the first marker, and text without markers

  /** No line is a heading. */
  predicate AllContent(ls: seq<ScannedLine>) {
    forall j :: 0 <= j < |ls| ==> ls[j].kind == Content
  }

  /** Until a heading is read, the mode stays NoCapture. */
  lemma {:induction false} NoHeadingKeepsMode(ls: seq<ScannedLine>, n: nat)
    requires n <= |ls|
    requires forall j :: 0 <= j < n ==> ls[j].kind == Content
    ensures ModeAfter(ls, n) == NoCapture
  {
    if n > 0 {
      NoHeadingKeepsMode(ls, n - 1);
    }
  }

  /** Content lines in front do not change the mode of the lines after them. */
  lemma {:induction false} ModeAfterPreamble(l1: seq<ScannedLine>, l2: seq<ScannedLine>, n: nat)
    requires AllContent(l1) && n <= |l2|
    ensures ModeAfter(l1 + l2, |l1| + n) == ModeAfter(l2, n)
  {
    if n > 0 {
      ModeAfterPreamble(l1, l2, n - 1);
      assert (l1 + l2)[|l1| + n - 1] == l2[n - 1];
    } else {
      forall j | 0 <= j < |l1|
        ensures (l1 + l2)[j].kind == Content
      {
        assert (l1 + l2)[j] == l1[j];
      }
      NoHeadingKeepsMode(l1 + l2, |l1|);
    }
  }

  /** After content lines, a later line contributes what it contributes on
      its own. */
  lemma ShiftedElement(l1: seq<ScannedLine>, l2: seq<ScannedLine>, n: nat)
    requires AllContent(l1) && n < |l2|
    ensures Contributions(l1 + l2)[|l1| + n] == Contributions(l2)[n]
  {
    ModeAfterPreamble(l1, l2, n);
    assert (l1 + l2)[|l1| + n] == l2[n];
  }

  /** A content line in front of any heading contributes nothing. */
  lemma PreambleElement(l1: seq<ScannedLine>, l2: seq<ScannedLine>, n: nat)
    requires AllContent(l1) && n < |l1|
    ensures Contributions(l1 + l2)[n] == Skip
  {
    forall j | 0 <= j < n
      ensures (l1 + l2)[j].kind == Content
    {
      assert (l1 + l2)[j] == l1[j];
    }
    NoHeadingKeepsMode(l1 + l2, n);
  }

  /** The contributions of content lines followed by more lines are Skips
      followed by what the later lines contribute on their own. */
  lemma PreambleSplit(l1: seq<ScannedLine>, l2: seq<ScannedLine>)
    requires AllContent(l1)
    ensures forall j :: 0 <= j < |l1| ==> Contributions(l1 + l2)[..|l1|][j] == Skip
    ensures Contributions(l1 + l2)[|l1|..] == Contributions(l2)
  {
    var all := Contributions(l1 + l2);
    forall j | 0 <= j < |l1|
      ensures all[..|l1|][j] == Skip
    {
      PreambleElement(l1, l2, j);
    }
    forall n | 0 <= n < |l2|
      ensures all[|l1| + n] == Contributions(l2)[n]
    {
      ShiftedElement(l1, l2, n);
    }
    assert forall n :: 0 <= n < |l2| ==> all[|l1|..][n] == all[|l1| + n];
  }

  /** Content lines in front contribute nothing and leave the contributions
      of the rest as they are. */
  lemma PreambleContributions(l1: seq<ScannedLine>, l2: seq<ScannedLine>)
    requires AllContent(l1)
    ensures BulletsOf(Contributions(l1 + l2)) == BulletsOf(Contributions(l2))
    ensures DetailsOf(Contributions(l1 + l2)) == DetailsOf(Contributions(l2))
  {
    var all := Contributions(l1 + l2);
    PreambleSplit(l1, l2);
    assert all == all[..|l1|] + all[|l1|..];
    FiltersConcat(all[..|l1|], all[|l1|..]);
    FiltersOfSkips(all[..|l1|]);
  }

  /** The lines of two texts joined by a newline are the lines of each. */
  lemma LinesOfConcat(pre: string, rest: string)
    ensures LinesOf(pre + "\n" + rest) == LinesOf(pre) + LinesOf(rest)
  {
    SplitConcat(pre, rest);
    ReadLinesConcat(Split(pre), Split(rest));
  }

  lemma ReadLinesConcat(a: seq<string>, b: seq<string>)
    ensures ReadLines(a + b) == ReadLines(a) + ReadLines(b)
  {
    forall j | 0 <= j < |a + b|
      ensures ReadLines(a + b)[j] == (ReadLines(a) + ReadLines(b))[j]
    {
      if j < |a| {
        assert (a + b)[j] == a[j];
      } else {
        assert (a + b)[j] == b[j - |a|];
      }
    }
  }

  /** No line of a marker-free text is a heading. */
  lemma LinesOfMarkerFreeText(text: string)
    requires !Contains(text, ThreeLineMarker) && !Contains(text, DetailedMarker)
    ensures AllContent(LinesOf(text))
  {
    var lines := Split(text);
    var ls := LinesOf(text);
    forall j | 0 <= j < |ls|
      ensures ls[j].kind == Content
    {
      assert ls[j] == Read(lines[j]);
      var t := Trim(lines[j]);
      if Contains(t, ThreeLineMarker) {
        TrimContains(lines[j], ThreeLineMarker);
        ContainsInJoin(lines, j, ThreeLineMarker);
      }
      if Contains(t, DetailedMarker) {
        TrimContains(lines[j], DetailedMarker);
        ContainsInJoin(lines, j, DetailedMarker);
      }
    }
  }

  /** Text in front of the first marker line is discarded: when the rest of
      the reply does not fall back, putting marker-free lines in front of it
      leaves the parse as it is. */
  lemma PreambleDiscarded(pre: string, rest: string)
    requires !Contains(pre, ThreeLineMarker) && !Contains(pre, DetailedMarker)
    requires !FallsBack(ContributionsOf(rest))
    ensures Parse(pre + "\n" + rest) == Parse(rest)
  {
    LinesOfConcat(pre, rest);
    LinesOfMarkerFreeText(pre);
    PreambleContributions(LinesOf(pre), LinesOf(rest));
  }

  /** Text with no marker at all falls back: no bullets, and the trimmed
      text as the detailed summary. */
  lemma NoMarkerFallsBack(text: string)
    requires !Contains(text, ThreeLineMarker) && !Contains(text, DetailedMarker)
    ensures Parse(text) == AnalysisResult([], Trim(text))
  {
    var ls := LinesOf(text);
    var cs := Contributions(ls);
    LinesOfMarkerFreeText(text);
    forall j | 0 <= j < |cs|
      ensures cs[j] == Skip
    {
      NoHeadingKeepsMode(ls, j);
    }
    FiltersOfSkips(cs);
  }

  /** Re-parsing the output of a marker-free reply gives the same result:
      the fallback is stable. */
  lemma NoMarkerReparse(text: string)
    requires !Contains(text, ThreeLineMarker) && !Contains(text, DetailedMarker)
    ensures Parse(Parse(text).detailedSummary) == Parse(text)
  {
    NoMarkerFallsBack(text);
    var t := Trim(text);
    if Contains(t, ThreeLineMarker) {
      TrimContains(text, ThreeLineMarker);
    }
    if Contains(t, DetailedMarker) {
      TrimContains(text, DetailedMarker);
    }
    NoMarkerFallsBack(t);
    TrimIdempotent(text);
  }

  /** The empty reply parses to no bullets and an empty detailed summary. */
  lemma EmptyTextParse()
    ensures Parse("") == AnalysisResult([], "")
  {
    NoMarkerFallsBack("");
  }

  /** Bullets without any detailed text leave the detailed summary empty
      rather than falling back to the raw text. */
  lemma BulletsWithBlankDetail(text: string)
    requires |BulletsOf(ContributionsOf(text))| > 0
    requires |Trim(Terminated(DetailsOf(ContributionsOf(text))))| == 0
    ensures |Parse(text).summary3Lines| > 0 && Parse(text).detailedSummary == ""
  {
  }

  // ---------------------------------------------------------------------
  // Concrete cases

  /** A line holding both markers switches to three-line mode, because that
      marker is tested first. */
  lemma BothMarkersSelectThreeLines(mode: CaptureMode, line: string)
    requires Contains(line, ThreeLineMarker) && Contains(line, DetailedMarker)
    ensures NextMode(mode, KindOf(line)) == ThreeLines
  {
  }

  /** Stripping is not idempotent: a second pass strips a second marker. */
  lemma StripNotIdempotent()
    ensures CleanBullet("- - A") == "- A"
    ensures CleanBullet(CleanBullet("- - A")) == "A"
  {
    SingleMarkerStripped("- - A", "- A");
    SingleMarkerStripped("- A", "A");
  }

  /** A one-character marker followed by one space and a trimmed rest. */
  lemma SingleMarkerStripped(s: string, rest: string)
    requires |s| == |rest| + 2 && IsListMarkerChar(s[0]) && s[1] == ' ' && s[2..] == rest
    requires |rest| > 0 && IsTrimmed(rest)
    ensures CleanBullet(s) == rest
  {
    assert s[1..][0] == ' ';
    assert ListMarkerLength(s) == 1;
    assert s[1..][1..] == rest;
    TrimOfTrimmed(rest);
  }

  /** The digit class also eats the leading digits of ordinary text. */
  lemma LeadingDigitsStripped()
    ensures CleanBullet("2024년 회의") == "년 회의"
  {
    var rest := "년 회의";
    DigitRun("2024년 회의", rest);
    assert "2024년 회의"[4..] == rest;
    TrimOfTrimmed(rest);
  }

  lemma DigitRun(s: string, rest: string)
    requires s == "2024년 회의" && rest == "년 회의"
    ensures ListMarkerLength(s) == 4
  {
    var s1, s2, s3 := s[1..], s[2..], s[3..];
    assert s1 == "024년 회의" && s2 == "24년 회의" && s3 == "4년 회의";
    assert s1[1..] == s2 && s2[1..] == s3 && s3[1..] == rest;
    assert ListMarkerLength(rest) == 0;
    assert ListMarkerLength(s3) == 1;
    assert ListMarkerLength(s2) == 2;
    assert ListMarkerLength(s1) == 3;
  }

  /** On the fallback path the output may still hold marker text: a reply
      that is a single heading line comes back as that line, marker
      included. */
  lemma HeadingOnlyFallsBack(text: string)
    requires '\n' !in text && IsMarkerLine(Trim(text))
    ensures Parse(text) == AnalysisResult([], Trim(text))
    ensures IsMarkerLine(Parse(text).detailedSummary)
  {
    HeadingOnlySkipped(text);
    FiltersOfSkips(ContributionsOf(text));
  }

  /** A reply that is a single heading line contributes nothing. */
  lemma HeadingOnlySkipped(text: string)
    requires '\n' !in text && IsMarkerLine(Trim(text))
    ensures forall j :: 0 <= j < |ContributionsOf(text)| ==> ContributionsOf(text)[j] == Skip
  {
    SplitOneLine(text);
    var ls := LinesOf(text);
    assert |ls| == 1 && ls[0] == Read(text);
    var cs := Contributions(ls);
    assert cs[0] == Contribute(NoCapture, ls[0]);
  }

  // ---------------------------------------------------------------------
  // analyzeAudio: guards, the empty-reply check and error classification

  const KeyRequiredMessage: string := "API Key가 필요합니다."
  const NoAudioMessage: string := "분석할 오디오 파일이 없습니다."
  const EmptyReplyMessage: string := "AI가 응답을 생성하지 못했습니다. (빈 응답)"

  const InvalidKeyPhrase: string := "API key not valid"
  const MissingMimePhrase: string := "Mime type is required"
  const FetchFailedPhrase: string := "fetch failed"

  const InvalidKeyMessage: string := "API Key가 유효하지 않습니다. 다시 확인해주세요."
  const MimeTypeMessage: string := "지원되지 않는 오디오 형식이거나 MIME Type 오류입니다."
  const NetworkMessage: string := "네트워크 연결을 확인하거나, API Key에 과금 프로젝트가 연결되었는지 확인하세요."

  /** The outcome of one request to the external model: a reply whose text
      may be missing, or a thrown error whose message may be missing. */
  datatype Reply = Replied(text: Option<string>) | Threw(message: Option<string>)

  /** The message of the error that analyzeAudio rethrows, given the message
      of the error it caught. The known phrases are tested in a fixed order;
      any other message passes through; a missing message stays missing,
      which `new Error(undefined)` turns into the empty string. */
  function ClassifyError(message: Option<string>): (r: string)
    ensures message.None? ==> r == ""
    ensures message.Some? ==> r == message.value || r in ErrorMessages
  {
    match message
    case None => ""
    case Some(m) =>
      if Contains(m, InvalidKeyPhrase) then InvalidKeyMessage
      else if Contains(m, MissingMimePhrase) then MimeTypeMessage
      else if Contains(m, FetchFailedPhrase) then NetworkMessage
      else m
  }

  /** The messages a known phrase is rewritten into. */
  const ErrorMessages: set<string> := {InvalidKeyMessage, MimeTypeMessage, NetworkMessage}

  /** The classification as a table of (phrase, message) rules. */
  const ErrorRules: seq<(string, string)> :=
    [(InvalidKeyPhrase, InvalidKeyMessage), (MissingMimePhrase, MimeTypeMessage), (FetchFailedPhrase, NetworkMessage)]

  /** The message of the first rule whose phrase the text contains. */
  function FirstRule(rules: seq<(string, string)>, m: string): Option<string>
  {
    if |rules| == 0 then None
    else if Contains(m, rules[0].0) then Some(rules[0].1)
    else FirstRule(rules[1..], m)
  }

  /** The if/else chain is the first-matching-rule reading of the table. */
  lemma ClassifyFollowsRules(m: string)
    ensures ClassifyError(Some(m)) == match FirstRule(ErrorRules, m) case Some(u) => u case None => m
  {
    var r1 := ErrorRules[1..];
    var r2 := r1[1..];
    assert r1 == [(MissingMimePhrase, MimeTypeMessage), (FetchFailedPhrase, NetworkMessage)];
    assert r2 == [(FetchFailedPhrase, NetworkMessage)];
    assert r2[1..] == [];
    assert FirstRule(r2, m) == if Contains(m, FetchFailedPhrase) then Some(NetworkMessage) else None;
    assert FirstRule(r1, m) == if Contains(m, MissingMimePhrase) then Some(MimeTypeMessage) else FirstRule(r2, m);
    assert FirstRule(ErrorRules, m) == if Contains(m, InvalidKeyPhrase) then Some(InvalidKeyMessage) else FirstRule(r1, m);
  }

  /** A text lacking some character of a phrase does not contain the phrase. */
  lemma MissingCharacter(s: string, m: string, c: char)
    requires c in m && c !in s
    ensures !Contains(s, m)
  {
    if Contains(s, m) {
      ContainsChars(s, m, c);
    }
  }

  /** The internal empty-reply error holds none of the known phrases, so it
      reaches the caller unchanged. The message is a parameter equal to the
      constant, rather than the constant itself, which keeps the solver from
      unfolding the literal everywhere; the same holds for the two lemmas
      below. */
  lemma EmptyReplyPassesThrough(e: string)
    requires e == EmptyReplyMessage
    ensures ClassifyError(Some(e)) == e
  {
    EmptyReplyLacksPhrases(e);
  }

  lemma EmptyReplyLacksPhrases(e: string)
    requires e == EmptyReplyMessage
    ensures !Contains(e, InvalidKeyPhrase) && !Contains(e, MissingMimePhrase) && !Contains(e, FetchFailedPhrase)
  {
    LacksPhrase(e, InvalidKeyPhrase, 'k');
    LacksPhrase(e, MissingMimePhrase, 'M');
    LacksPhrase(e, FetchFailedPhrase, 'f');
  }

  lemma LacksPhrase(e: string, m: string, c: char)
    requires e == EmptyReplyMessage
    requires (m == InvalidKeyPhrase && c == 'k') || (m == MissingMimePhrase && c == 'M') || (m == FetchFailedPhrase && c == 'f')
    ensures !Contains(e, m)
  {
    MissingCharacter(e, m, c);
  }

  /** analyzeAudio with the outcome of its one external request given as
      `reply`. The credential and file-list guards fail before the request
      and outside the classifying handler; a missing or empty reply text is
      an error; a reply with text is parsed; every error raised inside the
      handler is classified. */
  method AnalyzeAudio(apiKey: string, audio: seq<AudioInput>, reply: Reply)
    returns (r: Result<AnalysisResult, string>)
    ensures apiKey == "" ==> r == Failure(KeyRequiredMessage)
    ensures apiKey != "" && |audio| == 0 ==> r == Failure(NoAudioMessage)
    ensures apiKey != "" && |audio| > 0 ==>
      (r.Success? <==> reply.Replied? && reply.text.Some? && reply.text.value != "")
    ensures r.Success? ==> reply.Replied? && reply.text.Some? && r.value == Parse(reply.text.value)
    ensures apiKey != "" && |audio| > 0 && reply.Threw? ==> r == Failure(ClassifyError(reply.message))
    ensures apiKey != "" && |audio| > 0 && reply.Replied? && (reply.text.None? || reply.text.value == "") ==>
      r == Failure(EmptyReplyMessage)
  {
    if apiKey == "" {
      return Failure(KeyRequiredMessage);
    }
    if |audio| == 0 {
      return Failure(NoAudioMessage);
    }
    match reply
    case Threw(message) =>
      r := Failure(ClassifyError(message));
    case Replied(t) =>
      var text := if t.Some? then t.value else "";
      if text == "" {
        EmptyReplyPassesThrough(EmptyReplyMessage);
        r := Failure(ClassifyError(Some(EmptyReplyMessage)));
      } else {
        var parsed := ParseResponse(text);
        r := Success(parsed);
      }
  }

  // ---------------------------------------------------------------------
  // Chat session and chat replies

  /** The conversational context: the credential and the audio inputs the
      session was seeded with. */
  datatype ChatSession = ChatSession(apiKey: string, history: seq<AudioInput>)

  /** createChatSession: a session primed with the same audio inputs. */
  function CreateChatSession(apiKey: string, audio: seq<AudioInput>): ChatSession
  {
    ChatSession(apiKey, audio)
  }

  const NoAnswerMessage: string := "답변을 생성할 수 없습니다."
  const ChatFailedMessage: string := "답변 생성 중 오류가 발생했습니다."

  /** sendChatMessage with the outcome of the external request given: a
      reply text is returned, a missing or empty one becomes the fixed
      fallback, and a failure becomes one fixed error message. */
  function SendChatMessage(reply: Reply): (r: Result<string, string>)
    ensures r.Success? <==> reply.Replied?
    ensures r.Success? ==> |r.value| > 0
    ensures reply.Replied? && reply.text.Some? && reply.text.value != "" ==> r == Success(reply.text.value)
    ensures reply.Replied? && (reply.text.None? || reply.text.value == "") ==> r == Success(NoAnswerMessage)
    ensures reply.Threw? ==> r == Failure(ChatFailedMessage)
  {
    match reply
    case Replied(t) =>
      if t.Some? && t.value != "" then Success(t.value) else Success(NoAnswerMessage)
    case Threw(_) => Failure(ChatFailedMessage)
  }
}
