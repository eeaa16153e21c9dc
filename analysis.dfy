/**
 * Single-file analysis: `_analyze_conversation_file` reads a log file line by line and keeps
 * four running variables -- the number of user and assistant messages, the last summary,
 * a preview of the first user message and the last parsed timestamp.
 *
 * `Step` and `Fold` give the meaning of that loop as a left fold; the method
 * `AnalyzeConversationFile` is the loop itself, proved against the fold.  The fold is then
 * characterised field by field by independent definitions (`CountMessages`, `FirstPreview`,
 * `LastSummary`, `LastInstant`) and by index-based lemmas.
 */
module Analysis {
  import opened Wrappers
  import opened Records

  const PreviewLimit: nat := 100
  const Ellipsis: string := "..."

  /** The preview of a message text: the text itself up to 100 characters, else its first 100 and "...". */
  function Truncate(t: string): (r: string)
    ensures |r| <= PreviewLimit + |Ellipsis|
    ensures |t| <= PreviewLimit ==> r == t
    ensures |t| > PreviewLimit ==> |r| == PreviewLimit + |Ellipsis| && r[..PreviewLimit] == t[..PreviewLimit] && r[PreviewLimit..] == Ellipsis
  {
    if |t| > PreviewLimit then t[..PreviewLimit] + Ellipsis else t
  }

  /** `s.lstrip('"')`: the suffix of `s` left after its leading double quotes. */
  function StripLeading(s: string): (r: string)
    ensures |r| <= |s| && r == s[|s| - |r|..]
    ensures forall k :: 0 <= k < |s| - |r| ==> s[k] == '"'
    ensures r == [] || r[0] != '"'
  {
    if |s| > 0 && s[0] == '"' then StripLeading(s[1..]) else s
  }

  /** `s.rstrip('"')`: the prefix of `s` left before its trailing double quotes. */
  function StripTrailing(s: string): (r: string)
    ensures |r| <= |s| && r == s[..|r|]
    ensures forall k :: |r| <= k < |s| ==> s[k] == '"'
    ensures r == [] || r[|r| - 1] != '"'
  {
    if |s| > 0 && s[|s| - 1] == '"' then StripTrailing(s[..|s| - 1]) else s
  }

  /** `s.strip('"')`: neither starts nor ends with a double quote. */
  function StripQuotes(s: string): (r: string)
    ensures |r| <= |s|
    ensures r == [] || (r[0] != '"' && r[|r| - 1] != '"')
  {
    StripTrailing(StripLeading(s))
  }

  /**
   * What `strip('"')` removes: the stripped text is the infix of `s` that starts after its
   * leading quotes and ends before its trailing ones.
   */
  lemma StripQuotesInfix(s: string)
    ensures var i := |s| - |StripLeading(s)|;
      var r := StripQuotes(s);
      && i + |r| <= |s|
      && r == s[i..i + |r|]
      && (forall k :: 0 <= k < i ==> s[k] == '"')
      && (forall k :: i + |r| <= k < |s| ==> s[k] == '"')
  {
    var lead := StripLeading(s);
    var i := |s| - |lead|;
    var r := StripTrailing(lead);
    assert lead == s[i..];
    assert r == lead[..|r|];
    assert r == s[i..i + |r|];
    forall k | i + |r| <= k < |s|
      ensures s[k] == '"'
    {
      assert s[k] == lead[k - i];
    }
  }

  /** The running variables of `_analyze_conversation_file`. */
  datatype Acc = Acc(messageCount: nat, summary: Option<string>, firstUserMsg: Option<string>, lastTimestamp: Option<int>)

  const Start := Acc(0, None, None, None)

  predicate IsMessage(k: Kind) {
    k.User? || k.Assistant?
  }

  /** The text a user message offers as preview: a string content, or the first block when it is text. */
  function PreviewSource(c: Content): Option<string> {
    match c
    case Str(s) => Some(s)
    case Blocks(bs) => if |bs| > 0 && bs[0].Text? then Some(bs[0].text) else None
    case OtherContent => None
  }

  /** The preview a line would set if no preview were set yet. */
  function LinePreview(line: Line): Option<string> {
    if line.Entry? && line.kind.User? then
      match PreviewSource(line.kind.content)
      case Some(t) => Some(Truncate(t))
      case None => None
    else None
  }

  /** The summary a line sets: the stripped text of a summary record. */
  function LineSummary(line: Line): Option<string> {
    if line.Entry? && line.kind.Summary? then Some(StripQuotes(line.kind.text)) else None
  }

  /** The instant a line sets: its timestamp when it is non-empty and parses. */
  function LineInstant(line: Line): Option<int> {
    if line.Entry? && line.stamp.Parsed? && line.stamp.raw != "" then Some(line.stamp.instant) else None
  }

  predicate IsMessageLine(line: Line) {
    line.Entry? && IsMessage(line.kind)
  }

  /** One iteration of the loop over the lines; `None` when the line makes the analysis raise. */
  function Step(acc: Acc, line: Line): Option<Acc> {
    match line
    case Blank => Some(acc)
    case Malformed => Some(acc)
    case NonObject => None
    case Entry(_, _) =>
      Some(Acc(
        if IsMessageLine(line) then acc.messageCount + 1 else acc.messageCount,
        OrElse(LineSummary(line), acc.summary),
        OrElse(acc.firstUserMsg, LinePreview(line)),
        OrElse(LineInstant(line), acc.lastTimestamp)))
  }

  /** The loop as a left fold over the lines; `None` as soon as one step raises. */
  function Fold(acc: Acc, lines: seq<Line>): Option<Acc>
    decreases |lines|
  {
    if lines == [] then Some(acc)
    else match Step(acc, lines[0])
      case None => None
      case Some(next) => Fold(next, lines[1..])
  }

  function Analyze(lines: seq<Line>): Option<Acc> {
    Fold(Start, lines)
  }

  function ToConversation(meta: FileMeta, acc: Acc): Conversation {
    Conversation(meta.name, meta.path, meta.size, meta.modified, meta.created,
                 acc.messageCount, acc.summary, acc.firstUserMsg, acc.lastTimestamp)
  }

  /** What `_analyze_conversation_file` returns for a file. */
  function AnalyzeFile(f: SourceFile): Option<Conversation> {
    match f.body
    case None => None
    case Some(lines) =>
      match Analyze(lines)
      case None => None
      case Some(acc) => Some(ToConversation(f.meta, acc))
  }

  /** The loop of `_analyze_conversation_file`, updating its four running variables. */
  method AnalyzeConversationFile(f: SourceFile) returns (r: Option<Conversation>)
    ensures r == AnalyzeFile(f)
  {
    if f.body.None? {
      return None;
    }
    var lines := f.body.value;
    var messageCount: nat := 0;
    var summary: Option<string> := None;
    var firstUserMsg: Option<string> := None;
    var lastTimestamp: Option<int> := None;
    var i := 0;
    while i < |lines|
      invariant 0 <= i <= |lines|
      invariant Fold(Acc(messageCount, summary, firstUserMsg, lastTimestamp), lines[i..]) == Analyze(lines)
    {
      assert lines[i..][1..] == lines[i + 1..];
      match lines[i] {
        case Blank =>
        case Malformed =>
        case NonObject =>
          return None;
        case Entry(kind, stamp) =>
          if kind.User? || kind.Assistant? {
            messageCount := messageCount + 1;
            if firstUserMsg.None? && kind.User? {
              match kind.content {
                case Str(s) =>
                  firstUserMsg := Some(Truncate(s));
                case Blocks(bs) =>
                  if |bs| > 0 && bs[0].Text? {
                    firstUserMsg := Some(Truncate(bs[0].text));
                  }
                case OtherContent =>
              }
            }
          }
          if kind.Summary? {
            summary := Some(StripQuotes(kind.text));
          }
          if stamp != NoStamp && stamp.raw != "" {
            if stamp.Parsed? {
              lastTimestamp := Some(stamp.instant);
            }
          }
      }
      i := i + 1;
    }
    r := Some(ToConversation(f.meta, Acc(messageCount, summary, firstUserMsg, lastTimestamp)));
  }

  // ---------------------------------------------------------------------------------------
  // Independent definitions of the four results

  /** The number of user and assistant records. */
  function CountMessages(lines: seq<Line>): nat {
    if lines == [] then 0
    else (if IsMessageLine(lines[0]) then 1 else 0) + CountMessages(lines[1..])
  }

  /** The preview of the first line that offers one. */
  function FirstPreview(lines: seq<Line>): Option<string> {
    if lines == [] then None else OrElse(LinePreview(lines[0]), FirstPreview(lines[1..]))
  }

  /** The stripped text of the last summary record. */
  function LastSummary(lines: seq<Line>): Option<string> {
    if lines == [] then None else OrElse(LastSummary(lines[1..]), LineSummary(lines[0]))
  }

  /** The instant of the last record whose timestamp is non-empty and parses. */
  function LastInstant(lines: seq<Line>): Option<int> {
    if lines == [] then None else OrElse(LastInstant(lines[1..]), LineInstant(lines[0]))
  }

  /**
   * The fold from any starting accumulator: it raises exactly when some line is not a JSON
   * object; otherwise the count grows by the number of messages, a preview already set stays,
   * and summary and timestamp are those of the last line that has one, if any.
   */
  lemma {:induction false} FoldSpec(acc: Acc, lines: seq<Line>)
    ensures Fold(acc, lines) ==
      if NonObject in lines then None
      else Some(Acc(acc.messageCount + CountMessages(lines),
                    OrElse(LastSummary(lines), acc.summary),
                    OrElse(acc.firstUserMsg, FirstPreview(lines)),
                    OrElse(LastInstant(lines), acc.lastTimestamp)))
    decreases |lines|
  {
    if lines != [] {
      assert lines == [lines[0]] + lines[1..];
      match Step(acc, lines[0]) {
        case None =>
        case Some(next) =>
          FoldSpec(next, lines[1..]);
      }
    }
  }

  /** The analysis of a whole file, in terms of the independent definitions. */
  lemma AnalyzeSpec(lines: seq<Line>)
    ensures Analyze(lines) ==
      if NonObject in lines then None
      else Some(Acc(CountMessages(lines), LastSummary(lines), FirstPreview(lines), LastInstant(lines)))
  {
    FoldSpec(Start, lines);
  }

  /** A file is dropped from the index exactly when it cannot be read or holds a non-object line. */
  lemma AnalyzeFileSpec(f: SourceFile)
    ensures AnalyzeFile(f).None? <==> f.body.None? || NonObject in f.body.value
    ensures AnalyzeFile(f).Some? ==>
      var c := AnalyzeFile(f).value;
      && c.fileName == f.meta.name && c.filePath == f.meta.path && c.modifiedTime == f.meta.modified
      && c.messageCount == CountMessages(f.body.value)
      && c.summary == LastSummary(f.body.value)
      && c.firstUserMsg == FirstPreview(f.body.value)
      && c.lastTimestamp == LastInstant(f.body.value)
  {
    if f.body.Some? {
      AnalyzeSpec(f.body.value);
    }
  }

  /** Once the preview is set, even to "", no later line overwrites it. */
  lemma PreviewNeverOverwritten(acc: Acc, lines: seq<Line>)
    requires acc.firstUserMsg.Some?
    ensures Fold(acc, lines).Some? ==> Fold(acc, lines).value.firstUserMsg == acc.firstUserMsg
  {
    FoldSpec(acc, lines);
  }

  /** The lines that are not blank and decode as JSON. */
  function Kept(lines: seq<Line>): seq<Line> {
    if lines == [] then []
    else if lines[0].Blank? || lines[0].Malformed? then Kept(lines[1..])
    else [lines[0]] + Kept(lines[1..])
  }

  /** Blank lines and lines the JSON decoder rejects change no running variable. */
  lemma {:induction false} SkippedLinesInert(acc: Acc, lines: seq<Line>)
    ensures Fold(acc, lines) == Fold(acc, Kept(lines))
    decreases |lines|
  {
    if lines != [] {
      SkippedLinesInert(acc, lines[1..]);
      if !(lines[0].Blank? || lines[0].Malformed?) {
        var k := Kept(lines);
        assert k[0] == lines[0] && k[1..] == Kept(lines[1..]);
        match Step(acc, lines[0]) {
          case None =>
          case Some(next) =>
            SkippedLinesInert(next, lines[1..]);
        }
      }
    }
  }

  // ---------------------------------------------------------------------------------------
  // Index-based meaning of "first" and "last"

  /** The preview comes from the first line that offers one and is its truncated text. */
  lemma {:induction false} FirstPreviewAt(lines: seq<Line>, i: nat)
    requires i < |lines| && LinePreview(lines[i]).Some?
    requires forall j :: 0 <= j < i ==> LinePreview(lines[j]).None?
    ensures FirstPreview(lines) == LinePreview(lines[i])
    ensures |FirstPreview(lines).value| <= PreviewLimit + |Ellipsis|
  {
    if i > 0 {
      assert LinePreview(lines[0]).None?;
      FirstPreviewAt(lines[1..], i - 1);
    }
  }

  /** No preview at all exactly when no line offers one. */
  lemma {:induction false} FirstPreviewNone(lines: seq<Line>)
    ensures FirstPreview(lines).None? <==> forall j :: 0 <= j < |lines| ==> LinePreview(lines[j]).None?
  {
    if lines != [] {
      FirstPreviewNone(lines[1..]);
      assert forall j :: 1 <= j < |lines| ==> lines[j] == lines[1..][j - 1];
    }
  }

  /** The summary is that of the last summary record. */
  lemma {:induction false} LastSummaryAt(lines: seq<Line>, i: nat)
    requires i < |lines| && LineSummary(lines[i]).Some?
    requires forall j :: i < j < |lines| ==> LineSummary(lines[j]).None?
    ensures LastSummary(lines) == LineSummary(lines[i])
  {
    assert forall j :: 0 <= j < |lines| - 1 ==> lines[1..][j] == lines[j + 1];
    if i > 0 {
      LastSummaryAt(lines[1..], i - 1);
    } else {
      LastSummaryNone(lines[1..]);
    }
  }

  /** No summary at all exactly when no line is a summary record. */
  lemma {:induction false} LastSummaryNone(lines: seq<Line>)
    ensures LastSummary(lines).None? <==> forall j :: 0 <= j < |lines| ==> LineSummary(lines[j]).None?
  {
    if lines != [] {
      LastSummaryNone(lines[1..]);
      assert forall j :: 1 <= j < |lines| ==> lines[j] == lines[1..][j - 1];
    }
  }

  /** The last timestamp is that of the last line whose timestamp is non-empty and parses. */
  lemma {:induction false} LastInstantAt(lines: seq<Line>, i: nat)
    requires i < |lines| && LineInstant(lines[i]).Some?
    requires forall j :: i < j < |lines| ==> LineInstant(lines[j]).None?
    ensures LastInstant(lines) == LineInstant(lines[i])
  {
    assert forall j :: 0 <= j < |lines| - 1 ==> lines[1..][j] == lines[j + 1];
    if i > 0 {
      LastInstantAt(lines[1..], i - 1);
    } else {
      LastInstantNone(lines[1..]);
    }
  }

  /** No timestamp at all exactly when no line has a non-empty timestamp that parses. */
  lemma {:induction false} LastInstantNone(lines: seq<Line>)
    ensures LastInstant(lines).None? <==> forall j :: 0 <= j < |lines| ==> LineInstant(lines[j]).None?
  {
    if lines != [] {
      LastInstantNone(lines[1..]);
      assert forall j :: 1 <= j < |lines| ==> lines[j] == lines[1..][j - 1];
    }
  }

  /** The message count is at most the number of lines. */
  lemma {:induction false} CountMessagesBound(lines: seq<Line>)
    ensures CountMessages(lines) <= |lines|
    ensures CountMessages(lines) == |lines| <==> forall j :: 0 <= j < |lines| ==> IsMessageLine(lines[j])
  {
    if lines != [] {
      CountMessagesBound(lines[1..]);
      assert forall j :: 1 <= j < |lines| ==> lines[j] == lines[1..][j - 1];
    }
  }
}
