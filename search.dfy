/**
 * Keyword search: `_search_in_conversation` scans one log file and records at most one match
 * per line; `_search_conversations_thread` keeps the conversations that have matches.
 *
 * The compiled regular expression is abstract: `Compiled(matches)` stands for
 * `re.compile(keyword, re.IGNORECASE)` and `matches(text)` for `pattern.search(text)` finding
 * something.  The file system at search time is the function `read` from a path to the decoded
 * lines of that file (`None` when it cannot be opened or read).
 */
module Search {
  import opened Wrappers
  import opened Records

  /** The outcome of `re.compile`: a rejected pattern, or what a search with it finds. */
  datatype Pattern = CompileError | Compiled(matches: string -> bool)

  /** The `field_name` of a match. */
  datatype Field = MessageField | SummaryField

  /** The `message_type` of a match: only these three record types are searched. */
  datatype MessageType = UserType | AssistantType | SummaryType

  /** One entry of a conversation's `matches` list; `lineNumber` counts from 1, blank lines included. */
  datatype Match = Match(lineNumber: nat, field: Field, messageType: MessageType, timestamp: Option<string>)

  /** A search result: the conversation record with its `matches` added. */
  datatype Hit = Hit(conv: Conversation, matches: seq<Match>)

  /** The texts of the `text` blocks of a content list, in order; images and other blocks are skipped. */
  function BlockTexts(bs: seq<Block>): seq<string> {
    if bs == [] then []
    else (if bs[0].Text? then [bs[0].text] else []) + BlockTexts(bs[1..])
  }

  /** A block list yields one text per `text` block and nothing else. */
  lemma {:induction false} BlockTextsSpec(bs: seq<Block>)
    ensures |BlockTexts(bs)| <= |bs|
    ensures forall t :: t in BlockTexts(bs) <==> Text(t) in bs
  {
    if bs != [] {
      BlockTextsSpec(bs[1..]);
      assert bs == [bs[0]] + bs[1..];
    }
  }

  /** The texts `search_fields` collects from a record, in the order they are tested. */
  function SearchFields(k: Kind): seq<string> {
    match k
    case User(c) => ContentFields(c)
    case Assistant(c) => ContentFields(c)
    case Summary(t) => [t]
    case OtherKind => []
  }

  /**
   * A user or assistant record is searched in its string content or in the texts of its `text`
   * blocks, a summary record in its summary, and any other record not at all.
   */
  lemma SearchFieldsSpec(k: Kind)
    ensures k.OtherKind? ==> SearchFields(k) == []
    ensures k.Summary? ==> SearchFields(k) == [k.text]
    ensures (k.User? || k.Assistant?) && k.content.Str? ==> SearchFields(k) == [k.content.s]
    ensures (k.User? || k.Assistant?) && k.content.Blocks? ==>
      forall t :: t in SearchFields(k) <==> Text(t) in k.content.blocks
    ensures (k.User? || k.Assistant?) && k.content.OtherContent? ==> SearchFields(k) == []
  {
    if (k.User? || k.Assistant?) && k.content.Blocks? {
      BlockTextsSpec(k.content.blocks);
    }
  }

  function ContentFields(c: Content): seq<string> {
    match c
    case Str(s) => [s]
    case Blocks(bs) => BlockTexts(bs)
    case OtherContent => []
  }

  function FieldOf(k: Kind): Field {
    if k.Summary? then SummaryField else MessageField
  }

  function TypeOf(k: Kind): MessageType
    requires !k.OtherKind?
  {
    match k
    case User(_) => UserType
    case Assistant(_) => AssistantType
    case Summary(_) => SummaryType
  }

  /** `data.get('timestamp')`: the text of the timestamp key, or `None` when it is absent or null. */
  function RawStamp(st: Stamp): Option<string> {
    if st.NoStamp? then None else Some(st.raw)
  }

  /** The match the line numbered `n` contributes, if any of its fields matches. */
  function LineMatch(n: nat, line: Line, matches: string -> bool): Option<Match>
  {
    if line.Entry? && !line.kind.OtherKind? && exists t :: t in SearchFields(line.kind) && matches(t) then
      Some(Match(n, FieldOf(line.kind), TypeOf(line.kind), RawStamp(line.stamp)))
    else
      None
  }

  /**
   * A line contributes a match exactly when it is a record one of whose searched texts matches;
   * the match carries the line's number and raw timestamp, says whether the text was a summary,
   * and names the record's type.
   */
  lemma LineMatchSpec(n: nat, line: Line, matches: string -> bool)
    ensures LineMatch(n, line, matches).Some? <==>
      line.Entry? && exists t :: t in SearchFields(line.kind) && matches(t)
    ensures LineMatch(n, line, matches).Some? ==>
      LineMatch(n, line, matches).value.lineNumber == n &&
      LineMatch(n, line, matches).value.timestamp == RawStamp(line.stamp)
    ensures LineMatch(n, line, matches).Some? ==>
      (LineMatch(n, line, matches).value.field == SummaryField <==> line.kind.Summary?)
    ensures LineMatch(n, line, matches).Some? ==>
      (LineMatch(n, line, matches).value.messageType == UserType <==> line.kind.User?) &&
      (LineMatch(n, line, matches).value.messageType == AssistantType <==> line.kind.Assistant?) &&
      (LineMatch(n, line, matches).value.messageType == SummaryType <==> line.kind.Summary?)
  {
  }

  /**
   * The matches found in `lines`, the first of which is numbered `n`.  A line that is not a JSON
   * object makes `data.get` raise, which ends the scan with the matches found so far.
   */
  function Scan(lines: seq<Line>, n: nat, matches: string -> bool): seq<Match>
    decreases |lines|
  {
    if lines == [] || lines[0].NonObject? then []
    else LineMatches(n, lines[0], matches) + Scan(lines[1..], n + 1, matches)
  }

  /** The match of one line as a list of zero or one entries. */
  function LineMatches(n: nat, line: Line, matches: string -> bool): seq<Match> {
    match LineMatch(n, line, matches)
    case None => []
    case Some(m) => [m]
  }

  /** What `_search_in_conversation` returns for a file; a file that cannot be read has no matches. */
  function ScanFile(body: Option<seq<Line>>, matches: string -> bool): seq<Match> {
    match body
    case None => []
    case Some(lines) => Scan(lines, 1, matches)
  }

  /** The loop of `_search_in_conversation` over the lines of one file. */
  method SearchInConversation(body: Option<seq<Line>>, matches: string -> bool) returns (found: seq<Match>)
    ensures found == ScanFile(body, matches)
  {
    found := [];
    if body.None? {
      return;
    }
    var lines := body.value;
    var i := 0;
    while i < |lines|
      invariant 0 <= i <= |lines|
      invariant found + Scan(lines[i..], i + 1, matches) == Scan(lines, 1, matches)
    {
      var line := lines[i];
      if line.NonObject? {
        break;
      }
      var lineMatches := SearchLine(i + 1, line, matches);
      found := found + lineMatches;
      assert lines[i..][0] == line && lines[i..][1..] == lines[i + 1..];
      i := i + 1;
    }
  }

  /** The loop of `_search_in_conversation` over the searched texts of one line: stops at the first that matches. */
  method SearchLine(n: nat, line: Line, matches: string -> bool) returns (r: seq<Match>)
    ensures r == LineMatches(n, line, matches)
  {
    r := [];
    if line.Entry? {
      var fields := SearchFields(line.kind);
      var k := 0;
      while k < |fields|
        invariant 0 <= k <= |fields|
        invariant forall j :: 0 <= j < k ==> !matches(fields[j])
      {
        if matches(fields[k]) {
          return [Match(n, FieldOf(line.kind), TypeOf(line.kind), RawStamp(line.stamp))];
        }
        k := k + 1;
      }
    }
  }

  /** The line numbers of the matches lie within the scanned lines and strictly increase. */
  lemma {:induction false} ScanLineNumbers(lines: seq<Line>, n: nat, matches: string -> bool)
    ensures |Scan(lines, n, matches)| <= |lines|
    ensures forall m :: m in Scan(lines, n, matches) ==> n <= m.lineNumber < n + |lines|
    ensures forall i, j :: 0 <= i < j < |Scan(lines, n, matches)| ==>
      Scan(lines, n, matches)[i].lineNumber < Scan(lines, n, matches)[j].lineNumber
    decreases |lines|
  {
    if lines != [] && !lines[0].NonObject? {
      ScanLineNumbers(lines[1..], n + 1, matches);
      var rest := Scan(lines[1..], n + 1, matches);
      assert forall j :: 0 <= j < |rest| ==> rest[j] in rest;
    }
  }

  /** No line before `i` (included) is a non-object line: the scan reaches line `i`. */
  predicate Reaches(lines: seq<Line>, i: int) {
    0 <= i < |lines| && forall j :: 0 <= j <= i ==> !lines[j].NonObject?
  }

  /** Every match the scan records is the match of a line it reaches. */
  lemma {:induction false} ScanSound(lines: seq<Line>, n: nat, matches: string -> bool, m: Match)
    requires m in Scan(lines, n, matches)
    ensures exists i :: Reaches(lines, i) && LineMatch(n + i, lines[i], matches) == Some(m)
    decreases |lines|
  {
    var rest := lines[1..];
    assert !lines[0].NonObject?;
    if m in LineMatches(n, lines[0], matches) {
      assert Reaches(lines, 0);
    } else {
      ScanSound(rest, n + 1, matches, m);
      var i :| Reaches(rest, i) && LineMatch(n + 1 + i, rest[i], matches) == Some(m);
      assert forall j :: 1 <= j <= i + 1 ==> lines[j] == rest[j - 1];
      assert Reaches(lines, i + 1);
    }
  }

  /** The match of every line the scan reaches is recorded. */
  lemma {:induction false} ScanComplete(lines: seq<Line>, n: nat, matches: string -> bool, i: nat)
    requires Reaches(lines, i) && LineMatch(n + i, lines[i], matches).Some?
    ensures LineMatch(n + i, lines[i], matches).value in Scan(lines, n, matches)
    decreases i
  {
    if i > 0 {
      var rest := lines[1..];
      assert Reaches(rest, i - 1) && rest[i - 1] == lines[i];
      ScanComplete(rest, n + 1, matches, i - 1);
    }
  }

  /**
   * The scan records exactly the matches of the lines it reaches: a match is found for line
   * `n + i` if and only if the scan reaches it and one of its fields matches.
   */
  lemma ScanExact(lines: seq<Line>, n: nat, matches: string -> bool)
    ensures forall m :: m in Scan(lines, n, matches) <==>
      exists i :: Reaches(lines, i) && LineMatch(n + i, lines[i], matches) == Some(m)
  {
    forall m | m in Scan(lines, n, matches)
      ensures exists i :: Reaches(lines, i) && LineMatch(n + i, lines[i], matches) == Some(m)
    {
      ScanSound(lines, n, matches, m);
    }
    forall m, i | Reaches(lines, i) && LineMatch(n + i, lines[i], matches) == Some(m)
      ensures m in Scan(lines, n, matches)
    {
      ScanComplete(lines, n, matches, i);
    }
  }

  /** The results of `_search_conversations_thread`: each conversation with a non-empty match list, in order. */
  function HitsOf(convs: seq<Conversation>, read: string -> Option<seq<Line>>, matches: string -> bool): seq<Hit> {
    if convs == [] then [] else HitOf(convs[0], read, matches) + HitsOf(convs[1..], read, matches)
  }

  /** The result entry of one conversation: present when its scan found something. */
  function HitOf(c: Conversation, read: string -> Option<seq<Line>>, matches: string -> bool): seq<Hit> {
    var found := ScanFile(read(c.filePath), matches);
    if |found| > 0 then [Hit(c, found)] else []
  }

  /** Each conversation is searched on its own: the results of a concatenation concatenate. */
  lemma {:induction false} HitsOfAppend(a: seq<Conversation>, b: seq<Conversation>,
                                        read: string -> Option<seq<Line>>, matches: string -> bool)
    ensures HitsOf(a + b, read, matches) == HitsOf(a, read, matches) + HitsOf(b, read, matches)
  {
    if a != [] {
      assert (a + b)[0] == a[0] && (a + b)[1..] == a[1..] + b;
      HitsOfAppend(a[1..], b, read, matches);
    } else {
      assert a + b == b;
    }
  }

  /**
   * One pass of the loop of `_search_conversations_thread`: the conversation's entry in the
   * results, with its matches, when the search of its file found any.
   */
  method SearchHit(c: Conversation, read: string -> Option<seq<Line>>, matches: string -> bool)
    returns (hit: seq<Hit>)
    ensures hit == HitOf(c, read, matches)
  {
    var found := SearchInConversation(read(c.filePath), matches);
    hit := if |found| > 0 then [Hit(c, found)] else [];
  }

  function ConvsOf(hits: seq<Hit>): seq<Conversation> {
    if hits == [] then [] else [hits[0].conv] + ConvsOf(hits[1..])
  }

  /** `a` is `b` with some elements left out. */
  predicate IsSubsequence<T(==)>(a: seq<T>, b: seq<T>)
    decreases |b|
  {
    if a == [] then true
    else if b == [] then false
    else (a[0] == b[0] && IsSubsequence(a[1..], b[1..])) || IsSubsequence(a, b[1..])
  }

  /**
   * The search result holds exactly the conversations whose scan found something, each with its
   * own matches, in the order of the conversation list.
   */
  lemma {:induction false} HitsOfSpec(convs: seq<Conversation>, read: string -> Option<seq<Line>>, matches: string -> bool)
    ensures forall h :: h in HitsOf(convs, read, matches) ==>
      h.conv in convs && h.matches == ScanFile(read(h.conv.filePath), matches) && |h.matches| > 0
    ensures forall c :: c in convs && |ScanFile(read(c.filePath), matches)| > 0 ==>
      Hit(c, ScanFile(read(c.filePath), matches)) in HitsOf(convs, read, matches)
    ensures IsSubsequence(ConvsOf(HitsOf(convs, read, matches)), convs)
  {
    if convs != [] {
      HitsOfSpec(convs[1..], read, matches);
      var found := ScanFile(read(convs[0].filePath), matches);
      var rest := HitsOf(convs[1..], read, matches);
      assert convs == [convs[0]] + convs[1..];
      if |found| > 0 {
        assert HitsOf(convs, read, matches) == [Hit(convs[0], found)] + rest;
        assert ConvsOf([Hit(convs[0], found)] + rest)[1..] == ConvsOf(rest);
      } else {
        assert HitsOf(convs, read, matches) == rest;
        SubsequenceOfTail(ConvsOf(rest), convs);
      }
    }
  }

  lemma SubsequenceOfTail<T>(a: seq<T>, b: seq<T>)
    requires b != [] && IsSubsequence(a, b[1..])
    ensures IsSubsequence(a, b)
  {
  }
}
