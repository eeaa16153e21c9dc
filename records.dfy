/**
 * The shapes the history manager reads and produces.
 *
 * A conversation log is a `.jsonl` file; every line is decoded once, up front, into a `Line`.
 * The JSON decoder and the ISO-8601 timestamp parser are not modelled: their outcomes are
 * already part of the value (`Malformed`, `NonObject`, `Stamp`).
 */
module Records {
  import opened Wrappers

  /** One element of a list-valued `message.content`, told apart by its `type` key. */
  datatype Block =
    | Text(text: string)        // `{"type": "text", "text": ...}`; a missing `text` is ""
    | Image                     // `{"type": "image", ...}`
    | OtherBlock                // any other object

  /** The `message.content` of a user or assistant record; a missing content is `Str("")`. */
  datatype Content =
    | Str(s: string)
    | Blocks(blocks: seq<Block>)
    | OtherContent              // neither a string nor a list (a number, an object, null)

  /**
   * The `timestamp` key of a record: absent or null, present but rejected by the ISO-8601
   * parser, or present and parsed to an instant.  `raw` is the text as it stands in the file.
   */
  datatype Stamp =
    | NoStamp
    | Unparsed(raw: string)
    | Parsed(raw: string, instant: int)

  /** The `type` discriminator of a record with its payload. */
  datatype Kind =
    | User(content: Content)
    | Assistant(content: Content)
    | Summary(text: string)     // a missing `summary` key is ""
    | OtherKind

  /** One line of a log file after decoding. */
  datatype Line =
    | Blank                     // empty or whitespace only
    | Malformed                 // the JSON decoder rejects it
    | NonObject                 // valid JSON, but not an object (a list, a string, a number, null)
    | Entry(kind: Kind, stamp: Stamp)

  /** What `stat` and the file name tell about a log file. */
  datatype FileMeta = FileMeta(name: string, path: string, size: nat, modified: int, created: int)

  /** A log file: its metadata and its decoded lines, or `None` when it cannot be opened or read. */
  datatype SourceFile = SourceFile(meta: FileMeta, body: Option<seq<Line>>)

  /** The dictionary `_analyze_conversation_file` returns for one log file. */
  datatype Conversation = Conversation(
    fileName: string,
    filePath: string,
    fileSize: nat,
    modifiedTime: int,
    createdTime: int,
    messageCount: nat,
    summary: Option<string>,
    firstUserMsg: Option<string>,
    lastTimestamp: Option<int>)
}
