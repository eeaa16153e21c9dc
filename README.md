# Claude history manager: the logic behind the GUI

`claude_history_manager.py` is a Tk desktop tool for browsing the conversation logs that the
Claude command-line client keeps under `~/.claude/projects`. The tool has one directory per
project. Each directory holds `.jsonl` log files with one JSON record per line. Around its widget
code the program does five pieces of sequential work, and this project models them in Dafny and
proves what they compute:

1. **Single-file analysis** (`_analyze_conversation_file`). One pass over a log file counts the
   user and assistant messages, keeps a preview of the first user message, keeps the last summary
   with its double quotes stripped, and keeps the last timestamp that parses. A line that is
   valid JSON but not an object makes the whole file fail.
2. **Project index assembly** (`_load_projects_thread`). Every project directory gets the
   records of its files that analysed successfully, newest first. A project with no such file
   gets no entry.
3. **Search** (`_search_in_conversation`, `_search_conversations_thread`). Each line
   contributes at most one match. A conversation enters the result only when its file has a match.
4. **Display names of search results** (`_show_search_results`, `_get_selected_conversation`).
   A result row shows "🔍 name (k 匹配)", and selecting a row decodes that text back into a file
   name. The manager decodes as the code does, cutting at the first " (" (see "## Findings").
5. **Deletion** (`_delete_conversation`). The deleted record is popped from the current list.
   It is also popped from the list stored under the current project, which is usually the same
   list object.

Log lines are taken already decoded (`Records.Line`):

- `Blank`: a blank line.
- `Malformed`: text that `json.loads` rejects.
- `NonObject`: valid JSON that is not an object.
- `Entry(kind, stamp)`: an object.
  - `kind` is a user or assistant message with its content, a summary, or any other record.
  - `stamp` is absent, present but unparseable, or parsed to an instant.

A file is its metadata plus `Some(lines)`, or `None` when it cannot be read. The regular
expression of a search is abstract: `Search.Pattern` is a compile error, or a predicate
`matches: string -> bool` that stands for `pattern.search`. The files on disk at search time
are the function `read` from a path to its lines.

Where the code loops over running variables, the model is a method with a loop. That method is
proved equal to a specification function, and the properties are proved about that function:

- `Analysis.AnalyzeConversationFile` is proved against `Analysis.Fold`.
- `Search.SearchInConversation` is proved against `Search.Scan`.
- The manager is the class `Manager.HistoryManager`.
  - Its `projectsData` maps project names to `Manager.ConversationList` objects.
  - `currentConversations` is a reference to one such object.
  - Selecting a project therefore shares the list, as the Python code does at
    `claude_history_manager.py:595`.

## Model

| member | source | states |
|---|---|---|
| Analysis.Truncate | claude_history_manager.py:552-555 | A preview is at most 103 characters. It is the text itself up to 100 characters; otherwise it is the first 100 characters followed by "...". |
| Analysis.StripQuotes | claude_history_manager.py:559 | `strip('"')` never lengthens the text, and the result neither starts nor ends with a double quote. |
| Analysis.StripQuotesInfix | claude_history_manager.py:559 | The stripped summary is the infix of the text between its leading and trailing double quotes, and everything removed is a double quote. |
| Analysis.AnalyzeConversationFile | claude_history_manager.py:525-586 | The loop over the lines, updating the four running variables, returns exactly the left fold `AnalyzeFile`, including `None` for an unreadable file or a non-object line. |
| Analysis.FoldSpec | claude_history_manager.py:536-570 | From any running state: the fold fails iff some line is a non-object. Otherwise the count grows by the number of user/assistant records, a preview already set stays, and summary and timestamp come from the last line that has one (or stay as they were). |
| Analysis.AnalyzeSpec | claude_history_manager.py:531-582 | The analysis of a file equals the independent definitions `CountMessages`, `LastSummary`, `FirstPreview` and `LastInstant`, or `None` when a line is a non-object. |
| Analysis.AnalyzeFileSpec | claude_history_manager.py:525-586 | A file yields no record iff it cannot be read or has a non-object line. Otherwise the record carries the file's name, path and modification time and the four results. |
| Analysis.PreviewNeverOverwritten | claude_history_manager.py:549 | Once the preview is set, even to "", no later line changes it. |
| Analysis.SkippedLinesInert | claude_history_manager.py:538-539 | Blank lines and lines the JSON decoder rejects change no running variable: folding the file equals folding only its kept lines. |
| Analysis.FirstPreviewAt | claude_history_manager.py:549-555 | The preview is the truncated text of the first user record whose content is a string or whose first block is text. |
| Analysis.FirstPreviewNone | claude_history_manager.py:549-555 | There is no preview iff no line offers one. |
| Analysis.LastSummaryAt | claude_history_manager.py:558-559 | The summary is the stripped text of the last summary record. |
| Analysis.LastSummaryNone | claude_history_manager.py:558-559 | There is no summary iff no line is a summary record. |
| Analysis.LastInstantAt | claude_history_manager.py:562-567 | The last timestamp is that of the last record, of any type, whose timestamp is non-empty and parses. Later empty or unparseable timestamps leave it. |
| Analysis.LastInstantNone | claude_history_manager.py:562-567 | There is no timestamp iff no line has a non-empty timestamp that parses. |
| Analysis.CountMessagesBound | claude_history_manager.py:545-546 | The message count is at most the number of lines, and equals it iff every line is a user or assistant record. |
| ProjectIndex.Insert | claude_history_manager.py:503 | Inserting one record into a list adds exactly that record (multiset). |
| ProjectIndex.InsertNewestFirst | claude_history_manager.py:503 | Inserting into a newest-first list keeps it newest first. |
| ProjectIndex.SortNewestFirst | claude_history_manager.py:503 | The sort yields a permutation of its input ordered by modification time, newest first. |
| ProjectIndex.InsertStable | claude_history_manager.py:503 | Insertion puts the new record ahead of the records of its own time and keeps their order. |
| ProjectIndex.SortStable | claude_history_manager.py:503 | The sort is stable: the records of any one modification time keep their listing order. |
| ProjectIndex.AnalysedSpec | claude_history_manager.py:496-499 | A project's kept records are exactly the successful analyses of its files, and there are no more of them than files. |
| ProjectIndex.BuildIndexKeys | claude_history_manager.py:488-504 | From any starting index, a name ends up in the index iff it was there or some project directory of that name has a file that analyses. |
| ProjectIndex.BuildIndexUntouched | claude_history_manager.py:488-504 | The entry of a name that no later directory has is left as it was. |
| ProjectIndex.BuildIndexEntry | claude_history_manager.py:488-504 | The entry of a name is the sorted analysed files of the last directory of that name. |
| ProjectIndex.LoadIndexKeys | claude_history_manager.py:486-504 | The index has an entry for a project iff some directory of that name has a file that analyses. |
| ProjectIndex.LoadIndexEntry | claude_history_manager.py:486-504 | A project's entry is a permutation of its successfully analysed files, ordered by modification time, newest first. |
| ProjectIndex.LoadIndexOmitsEmpty | claude_history_manager.py:501-504 | With unique directory names, a project none of whose files analyses has no entry. |
| Manager.AnalyseProject | claude_history_manager.py:493-499 | The loop over one directory's files returns exactly the records whose analysis succeeded, in listing order. |
| Manager.HistoryManager.constructor | claude_history_manager.py:286-288 | The manager starts with no projects, no current project and an empty current list. |
| Manager.HistoryManager.LoadProjects | claude_history_manager.py:486-504 | The index held in `projects_data` becomes `LoadIndex` of the directory listing, with one fresh list per project. The current project and its list are left alone. |
| Manager.HistoryManager.LoadProjectDir | claude_history_manager.py:489-504 | One directory adds its sorted records under its name, in a new list, when it has any; otherwise the index is unchanged. |
| Manager.HistoryManager.SelectProject | claude_history_manager.py:588-595 | An empty or unknown name changes nothing. Otherwise that project becomes current, and the current list is the very object stored under it. |
| Search.BlockTextsSpec | claude_history_manager.py:827-830 | A block list yields a text iff it has a `text` block with that text, and yields no more texts than blocks. |
| Search.SearchFieldsSpec | claude_history_manager.py:823-834 | User and assistant records are searched in their string content or their `text` blocks. Summary records are searched in their summary, and other records not at all. |
| Search.LineMatchSpec | claude_history_manager.py:836-844 | A line yields a match iff it is a record one of whose searched texts matches. The match carries the line number and raw timestamp, field "summary" exactly for summary records, and type user, assistant or summary exactly for records of that type. |
| Search.SearchLine | claude_history_manager.py:836-845 | The loop over a line's searched texts stops at the first that matches and records exactly `LineMatches`. |
| Search.SearchInConversation | claude_history_manager.py:807-854 | The loop over the lines returns exactly `ScanFile`. An unreadable file gives no matches, and a non-object line ends the scan with the matches found so far. |
| Search.ScanLineNumbers | claude_history_manager.py:813-844 | There is at most one match per line, numbered within the scanned lines counting blank lines, and the line numbers strictly increase. |
| Search.ScanSound | claude_history_manager.py:813-849 | Every recorded match is the match of a line the scan reaches. |
| Search.ScanComplete | claude_history_manager.py:813-849 | The match of every line the scan reaches is recorded. |
| Search.ScanExact | claude_history_manager.py:813-849 | A match is recorded iff it is the match of a line before which no line ends the scan. |
| Search.SearchHit | claude_history_manager.py:794-798 | One conversation contributes its record with its matches exactly when its search found something. |
| Search.HitsOfAppend | claude_history_manager.py:793-798 | Each conversation is searched independently: the results for a concatenated list are the concatenated results. |
| Search.HitsOfSpec | claude_history_manager.py:793-798 | The results hold exactly the conversations whose search found matches, each with its own matches, in the order of the conversation list. |
| Manager.SearchAll | claude_history_manager.py:793-798 | The loop over the current conversations returns exactly `HitsOf`. |
| Manager.HistoryManager.SearchConversations | claude_history_manager.py:771-805 | An empty keyword, or no current project or conversations, gives an error before any search, and so does a pattern that fails to compile, exactly then. With a keyword, a current project, conversations and a pattern that compiles, the result is `HitsOf` of the current list. |
| DisplayName.DecimalString | claude_history_manager.py:868 | `str(k)` is a non-empty string of decimal digits. |
| DisplayName.BeforeFirstSeparator | claude_history_manager.py:934 | `split(' (')[0]` is the longest prefix without " (": it contains none, and the text goes on with " (" when it is shorter. |
| DisplayName.DecodeAsWritten | claude_history_manager.py:932-936 | A display name without the "🔍 " marker is returned unchanged. |
| DisplayName.SplitAfter | claude_history_manager.py:934 | Splitting `x + " (" + y` at the first " (" gives `x` when `x` has none. |
| DisplayName.MarkedNameSeparators | claude_history_manager.py:868 | "🔍 " + name contains " (" iff the name does or starts with "(". |
| DisplayName.AsWrittenRoundTrip | claude_history_manager.py:868 | The decoding as written inverts the encoding for names with no " (" that do not start with "(". |
| DisplayName.AsWrittenCutsAtSeparator | claude_history_manager.py:932-936 | As written, a name is cut at its own first " (". |
| DisplayName.AsWrittenDropsParenthesised | claude_history_manager.py:932-936 | As written, a name starting with "(" decodes to "". |
| DisplayName.AsWrittenLosesNames | claude_history_manager.py:932-936 | As written, "notes (1).jsonl" decodes to "notes", and "(draft).jsonl" decodes to "". |
| DisplayName.LastSeparator | claude_history_manager.py:934 | Finds the last " (" before a position, or reports that there is none. |
| DisplayName.DecodeDisplayName | claude_history_manager.py:932-936 | The corrected decoding leaves a name without the marker unchanged. |
| DisplayName.RoundTrip | claude_history_manager.py:868 | The corrected decoding inverts the encoding for every file name and count. |
| Manager.FirstNamed | claude_history_manager.py:939-943 | Finds the first conversation with the given file name, or reports that none has it. |
| Manager.SelectingAHit | claude_history_manager.py:919-943 | For a file name with no " (" that does not start with "(", selecting the row a search shows for it finds a conversation with that file name, and that very one when file names are unique. |
| Manager.AsWrittenMissesHit | claude_history_manager.py:930-943 | The search row of "notes (1).jsonl", the only conversation, selects nothing. |
| Manager.AsWrittenSelectsWrongFile | claude_history_manager.py:930-943 | The search row of "a.jsonl (b).jsonl" selects "a.jsonl" in either list order, and deleting from that row removes "a.jsonl" and keeps "a.jsonl (b).jsonl". |
| Manager.SelectingAHitIntended | claude_history_manager.py:919-943 | With the corrected decoding, selecting the row a search shows for any conversation finds a conversation with that file name, and that very one when file names are unique. |
| Manager.SelectingAPlainRow | claude_history_manager.py:930-943 | Selecting a plain row looks the conversation up by its own file name, for a name that does not start with "🔍 "; a plain row whose name does start with it is decoded as a search row (see `Manager.MarkedNameUnselectable`). |
| Manager.MarkedNameUnselectable | claude_history_manager.py:930-943 | The plain row of a file named "🔍 x.jsonl", the only conversation, selects nothing, because its text is decoded to "x.jsonl". |
| Manager.HistoryManager.GetSelectedConversation | claude_history_manager.py:919-943 | Returns nothing when no row is selected. Otherwise it returns the first conversation of the current list whose file name is the name decoded as `split(' (')[0][2:]` does, or nothing. |
| Deletion.RemoveFirstAt | claude_history_manager.py:998-1003 | The removal pops the first record with the path; the others keep their order. |
| Deletion.RemoveFirstAbsent | claude_history_manager.py:998-1003 | A list without the path is left as it is. |
| Deletion.RemoveFirstUnique | claude_history_manager.py:998-1003 | With unique paths the removal takes out exactly the one record with the path, keeps the others in order, and leaves no record with the path. |
| Deletion.SecondPassFindsNothing | claude_history_manager.py:1006-1010 | With unique paths, a second removal of the same path changes nothing. |
| Manager.ConversationList.RemoveFirstWithPath | claude_history_manager.py:999-1003 | The removal loop over a snapshot of the list pops `RemoveFirst` and says whether it found the path. |
| Manager.HistoryManager.DeleteConversation | claude_history_manager.py:975-1010 | Nothing changes when there is no selection or no match, when deletion is not confirmed, or when the file is not removed. Otherwise, with a shared list and unique paths, exactly the selected record's path is removed once. With separate lists, each list loses its first record with that path. |

## Left out

- The Tk interface: widgets, menus, dialogs, `root.after` callbacks, the message viewer, and the
  sort-on-click code with its timer and guard state. The confirmation dialog of a deletion is the
  parameter `confirmed`.
- Background threads: the thread bodies are modelled as sequential methods.
- File system access (`iterdir`, `glob`, `stat`, `open`, `os.remove`):
  - listings and contents are passed in as values;
  - whether `os.remove` succeeded is the parameter `fileRemoved`;
  - the order of a directory listing is whatever the input sequence says.
- `json.loads`, `datetime.fromisoformat` and `re.compile`/`pattern.search` are library calls.
  They are the decoded `Line` values, a parsed instant as an integer, and the abstract
  `Pattern`/`matches`.
- Manager.HistoryManager.SearchConversations: `keyword` is the search text after `strip()`; the
  stripping of white space itself is not modelled.
- `_format_file_size`: it uses floating point and `.1f` formatting.
- Message-list previews and their 1000-item cap: display formatting only.
- Export to Markdown or JSON, backup, and the conversation viewer: file output and display.
- Record shapes that make the analysis raise other than a non-object line are not represented:
  - a `message` that is not an object;
  - a non-dict first content block;
  - a summary that is not a string;
  - a `text` block whose text is not a string, such as `null` (`len` raises at
    claude_history_manager.py:555, and `pattern.search` raises at :838).

  The same goes for non-dict content items in a search, which end that file's search early.
- Analysis.AnalyzeConversationFile: a non-empty timestamp that is not a string is modelled as an
  unparseable one.
- Search.SearchInConversation: an error reading a file part-way through is modelled as a file
  that cannot be read at all.
- Manager.HistoryManager.DeleteConversation: when the current list is shared with the project
  entry but paths are not unique, the contract does not state the result, which is two removals.
- Manager.HistoryManager.LoadProjects: choosing a project after loading (`_update_projects_ui`)
  is UI code and not modelled.

## Findings

`Manager.HistoryManager.GetSelectedConversation` and `Manager.HistoryManager.DeleteConversation`
follow the code and decode as written (`Manager.Selected`). The corrected lookup is
`Manager.SelectedIntended`, which decodes with `DisplayName.DecodeDisplayName`.

The same decoding appears twice more in the sort-on-click code, at
`claude_history_manager.py:668` and `claude_history_manager.py:688`.

| source | as written | input that shows it | evidently intended | confidence | as-written member | corrected member |
|---|---|---|---|---|---|---|
| claude_history_manager.py:932-936 | `display_name.split(' (')[0][2:]` cuts the name at its FIRST " (". The marker "🔍 " ends in a space, so a name starting with "(" is cut at once. | The search row for "notes (1).jsonl" decodes to "notes", and the one for "(draft).jsonl" decodes to "". The lookup at :939-943 then finds the wrong conversation or none. | Strip the marker and the trailing " (k 匹配)" added at :868, so that every file name comes back. | not executed | DisplayName.AsWrittenLosesNames | DisplayName.RoundTrip |
| claude_history_manager.py:939-943 | The lookup compares each file name with the name decoded at :934, so a search row can select another conversation, which `_delete_conversation` then deletes. | With "a.jsonl" and "a.jsonl (b).jsonl" in the list, in either order, the search row of the latter selects "a.jsonl". The confirmation dialog at :982-987 names "a.jsonl", and confirming removes "a.jsonl". | The row selects the conversation it shows. | not executed | Manager.AsWrittenSelectsWrongFile | Manager.SelectingAHitIntended |
