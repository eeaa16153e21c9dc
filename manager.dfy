/**
 * The state `ClaudeHistoryManager` keeps between events, and the handlers that change or read it.
 *
 * Python lists are shared by reference, and the manager relies on it: selecting a project makes
 * `current_conversations` the very list stored under that project in `projects_data`, so a
 * record popped from one is gone from the other.  `ConversationList` is that shared list object.
 */
module Manager {
  import opened Wrappers
  import opened Records
  import Analysis
  import ProjectIndex
  import Search
  import DisplayName
  import Deletion

  /** A Python list of conversation records, shared by whoever holds a reference to it. */
  class ConversationList {
    var items: seq<Conversation>

    constructor (items: seq<Conversation>)
      ensures this.items == items
    {
      this.items := items;
    }

    /**
     * One removal loop of `_delete_conversation`: pops the first record whose file path is
     * `path`, and tells whether it found one.
     */
    method RemoveFirstWithPath(path: string) returns (removed: bool)
      modifies this
      ensures removed == Deletion.HasPath(old(items), path)
      ensures items == Deletion.RemoveFirst(old(items), path)
    {
      var snapshot := items;
      removed := false;
      var i := 0;
      while i < |snapshot|
        invariant 0 <= i <= |snapshot|
        invariant items == snapshot
        invariant forall j :: 0 <= j < i ==> snapshot[j].filePath != path
      {
        if snapshot[i].filePath == path {
          Deletion.RemoveFirstAt(snapshot, path, i);
          items := items[..i] + items[i + 1..];
          removed := true;
          return;
        }
        i := i + 1;
      }
      Deletion.RemoveFirstAbsent(snapshot, path);
    }
  }

  /** Why a search produced no result list. */
  datatype SearchError = EmptyKeyword | NoProjectSelected | BadPattern

  /** The index of the first conversation of `s` whose file name is `name`. */
  function FirstNamed(s: seq<Conversation>, name: string): (r: Option<nat>)
    ensures r.Some? ==> r.value < |s| && s[r.value].fileName == name
    ensures r.Some? ==> forall j :: 0 <= j < r.value ==> s[j].fileName != name
    ensures r.None? ==> forall j :: 0 <= j < |s| ==> s[j].fileName != name
  {
    if s == [] then None
    else if s[0].fileName == name then Some(0)
    else match FirstNamed(s[1..], name)
      case None => None
      case Some(i) => Some(i + 1)
  }

  /**
   * The conversation a selected row stands for, as `_get_selected_conversation` finds it: the
   * first one whose file name is the display name decoded by `split(' (')[0][2:]`.
   */
  function Selected(s: seq<Conversation>, selection: Option<string>): Option<Conversation> {
    match selection
    case None => None
    case Some(displayName) =>
      match FirstNamed(s, DisplayName.DecodeAsWritten(displayName))
      case None => None
      case Some(i) => Some(s[i])
  }

  /**
   * Selecting the row a search shows for a conversation whose name has no " (" and does not
   * start with "(" finds a conversation of the same file name, and finds that very one when
   * file names are unique.
   */
  lemma SelectingAHit(s: seq<Conversation>, c: Conversation, count: nat)
    requires c in s
    requires !DisplayName.ContainsSeparator(c.fileName)
    requires c.fileName == [] || c.fileName[0] != '('
    ensures Selected(s, Some(DisplayName.EncodeDisplayName(c.fileName, count))).Some?
    ensures Selected(s, Some(DisplayName.EncodeDisplayName(c.fileName, count))).value.fileName == c.fileName
    ensures (forall i, j :: 0 <= i < j < |s| ==> s[i].fileName != s[j].fileName) ==>
      Selected(s, Some(DisplayName.EncodeDisplayName(c.fileName, count))) == Some(c)
  {
    DisplayName.AsWrittenRoundTrip(c.fileName, count);
    var k :| 0 <= k < |s| && s[k] == c;
    assert s[k].fileName == c.fileName;
  }

  /** A plain row (not a search result) is looked up by its own text. */
  lemma SelectingAPlainRow(s: seq<Conversation>, c: Conversation)
    requires c in s
    requires !DisplayName.StartsWith(c.fileName, DisplayName.Marker)
    ensures Selected(s, Some(c.fileName)).Some?
    ensures Selected(s, Some(c.fileName)).value.fileName == c.fileName
  {
    var k :| 0 <= k < |s| && s[k] == c;
    assert s[k].fileName == c.fileName;
  }

  /**
   * A plain row is decoded as a search row when the file name itself starts with the marker, so
   * such a file cannot be selected: "🔍 x.jsonl" decodes to "x.jsonl".
   */
  lemma MarkedNameUnselectable(c: Conversation)
    requires c.fileName == "🔍 x.jsonl"
    ensures Selected([c], Some(c.fileName)) == None
  {
    DisplayName.NoSeparatorIn(c.fileName);
    assert DisplayName.StartsWith(c.fileName, DisplayName.Marker);
    assert c.fileName != "x.jsonl";
  }

  /**
   * As written, the search row of "notes (1).jsonl" finds nothing when that is the only
   * conversation, so neither viewing nor deleting it is possible from the search results.
   */
  lemma AsWrittenMissesHit(c: Conversation)
    requires c.fileName == "notes (1).jsonl"
    ensures Selected([c], Some(DisplayName.EncodeDisplayName(c.fileName, 2))) == None
  {
    DisplayName.AsWrittenLosesNames();
    assert c.fileName != "notes";
  }

  /**
   * As written, the search row of "a.jsonl (b).jsonl" selects "a.jsonl" in either list order,
   * so deleting from the search results removes the other file and keeps the one shown.
   */
  lemma AsWrittenSelectsWrongFile(a: Conversation, b: Conversation, count: nat)
    requires a.fileName == "a.jsonl" && b.fileName == "a.jsonl (b).jsonl"
    ensures Selected([a, b], Some(DisplayName.EncodeDisplayName(b.fileName, count))) == Some(a)
    ensures Selected([b, a], Some(DisplayName.EncodeDisplayName(b.fileName, count))) == Some(a)
    ensures Deletion.RemoveFirst([a, b], Selected([a, b], Some(DisplayName.EncodeDisplayName(b.fileName, count))).value.filePath) == [b]
  {
    assert b.fileName == "a.jsonl" + DisplayName.Separator + "b).jsonl";
    DisplayName.NoSeparatorIn("a.jsonl");
    DisplayName.AsWrittenCutsAtSeparator("a.jsonl", "b).jsonl", count);
  }

  /** The lookup as intended: the display name decoded by `DisplayName.DecodeDisplayName`. */
  function SelectedIntended(s: seq<Conversation>, selection: Option<string>): Option<Conversation> {
    match selection
    case None => None
    case Some(displayName) =>
      match FirstNamed(s, DisplayName.DecodeDisplayName(displayName))
      case None => None
      case Some(i) => Some(s[i])
  }

  /**
   * With the intended decoding, selecting the row a search shows for any conversation finds a
   * conversation of the same file name, and that very one when file names are unique.
   */
  lemma SelectingAHitIntended(s: seq<Conversation>, c: Conversation, count: nat)
    requires c in s
    ensures SelectedIntended(s, Some(DisplayName.EncodeDisplayName(c.fileName, count))).Some?
    ensures SelectedIntended(s, Some(DisplayName.EncodeDisplayName(c.fileName, count))).value.fileName == c.fileName
    ensures (forall i, j :: 0 <= i < j < |s| ==> s[i].fileName != s[j].fileName) ==>
      SelectedIntended(s, Some(DisplayName.EncodeDisplayName(c.fileName, count))) == Some(c)
  {
    DisplayName.RoundTrip(c.fileName, count);
    var k :| 0 <= k < |s| && s[k] == c;
    assert s[k].fileName == c.fileName;
  }

  /**
   * The inner loop of `_load_projects_thread`: analyses each `.jsonl` file of one project
   * directory and keeps, in listing order, the records of those whose analysis succeeded.
   */
  method AnalyseProject(files: seq<SourceFile>) returns (conversations: seq<Conversation>)
    ensures conversations == ProjectIndex.Analysed(files)
  {
    conversations := [];
    var k := 0;
    assert files[0..] == files;
    while k < |files|
      invariant 0 <= k <= |files|
      invariant conversations + ProjectIndex.Analysed(files[k..]) == ProjectIndex.Analysed(files)
    {
      assert files[k..][1..] == files[k + 1..];
      var info := Analysis.AnalyzeConversationFile(files[k]);
      if info.Some? {
        conversations := conversations + [info.value];
      }
      k := k + 1;
    }
  }

  /**
   * The loop of `_search_conversations_thread`: scans each conversation's file and keeps those
   * with matches, each with its matches.
   */
  method SearchAll(convs: seq<Conversation>, read: string -> Option<seq<Line>>, matches: string -> bool)
    returns (results: seq<Search.Hit>)
    ensures results == Search.HitsOf(convs, read, matches)
  {
    results := [];
    var i := 0;
    assert convs[0..] == convs;
    while i < |convs|
      invariant 0 <= i <= |convs|
      invariant results + Search.HitsOf(convs[i..], read, matches) == Search.HitsOf(convs, read, matches)
    {
      var hit := Search.SearchHit(convs[i], read, matches);
      ghost var rest := Search.HitsOf(convs[i + 1..], read, matches);
      assert convs[i..][0] == convs[i] && convs[i..][1..] == convs[i + 1..];
      assert Search.HitsOf(convs[i..], read, matches) == hit + rest;
      assert results + (hit + rest) == (results + hit) + rest;
      results := results + hit;
      i := i + 1;
    }
  }

  class HistoryManager {
    var projectsData: map<string, ConversationList>
    var currentProject: Option<string>
    var currentConversations: ConversationList

    /** The state set up by `__init__`: no projects, no project chosen, an empty list. */
    constructor ()
      ensures projectsData == map[] && currentProject == None
      ensures fresh(currentConversations) && currentConversations.items == []
    {
      projectsData := map[];
      currentProject := None;
      currentConversations := new ConversationList([]);
    }

    /** The project index as values: each project name with the records of its list. */
    ghost function Index(): map<string, seq<Conversation>>
      reads this, projectsData.Values
    {
      map n | n in projectsData :: projectsData[n].items
    }

    /** `current_conversations` is the very list stored under `current_project`. */
    ghost predicate Aliased()
      reads this
    {
      currentProject.Some? && currentProject.value in projectsData &&
      projectsData[currentProject.value] == currentConversations
    }

    /** No two projects share a list. */
    ghost predicate DistinctLists()
      reads this
    {
      forall a, b :: a in projectsData && b in projectsData && a != b ==> projectsData[a] != projectsData[b]
    }

    /** The list `_delete_conversation` also cleans: the one stored under the current project. */
    ghost function ProjectList(): set<ConversationList>
      reads this
    {
      if currentProject.Some? && currentProject.value in projectsData then {projectsData[currentProject.value]} else {}
    }

    /**
     * `_load_projects_thread`: rebuilds `projects_data` from the projects directory, one fresh
     * list per project, and leaves the current project and its list as they were.
     */
    method LoadProjects(dirs: seq<ProjectIndex.DirEntry>)
      modifies this
      ensures Index() == ProjectIndex.LoadIndex(dirs)
      ensures forall n :: n in projectsData ==> fresh(projectsData[n])
      ensures DistinctLists()
      ensures currentProject == old(currentProject) && currentConversations == old(currentConversations)
    {
      projectsData := map[];
      assert dirs[0..] == dirs;
      var d := 0;
      while d < |dirs|
        invariant 0 <= d <= |dirs|
        invariant ProjectIndex.BuildIndex(Index(), dirs[d..]) == ProjectIndex.LoadIndex(dirs)
        invariant forall n :: n in projectsData ==> fresh(projectsData[n])
        invariant DistinctLists()
        invariant currentProject == old(currentProject) && currentConversations == old(currentConversations)
      {
        assert dirs[d..][1..] == dirs[d + 1..];
        LoadProjectDir(dirs[d]);
        d := d + 1;
      }
    }

    /**
     * One pass of the loop of `_load_projects_thread`: a project directory with at least one file
     * that analyses gets a fresh list of those files' records, newest first, under its name.
     */
    method LoadProjectDir(entry: ProjectIndex.DirEntry)
      modifies this
      ensures Index() == ProjectIndex.AddProject(old(Index()), entry)
      ensures forall n :: n in projectsData ==>
        (n in old(projectsData) && projectsData[n] == old(projectsData[n])) || fresh(projectsData[n])
      ensures old(DistinctLists()) ==> DistinctLists()
      ensures currentProject == old(currentProject) && currentConversations == old(currentConversations)
    {
      if entry.ProjectDir? {
        var conversations := AnalyseProject(entry.files);
        if |conversations| > 0 {
          var list := new ConversationList(ProjectIndex.SortNewestFirst(conversations));
          projectsData := projectsData[entry.name := list];
        }
      }
    }

    /**
     * `_on_project_select`: a name that is empty or not in the index changes nothing; otherwise
     * it becomes the current project and its stored list becomes the current list, shared.
     */
    method SelectProject(name: string)
      modifies this
      ensures projectsData == old(projectsData)
      ensures name != "" && name in projectsData ==> currentProject == Some(name) && Aliased()
      ensures !(name != "" && name in projectsData) ==>
        currentProject == old(currentProject) && currentConversations == old(currentConversations)
    {
      if name == "" || name !in projectsData {
        return;
      }
      currentProject := Some(name);
      currentConversations := projectsData[name];
    }

    /**
     * `_search_conversations` and its worker thread.  `keyword` is the search box text with
     * surrounding white space stripped; `compile` stands for `re.compile(keyword, re.IGNORECASE)`
     * and `read` for the files on disk.  The result holds each conversation of the current list
     * whose file has matches, with those matches, in list order.
     */
    method SearchConversations(keyword: string, compile: string -> Search.Pattern,
                               read: string -> Option<seq<Line>>)
      returns (r: Result<seq<Search.Hit>, SearchError>)
      ensures keyword == "" ==> r == Err(EmptyKeyword)
      ensures keyword != "" && (currentProject.None? || currentConversations.items == []) ==> r == Err(NoProjectSelected)
      ensures r.Ok? ==> (compile(keyword).Compiled? &&
        r.value == Search.HitsOf(currentConversations.items, read, compile(keyword).matches))
      ensures r == Err(BadPattern) <==>
        keyword != "" && currentProject.Some? && currentConversations.items != [] && compile(keyword).CompileError?
      ensures keyword != "" && currentProject.Some? && currentConversations.items != [] && compile(keyword).Compiled? ==>
        r == Ok(Search.HitsOf(currentConversations.items, read, compile(keyword).matches))
    {
      if keyword == "" {
        return Err(EmptyKeyword);
      }
      if currentProject.None? || currentConversations.items == [] {
        return Err(NoProjectSelected);
      }
      var pattern := compile(keyword);
      if pattern.CompileError? {
        return Err(BadPattern);
      }
      var results := SearchAll(currentConversations.items, read, pattern.matches);
      return Ok(results);
    }

    /**
     * `_get_selected_conversation`: the first conversation of the current list whose file name
     * is the selected display name decoded as the code does, or nothing when no row is selected
     * or no file name matches.
     */
    method GetSelectedConversation(selection: Option<string>) returns (r: Option<Conversation>)
      ensures r == Selected(currentConversations.items, selection)
      ensures r.Some? ==> r.value in currentConversations.items
    {
      if selection.None? {
        return None;
      }
      var fileName := DisplayName.DecodeAsWritten(selection.value);
      var convs := currentConversations.items;
      var i := 0;
      while i < |convs|
        invariant 0 <= i <= |convs|
        invariant forall j :: 0 <= j < i ==> convs[j].fileName != fileName
      {
        if convs[i].fileName == fileName {
          assert FirstNamed(convs, fileName) == Some(i);
          return Some(convs[i]);
        }
        i := i + 1;
      }
      return None;
    }

    /**
     * `_delete_conversation`.  `confirmed` is the answer to the confirmation dialog and
     * `fileRemoved` whether `os.remove` succeeded.  When the selected conversation's file is
     * removed, the first record with its path is popped from the current list and, if that
     * happened, from the list stored under the current project; when the two are the same list
     * and paths are unique, the second pass finds nothing and one record is removed in all.
     */
    method DeleteConversation(selection: Option<string>, confirmed: bool, fileRemoved: bool)
      returns (deleted: Option<Conversation>)
      modifies currentConversations, ProjectList()
      ensures deleted == (if confirmed && fileRemoved then Selected(old(currentConversations.items), selection) else None)
      ensures deleted.None? ==>
        currentConversations.items == old(currentConversations.items) &&
        forall l :: l in old(ProjectList()) ==> l.items == old(l.items)
      ensures deleted.Some? && old(Aliased()) && Deletion.UniquePaths(old(currentConversations.items)) ==>
        currentConversations.items == Deletion.RemoveFirst(old(currentConversations.items), deleted.value.filePath)
      ensures deleted.Some? && !old(Aliased()) ==>
        currentConversations.items == Deletion.RemoveFirst(old(currentConversations.items), deleted.value.filePath) &&
        forall l :: l in old(ProjectList()) ==> l.items == Deletion.RemoveFirst(old(l.items), deleted.value.filePath)
    {
      var conv := GetSelectedConversation(selection);
      if conv.None? || !confirmed || !fileRemoved {
        return None;
      }
      deleted := conv;
      var path := conv.value.filePath;
      ghost var s0 := currentConversations.items;
      assert Deletion.HasPath(s0, path) by {
        var k :| 0 <= k < |s0| && s0[k] == conv.value;
        assert s0[k].filePath == path;
      }
      var removed := currentConversations.RemoveFirstWithPath(path);
      if removed && currentProject.Some? && currentProject.value in projectsData {
        var list := projectsData[currentProject.value];
        var _ := list.RemoveFirstWithPath(path);
        if list == currentConversations && Deletion.UniquePaths(s0) {
          Deletion.SecondPassFindsNothing(s0, path);
        }
      }
    }
  }
}
