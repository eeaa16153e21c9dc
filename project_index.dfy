/**
 * Project index assembly: `_load_projects_thread` walks the projects directory, analyses every
 * `.jsonl` file of every project directory, keeps the files whose analysis succeeded, sorts
 * them newest first and files them under the project's name; a project without any such file
 * gets no entry.
 *
 * This module gives the meaning of that loop (`LoadIndex`) and proves what the index holds.
 * The loop itself, which fills the manager's `projects_data`, is `Manager.HistoryManager.LoadProjects`.
 */
module ProjectIndex {
  import opened Wrappers
  import opened Records
  import Analysis

  /** An entry of the projects directory: a project directory with its `.jsonl` files, or anything else. */
  datatype DirEntry = NotADirectory | ProjectDir(name: string, files: seq<SourceFile>)

  /** `modified_time` never increases along the list. */
  predicate NewestFirst(s: seq<Conversation>) {
    forall i, j :: 0 <= i < j < |s| ==> s[i].modifiedTime >= s[j].modifiedTime
  }

  /** Inserts `c` before the first element that is not newer than it. */
  function Insert(c: Conversation, s: seq<Conversation>): (r: seq<Conversation>)
    ensures |r| == |s| + 1
    ensures multiset(r) == multiset(s) + multiset{c}
  {
    if s == [] || c.modifiedTime >= s[0].modifiedTime then
      [c] + s
    else
      assert s == [s[0]] + s[1..];
      [s[0]] + Insert(c, s[1..])
  }

  /** Insertion keeps a newest-first list newest first. */
  lemma {:induction false} InsertNewestFirst(c: Conversation, s: seq<Conversation>)
    requires NewestFirst(s)
    ensures NewestFirst(Insert(c, s))
    ensures s != [] ==> Insert(c, s)[0] == c || Insert(c, s)[0] == s[0]
  {
    if s != [] && c.modifiedTime < s[0].modifiedTime {
      var t := Insert(c, s[1..]);
      InsertNewestFirst(c, s[1..]);
      assert s[0].modifiedTime >= t[0].modifiedTime;
      var r := [s[0]] + t;
      forall i, j | 0 <= i < j < |r|
        ensures r[i].modifiedTime >= r[j].modifiedTime
      {
        if i == 0 && j > 1 {
          assert t[0].modifiedTime >= t[j - 1].modifiedTime;
        }
      }
    }
  }

  /**
   * `conversations.sort(key=lambda x: x['modified_time'], reverse=True)`: a stable sort that
   * puts the newest file first and keeps the listing order among files of the same time.
   */
  function SortNewestFirst(s: seq<Conversation>): (r: seq<Conversation>)
    ensures NewestFirst(r)
    ensures multiset(r) == multiset(s)
    ensures |r| == |s|
  {
    if s == [] then []
    else
      assert s == [s[0]] + s[1..];
      var t := SortNewestFirst(s[1..]);
      InsertNewestFirst(s[0], t);
      Insert(s[0], t)
  }

  /** The records of `s` whose `modified_time` is `t`, in their order in `s`. */
  function SameTime(s: seq<Conversation>, t: int): seq<Conversation> {
    if s == [] then []
    else (if s[0].modifiedTime == t then [s[0]] else []) + SameTime(s[1..], t)
  }

  /** Insertion puts `c` ahead of the records of its own time and moves no other record past another. */
  lemma {:induction false} InsertStable(c: Conversation, s: seq<Conversation>, t: int)
    ensures SameTime(Insert(c, s), t) == (if c.modifiedTime == t then [c] else []) + SameTime(s, t)
  {
    if s == [] || c.modifiedTime >= s[0].modifiedTime {
      assert ([c] + s)[1..] == s;
    } else {
      InsertStable(c, s[1..], t);
      assert ([s[0]] + Insert(c, s[1..]))[1..] == Insert(c, s[1..]);
    }
  }

  /** The sort is stable: records of the same time keep the order they had in the listing. */
  lemma {:induction false} SortStable(s: seq<Conversation>, t: int)
    ensures SameTime(SortNewestFirst(s), t) == SameTime(s, t)
  {
    if s != [] {
      SortStable(s[1..], t);
      InsertStable(s[0], SortNewestFirst(s[1..]), t);
    }
  }

  /** The conversations of the files whose analysis succeeded, in listing order. */
  function Analysed(files: seq<SourceFile>): seq<Conversation> {
    if files == [] then []
    else match Analysis.AnalyzeFile(files[0])
      case None => Analysed(files[1..])
      case Some(c) => [c] + Analysed(files[1..])
  }

  /** Every kept conversation is the analysis of one of the files, and every successful analysis is kept. */
  lemma {:induction false} AnalysedSpec(files: seq<SourceFile>)
    ensures forall c :: c in Analysed(files) <==> exists i :: 0 <= i < |files| && Analysis.AnalyzeFile(files[i]) == Some(c)
    ensures |Analysed(files)| <= |files|
  {
    if files != [] {
      AnalysedSpec(files[1..]);
      assert forall i :: 1 <= i < |files| ==> files[i] == files[1..][i - 1];
      forall c | c in Analysed(files)
        ensures exists i :: 0 <= i < |files| && Analysis.AnalyzeFile(files[i]) == Some(c)
      {
        if Analysis.AnalyzeFile(files[0]) != Some(c) {
          var i :| 0 <= i < |files[1..]| && Analysis.AnalyzeFile(files[1..][i]) == Some(c);
          assert Analysis.AnalyzeFile(files[i + 1]) == Some(c);
        }
      }
    }
  }

  /** One pass of the loop over the projects directory. */
  function AddProject(index: map<string, seq<Conversation>>, d: DirEntry): map<string, seq<Conversation>> {
    if d.ProjectDir? && |Analysed(d.files)| > 0 then
      index[d.name := SortNewestFirst(Analysed(d.files))]
    else
      index
  }

  function BuildIndex(index: map<string, seq<Conversation>>, dirs: seq<DirEntry>): map<string, seq<Conversation>>
    decreases |dirs|
  {
    if dirs == [] then index else BuildIndex(AddProject(index, dirs[0]), dirs[1..])
  }

  /** The `projects_data` that `_load_projects_thread` builds, starting from an empty dictionary. */
  function LoadIndex(dirs: seq<DirEntry>): map<string, seq<Conversation>> {
    BuildIndex(map[], dirs)
  }

  predicate Contributes(d: DirEntry, name: string) {
    d.ProjectDir? && d.name == name && |Analysed(d.files)| > 0
  }

  lemma {:induction false} BuildIndexKeys(index: map<string, seq<Conversation>>, dirs: seq<DirEntry>, name: string)
    ensures name in BuildIndex(index, dirs) <==> name in index || exists k :: 0 <= k < |dirs| && Contributes(dirs[k], name)
    decreases |dirs|
  {
    if dirs != [] {
      BuildIndexKeys(AddProject(index, dirs[0]), dirs[1..], name);
      assert forall k :: 1 <= k < |dirs| ==> dirs[k] == dirs[1..][k - 1];
      if exists k :: 0 <= k < |dirs| && Contributes(dirs[k], name) {
        var k :| 0 <= k < |dirs| && Contributes(dirs[k], name);
        if k > 0 {
          assert Contributes(dirs[1..][k - 1], name);
        }
      }
    }
  }

  /** A name no directory contributes keeps the entry it had. */
  lemma {:induction false} BuildIndexUntouched(index: map<string, seq<Conversation>>, dirs: seq<DirEntry>, name: string)
    requires forall k :: 0 <= k < |dirs| ==> !(dirs[k].ProjectDir? && dirs[k].name == name)
    requires name in index
    ensures name in BuildIndex(index, dirs) && BuildIndex(index, dirs)[name] == index[name]
    decreases |dirs|
  {
    if dirs != [] {
      BuildIndexUntouched(AddProject(index, dirs[0]), dirs[1..], name);
    }
  }

  lemma {:induction false} BuildIndexEntry(index: map<string, seq<Conversation>>, dirs: seq<DirEntry>, k: nat)
    requires k < |dirs| && dirs[k].ProjectDir? && |Analysed(dirs[k].files)| > 0
    requires forall j :: k < j < |dirs| ==> !(dirs[j].ProjectDir? && dirs[j].name == dirs[k].name)
    ensures dirs[k].name in BuildIndex(index, dirs)
    ensures BuildIndex(index, dirs)[dirs[k].name] == SortNewestFirst(Analysed(dirs[k].files))
    decreases |dirs|
  {
    if k == 0 {
      BuildIndexUntouched(AddProject(index, dirs[0]), dirs[1..], dirs[0].name);
    } else {
      BuildIndexEntry(AddProject(index, dirs[0]), dirs[1..], k - 1);
    }
  }

  /** The index has an entry for a name exactly when some project directory of that name has a file that analyses. */
  lemma LoadIndexKeys(dirs: seq<DirEntry>, name: string)
    ensures name in LoadIndex(dirs) <==> exists k :: 0 <= k < |dirs| && Contributes(dirs[k], name)
  {
    BuildIndexKeys(map[], dirs, name);
  }

  /**
   * The entry of a project (the last directory listed under its name) is its successfully
   * analysed files, newest first: a permutation of them, ordered by modification time.
   */
  lemma LoadIndexEntry(dirs: seq<DirEntry>, k: nat)
    requires k < |dirs| && dirs[k].ProjectDir? && |Analysed(dirs[k].files)| > 0
    requires forall j :: k < j < |dirs| ==> !(dirs[j].ProjectDir? && dirs[j].name == dirs[k].name)
    ensures dirs[k].name in LoadIndex(dirs)
    ensures NewestFirst(LoadIndex(dirs)[dirs[k].name])
    ensures multiset(LoadIndex(dirs)[dirs[k].name]) == multiset(Analysed(dirs[k].files))
  {
    BuildIndexEntry(map[], dirs, k);
  }

  /** Directory names are unique, as a directory listing guarantees. */
  predicate UniqueNames(dirs: seq<DirEntry>) {
    forall i, j :: 0 <= i < j < |dirs| && dirs[i].ProjectDir? && dirs[j].ProjectDir? ==> dirs[i].name != dirs[j].name
  }

  /** With unique names, a project none of whose files analyses has no entry. */
  lemma LoadIndexOmitsEmpty(dirs: seq<DirEntry>, k: nat)
    requires UniqueNames(dirs)
    requires k < |dirs| && dirs[k].ProjectDir? && |Analysed(dirs[k].files)| == 0
    ensures dirs[k].name !in LoadIndex(dirs)
  {
    LoadIndexKeys(dirs, dirs[k].name);
  }
}
