/**
 * Removal of a deleted conversation from the in-memory lists.  `_delete_conversation` walks a
 * copy of the list and pops the first record whose `file_path` is that of the deleted file;
 * `RemoveFirst` is the list that walk leaves behind.
 */
module Deletion {
  import opened Records

  predicate HasPath(s: seq<Conversation>, path: string) {
    exists i :: 0 <= i < |s| && s[i].filePath == path
  }

  /** No two records share a file path, as holds for the files of one directory. */
  predicate UniquePaths(s: seq<Conversation>) {
    forall i, j :: 0 <= i < j < |s| ==> s[i].filePath != s[j].filePath
  }

  /** The list without its first record whose file path is `path`. */
  function RemoveFirst(s: seq<Conversation>, path: string): seq<Conversation> {
    if s == [] then []
    else if s[0].filePath == path then s[1..]
    else [s[0]] + RemoveFirst(s[1..], path)
  }

  /** The record removed is the first one with the path; the others keep their order. */
  lemma {:induction false} RemoveFirstAt(s: seq<Conversation>, path: string, i: nat)
    requires i < |s| && s[i].filePath == path
    requires forall j :: 0 <= j < i ==> s[j].filePath != path
    ensures RemoveFirst(s, path) == s[..i] + s[i + 1..]
  {
    if i > 0 {
      RemoveFirstAt(s[1..], path, i - 1);
      assert s[1..][..i - 1] == s[1..i];
      assert s[..i] == [s[0]] + s[1..i];
    }
  }

  /** A list without the path is left as it is. */
  lemma {:induction false} RemoveFirstAbsent(s: seq<Conversation>, path: string)
    requires !HasPath(s, path)
    ensures RemoveFirst(s, path) == s
  {
    if s != [] {
      assert s[0].filePath != path;
      assert forall i :: 0 <= i < |s[1..]| ==> s[1..][i] == s[i + 1];
      RemoveFirstAbsent(s[1..], path);
      assert s == [s[0]] + s[1..];
    }
  }

  /**
   * With unique paths, removal takes out exactly the one record with the path, keeps the others
   * in order, and leaves no record with that path behind.
   */
  lemma RemoveFirstUnique(s: seq<Conversation>, path: string, i: nat)
    requires UniquePaths(s)
    requires i < |s| && s[i].filePath == path
    ensures RemoveFirst(s, path) == s[..i] + s[i + 1..]
    ensures !HasPath(RemoveFirst(s, path), path)
    ensures UniquePaths(RemoveFirst(s, path))
  {
    RemoveFirstAt(s, path, i);
    var r := RemoveFirst(s, path);
    assert forall k :: 0 <= k < |r| ==> r[k] == (if k < i then s[k] else s[k + 1]);
  }

  /** With unique paths, a second removal of the same path changes nothing. */
  lemma SecondPassFindsNothing(s: seq<Conversation>, path: string)
    requires UniquePaths(s)
    ensures RemoveFirst(RemoveFirst(s, path), path) == RemoveFirst(s, path)
  {
    if HasPath(s, path) {
      var i :| 0 <= i < |s| && s[i].filePath == path;
      RemoveFirstUnique(s, path, i);
      RemoveFirstAbsent(RemoveFirst(s, path), path);
    } else {
      RemoveFirstAbsent(s, path);
    }
  }
}
