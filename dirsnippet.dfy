/**
 * `getDirectorySnippet`: the short listing of the working directory that is
 * given to the model as context for a `/` request.
 */
module DirSnippet {
  import opened Wrappers
  import opened GoStrings

  /** One entry as `os.ReadDir` returns it. */
  datatype DirEntry = DirEntry(name: string, isDir: bool)

  const IgnoreList: set<string> := {".git", "vendor", "node_modules", "terminal-ia"}
  const Limit: nat := 10
  const Separator: string := ", "

  /**
   * Whether an entry is left out: a dot-name other than `.` and `..` is left
   * out unless it is in the ignore list, any other name exactly when it is.
   */
  predicate Skipped(name: string) {
    if HasPrefix(name, ".") && name != "." && name != ".." then name !in IgnoreList
    else name in IgnoreList
  }

  /** What the skip rule amounts to: hidden names except `.git`, and the three listed names. */
  lemma SkippedNames(name: string)
    ensures Skipped(name) <==>
      (name != ".git" && name != "." && name != ".." && |name| > 0 && name[0] == '.')
      || name == "vendor" || name == "node_modules" || name == "terminal-ia"
  {
    if |name| > 0 && name[0] == '.' {
      assert HasPrefix(name, ".");
      assert name != "vendor" && name != "node_modules" && name != "terminal-ia" by {
        assert "vendor"[0] != '.' && "node_modules"[0] != '.' && "terminal-ia"[0] != '.';
      }
    }
  }

  /** A directory is shown with a trailing `/`. */
  function Label(e: DirEntry): (r: string)
    ensures r == e.name || (e.isDir && r == e.name + "/")
    ensures HasSuffix(r, "/") || !e.isDir
  {
    if e.isDir then e.name + "/" else e.name
  }

  /** The labels of the entries that are not skipped, in directory order. */
  function Kept(entries: seq<DirEntry>): seq<string>
    decreases |entries|
  {
    if |entries| == 0 then []
    else
      var rest := Kept(entries[..|entries| - 1]);
      var e := entries[|entries| - 1];
      if Skipped(e.name) then rest else rest + [Label(e)]
  }

  /** Every kept label belongs to an entry that is not skipped, and no entry that is not skipped is lost. */
  lemma {:induction false} KeptEntries(entries: seq<DirEntry>)
    ensures |Kept(entries)| <= |entries|
    ensures forall l :: l in Kept(entries) ==>
      exists i :: 0 <= i < |entries| && !Skipped(entries[i].name) && l == Label(entries[i])
    ensures forall i :: 0 <= i < |entries| && !Skipped(entries[i].name) ==> Label(entries[i]) in Kept(entries)
    decreases |entries|
  {
    if |entries| > 0 {
      var n := |entries| - 1;
      var init := entries[..n];
      var last := entries[n];
      KeptEntries(init);
      var k := Kept(entries);
      assert forall i :: 0 <= i < n ==> init[i] == entries[i];
      assert k == if Skipped(last.name) then Kept(init) else Kept(init) + [Label(last)];
      forall l | l in k
        ensures exists i :: 0 <= i < |entries| && !Skipped(entries[i].name) && l == Label(entries[i])
      {
        if l in Kept(init) {
          var i :| 0 <= i < n && !Skipped(init[i].name) && l == Label(init[i]);
          assert entries[i] == init[i];
        } else {
          assert l == Label(last) && !Skipped(last.name);
        }
      }
      forall i | 0 <= i < |entries| && !Skipped(entries[i].name)
        ensures Label(entries[i]) in k
      {
        if i < n {
          assert entries[i] == init[i];
          assert Label(init[i]) in Kept(init);
        }
      }
    }
  }

  /** At most the first ten kept labels are listed. */
  function Listed(entries: seq<DirEntry>): (r: seq<string>)
    ensures |r| <= Limit
  {
    var k := Kept(entries);
    if |k| <= Limit then k else k[..Limit]
  }

  /** The outcome of `os.ReadDir`: None when it fails. */
  function SnippetOf(dir: Option<seq<DirEntry>>): string {
    match dir
    case None => ""
    case Some(entries) => Join(Listed(entries), Separator)
  }

  /** The builder's contents: each label followed by the separator. */
  function Terminated(items: seq<string>): string
    decreases |items|
  {
    if |items| == 0 then "" else items[0] + Separator + Terminated(items[1..])
  }

  lemma {:induction false} TerminatedSnoc(items: seq<string>, x: string)
    ensures Terminated(items + [x]) == Terminated(items) + x + Separator
    decreases |items|
  {
    if |items| == 0 {
      assert [] + [x] == [x];
      assert [x][1..] == [];
    } else {
      TerminatedSnoc(items[1..], x);
      assert (items + [x])[1..] == items[1..] + [x];
    }
  }

  /** Removing the builder's last separator gives the joined list. */
  lemma {:induction false} TerminatedIsJoin(items: seq<string>)
    requires |items| > 0
    ensures Terminated(items) == Join(items, Separator) + Separator
    decreases |items|
  {
    if |items| > 1 {
      TerminatedIsJoin(items[1..]);
    }
  }

  /** `strings.TrimSuffix` takes off exactly the separator that was added last. */
  lemma TrimLastSeparator(j: string)
    ensures TrimSuffix(j + Separator, Separator) == j
  {
    var s := j + Separator;
    assert s[|s| - |Separator|..] == Separator;
    assert s[..|s| - |Separator|] == j;
  }

  /** The listing never has a trailing separator left by the builder, and names keep their order. */
  lemma SnippetShape(entries: seq<DirEntry>)
    ensures |Listed(entries)| <= Limit
    ensures Listed(entries) == Kept(entries)[..|Listed(entries)|]
    ensures |Kept(entries)| >= Limit ==> |Listed(entries)| == Limit
  {
  }

  /**
   * `getDirectorySnippet` over the directory's entries (None: `os.ReadDir`
   * failed): the loop appends label and separator for up to ten entries that
   * are not skipped, then the last separator is trimmed.
   */
  method Snippet(dir: Option<seq<DirEntry>>) returns (snippet: string)
    ensures snippet == SnippetOf(dir)
  {
    if dir.None? {
      return "";
    }
    var files := dir.value;
    var builder := "";
    var fileCount := 0;
    ghost var written: seq<string> := [];
    var i := 0;
    while i < |files|
      invariant 0 <= i <= |files|
      invariant written == Listed(files[..i]) && fileCount == |written|
      invariant builder == Terminated(written)
      invariant fileCount < Limit ==> written == Kept(files[..i])
    {
      var file := files[i];
      assert files[..i + 1][..i] == files[..i] && files[..i + 1][i] == file;
      if Skipped(file.name) {
        i := i + 1;
        continue;
      }
      if fileCount >= Limit {
        ListedSaturated(files, i);
        break;
      }
      TerminatedSnoc(written, Label(file));
      builder := builder + Label(file) + Separator;
      written := written + [Label(file)];
      fileCount := fileCount + 1;
      i := i + 1;
    }
    if i == |files| {
      assert files[..i] == files;
    }
    if |builder| > 0 {
      TerminatedIsJoin(written);
      TrimLastSeparator(Join(written, Separator));
      snippet := TrimSuffix(builder, Separator);
    } else {
      assert written == [] by {
        if written != [] {
          TerminatedIsJoin(written);
        }
      }
      snippet := "";
    }
  }

  /** Once ten labels are listed, later entries no longer change the listing. */
  lemma {:induction false} ListedSaturated(files: seq<DirEntry>, i: int)
    requires 0 <= i <= |files|
    requires |Kept(files[..i])| >= Limit
    ensures Listed(files) == Listed(files[..i])
    decreases |files| - i
  {
    if i < |files| {
      KeptPrefix(files[..i + 1], i);
      assert files[..i + 1][..i] == files[..i];
      ListedSaturated(files, i + 1);
    } else {
      assert files[..i] == files;
    }
  }

  /** Extending the entries only extends the kept labels. */
  lemma {:induction false} KeptPrefix(entries: seq<DirEntry>, i: int)
    requires 0 <= i <= |entries|
    ensures |Kept(entries[..i])| <= |Kept(entries)|
    ensures Kept(entries)[..|Kept(entries[..i])|] == Kept(entries[..i])
    decreases |entries| - i
  {
    if i < |entries| {
      var j := entries[..i + 1];
      assert j[..|j| - 1] == entries[..i];
      KeptPrefix(entries, i + 1);
    } else {
      assert entries[..i] == entries;
    }
  }
}
