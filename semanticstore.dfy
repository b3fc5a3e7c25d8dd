/**
 * The semantic command history: the in-memory list of (command, embedding)
 * entries and the file it is persisted to (`loadSemanticHistory`,
 * `saveSemanticHistory`, `addCommandToSemanticHistory`, and option 4 of the
 * configuration menu, which clears it).
 */
module SemanticStore {
  import opened Wrappers
  import opened GoStrings

  datatype Entry = Entry(command: string, embedding: seq<real>)

  /**
   * The history file as the loader meets it. `Parsed(es)` is a file whose JSON
   * decodes to the list `es` (the literal `[]` decodes to the empty list).
   */
  datatype FileState =
    | Absent
    | ReadError
    | Unparsable(bytes: seq<byte>)
    | Parsed(entries: seq<Entry>)

  /** What `loadSemanticHistory` leaves in memory: every failure starts fresh. */
  function Loaded(f: FileState): (h: seq<Entry>)
    ensures f.Absent? || f.ReadError? || f.Unparsable? ==> h == []
    ensures f.Parsed? ==> h == f.entries
  {
    match f
    case Parsed(es) => es
    case _ => []
  }

  /** The filter of `addCommandToSemanticHistory`: empty text, directives and `cd` are never kept. */
  predicate Recordable(command: string) {
    command != "" && !HasPrefix(command, "/") && !HasPrefix(command, "cd ")
  }

  predicate Stored(h: seq<Entry>, command: string) {
    exists i :: 0 <= i < |h| && h[i].command == command
  }

  predicate NoDuplicates(h: seq<Entry>) {
    forall i, j :: 0 <= i < j < |h| ==> h[i].command != h[j].command
  }

  /**
   * The history after one recording of `command`, when the embedding service
   * answered `embedding` (None: it failed).
   */
  function Recorded(h: seq<Entry>, command: string, embedding: Option<seq<real>>): (r: seq<Entry>)
    ensures r == h || (embedding.Some? && r == h + [Entry(command, embedding.value)])
    ensures r != h <==> Recordable(command) && !Stored(h, command) && embedding.Some?
  {
    if !Recordable(command) || Stored(h, command) || embedding.None? then h
    else h + [Entry(command, embedding.value)]
  }

  /** Recording never creates a second entry with the same command text. */
  lemma RecordKeepsUnique(h: seq<Entry>, command: string, embedding: Option<seq<real>>)
    requires NoDuplicates(h)
    ensures NoDuplicates(Recorded(h, command, embedding))
  {
    var r := Recorded(h, command, embedding);
    if r != h {
      forall i, j | 0 <= i < j < |r| ensures r[i].command != r[j].command {
        if j == |h| {
          assert r[i] == h[i];
          assert !Stored(h, command);
        } else {
          assert r[i] == h[i] && r[j] == h[j];
        }
      }
    }
  }

  /** Number of entries whose command is `command`. */
  function Occurrences(h: seq<Entry>, command: string): nat {
    if |h| == 0 then 0
    else Occurrences(h[..|h| - 1], command) + (if h[|h| - 1].command == command then 1 else 0)
  }

  lemma {:induction false} OccurrencesOfUnique(h: seq<Entry>, command: string)
    requires NoDuplicates(h)
    ensures Occurrences(h, command) == (if Stored(h, command) then 1 else 0)
  {
    if |h| > 0 {
      var p := h[..|h| - 1];
      assert NoDuplicates(p);
      OccurrencesOfUnique(p, command);
      if h[|h| - 1].command == command {
        assert !Stored(p, command);
      }
      if Stored(h, command) && !Stored(p, command) {
        var i :| 0 <= i < |h| && h[i].command == command;
        assert i == |h| - 1;
      }
      if Stored(p, command) {
        var i :| 0 <= i < |p| && p[i].command == command;
        assert h[i] == p[i];
      }
    }
  }

  /**
   * Recording a command twice leaves exactly one entry for it: once the first
   * recording succeeded, the second changes nothing.
   */
  lemma RecordTwice(h: seq<Entry>, command: string, first: seq<real>, second: Option<seq<real>>)
    requires NoDuplicates(h) && Recordable(command)
    ensures var once := Recorded(h, command, Some(first));
      Recorded(once, command, second) == once && Occurrences(once, command) == 1
  {
    var once := Recorded(h, command, Some(first));
    if !Stored(h, command) {
      assert once[|h|].command == command;
    } else {
      var i :| 0 <= i < |h| && h[i].command == command;
    }
    assert Stored(once, command);
    RecordKeepsUnique(h, command, Some(first));
    OccurrencesOfUnique(once, command);
  }

  /** The semantic history and its file. */
  class HistoryStore {
    var entries: seq<Entry>
    var file: FileState

    /** A process starts with nothing in memory and the file as it is on disk. */
    constructor (onDisk: FileState)
      ensures entries == [] && file == onDisk
    {
      entries := [];
      file := onDisk;
    }

    /** `loadSemanticHistory`. */
    method Load()
      modifies this
      ensures entries == Loaded(file) && file == old(file)
    {
      match file
      case Absent =>
        entries := [];
      case ReadError =>
        entries := [];
      case Unparsable(_) =>
        entries := [];
      case Parsed(es) =>
        entries := es;
    }

    /** `saveSemanticHistory`: the whole list is written, so loading it back gives it again. */
    method Save()
      modifies this`file
      ensures file == Parsed(entries) && Loaded(file) == entries
    {
      file := Parsed(entries);
    }

    /** `addCommandToSemanticHistory`, run to completion without interleaving. */
    method Record(command: string, embedding: Option<seq<real>>)
      modifies this
      ensures entries == Recorded(old(entries), command, embedding)
      ensures file == if entries == old(entries) then old(file) else Parsed(entries)
      ensures NoDuplicates(old(entries)) ==> NoDuplicates(entries)
    {
      if NoDuplicates(entries) {
        RecordKeepsUnique(entries, command, embedding);
      }
      if command == "" || HasPrefix(command, "/") || HasPrefix(command, "cd ") {
        return;
      }
      var i := 0;
      while i < |entries|
        invariant 0 <= i <= |entries|
        invariant forall k :: 0 <= k < i ==> entries[k].command != command
      {
        if entries[i].command == command {
          return;
        }
        i := i + 1;
      }
      match embedding {
        case None =>
          return;
        case Some(e) =>
          entries := entries + [Entry(command, e)];
      }
      Save();
    }

    /** Option 4 of the configuration menu: empty list in memory and `[]` on disk. */
    method Clear()
      modifies this
      ensures entries == [] && file == Parsed([]) && Loaded(file) == []
    {
      entries := [];
      file := Parsed([]);
    }
  }
}
