/**
 * The read-eval loop of `main`: how a trimmed input line is classified, what
 * each kind of line does to the session (execution mode, model, chat
 * transcript, semantic history) and which command it hands to bash.
 */
module Agent {
  import opened Wrappers
  import opened GoStrings
  import opened CommandText
  import opened SemanticStore
  import opened RankedSearch
  import opened Decisions
  import opened Transcript

  // ----- classifying an input line -----

  /** What the main loop does with a line, in the order its branches test. */
  datatype Action =
    | Blank
    | Quit
    | ChangeDir(dir: string)
    | PickModel
    | Ask
    | ResetChat
    | Configure
    | Help
    | Weather(place: string)
    | Translate(request: string)
    | ChatTurn(prompt: string)
    | Search(query: string)
    | Generate(request: string)
    | EmptyRequest(command: string)
    | Shell(command: string)

  /** The argument after a command prefix, trimmed. */
  function Argument(t: string, prefix: string): string {
    TrimSpace(TrimPrefix(t, prefix))
  }

  function Classify(line: string): Action {
    var t := TrimSpace(line);
    if t == "" then Blank
    else if t == "exit" || t == "quit" then Quit
    else if HasPrefix(t, "cd ") then ChangeDir(Argument(t, "cd "))
    else if t == "/model" then PickModel
    else if t == "/ask" then Ask
    else if t == "/reset" then ResetChat
    else if t == "/config" then Configure
    else if t == "/help" then Help
    else if HasPrefix(t, "/tiempo ") then
      (if Argument(t, "/tiempo ") == "" then EmptyRequest("/tiempo") else Weather(Argument(t, "/tiempo ")))
    else if HasPrefix(t, "/traducir ") then
      (if Argument(t, "/traducir ") == "" then EmptyRequest("/traducir") else Translate(Argument(t, "/traducir ")))
    else if HasPrefix(t, "/chat ") then
      (if Argument(t, "/chat ") == "" then EmptyRequest("/chat") else ChatTurn(Argument(t, "/chat ")))
    else if HasPrefix(t, "/buscar ") then
      (if Argument(t, "/buscar ") == "" then EmptyRequest("/buscar") else Search(Argument(t, "/buscar ")))
    else if HasPrefix(t, "/") then
      (if Argument(t, "/") == "" then EmptyRequest("/") else Generate(Argument(t, "/")))
    else Shell(t)
  }

  /** After a prefix, a trimmed line with more text leaves a non-empty argument. */
  lemma ArgumentNonEmpty(t: string, prefix: string)
    requires Trimmed(t) && HasPrefix(t, prefix) && |t| > |prefix|
    ensures Argument(t, prefix) != ""
  {
    var rest := t[|prefix|..];
    assert rest[|rest| - 1] == t[|t| - 1];
    TrimSpaceKeepsLast(rest);
  }

  /**
   * The line is trimmed before the branches run, so an argument is never
   * empty after `cd `, `/tiempo `, `/traducir `, `/chat ` or `/buscar `: the
   * only line reported as an empty request is a lone `/`.
   */
  lemma EmptyRequestOnlySlash(line: string)
    ensures Classify(line).EmptyRequest? <==> TrimSpace(line) == "/"
    ensures Classify(line).ChangeDir? ==> Classify(line).dir != ""
  {
    var t := TrimSpace(line);
    if t != "" {
      assert !IsSpace(t[|t| - 1]);
      var prefixes := ["cd ", "/tiempo ", "/traducir ", "/chat ", "/buscar "];
      forall p | p in prefixes && HasPrefix(t, p)
        ensures Argument(t, p) != ""
      {
        assert p[|p| - 1] == ' ';
        assert |t| > |p|;
        ArgumentNonEmpty(t, p);
      }
      if HasPrefix(t, "/") && |t| > 1 {
        ArgumentNonEmpty(t, "/");
      }
      if t == "/" {
        assert TrimPrefix(t, "/") == "";
        assert !HasPrefix(t, "cd ") && !HasPrefix(t, "/tiempo ") && !HasPrefix(t, "/buscar ");
      }
    }
  }

  /** What reaches the last branch: the trimmed line, neither `/…` nor `cd …`. */
  lemma ShellBranch(line: string)
    requires Classify(line).Shell?
    ensures var s := Classify(line).command;
      s == TrimSpace(line) && s != "" && !HasPrefix(s, "/") && !HasPrefix(s, "cd ")
  {
  }

  lemma ColorCommandHead(w: string)
    requires w in ColorCommands
    ensures |w| >= 2 && w[0] != '/' && !(w[0] == 'c' && w[1] == 'd')
  {
  }

  /** The colour rewrite keeps a command that the history accepts acceptable. */
  lemma RewriteRecordable(s: string)
    requires Trimmed(s) && Recordable(s)
    ensures Recordable(ColorRewrite(s))
  {
    if ShouldColorOutput(s) {
      TrimSpaceOfTrimmed(s);
      ShouldColorByFirstWord(s);
      var w := FirstWord(s);
      ColorCommandHead(w);
      var r := ColorRewrite(s);
      assert r == w + ColorFlag + s[|w|..];
      assert r[0] == w[0] && r[1] == w[1];
      assert !HasPrefix(r, "cd ") by {
        assert |r| >= 3 ==> r[..3][0] == w[0] && r[..3][1] == w[1];
      }
    }
  }

  /**
   * Plain shell input is trimmed, and after the colour rewrite it is still a
   * command the history accepts: never empty, never `/…` and never `cd …`.
   */
  lemma ShellInputRecordable(line: string)
    requires Classify(line).Shell?
    ensures Trimmed(Classify(line).command)
    ensures Recordable(ColorRewrite(Classify(line).command))
  {
    ShellBranch(line);
    RewriteRecordable(Classify(line).command);
  }

  /**
   * A bare `cd` (however padded) does not reach the change-directory branch,
   * whose empty-argument case is therefore dead: it goes to bash as a plain
   * command, changes nothing in this process, and on success is recorded.
   */
  lemma BareCdGoesToShell(line: string)
    requires TrimSpace(line) == "cd"
    ensures Classify(line) == Shell("cd")
    ensures ColorRewrite("cd") == "cd" && Recordable("cd")
  {
    TrimSpaceOfTrimmed("cd");
    ShouldColorByFirstWord("cd");
    assert Index("cd", ' ') == -1;
    assert FirstWord("cd") == "cd";
    assert !HasPrefix("cd", "/");
  }

  // ----- searching the history -----

  datatype SearchOutcome = NoHistory | EmbeddingFailed | NoMatches | Declined | Ran(command: string, setAuto: bool)

  /** `handleSearchCommand` over the history, the query's embedding (None: it failed) and the replies. */
  function SearchResult(entries: seq<Entry>, queryEmbedding: Option<seq<real>>,
                        similarity: (seq<real>, seq<real>) -> real, replies: seq<Reply>): SearchOutcome
  {
    if |entries| == 0 then NoHistory
    else match queryEmbedding
      case None => EmbeddingFailed
      case Some(q) =>
        var valid := Project(Chosen(Scored(entries, q, similarity)));
        if |valid| == 0 then NoMatches
        else
          SelectFromInRange(replies, |valid|);
          match SelectFrom(replies, |valid|)
          case Dismissed => Declined
          case Picked(k, auto) => Ran(valid[k - 1].command, auto)
  }

  /**
   * A search only ever runs a stored command that scores above the threshold
   * and is among the three best; asking for "always" runs the best of them.
   */
  lemma SearchRunsStoredMatch(entries: seq<Entry>, queryEmbedding: Option<seq<real>>,
                              similarity: (seq<real>, seq<real>) -> real, replies: seq<Reply>)
    requires SearchResult(entries, queryEmbedding, similarity, replies).Ran?
    ensures queryEmbedding.Some?
    ensures var o := SearchResult(entries, queryEmbedding, similarity, replies);
      var c := Chosen(Scored(entries, queryEmbedding.value, similarity));
      (exists i :: 0 <= i < |c| && c[i].command == o.command)
      && (o.setAuto ==> o.command == c[0].command)
      && exists k :: 0 <= k < |entries| && entries[k].command == o.command
                     && similarity(queryEmbedding.value, entries[k].embedding) > Threshold
  {
    var q := queryEmbedding.value;
    var scored := Scored(entries, q, similarity);
    var c := Chosen(scored);
    var valid := Project(c);
    ChosenShape(scored);
    SelectFromInRange(replies, |valid|);
    var sel := SelectFrom(replies, |valid|);
    var i := sel.index - 1;
    assert valid[i].command == c[i].command;
    var k := c[i].pos;
    assert Holds(c[i], scored, |scored|);
    assert entries[k].command == c[i].command;
    assert similarity(q, entries[k].embedding) == scored[k].score;
  }

  // ----- one line of the main loop -----

  /**
   * Everything the loop takes from outside for one line: the model chooser's
   * answer (None: `chooseModel` ends the process through `log.Fatal`, on a
   * cancelled or failed prompt or when the models cannot be listed), the chat
   * stream's outcome, the menu's replies, the generated text
   * (None: the call failed), the confirmation, the search inputs, whether bash
   * succeeded and the embedding of the command to record.
   */
  datatype Environment = Environment(
    chosenModel: Option<string>,
    chatOutcome: ChatOutcome,
    menuReplies: seq<Reply>,
    generated: Option<string>,
    confirmReply: Reply,
    queryEmbedding: Option<seq<real>>,
    similarity: (seq<real>, seq<real>) -> real,
    searchReplies: seq<Reply>,
    shellSucceeded: bool,
    commandEmbedding: Option<seq<real>>)

  function Menu(model: string, auto: bool, env: Environment): MenuResult {
    MenuRun(env.menuReplies, model, auto, env.chosenModel)
  }

  function Searched(entries: seq<Entry>, env: Environment): SearchOutcome {
    SearchResult(entries, env.queryEmbedding, env.similarity, env.searchReplies)
  }

  /** The execution mode after the line. */
  function ModeAfter(a: Action, auto: bool, model: string, entries: seq<Entry>, env: Environment): bool {
    match a
    case Ask => false
    case Configure => Menu(model, auto, env).auto
    case Search(_) => auto || (Searched(entries, env).Ran? && Searched(entries, env).setAuto)
    case Generate(_) => auto || Confirm(env.generated, env.confirmReply).setAuto
    case _ => auto
  }

  /** The selected model after the line. */
  function ModelAfter(a: Action, auto: bool, model: string, env: Environment): string {
    match a
    case PickModel => if env.chosenModel.Some? then env.chosenModel.value else model
    case Configure => Menu(model, auto, env).model
    case _ => model
  }

  /** The chat transcript after the line. */
  function ChatLogAfter(a: Action, auto: bool, model: string, messages: seq<Message>, env: Environment): seq<Message> {
    match a
    case ChatTurn(p) => ChatAfter(messages, p, env.chatOutcome)
    case ResetChat => []
    case Configure => if Menu(model, auto, env).clearedChat then [] else messages
    case _ => messages
  }

  /** The semantic history after the line: only a successful shell line records. */
  function HistoryAfter(a: Action, auto: bool, model: string, entries: seq<Entry>, env: Environment): seq<Entry> {
    match a
    case Shell(s) => if env.shellSucceeded then Recorded(entries, ColorRewrite(s), env.commandEmbedding) else entries
    case Configure => if Menu(model, auto, env).clearedHistory then [] else entries
    case _ => entries
  }

  /** The history file after the line. */
  function FileAfter(a: Action, auto: bool, model: string, entries: seq<Entry>, file: FileState, env: Environment): FileState {
    var h := HistoryAfter(a, auto, model, entries, env);
    match a
    case Shell(_) => if h == entries then file else Parsed(h)
    case Configure => if Menu(model, auto, env).clearedHistory then Parsed([]) else file
    case _ => file
  }

  /** The command the line hands to bash, if any. */
  function Executed(a: Action, auto: bool, entries: seq<Entry>, env: Environment): Option<string> {
    match a
    case Search(_) => if Searched(entries, env).Ran? then Some(Searched(entries, env).command) else None
    case Generate(_) => if auto then AutoRun(env.generated) else Confirm(env.generated, env.confirmReply).executed
    case Shell(s) => Some(ColorRewrite(s))
    case _ => None
  }

  /**
   * The mode changes only through `/ask` (to false), `/config` (exactly when
   * the menu is left through option 2) or a search or confirmed generation
   * (to true); auto-mode generation keeps it.
   */
  lemma ModeChanges(a: Action, auto: bool, model: string, entries: seq<Entry>, env: Environment)
    ensures var m := ModeAfter(a, auto, model, entries, env);
      (m != auto ==> a.Ask? || a.Configure? || ((a.Search? || a.Generate?) && !auto && m))
      && (a.Ask? ==> !m)
      && (a.Configure? ==> (m != auto <==> MenuEnd(env.menuReplies) < |env.menuReplies|
                                           && MenuChoiceOf(env.menuReplies[MenuEnd(env.menuReplies)]) == ToggleMode))
      && ((a.Search? || a.Generate?) && auto ==> m)
      && (a.Generate? && !auto ==>
            (m <==> (env.generated.Some? && env.confirmReply.Answer? && ConfirmAnswer(env.confirmReply) == "x")))
      && (a.Search? && !auto ==> (m <==> Searched(entries, env).Ran? && Searched(entries, env).setAuto))
  {
    if a.Configure? {
      MenuModeAndModel(env.menuReplies, model, auto, env.chosenModel);
    }
  }

  /**
   * The history grows only by a successful plain shell line, by one entry at
   * the end holding the rewritten command, and is otherwise only cleared by
   * option 4 of `/config`; commands run from a search or a generation
   * request are never recorded.
   */
  lemma OnlyShellRecords(a: Action, auto: bool, model: string, entries: seq<Entry>, env: Environment)
    ensures var h := HistoryAfter(a, auto, model, entries, env);
      (h != entries ==>
        (a.Shell? && env.shellSucceeded && env.commandEmbedding.Some?
          && h == entries + [Entry(ColorRewrite(a.command), env.commandEmbedding.value)])
        || (a.Configure? && h == []))
      && (a.Search? || a.Generate? ==> h == entries)
  {
  }

  /** A new successful shell command with an embedding is recorded. */
  lemma ShellLineRecorded(line: string, auto: bool, model: string, entries: seq<Entry>, env: Environment)
    requires Classify(line).Shell? && env.shellSucceeded && env.commandEmbedding.Some?
    requires !Stored(entries, ColorRewrite(Classify(line).command))
    ensures HistoryAfter(Classify(line), auto, model, entries, env)
      == entries + [Entry(ColorRewrite(Classify(line).command), env.commandEmbedding.value)]
  {
    ShellInputRecordable(line);
  }

  /** No line makes the history hold two entries with the same command. */
  lemma HistoryStaysUnique(a: Action, auto: bool, model: string, entries: seq<Entry>, env: Environment)
    requires NoDuplicates(entries)
    ensures NoDuplicates(HistoryAfter(a, auto, model, entries, env))
  {
    if a.Shell? && env.shellSucceeded {
      RecordKeepsUnique(entries, ColorRewrite(a.command), env.commandEmbedding);
    }
  }

  /** A transcript that starts with the system turn (or is empty) keeps that shape. */
  lemma TranscriptStaysRooted(a: Action, auto: bool, model: string, messages: seq<Message>, env: Environment)
    requires messages == [] || messages[0] == SystemMessage
    ensures var after := ChatLogAfter(a, auto, model, messages, env); after == [] || after[0] == SystemMessage
  {
    if a.ChatTurn? {
      StartsWithSystem(messages, a.prompt, env.chatOutcome);
    }
  }

  /** One read from the prompt of the main loop. */
  datatype Input = Line(text: string) | EndOfFile | Interrupted

  datatype Turn = Turn(input: Input, env: Environment)

  /** A read that ends the main loop: end of input, or a line saying `exit` or `quit`. */
  /**
   * A line that ends the process: `/model`, or `/config` left through
   * option 1, when the model chooser does not return.
   */
  predicate Exits(a: Action, env: Environment) {
    (a.PickModel? && env.chosenModel.None?)
    || (a.Configure? && MenuExits(env.menuReplies, env.chosenModel))
  }

  /**
   * A read that ends the main loop: end of input, a line saying `exit` or
   * `quit`, or a line whose model choice ends the process.
   */
  predicate Stops(turn: Turn)
  {
    turn.input.EndOfFile?
    || (turn.input.Line? && (Classify(turn.input.text).Quit? || Exits(Classify(turn.input.text), turn.env)))
  }

  /**
   * How many reads the main loop consumes: up to and including the first
   * one that stops it, or all of them. Interrupted reads are consumed and
   * skipped.
   */
  function Consumed(turns: seq<Turn>): (r: nat)
    ensures r <= |turns|
    ensures r < |turns| ==> 0 < r && Stops(turns[r - 1])
    ensures forall i :: 0 <= i < r - 1 ==> !Stops(turns[i])
    decreases |turns|
  {
    if |turns| == 0 then 0
    else if Stops(turns[0]) then 1
    else 1 + Consumed(turns[1..])
  }

  /** The whole session state one line can change. */
  datatype SessionState = SessionState(
    auto: bool, model: string, messages: seq<Message>, entries: seq<Entry>, file: FileState)

  /** The session state after one classified line. */
  function LineAfter(a: Action, s: SessionState, env: Environment): SessionState {
    SessionState(
      ModeAfter(a, s.auto, s.model, s.entries, env),
      ModelAfter(a, s.auto, s.model, env),
      ChatLogAfter(a, s.auto, s.model, s.messages, env),
      HistoryAfter(a, s.auto, s.model, s.entries, env),
      FileAfter(a, s.auto, s.model, s.entries, s.file, env))
  }

  /**
   * The session state when the main loop stops: each line changes it as
   * `LineAfter` says, interrupted reads change nothing, and end of input or
   * `exit`/`quit` stops the loop. A line whose model choice ends the process
   * is the last one: what the menu cleared before it stays cleared.
   */
  function RunAfter(turns: seq<Turn>, s: SessionState): SessionState
    decreases |turns|
  {
    if |turns| == 0 then s
    else match turns[0].input
      case EndOfFile => s
      case Interrupted => RunAfter(turns[1..], s)
      case Line(text) =>
        var a := Classify(text);
        if a.Quit? then s
        else if Exits(a, turns[0].env) then LineAfter(a, s, turns[0].env)
        else RunAfter(turns[1..], LineAfter(a, s, turns[0].env))
  }

  /**
   * A `/model` line whose chooser does not return is the last read: nothing
   * after it is consumed, and the session state is left as it was.
   */
  lemma CancelledModelChoiceStops(env: Environment, rest: seq<Turn>, s: SessionState)
    requires env.chosenModel.None?
    ensures Consumed([Turn(Line("/model"), env)] + rest) == 1
    ensures RunAfter([Turn(Line("/model"), env)] + rest, s) == s
  {
    TrimSpaceOfTrimmed("/model");
    assert Classify("/model") == PickModel;
  }

  /** A history without duplicates keeps none through any run of the loop. */
  lemma {:induction false} RunKeepsUnique(turns: seq<Turn>, s: SessionState)
    requires NoDuplicates(s.entries)
    ensures NoDuplicates(RunAfter(turns, s).entries)
    decreases |turns|
  {
    if |turns| > 0 && turns[0].input.Line? && !Classify(turns[0].input.text).Quit? {
      var a := Classify(turns[0].input.text);
      HistoryStaysUnique(a, s.auto, s.model, s.entries, turns[0].env);
      if !Exits(a, turns[0].env) {
        RunKeepsUnique(turns[1..], LineAfter(a, s, turns[0].env));
      }
    } else if |turns| > 0 && turns[0].input.Interrupted? {
      RunKeepsUnique(turns[1..], s);
    }
  }

  /** A transcript that is empty or starts with the system turn keeps that shape through any run. */
  lemma {:induction false} RunKeepsRooted(turns: seq<Turn>, s: SessionState)
    requires s.messages == [] || s.messages[0] == SystemMessage
    ensures var m := RunAfter(turns, s).messages; m == [] || m[0] == SystemMessage
    decreases |turns|
  {
    if |turns| > 0 && turns[0].input.Line? && !Classify(turns[0].input.text).Quit? {
      var a := Classify(turns[0].input.text);
      TranscriptStaysRooted(a, s.auto, s.model, s.messages, turns[0].env);
      if !Exits(a, turns[0].env) {
        RunKeepsRooted(turns[1..], LineAfter(a, s, turns[0].env));
      }
    } else if |turns| > 0 && turns[0].input.Interrupted? {
      RunKeepsRooted(turns[1..], s);
    }
  }

  /** The package-level state of `main`: mode, model, transcript and semantic history. */
  class Session {
    var alwaysExecute: bool
    var model: string
    const chat: ChatLog
    const store: HistoryStore

    /** The session's current state, as one value. */
    ghost function State(): SessionState
      reads this, chat, store
    {
      SessionState(alwaysExecute, model, chat.messages, store.entries, store.file)
    }

    /** Start-up: the history is loaded from the file, the mode is "ask" and the transcript empty. */
    constructor (selected: string, onDisk: FileState)
      ensures alwaysExecute == false && model == selected
      ensures chat.messages == [] && fresh(chat)
      ensures store.entries == Loaded(onDisk) && store.file == onDisk && fresh(store)
    {
      var s := new HistoryStore(onDisk);
      s.Load();
      alwaysExecute := false;
      model := selected;
      chat := new ChatLog();
      store := s;
    }

    /** Steps 1 to 5 of `handleSearchCommand`: rank the history and let the user pick. */
    method SearchHistory(queryEmbedding: Option<seq<real>>, similarity: (seq<real>, seq<real>) -> real,
                         replies: seq<Reply>) returns (outcome: SearchOutcome)
      ensures outcome == SearchResult(store.entries, queryEmbedding, similarity, replies)
    {
      if |store.entries| == 0 {
        return NoHistory;
      }
      if queryEmbedding.None? {
        return EmbeddingFailed;
      }
      var valid := TopMatches(store.entries, queryEmbedding.value, similarity);
      if |valid| == 0 {
        return NoMatches;
      }
      var selection := SelectLoop(replies, |valid|);
      match selection {
        case Dismissed =>
          outcome := Declined;
        case Picked(k, setAuto) =>
          outcome := Ran(valid[k - 1].command, setAuto);
      }
    }

    /**
     * One pass of the menu loop of `handleConfigCommand`: an answer that ends
     * the menu returns the model and mode, option 4 clears the history and
     * its file, option 5 the transcript, anything else only re-prompts.
     */
    method MenuTurn(reply: Reply, current: string, auto: bool, chosen: Option<string>)
      returns (done: bool, exited: bool, newModel: string, newAuto: bool)
      modifies store, chat
      ensures var c := MenuChoiceOf(reply);
        && done == Ends(c)
        && exited == (c == SwitchModel && chosen.None?)
        && (done ==> newModel == (if c == SwitchModel && chosen.Some? then chosen.value else current)
                     && newAuto == (if c == ToggleMode then !auto else auto))
        && store.entries == (if c == ClearSemantic then [] else old(store.entries))
        && store.file == (if c == ClearSemantic then Parsed([]) else old(store.file))
        && chat.messages == (if c == ClearChat then [] else old(chat.messages))
    {
      done, exited, newModel, newAuto := false, false, current, auto;
      if reply.PromptError? || ToLower(reply.text) == "q" {
        return true, false, current, auto;
      }
      var input := TrimSpace(ToLower(reply.text));
      if input == "1" {
        match chosen {
          case None => return true, true, current, auto;
          case Some(m) => return true, false, m, auto;
        }
      } else if input == "2" {
        return true, false, current, !auto;
      } else if input == "4" {
        store.Clear();
      } else if input == "5" {
        chat.Clear();
      }
    }

    /** `handleConfigCommand`: loop over the menu until an option ends it. */
    method Configure(replies: seq<Reply>, chosen: Option<string>) returns (newModel: string, newAuto: bool, exited: bool)
      modifies store, chat
      ensures var r := MenuRun(replies, model, alwaysExecute, chosen);
        newModel == r.model && newAuto == r.auto && exited == r.exited
        && store.entries == (if r.clearedHistory then [] else old(store.entries))
        && store.file == (if r.clearedHistory then Parsed([]) else old(store.file))
        && chat.messages == (if r.clearedChat then [] else old(chat.messages))
    {
      var current, auto := model, alwaysExecute;
      var i := 0;
      ghost var clearedHistory := false;
      ghost var clearedChat := false;
      ghost var r := MenuRun(replies, current, auto, chosen);
      while true
        invariant 0 <= i <= |replies|
        invariant var rest := MenuRun(replies[i..], current, auto, chosen);
          r.model == rest.model && r.auto == rest.auto && r.exited == rest.exited
          && r.clearedHistory == (clearedHistory || rest.clearedHistory)
          && r.clearedChat == (clearedChat || rest.clearedChat)
        invariant store.entries == (if clearedHistory then [] else old(store.entries))
        invariant store.file == (if clearedHistory then Parsed([]) else old(store.file))
        invariant chat.messages == (if clearedChat then [] else old(chat.messages))
        decreases |replies| - i
      {
        if i == |replies| {
          return current, auto, false;
        }
        var reply := replies[i];
        ghost var tail := replies[i..];
        assert tail[0] == reply && tail[1..] == replies[i + 1..];
        MenuRunTurn(tail, current, auto, chosen);
        i := i + 1;
        var done, ex, m, a := MenuTurn(reply, current, auto, chosen);
        if done {
          return m, a, ex;
        }
        clearedHistory := clearedHistory || MenuChoiceOf(reply) == ClearSemantic;
        clearedChat := clearedChat || MenuChoiceOf(reply) == ClearChat;
      }
    }

    /** The `/buscar` branch: a search whose "always" answer switches the mode on. */
    method RunSearch(env: Environment) returns (executed: Option<string>)
      modifies this
      ensures var o := Searched(store.entries, env);
        && executed == (if o.Ran? then Some(o.command) else None)
        && alwaysExecute == (old(alwaysExecute) || (o.Ran? && o.setAuto))
        && model == old(model)
    {
      executed := None;
      var outcome := SearchHistory(env.queryEmbedding, env.similarity, env.searchReplies);
      if outcome.Ran? {
        executed := Some(outcome.command);
        if outcome.setAuto {
          alwaysExecute := true;
        }
      }
    }

    /** The `/` branch: run at once in auto mode, otherwise ask. */
    method RunGenerated(env: Environment) returns (executed: Option<string>)
      modifies this
      ensures executed == (if old(alwaysExecute) then AutoRun(env.generated)
                           else Confirm(env.generated, env.confirmReply).executed)
      ensures alwaysExecute == (old(alwaysExecute) || Confirm(env.generated, env.confirmReply).setAuto)
      ensures model == old(model)
    {
      if alwaysExecute {
        executed := AutoRun(env.generated);
      } else {
        var decision := Confirm(env.generated, env.confirmReply);
        executed := decision.executed;
        if decision.setAuto {
          alwaysExecute := true;
        }
      }
    }

    /** One line of the main loop, from the prompt's text to the next prompt. */
    method Dispatch(line: string, env: Environment) returns (keepGoing: bool, executed: Option<string>)
      modifies this, store, chat
      ensures var a := Classify(line);
        && keepGoing == !(a.Quit? || Exits(a, env))
        && executed == Executed(a, old(alwaysExecute), old(store.entries), env)
        && alwaysExecute == ModeAfter(a, old(alwaysExecute), old(model), old(store.entries), env)
        && model == ModelAfter(a, old(alwaysExecute), old(model), env)
        && chat.messages == ChatLogAfter(a, old(alwaysExecute), old(model), old(chat.messages), env)
        && store.entries == HistoryAfter(a, old(alwaysExecute), old(model), old(store.entries), env)
        && store.file == FileAfter(a, old(alwaysExecute), old(model), old(store.entries), old(store.file), env)
    {
      keepGoing, executed := Perform(Classify(line), env);
    }

    /** The branches of the main loop, once the line is classified. */
    method Perform(action: Action, env: Environment) returns (keepGoing: bool, executed: Option<string>)
      modifies this, store, chat
      ensures var a := action;
        && keepGoing == !(a.Quit? || Exits(a, env))
        && executed == Executed(a, old(alwaysExecute), old(store.entries), env)
        && alwaysExecute == ModeAfter(a, old(alwaysExecute), old(model), old(store.entries), env)
        && model == ModelAfter(a, old(alwaysExecute), old(model), env)
        && chat.messages == ChatLogAfter(a, old(alwaysExecute), old(model), old(chat.messages), env)
        && store.entries == HistoryAfter(a, old(alwaysExecute), old(model), old(store.entries), env)
        && store.file == FileAfter(a, old(alwaysExecute), old(model), old(store.entries), old(store.file), env)
    {
      keepGoing := true;
      executed := None;
      match action {
        case Quit =>
          keepGoing := false;
        case PickModel =>
          match env.chosenModel {
            case None => keepGoing := false;
            case Some(m) => model := m;
          }
        case Ask =>
          alwaysExecute := false;
        case ResetChat =>
          chat.Clear();
        case Configure =>
          MenuModeAndModel(env.menuReplies, model, alwaysExecute, env.chosenModel);
          var newModel, newAuto, exited := Configure(env.menuReplies, env.chosenModel);
          model := newModel;
          alwaysExecute := newAuto;
          keepGoing := !exited;
        case ChatTurn(prompt) =>
          chat.Turn(prompt, env.chatOutcome);
        case Search(_) =>
          executed := RunSearch(env);
        case Generate(_) =>
          executed := RunGenerated(env);
        case Shell(input) =>
          var finalInput := ColorRewrite(input);
          executed := Some(finalInput);
          if env.shellSucceeded {
            store.Record(finalInput, env.commandEmbedding);
          }
        case _ =>
      }
    }

    /**
     * The main loop over successive reads: end of input, `exit`/`quit` or a
     * model choice that ends the process stops it, an interrupted read is skipped, and every other line is
     * handled by `Dispatch`. The session ends in the state `RunAfter` gives;
     * a history without duplicates keeps none, and a rooted transcript stays
     * rooted.
     */
    method Run(turns: seq<Turn>) returns (processed: nat)
      modifies this, store, chat
      ensures processed == Consumed(turns)
      ensures State() == RunAfter(turns, old(State()))
      ensures NoDuplicates(old(store.entries)) ==> NoDuplicates(store.entries)
      ensures old(chat.messages) == [] || old(chat.messages)[0] == SystemMessage ==>
        chat.messages == [] || chat.messages[0] == SystemMessage
    {
      ghost var start := State();
      if NoDuplicates(start.entries) {
        RunKeepsUnique(turns, start);
      }
      if start.messages == [] || start.messages[0] == SystemMessage {
        RunKeepsRooted(turns, start);
      }
      processed := 0;
      while processed < |turns|
        invariant processed <= |turns|
        invariant Consumed(turns) == processed + Consumed(turns[processed..])
        invariant RunAfter(turns, start) == RunAfter(turns[processed..], State())
      {
        var turn := turns[processed];
        assert turns[processed..][1..] == turns[processed + 1..];
        processed := processed + 1;
        match turn.input {
          case EndOfFile =>
            return;
          case Interrupted =>
          case Line(text) =>
            var keepGoing, _ := Dispatch(text, turn.env);
            if !keepGoing {
              return;
            }
        }
      }
    }
  }
}
