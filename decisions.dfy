/**
 * The answer-driven decisions: whether a generated command runs
 * (`handleIACommandConfirm`, `handleIACommandAuto`), which search result runs
 * (the selection loop of `handleSearchCommand`) and what the configuration
 * menu does (`handleConfigCommand`).
 */
module Decisions {
  import opened Wrappers
  import opened GoStrings
  import opened CommandText

  /**
   * One read from the line editor: a line, or an error (end of input,
   * Ctrl-C abort or any other read failure, which every caller treats alike).
   */
  datatype Reply = Answer(text: string) | PromptError

  // ----- generated commands -----

  /** The outcome of one `/` request: the command run, if any, and whether to switch to auto mode. */
  datatype Generated = Generated(executed: Option<string>, setAuto: bool)

  /** The confirmation switch of `handleIACommandConfirm`, on the lowercased, trimmed answer. */
  function ConfirmAnswer(reply: Reply): string {
    match reply
    case Answer(t) => TrimSpace(ToLower(t))
    case PromptError => ""
  }

  /**
   * `handleIACommandConfirm`: `generated` is the service's reply (None: the
   * call failed). The sanitized command runs iff the answer is `s` or `x`;
   * only `x` switches to auto mode; a failed call or prompt runs nothing.
   */
  function Confirm(generated: Option<string>, reply: Reply): (r: Generated)
    ensures r.executed.Some? <==> generated.Some? && reply.Answer? && ConfirmAnswer(reply) in {"s", "x"}
    ensures r.setAuto <==> generated.Some? && reply.Answer? && ConfirmAnswer(reply) == "x"
    ensures r.executed.Some? ==> r.executed.value == Sanitize(generated.value)
  {
    match generated
    case None => Generated(None, false)
    case Some(text) =>
      match reply
      case PromptError => Generated(None, false)
      case Answer(_) =>
        var a := ConfirmAnswer(reply);
        if a == "s" then Generated(Some(Sanitize(text)), false)
        else if a == "x" then Generated(Some(Sanitize(text)), true)
        else Generated(None, false)
  }

  /** Switching to auto mode always comes with running the command. */
  lemma AutoOnlyWithRun(generated: Option<string>, reply: Reply)
    ensures Confirm(generated, reply).setAuto ==> Confirm(generated, reply).executed.Some?
  {
  }

  /** `handleIACommandAuto`: the sanitized command runs unless the service call failed. */
  function AutoRun(generated: Option<string>): (executed: Option<string>)
    ensures executed.Some? <==> generated.Some?
    ensures executed.Some? ==> executed.value == Sanitize(generated.value)
  {
    match generated
    case None => None
    case Some(text) => Some(Sanitize(text))
  }

  // ----- choosing a search result -----

  datatype Selection = Cancel | Pick(index: int) | Retry

  /**
   * One turn of the selection loop with `n` results on offer: a prompt error or
   * a raw `n`/`N` cancels, `x` (any case, trimmed) picks result 1, a number in
   * 1..n picks that result, anything else asks again.
   */
  function SelectionChoice(reply: Reply, n: nat): Selection {
    match reply
    case PromptError => Cancel
    case Answer(raw) =>
      if raw == "n" || raw == "N" then Cancel
      else
        var t := TrimSpace(raw);
        if ToLower(t) == "x" then Pick(1)
        else match Atoi(t)
          case Some(k) => if 1 <= k <= n then Pick(k) else Retry
          case None => Retry
  }

  /** Whether a reply is the "always" answer, as the auto flag is computed after the loop. */
  predicate IsAlways(reply: Reply) {
    reply.Answer? && ToLower(TrimSpace(reply.text)) == "x"
  }

  datatype SelectOutcome = Dismissed | Picked(index: int, setAuto: bool)

  /** The selection loop over the successive replies; running out of input is end of file. */
  function SelectFrom(replies: seq<Reply>, n: nat): SelectOutcome
    decreases |replies|
  {
    if |replies| == 0 then Dismissed
    else
      match SelectionChoice(replies[0], n)
      case Cancel => Dismissed
      case Pick(k) => Picked(k, IsAlways(replies[0]))
      case Retry => SelectFrom(replies[1..], n)
  }

  /**
   * The meaning of one reply: `x` runs result 1 and sets auto; a number k in
   * 1..n (sign and leading zeros allowed) runs result k without auto; every
   * pick is within 1..n.
   */
  lemma SelectionMeaning(reply: Reply, n: nat)
    requires n >= 1
    ensures IsAlways(reply) ==> SelectionChoice(reply, n) == Pick(1)
    ensures reply.Answer? && !IsAlways(reply) && reply.text != "n" && reply.text != "N"
      && Atoi(TrimSpace(reply.text)).Some? && 1 <= Atoi(TrimSpace(reply.text)).value <= n
      ==> SelectionChoice(reply, n) == Pick(Atoi(TrimSpace(reply.text)).value)
    ensures SelectionChoice(reply, n).Pick? ==> 1 <= SelectionChoice(reply, n).index <= n
    ensures SelectionChoice(reply, n).Pick? && SelectionChoice(reply, n).index != 1 ==> !IsAlways(reply)
  {
    TrimSpaceOfTrimmed("n");
    TrimSpaceOfTrimmed("N");
    assert ToLower("n")[0] == 'n' && ToLower("N")[0] == 'n';
  }

  /** The loop runs the first reply that is not a retry; only retries before it are skipped. */
  lemma {:induction false} SelectFromFirstDecisive(replies: seq<Reply>, n: nat, i: int)
    requires 0 <= i < |replies|
    requires forall j :: 0 <= j < i ==> SelectionChoice(replies[j], n) == Retry
    requires SelectionChoice(replies[i], n) != Retry
    ensures SelectFrom(replies, n) ==
      match SelectionChoice(replies[i], n)
      case Pick(k) => Picked(k, IsAlways(replies[i]))
      case _ => Dismissed
    decreases i
  {
    if i > 0 {
      assert SelectionChoice(replies[0], n) == Retry;
      SelectFromFirstDecisive(replies[1..], n, i - 1);
    }
  }

  /** Replies that are all retries end, with the input, in a cancellation. */
  lemma {:induction false} SelectFromAllRetries(replies: seq<Reply>, n: nat)
    requires forall j :: 0 <= j < |replies| ==> SelectionChoice(replies[j], n) == Retry
    ensures SelectFrom(replies, n) == Dismissed
    decreases |replies|
  {
    if |replies| > 0 {
      SelectFromAllRetries(replies[1..], n);
    }
  }

  /** Whatever the replies, a chosen result is one on offer, and auto mode comes only with result 1. */
  lemma {:induction false} SelectFromInRange(replies: seq<Reply>, n: nat)
    requires n >= 1
    ensures SelectFrom(replies, n).Picked? ==> 1 <= SelectFrom(replies, n).index <= n
    ensures SelectFrom(replies, n).Picked? && SelectFrom(replies, n).setAuto ==> SelectFrom(replies, n).index == 1
    decreases |replies|
  {
    if |replies| > 0 {
      SelectionMeaning(replies[0], n);
      if SelectionChoice(replies[0], n) == Retry {
        SelectFromInRange(replies[1..], n);
      }
    }
  }

  /** Step 5 of `handleSearchCommand`: prompt until the reply is decisive. */
  method SelectLoop(replies: seq<Reply>, n: nat) returns (outcome: SelectOutcome)
    requires n >= 1
    ensures outcome == SelectFrom(replies, n)
    ensures outcome.Picked? ==> 1 <= outcome.index <= n
  {
    SelectFromInRange(replies, n);
    var next := 0;
    var finalConfirmation := "";
    var selected := 0;
    while true
      invariant 0 <= next <= |replies|
      invariant SelectFrom(replies[next..], n) == SelectFrom(replies, n)
      decreases |replies| - next
    {
      if next == |replies| {
        return Dismissed;
      }
      var reply := replies[next];
      assert replies[next..][0] == reply && replies[next..][1..] == replies[next + 1..];
      next := next + 1;
      if reply.PromptError? || reply.text == "n" || reply.text == "N" {
        return Dismissed;
      }
      finalConfirmation := reply.text;
      var confirmation := TrimSpace(reply.text);
      if ToLower(confirmation) == "x" {
        selected := 1;
        break;
      }
      var choice := Atoi(confirmation);
      if choice.Some? && choice.value >= 1 && choice.value <= n {
        selected := choice.value;
        break;
      }
    }
    var setAuto := ToLower(TrimSpace(finalConfirmation)) == "x";
    outcome := Picked(selected, setAuto);
  }

  // ----- the configuration menu -----

  datatype MenuChoice = Leave | SwitchModel | ToggleMode | ShowVersion | ClearSemantic | ClearChat | Invalid

  /**
   * One answer to the menu: a prompt error or `q` (lowercased, not trimmed)
   * leaves; otherwise the trimmed, lowercased answer selects an option.
   */
  function MenuChoiceOf(reply: Reply): MenuChoice {
    match reply
    case PromptError => Leave
    case Answer(raw) =>
      if ToLower(raw) == "q" then Leave
      else
        var a := TrimSpace(ToLower(raw));
        if a == "1" then SwitchModel
        else if a == "2" then ToggleMode
        else if a == "3" then ShowVersion
        else if a == "4" then ClearSemantic
        else if a == "5" then ClearChat
        else Invalid
  }

  /** The choices that end the menu. */
  predicate Ends(c: MenuChoice) {
    c == Leave || c == SwitchModel || c == ToggleMode
  }

  /**
   * The menu's net effect: the model and mode it returns, whether the
   * semantic history and the chat transcript were cleared on the way, and
   * whether option 1's model chooser ended the process instead of returning.
   */
  datatype MenuResult = MenuResult(model: string, auto: bool, clearedHistory: bool, clearedChat: bool, exited: bool)

  /**
   * `handleConfigCommand` over the successive replies. `chosen` is what the
   * model chooser returns, or None when it ends the process (`log.Fatal` on a
   * cancelled prompt or a failed model listing); the model is then kept.
   */
  function MenuRun(replies: seq<Reply>, model: string, auto: bool, chosen: Option<string>): MenuResult
    decreases |replies|
  {
    if |replies| == 0 then MenuResult(model, auto, false, false, false)
    else
      match MenuChoiceOf(replies[0])
      case Leave => MenuResult(model, auto, false, false, false)
      case SwitchModel =>
        if chosen.Some? then MenuResult(chosen.value, auto, false, false, false)
        else MenuResult(model, auto, false, false, true)
      case ToggleMode => MenuResult(model, !auto, false, false, false)
      case ClearSemantic => MenuRun(replies[1..], model, auto, chosen).(clearedHistory := true)
      case ClearChat => MenuRun(replies[1..], model, auto, chosen).(clearedChat := true)
      case _ => MenuRun(replies[1..], model, auto, chosen)
  }

  /**
   * One reply of the menu: one that ends it decides the model and the mode
   * and clears nothing more; any other adds what it cleared to the rest.
   */
  lemma MenuRunTurn(replies: seq<Reply>, model: string, auto: bool, chosen: Option<string>)
    requires |replies| > 0
    ensures var r := MenuRun(replies, model, auto, chosen); var c := MenuChoiceOf(replies[0]);
      (Ends(c) ==>
        r.model == (if c == SwitchModel && chosen.Some? then chosen.value else model)
        && r.auto == (if c == ToggleMode then !auto else auto)
        && r.exited == (c == SwitchModel && chosen.None?)
        && !r.clearedHistory && !r.clearedChat)
      && (!Ends(c) ==>
        r.model == MenuRun(replies[1..], model, auto, chosen).model
        && r.auto == MenuRun(replies[1..], model, auto, chosen).auto
        && r.exited == MenuRun(replies[1..], model, auto, chosen).exited
        && r.clearedHistory == (MenuRun(replies[1..], model, auto, chosen).clearedHistory || c == ClearSemantic)
        && r.clearedChat == (MenuRun(replies[1..], model, auto, chosen).clearedChat || c == ClearChat))
  {
  }

  /** The position of the reply that ends the menu, or `|replies|` when input runs out first. */
  function MenuEnd(replies: seq<Reply>): (i: nat)
    ensures i <= |replies|
    ensures forall j :: 0 <= j < i ==> !Ends(MenuChoiceOf(replies[j]))
    ensures i < |replies| ==> Ends(MenuChoiceOf(replies[i]))
    decreases |replies|
  {
    if |replies| == 0 || Ends(MenuChoiceOf(replies[0])) then 0
    else 1 + MenuEnd(replies[1..])
  }

  /** Whether the menu ends the process: option 1 ends it and the model chooser does not return. */
  function MenuExits(replies: seq<Reply>, chosen: Option<string>): bool {
    var e := MenuEnd(replies);
    e < |replies| && MenuChoiceOf(replies[e]) == SwitchModel && chosen.None?
  }

  /**
   * The mode changes exactly when the menu is left through option 2, and the
   * model only through option 1 with a model chosen; `q`, an error or the end
   * of input keep both. The process ends exactly when option 1 ends the menu
   * and the chooser does not return.
   */
  lemma {:induction false} MenuModeAndModel(replies: seq<Reply>, model: string, auto: bool, chosen: Option<string>)
    ensures var r := MenuRun(replies, model, auto, chosen); var e := MenuEnd(replies);
      (r.auto != auto <==> e < |replies| && MenuChoiceOf(replies[e]) == ToggleMode)
      && (r.model == (if e < |replies| && MenuChoiceOf(replies[e]) == SwitchModel && chosen.Some?
                      then chosen.value else model))
      && (r.exited <==> MenuExits(replies, chosen))
    decreases |replies|
  {
    if |replies| > 0 && !Ends(MenuChoiceOf(replies[0])) {
      MenuModeAndModel(replies[1..], model, auto, chosen);
      if MenuEnd(replies[1..]) < |replies| - 1 {
        assert replies[1..][MenuEnd(replies[1..])] == replies[MenuEnd(replies)];
      }
    }
  }

  /** The history is cleared exactly when option 4 was chosen before the menu ended. */
  lemma {:induction false} MenuClearsHistory(replies: seq<Reply>, model: string, auto: bool, chosen: Option<string>)
    ensures MenuRun(replies, model, auto, chosen).clearedHistory <==>
      exists j :: 0 <= j < MenuEnd(replies) && MenuChoiceOf(replies[j]) == ClearSemantic
    decreases |replies|
  {
    if |replies| > 0 && !Ends(MenuChoiceOf(replies[0])) {
      MenuClearsHistory(replies[1..], model, auto, chosen);
      var e := MenuEnd(replies);
      assert forall j :: 0 <= j < e - 1 ==> replies[1..][j] == replies[j + 1];
      if MenuRun(replies, model, auto, chosen).clearedHistory && MenuChoiceOf(replies[0]) != ClearSemantic {
        var j :| 0 <= j < e - 1 && MenuChoiceOf(replies[1..][j]) == ClearSemantic;
        assert MenuChoiceOf(replies[j + 1]) == ClearSemantic;
      }
      if exists j :: 0 <= j < e && MenuChoiceOf(replies[j]) == ClearSemantic {
        var j :| 0 <= j < e && MenuChoiceOf(replies[j]) == ClearSemantic;
        if j > 0 {
          assert MenuChoiceOf(replies[1..][j - 1]) == ClearSemantic;
        }
      }
    }
  }
}
