/**
 * The chat transcript kept across `/chat` turns (`handleChatCommand`) and
 * cleared by `/reset` and menu option 5.
 */
module Transcript {

  datatype Message = Message(role: string, content: string)

  const SystemPrompt: string :=
    "Eres un asistente servicial, amigable y conversacional. Responde a las preguntas del usuario."

  const SystemMessage: Message := Message("system", SystemPrompt)

  /** How the streamed chat call ended; `Replied` carries the concatenated chunks. */
  datatype ChatOutcome = Replied(text: string) | Cancelled | Failed

  /** The transcript as sent to the service: the system turn when starting afresh, then the user turn. */
  function Request(history: seq<Message>, prompt: string): (r: seq<Message>)
    ensures |r| >= 1 && r[|r| - 1] == Message("user", prompt)
    ensures history != [] ==> r == history + [Message("user", prompt)]
    ensures history == [] ==> r == [SystemMessage, Message("user", prompt)]
  {
    var withSystem := if |history| == 0 then [SystemMessage] else history;
    withSystem + [Message("user", prompt)]
  }

  /** The transcript after one turn: the reply is appended, or the last entry is popped. */
  function ChatAfter(history: seq<Message>, prompt: string, outcome: ChatOutcome): seq<Message> {
    var sent := Request(history, prompt);
    match outcome
    case Replied(text) => sent + [Message("assistant", text)]
    case _ => sent[..|sent| - 1]
  }

  /**
   * A failed or cancelled turn leaves the transcript as it was, except that a
   * fresh transcript keeps the system turn: only the user turn is popped.
   */
  lemma FailedTurn(history: seq<Message>, prompt: string, outcome: ChatOutcome)
    requires !outcome.Replied?
    ensures ChatAfter(history, prompt, outcome) == if history == [] then [SystemMessage] else history
  {
    var sent := Request(history, prompt);
    if history == [] {
      assert sent[..1] == [SystemMessage];
    } else {
      assert sent[..|sent| - 1] == history;
    }
  }

  /**
   * A successful turn adds the user turn and then the assistant reply (after
   * the system turn when the transcript was empty), and nothing earlier changes.
   */
  lemma RepliedTurn(history: seq<Message>, prompt: string, text: string)
    ensures var after := ChatAfter(history, prompt, Replied(text));
      after == (if history == [] then [SystemMessage] else history)
        + [Message("user", prompt), Message("assistant", text)]
      && after[|after| - 1] == Message("assistant", text)
      && (history != [] ==> after[..|history|] == history)
  {
    var after := ChatAfter(history, prompt, Replied(text));
    var base := if history == [] then [SystemMessage] else history;
    assert after == base + [Message("user", prompt)] + [Message("assistant", text)];
    assert base + [Message("user", prompt)] + [Message("assistant", text)]
      == base + [Message("user", prompt), Message("assistant", text)];
    if history != [] {
      assert after[..|history|] == history;
    }
  }

  /** Every transcript the turns produce from a cleared one starts with the system turn. */
  lemma {:induction false} StartsWithSystem(history: seq<Message>, prompt: string, outcome: ChatOutcome)
    requires history == [] || history[0] == SystemMessage
    ensures var after := ChatAfter(history, prompt, outcome); |after| >= 1 && after[0] == SystemMessage
  {
    if outcome.Replied? {
      RepliedTurn(history, prompt, outcome.text);
    } else {
      FailedTurn(history, prompt, outcome);
    }
  }

  /** The package-level `chatHistory` slice. */
  class ChatLog {
    var messages: seq<Message>

    constructor()
      ensures messages == []
    {
      messages := [];
    }

    /** `handleChatCommand`, with the streamed call's outcome as a parameter. */
    method Turn(prompt: string, outcome: ChatOutcome)
      modifies this
      ensures messages == ChatAfter(old(messages), prompt, outcome)
    {
      if |messages| == 0 {
        messages := messages + [SystemMessage];
      }
      messages := messages + [Message("user", prompt)];
      match outcome {
        case Replied(text) =>
          messages := messages + [Message("assistant", text)];
        case _ =>
          if |messages| > 0 {
            messages := messages[..|messages| - 1];
          }
      }
    }

    /** `/reset` and menu option 5: `chatHistory = nil`. */
    method Clear()
      modifies this
      ensures messages == []
    {
      messages := [];
    }
  }
}
