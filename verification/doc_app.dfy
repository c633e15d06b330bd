/**
 * The document assistant (doc_app.py): a Streamlit session holding the
 * visible transcript `st.session_state.messages` and the chain's
 * conversation memory. Each script run initialises what is absent, shows the
 * transcript, handles a submitted question and the clear button.
 */
module DocApp {
  import opened Wrappers
  import opened Conversation

  const ErrorPrefix := "❌ Error: "
  const ErrorSuffix := "\n\nRevisa las claves de Azure OpenAI en los secretos."

  /** What `qa.invoke` did: returned an answer, or raised an exception with this `str(e)`. */
  datatype ChainOutcome = Answered(answer: string) | Raised(message: string)

  /** The text shown for an exception raised by the chain. */
  function ErrorText(message: string): string {
    ErrorPrefix + message + ErrorSuffix
  }

  /** Recovers the exception text from an error reply; None for any other text. */
  function ErrorMessageOf(text: string): Option<string> {
    if |text| >= |ErrorPrefix| + |ErrorSuffix|
       && text[..|ErrorPrefix|] == ErrorPrefix
       && text[|text| - |ErrorSuffix|..] == ErrorSuffix
    then Some(text[|ErrorPrefix|..|text| - |ErrorSuffix|])
    else None
  }

  /** The error reply carries the exception text, between the fixed prefix and suffix. */
  lemma ErrorTextRoundTrip(message: string)
    ensures ErrorMessageOf(ErrorText(message)) == Some(message)
  {
    var t := ErrorText(message);
    assert t[..|ErrorPrefix|] == ErrorPrefix;
    assert t[|t| - |ErrorSuffix|..] == ErrorSuffix;
    assert t[|ErrorPrefix|..|t| - |ErrorSuffix|] == message;
  }

  /** Different exception texts give different error replies. */
  lemma ErrorTextInjective(m1: string, m2: string)
    requires ErrorText(m1) == ErrorText(m2)
    ensures m1 == m2
  {
    ErrorTextRoundTrip(m1);
    ErrorTextRoundTrip(m2);
  }

  /** The assistant turn for one question: the answer, or the error text. */
  function ReplyText(outcome: ChainOutcome): (r: string)
    ensures outcome.Answered? ==> r == outcome.answer
    ensures outcome.Raised? ==> ErrorMessageOf(r) == Some(outcome.message)
  {
    match outcome
    case Answered(answer) => answer
    case Raised(message) => ErrorTextRoundTrip(message); ErrorText(message)
  }

  /** One browser session's `st.session_state`. */
  class Session {
    /** `st.session_state.messages`; None until the first run creates it. */
    var messages: Option<seq<Turn>>
    /** `st.session_state["memory"]`'s message list; None until created. */
    var memory: Option<seq<Turn>>

    /** A new session: nothing is stored yet. */
    constructor()
      ensures messages == None && memory == None
    {
      messages := None;
      memory := None;
    }

    /** The transcript and the chain memory are created empty, each only when absent. */
    method Init()
      modifies this
      ensures messages == (if old(messages).None? then Some([]) else old(messages))
      ensures memory == (if old(memory).None? then Some([]) else old(memory))
    {
      if memory.None? {
        memory := Some([]);
      }
      if messages.None? {
        messages := Some([]);
      }
    }

    /** The `for message in st.session_state.messages` loop: shows the turns in stored order. */
    method Render() returns (shown: seq<Turn>)
      requires messages.Some?
      ensures shown == messages.value
    {
      shown := [];
      var ms := messages.value;
      for k := 0 to |ms|
        invariant shown == ms[..k]
      {
        shown := shown + [ms[k]];
      }
    }

    /**
     * A submitted question: the user turn, then the assistant turn with the
     * answer or the error text. The chain memory records the exchange only
     * when the chain answered.
     */
    method Submit(prompt: string, outcome: ChainOutcome)
      requires messages.Some? && memory.Some?
      modifies this
      ensures messages == Some(old(messages).value + Exchange(prompt, ReplyText(outcome)))
      ensures memory == (if outcome.Answered? then Some(old(memory).value + Exchange(prompt, outcome.answer)) else old(memory))
    {
      var before := messages.value;
      var reply: string;
      messages := Some(before + [Turn(User, prompt)]);
      match outcome {
        case Answered(answer) =>
          memory := Some(memory.value + Exchange(prompt, answer));
          reply := answer;
        case Raised(message) =>
          reply := ErrorPrefix + message + ErrorSuffix;
      }
      messages := Some(messages.value + [Turn(Assistant, reply)]);
      assert reply == ReplyText(outcome);
      assert messages.value == before + Exchange(prompt, reply);
    }

    /** The clear button: both the transcript and the chain memory become empty. */
    method Clear()
      modifies this
      ensures messages == Some([]) && memory == Some([])
    {
      messages := Some([]);
      memory := Some([]);
    }

    /**
     * One run of the script: initialise, show the transcript, handle the
     * question from the chat input (an empty one is ignored, as `if prompt :=`
     * is false for it), then the clear button.
     */
    method Run(prompt: Option<string>, outcome: ChainOutcome, clear: bool) returns (shown: seq<Turn>)
      modifies this
      ensures old(messages).Some? ==> shown == old(messages).value
      ensures old(messages).None? ==> shown == []
      ensures clear ==> messages == Some([]) && memory == Some([])
      ensures !clear && (prompt.None? || prompt.value == []) ==> messages == Some(shown)
      ensures !clear && prompt.Some? && prompt.value != [] ==> messages == Some(shown + Exchange(prompt.value, ReplyText(outcome)))
      ensures var m0 := if old(memory).None? then [] else old(memory).value;
        !clear && prompt.Some? && prompt.value != [] && outcome.Answered? ==>
          memory == Some(m0 + Exchange(prompt.value, outcome.answer))
      ensures var m0 := if old(memory).None? then [] else old(memory).value;
        !clear && !(prompt.Some? && prompt.value != [] && outcome.Answered?) ==> memory == Some(m0)
    {
      Init();
      shown := Render();
      if prompt.Some? && prompt.value != [] {
        Submit(prompt.value, outcome);
      }
      if clear {
        Clear();
      }
    }
  }

  /** A sequence of questions with their outcomes, as the transcript records them. */
  function Transcript(prompts: seq<string>, outcomes: seq<ChainOutcome>): (r: seq<Turn>)
    requires |prompts| == |outcomes|
    ensures |r| == 2 * |prompts|
  {
    if prompts == [] then []
    else Transcript(prompts[..|prompts| - 1], outcomes[..|outcomes| - 1])
         + Exchange(prompts[|prompts| - 1], ReplyText(outcomes[|outcomes| - 1]))
  }

  /**
   * Any transcript built by submissions alternates user/assistant starting
   * with the user, and its questions are the prompts verbatim, in order.
   */
  lemma {:induction false} TranscriptShape(prompts: seq<string>, outcomes: seq<ChainOutcome>)
    requires |prompts| == |outcomes|
    ensures Alternating(Transcript(prompts, outcomes))
    ensures Questions(Transcript(prompts, outcomes)) == prompts
  {
    if prompts != [] {
      var n := |prompts| - 1;
      TranscriptShape(prompts[..n], outcomes[..n]);
      QuestionsOfExchange(Transcript(prompts[..n], outcomes[..n]), prompts[n], ReplyText(outcomes[n]));
      assert prompts[..n] + [prompts[n]] == prompts;
    }
  }

  /** Each assistant turn of such a transcript is its answer or its error text. */
  lemma {:induction false} TranscriptReplies(prompts: seq<string>, outcomes: seq<ChainOutcome>, k: nat)
    requires |prompts| == |outcomes| && k < |prompts|
    ensures Transcript(prompts, outcomes)[2 * k + 1] == Turn(Assistant, ReplyText(outcomes[k]))
    decreases |prompts|
  {
    var n := |prompts| - 1;
    if k < n {
      TranscriptReplies(prompts[..n], outcomes[..n], k);
    }
  }
}
