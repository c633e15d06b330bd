/**
 * A chat transcript as a list of turns: the `{"role", "content"}` dicts of
 * doc_app.py's `st.session_state.messages`, and the human/AI message pairs a
 * LangChain `ConversationBufferMemory` keeps.
 */
module Conversation {

  datatype Role = User | Assistant

  datatype Turn = Turn(role: Role, content: string)

  /** The two turns one exchange adds: the question, then the reply. */
  function Exchange(question: string, reply: string): (r: seq<Turn>)
    ensures |r| == 2 && r[0].role == User && r[1].role == Assistant
    ensures r[0].content == question && r[1].content == reply
  {
    [Turn(User, question), Turn(Assistant, reply)]
  }

  /** Even length, and roles alternate starting with the user. */
  predicate Alternating(ts: seq<Turn>) {
    && |ts| % 2 == 0
    && forall i :: 0 <= i < |ts| ==> ts[i].role == (if i % 2 == 0 then User else Assistant)
  }

  /** Appending an exchange keeps a transcript alternating, and the old turns stay in front. */
  lemma ExchangeKeepsAlternating(ts: seq<Turn>, question: string, reply: string)
    requires Alternating(ts)
    ensures Alternating(ts + Exchange(question, reply))
    ensures (ts + Exchange(question, reply))[..|ts|] == ts
  {
    var r := ts + Exchange(question, reply);
    forall i | 0 <= i < |r| ensures r[i].role == (if i % 2 == 0 then User else Assistant) {
      if i >= |ts| {
        assert r[i] == Exchange(question, reply)[i - |ts|];
      }
    }
  }

  /** The questions of an alternating transcript, in order. */
  function Questions(ts: seq<Turn>): (r: seq<string>)
    requires Alternating(ts)
    ensures |r| == |ts| / 2
    ensures forall k :: 0 <= k < |r| ==> r[k] == ts[2 * k].content
  {
    seq(|ts| / 2, k requires 0 <= k < |ts| / 2 => ts[2 * k].content)
  }

  /** Each exchange adds exactly its own question to the list of questions. */
  lemma QuestionsOfExchange(ts: seq<Turn>, question: string, reply: string)
    requires Alternating(ts)
    ensures Alternating(ts + Exchange(question, reply))
    ensures Questions(ts + Exchange(question, reply)) == Questions(ts) + [question]
  {
    ExchangeKeepsAlternating(ts, question, reply);
    var r := ts + Exchange(question, reply);
    assert r[|ts|] == Turn(User, question);
    forall k | 0 <= k < |ts| / 2 ensures r[2 * k] == ts[2 * k] { }
  }
}
