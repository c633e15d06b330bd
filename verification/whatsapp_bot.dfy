/**
 * The Flask/Twilio webhook (whatsapp_bot.py): every incoming WhatsApp
 * message is answered by the chain with one process-wide conversation
 * memory, and a lead found in the answer is forwarded to two agents. Unlike
 * app.py it does not re-check `lead_detected` after parsing, and it catches
 * every exception of the lead branch.
 */
module WhatsappBot {
  import opened Wrappers
  import opened Text
  import opened Json
  import opened Conversation
  import opened LeadSearch
  import opened AgentMessage
  import App

  /** `numeros_agentes`: the agents notified of a lead. */
  const AgentNumbers: seq<string> := ["whatsapp:+79110057195", "whatsapp:+5219982363432"]

  /** `request.values.get("Body", "").strip()`: the client's message, trimmed; a missing body reads as empty. */
  function Incoming(values: map<string, string>): (r: string)
    ensures IsStripped(r)
    ensures "Body" !in values ==> r == ""
  {
    Strip(if "Body" in values then values["Body"] else "")
  }

  /** A present body loses only surrounding whitespace: the question is the stretch of it from `i` on with only spaces around. */
  lemma IncomingTrimsBody(values: map<string, string>) returns (i: nat)
    requires "Body" in values
    ensures var body, q := values["Body"], Incoming(values);
      i + |q| <= |body| && body[i..i + |q|] == q && AllSpace(body[..i]) && AllSpace(body[i + |q|..])
  {
    assert Incoming(values) == Strip(values["Body"]);
    i := StripIsInfix(values["Body"]);
  }

  /** The sender (`From`) is read for the log only: the question the chain gets does not depend on it. */
  lemma IncomingIgnoresSender(values: map<string, string>, sender: string)
    ensures Incoming(values["From" := sender]) == Incoming(values)
  {
    assert ("Body" in values["From" := sender]) <==> ("Body" in values);
    if "Body" in values {
      assert values["From" := sender]["Body"] == values["Body"];
    }
  }

  /** What the lead branch decides; the exceptions it catches are `ParseFailed` and a raising send. */
  datatype Lead =
    | NoCandidate
    | ParseFailed
    | Notify(body: string)

  /** The decision on an answer: any candidate that parses is forwarded, whatever its `lead_detected` says. */
  function LeadDecision(answer: string, parse: string -> Option<Object>, stamp: string): Lead {
    match Group(answer)
    case None => NoCandidate
    case Some(candidate) =>
      match parse(candidate)
      case None => ParseFailed
      case Some(parsed) => Notify(Message(LeadValues(parsed, stamp)))
  }

  /**
   * Where the two front ends differ: a candidate that parses to an object
   * with a falsy `lead_detected` is forwarded here and dropped by app.py.
   */
  lemma NoRecheck(answer: string, parse: string -> Option<Object>, stamp: string)
    requires Group(answer).Some? && parse(Group(answer).value).Some?
    requires !Truthy(Get(parse(Group(answer).value).value, "lead_detected"))
    ensures LeadDecision(answer, parse, stamp) == Notify(Message(LeadValues(parse(Group(answer).value).value, stamp)))
    ensures App.LeadDecision(answer, parse, stamp) == App.NotALead
  {
    App.FalsyLeadFlagIgnored(answer, parse, stamp);
  }

  /** Everywhere else the two front ends agree on whether and what to send. */
  lemma AgreesWithApp(answer: string, parse: string -> Option<Object>, stamp: string)
    requires Group(answer).Some? && parse(Group(answer).value).Some? ==>
      Truthy(Get(parse(Group(answer).value).value, "lead_detected"))
    ensures LeadDecision(answer, parse, stamp).Notify? <==> App.LeadDecision(answer, parse, stamp).Notify?
    ensures LeadDecision(answer, parse, stamp).Notify? ==>
      LeadDecision(answer, parse, stamp).body == App.LeadDecision(answer, parse, stamp).body
  {
  }

  /** The webhook's state: the one `ConversationBufferMemory` every sender shares. */
  class Bot {
    var memory: seq<Turn>

    constructor()
      ensures memory == []
    {
      memory := [];
    }

    /**
     * One POST to `/whatsapp`. `chain` stands for the retrieval chain: its
     * answer depends on the shared memory and the trimmed message only.
     * `parse` stands for `json.loads`, `stamp` for the formatted current
     * time, `failAt` for the first Twilio send that raises. The reply is the
     * answer unchanged, whatever the lead branch does; `logged` says that
     * branch caught an exception.
     */
    method Webhook(values: map<string, string>, chain: (seq<Turn>, string) -> string,
                   parse: string -> Option<Object>, stamp: string, failAt: Option<nat>)
      returns (reply: string, lead: Lead, sent: seq<Delivery>, logged: bool)
      modifies this
      ensures reply == chain(old(memory), Incoming(values))
      ensures memory == old(memory) + Exchange(Incoming(values), reply)
      ensures lead == LeadDecision(reply, parse, stamp)
      ensures Forwarded(lead, sent, logged, failAt)
    {
      var question := Incoming(values);
      var answer := chain(memory, question);
      memory := memory + Exchange(question, answer);
      reply := answer;
      lead, sent, logged := ForwardLead(answer, parse, stamp, failAt);
    }
  }

  /**
   * What the lead branch did: a parse error or a raising send is caught and
   * logged; otherwise the message went to every agent, once each, in order.
   */
  predicate Forwarded(lead: Lead, sent: seq<Delivery>, logged: bool, failAt: Option<nat>) {
    && (logged <==> lead.ParseFailed? || (lead.Notify? && failAt.Some? && failAt.value < |AgentNumbers|))
    && (!lead.Notify? ==> sent == [])
    && (lead.Notify? ==> |sent| == (if logged then failAt.value else |AgentNumbers|))
    && (lead.Notify? ==> forall i :: 0 <= i < |sent| ==> sent[i] == Delivery(AgentNumbers[i], lead.body))
  }

  /**
   * The lead branch of the webhook (`try: ... except Exception`): parse
   * errors and a raising send are caught and only set `logged`.
   */
  method ForwardLead(answer: string, parse: string -> Option<Object>, stamp: string, failAt: Option<nat>)
    returns (lead: Lead, sent: seq<Delivery>, logged: bool)
    ensures lead == LeadDecision(answer, parse, stamp)
    ensures Forwarded(lead, sent, logged, failAt)
  {
    sent, logged := [], false;
    var candidate := Group(answer);
    if candidate.None? {
      lead := NoCandidate;
      return;
    }
    var parsed := parse(candidate.value);
    if parsed.None? {
      lead := ParseFailed;
      logged := true;
      return;
    }
    var body := Compose(parsed.value, stamp);
    lead := Notify(body);
    sent, logged := SendToAgents(AgentNumbers, body, failAt);
  }

  /** A completed fan-out reaches each of the two agents exactly once, in list order. */
  lemma BothAgentsOnce(body: string, sent: seq<Delivery>)
    requires |sent| == |AgentNumbers|
    requires forall i :: 0 <= i < |sent| ==> sent[i] == Delivery(AgentNumbers[i], body)
    ensures sent == [Delivery("whatsapp:+79110057195", body), Delivery("whatsapp:+5219982363432", body)]
    ensures forall x :: x in AgentNumbers ==> exists i :: 0 <= i < |sent| && sent[i].to == x
  {
    assert sent[0] == Delivery(AgentNumbers[0], body);
    assert sent[1] == Delivery(AgentNumbers[1], body);
  }
}
