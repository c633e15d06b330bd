/**
 * The WhatsApp message sent to the real-estate agents when a lead is found
 * (`mensaje_agente`), and the fan-out that sends it to every agent number
 * (`enviar_whatsapp_agentes`). Both front ends build the message the same
 * way; they differ only in the list of numbers.
 */
module AgentMessage {
  import opened Wrappers
  import opened Text
  import opened Json

  const Header := "📞 *Nuevo cliente interesado*:\n\n"
  const NameLabel := "🧑 Nombre: "
  const PhoneLabel := "📱 Teléfono: "
  const EmailLabel := "📧 Email: "
  const NoteLabel := "💬 Mensaje: "
  const DateLabel := "🕑 Fecha: "

  /** The five line labels, in the order the message lists them. */
  const Labels: seq<string> := [NameLabel, PhoneLabel, EmailLabel, NoteLabel, DateLabel]

  /** The keys of the parsed lead object printed on the first four lines. */
  const Keys: seq<string> := ["nombre", "telefono", "email", "mensaje"]

  /** `f"{parsed.get(key)}"`: the value as `str()` prints it, `None` when the key is missing. */
  function Field(parsed: Object, key: string): (r: string)
    ensures key !in parsed ==> r == "None"
    ensures key in parsed && parsed[key].Str? ==> r == parsed[key].s
  {
    Show(Get(parsed, key))
  }

  /** The five values a lead message shows: the four lead fields, then the timestamp. */
  function LeadValues(parsed: Object, stamp: string): (r: seq<string>)
    ensures |r| == 5 && r[4] == stamp
    ensures forall i :: 0 <= i < 4 ==> r[i] == Field(parsed, Keys[i])
  {
    [Field(parsed, Keys[0]), Field(parsed, Keys[1]), Field(parsed, Keys[2]), Field(parsed, Keys[3]), stamp]
  }

  /** Line `i` of the message body: its label followed by its value. */
  function Lines(values: seq<string>): (r: seq<string>)
    requires |values| == 5
    ensures |r| == 5
  {
    seq(5, i requires 0 <= i < 5 => Labels[i] + values[i])
  }

  /** The message: the header, then the five labelled lines separated by newlines (no newline after the last). */
  function Message(values: seq<string>): string
    requires |values| == 5
  {
    Header + Join("\n", Lines(values))
  }

  /** Whether `w` starts with `prefix`. */
  predicate StartsWith(w: string, prefix: string) {
    |prefix| <= |w| && w[..|prefix|] == prefix
  }

  /**
   * Reads the five values back from a message: the inverse of `Message` for
   * values without line breaks, and `None` for a text not of that shape.
   */
  function ReadBack(m: string): (r: Option<seq<string>>)
    ensures r.Some? ==> |r.value| == 5
  {
    if !StartsWith(m, Header) then None
    else
      var lines := Split(m[|Header|..], '\n');
      if |lines| == 5 && forall i :: 0 <= i < 5 ==> StartsWith(lines[i], Labels[i]) then
        Some(seq(5, i requires 0 <= i < 5 => lines[i][|Labels[i]|..]))
      else None
  }

  /** No label holds a line break. */
  lemma LabelsSingleLine()
    ensures forall i :: 0 <= i < 5 ==> '\n' !in Labels[i]
  {
  }

  /**
   * The message can be read back: every value sits after its own label, in
   * the order nombre, teléfono, email, mensaje, fecha.
   */
  lemma ReadBackMessage(values: seq<string>)
    requires |values| == 5
    requires forall i :: 0 <= i < 5 ==> '\n' !in values[i]
    ensures ReadBack(Message(values)) == Some(values)
  {
    var m := Message(values);
    var lines := Lines(values);
    assert m[..|Header|] == Header;
    assert m[|Header|..] == Join("\n", lines);
    LabelsSingleLine();
    forall k | 0 <= k < 5 ensures '\n' !in lines[k] {
      assert lines[k] == Labels[k] + values[k];
      assert '\n' !in Labels[k];
    }
    SplitJoin(lines, '\n');
    assert Split(m[|Header|..], '\n') == lines;
    forall i | 0 <= i < 5 ensures StartsWith(lines[i], Labels[i]) && lines[i][|Labels[i]|..] == values[i] {
      assert lines[i] == Labels[i] + values[i];
    }
    var read := seq(5, i requires 0 <= i < 5 => lines[i][|Labels[i]|..]);
    assert read == values;
  }

  /** A lead object without `key` gets the line `<label>None`. */
  lemma MissingKeyReadsNone(parsed: Object, stamp: string, i: nat)
    requires i < 4 && Keys[i] !in parsed
    requires forall k :: 0 <= k < 4 ==> '\n' !in Field(parsed, Keys[k])
    requires '\n' !in stamp
    ensures ReadBack(Message(LeadValues(parsed, stamp))) == Some(LeadValues(parsed, stamp))
    ensures ReadBack(Message(LeadValues(parsed, stamp))).value[i] == "None"
  {
    ReadBackMessage(LeadValues(parsed, stamp));
  }

  /**
   * Builds `mensaje_agente` the way both front ends do, one `+=` per line;
   * `stamp` stands for `datetime.now()` formatted as `%Y-%m-%d %H:%M:%S`.
   */
  method Compose(parsed: Object, stamp: string) returns (m: string)
    ensures m == Message(LeadValues(parsed, stamp))
  {
    m := Header;
    m := m + NameLabel + Field(parsed, "nombre") + "\n";
    m := m + PhoneLabel + Field(parsed, "telefono") + "\n";
    m := m + EmailLabel + Field(parsed, "email") + "\n";
    m := m + NoteLabel + Field(parsed, "mensaje") + "\n";
    m := m + DateLabel + stamp;
    MessageUnfolds(LeadValues(parsed, stamp));
  }

  /** The message written out line by line. */
  lemma MessageUnfolds(v: seq<string>)
    requires |v| == 5
    ensures Message(v) == Header + NameLabel + v[0] + "\n" + PhoneLabel + v[1] + "\n"
      + EmailLabel + v[2] + "\n" + NoteLabel + v[3] + "\n" + DateLabel + v[4]
  {
    JoinFive("\n", Lines(v));
    LinesAre(v);
    Regroup(Header, "\n", Labels, v);
  }

  /** The five lines, each its label and value. */
  lemma LinesAre(v: seq<string>)
    requires |v| == 5
    ensures Lines(v) == [NameLabel + v[0], PhoneLabel + v[1], EmailLabel + v[2], NoteLabel + v[3], DateLabel + v[4]]
  {
  }

  /** A join of five parts, written out. */
  lemma JoinFive(sep: string, l: seq<string>)
    requires |l| == 5
    ensures Join(sep, l) == l[0] + sep + (l[1] + sep + (l[2] + sep + (l[3] + sep + l[4])))
  {
    assert Join(sep, l[4..]) == l[4];
    assert Join(sep, l[3..]) == l[3] + sep + l[4] by { assert l[3..][1..] == l[4..]; }
    assert Join(sep, l[2..]) == l[2] + sep + (l[3] + sep + l[4]) by { assert l[2..][1..] == l[3..]; }
    assert Join(sep, l[1..]) == l[1] + sep + (l[2] + sep + (l[3] + sep + l[4])) by { assert l[1..][1..] == l[2..]; }
  }

  /** Regrouping the concatenation of a header and five labelled lines. */
  lemma Regroup(h: string, sep: string, a: seq<string>, b: seq<string>)
    requires |a| == 5 && |b| == 5
    ensures h + ((a[0] + b[0]) + sep + ((a[1] + b[1]) + sep + ((a[2] + b[2]) + sep + ((a[3] + b[3]) + sep + (a[4] + b[4])))))
         == h + a[0] + b[0] + sep + a[1] + b[1] + sep + a[2] + b[2] + sep + a[3] + b[3] + sep + a[4] + b[4]
  {
  }

  /** One message sent through Twilio: destination number and body. */
  datatype Delivery = Delivery(to: string, body: string)

  /**
   * Sends `body` to each number in list order. `failAt` is the index of the
   * first send that raises (Twilio error), if any: the loop stops there and
   * `raised` reports the exception to the caller.
   */
  method SendToAgents(numbers: seq<string>, body: string, failAt: Option<nat>) returns (sent: seq<Delivery>, raised: bool)
    ensures raised <==> failAt.Some? && failAt.value < |numbers|
    ensures |sent| == (if raised then failAt.value else |numbers|)
    ensures forall i :: 0 <= i < |sent| ==> sent[i] == Delivery(numbers[i], body)
  {
    sent := [];
    raised := false;
    var i := 0;
    while i < |numbers|
      invariant 0 <= i <= |numbers| && |sent| == i
      invariant failAt.Some? ==> i <= failAt.value
      invariant forall k :: 0 <= k < i ==> sent[k] == Delivery(numbers[k], body)
    {
      if failAt == Some(i) {
        raised := true;
        return;
      }
      sent := sent + [Delivery(numbers[i], body)];
      i := i + 1;
    }
  }

  /** With distinct numbers, a completed fan-out reaches every number exactly once. */
  lemma {:induction false} EachAgentOnce(numbers: seq<string>, body: string, sent: seq<Delivery>, x: string)
    requires |sent| == |numbers|
    requires forall i :: 0 <= i < |sent| ==> sent[i] == Delivery(numbers[i], body)
    requires forall i, j :: 0 <= i < j < |numbers| ==> numbers[i] != numbers[j]
    requires x in numbers
    ensures exists i :: 0 <= i < |sent| && sent[i].to == x
    ensures forall i, j :: 0 <= i < |sent| && 0 <= j < |sent| && sent[i].to == x && sent[j].to == x ==> i == j
  {
    var k :| 0 <= k < |numbers| && numbers[k] == x;
    assert sent[k].to == x;
  }
}
