/**
 * The Streamlit front end (app.py) after the model has answered: the lead
 * branch (search, `json.loads`, the `lead_detected` re-check, the agent
 * message and its fan-out) and the photo lookup for the listing the answer
 * mentions.
 */
module App {
  import opened Wrappers
  import opened Text
  import opened Json
  import opened LeadSearch
  import opened AgentMessage

  /** `AGENT_WHATSAPP_NUMBERS`: the agents notified of a lead. */
  const AgentNumbers: seq<string> := ["whatsapp:+79110057195"]

  /** The outcome of the lead branch for one answer. */
  datatype Lead =
    | NoCandidate         // the regex found nothing
    | Malformed           // json.loads raised JSONDecodeError, which is caught
    | NotALead            // parsed, but `lead_detected` is not truthy
    | Notify(body: string) // the agent message to send

  /**
   * The decision taken on the model's answer. `parse` stands for
   * `json.loads` (None where it raises JSONDecodeError) and `stamp` for the
   * formatted `datetime.now()`.
   */
  function LeadDecision(answer: string, parse: string -> Option<Object>, stamp: string): Lead {
    match Group(answer)
    case None => NoCandidate
    case Some(candidate) =>
      match parse(candidate)
      case None => Malformed
      case Some(parsed) =>
        if Truthy(Get(parsed, "lead_detected")) then Notify(Message(LeadValues(parsed, stamp)))
        else NotALead
  }

  /** A notification happens only for a parsed candidate whose `lead_detected` is truthy, and carries its fields. */
  lemma NotifyOnlyIfTruthy(answer: string, parse: string -> Option<Object>, stamp: string)
    requires LeadDecision(answer, parse, stamp).Notify?
    ensures Search(answer).Some?
    ensures var parsed := parse(Group(answer).value);
      && parsed.Some? && Truthy(Get(parsed.value, "lead_detected"))
      && LeadDecision(answer, parse, stamp).body == Message(LeadValues(parsed.value, stamp))
  {
  }

  /** An answer without the marker `"lead_detected"\s*:\s*true` sends nothing. */
  lemma NoMarkerNoNotify(answer: string, parse: string -> Option<Object>, stamp: string)
    requires forall j :: 0 <= j <= |answer| ==> !MarkerAt(answer, j)
    ensures LeadDecision(answer, parse, stamp) == NoCandidate
  {
    NoMarkerNoCandidate(answer);
  }

  /** A candidate `json.loads` rejects is caught: no notification. */
  lemma MalformedCandidateCaught(answer: string, parse: string -> Option<Object>, stamp: string)
    requires Group(answer).Some? && parse(Group(answer).value).None?
    ensures LeadDecision(answer, parse, stamp) == Malformed
  {
  }

  /**
   * A lead object embedded in prose (no `{` before it, no `}` inside its
   * other fields) that parses to an object with a truthy `lead_detected` is
   * reported to the agents with that object's fields.
   */
  lemma EmbeddedLeadNotifies(p: string, fields: string, q: string, parse: string -> Option<Object>, stamp: string, parsed: Object)
    requires '{' !in p && '}' !in fields
    requires parse(LeadObject(fields)) == Some(parsed)
    requires Truthy(Get(parsed, "lead_detected"))
    ensures LeadDecision(p + LeadObject(fields) + q, parse, stamp) == Notify(Message(LeadValues(parsed, stamp)))
  {
    var s := p + LeadObject(fields) + q;
    EmbeddedObjectFound(p, fields, q);
    assert s[|p|..|p| + |LeadObject(fields)|] == LeadObject(fields);
  }

  /**
   * The re-check after parsing: a candidate the regex accepted but whose
   * parsed `lead_detected` is falsy (a later duplicate key wins in
   * `json.loads`) is not a lead.
   */
  lemma FalsyLeadFlagIgnored(answer: string, parse: string -> Option<Object>, stamp: string)
    requires Group(answer).Some? && parse(Group(answer).value).Some?
    requires !Truthy(Get(parse(Group(answer).value).value, "lead_detected"))
    ensures LeadDecision(answer, parse, stamp) == NotALead
  {
  }

  /**
   * The lead branch of app.py: builds the message and sends it to every
   * agent number; `failAt` is the first send that raises. Such an exception
   * is not caught (only JSONDecodeError is): `raised` ends the run.
   */
  method HandleLead(answer: string, parse: string -> Option<Object>, stamp: string, failAt: Option<nat>)
    returns (lead: Lead, sent: seq<Delivery>, raised: bool)
    ensures lead == LeadDecision(answer, parse, stamp)
    ensures !lead.Notify? ==> sent == [] && !raised
    ensures lead.Notify? ==> (raised <==> failAt == Some(0))
    ensures lead.Notify? && !raised ==> sent == [Delivery(AgentNumbers[0], lead.body)]
    ensures lead.Notify? && raised ==> sent == []
  {
    sent, raised := [], false;
    var candidate := Group(answer);
    if candidate.None? {
      lead := NoCandidate;
      return;
    }
    var parsed := parse(candidate.value);
    if parsed.None? {
      lead := Malformed;
      return;
    }
    if !Truthy(Get(parsed.value, "lead_detected")) {
      lead := NotALead;
      return;
    }
    var body := Compose(parsed.value, stamp);
    lead := Notify(body);
    sent, raised := SendToAgents(AgentNumbers, body, failAt);
  }

  /** `item.get("url")`, when it is a string. */
  predicate HasStringUrl(item: Object) {
    Get(item, "url").Str?
  }

  /** `item.get("url") in answer` for a string url. */
  predicate UrlIn(item: Object, answer: string)
    requires HasStringUrl(item)
  {
    Occurs(Get(item, "url").s, answer)
  }

  /**
   * `next((item for item in metadata if item.get("url") in answer), None)`,
   * from position `k` on, as an index. A url that is not a string (missing
   * key, number, ...) raises TypeError when the generator reaches it.
   */
  function FirstMatchFrom(metadata: seq<Object>, answer: string, k: nat): (r: Result<Option<nat>, string>)
    requires k <= |metadata|
    ensures r.Success? && r.value.Some? ==> k <= r.value.value < |metadata|
    decreases |metadata| - k
  {
    if k == |metadata| then Success(None)
    else if !HasStringUrl(metadata[k]) then Failure("TypeError")
    else if UrlIn(metadata[k], answer) then Success(Some(k))
    else FirstMatchFrom(metadata, answer, k + 1)
  }

  function FirstMatch(metadata: seq<Object>, answer: string): (r: Result<Option<nat>, string>)
    ensures r.Success? && r.value.Some? ==> r.value.value < |metadata|
  {
    FirstMatchFrom(metadata, answer, 0)
  }

  /** Every metadata entry has a string url. */
  predicate AllUrlsStrings(metadata: seq<Object>) {
    forall i :: 0 <= i < |metadata| ==> HasStringUrl(metadata[i])
  }

  lemma {:induction false} FirstMatchFromSpec(metadata: seq<Object>, answer: string, k: nat)
    requires k <= |metadata| && AllUrlsStrings(metadata)
    ensures var r := FirstMatchFrom(metadata, answer, k);
      && r.Success?
      && (r.value.None? <==> forall i :: k <= i < |metadata| ==> !UrlIn(metadata[i], answer))
      && (r.value.Some? ==> k <= r.value.value < |metadata| && UrlIn(metadata[r.value.value], answer)
                            && forall i :: k <= i < r.value.value ==> !UrlIn(metadata[i], answer))
    decreases |metadata| - k
  {
    if k < |metadata| && !UrlIn(metadata[k], answer) {
      FirstMatchFromSpec(metadata, answer, k + 1);
    }
  }

  /**
   * With string urls, the lookup picks the first entry, in list order, whose
   * url occurs in the answer, and finds nothing when none does.
   */
  lemma FirstMatchSpec(metadata: seq<Object>, answer: string)
    requires AllUrlsStrings(metadata)
    ensures FirstMatch(metadata, answer).Success?
    ensures var r := FirstMatch(metadata, answer).value;
      && (r.None? <==> forall i :: 0 <= i < |metadata| ==> !UrlIn(metadata[i], answer))
      && (r.Some? ==> r.value < |metadata| && UrlIn(metadata[r.value], answer)
                      && forall i :: 0 <= i < r.value ==> !UrlIn(metadata[i], answer))
  {
    FirstMatchFromSpec(metadata, answer, 0);
  }

  /** An entry whose url is the empty string matches every answer: the lookup never goes past it. */
  lemma EmptyUrlMatchesAll(metadata: seq<Object>, answer: string, i: nat)
    requires AllUrlsStrings(metadata)
    requires i < |metadata| && Get(metadata[i], "url") == Str("")
    ensures FirstMatch(metadata, answer).Success?
    ensures FirstMatch(metadata, answer).value.Some?
    ensures FirstMatch(metadata, answer).value.value <= i
  {
    FirstMatchSpec(metadata, answer);
    EmptyOccursEverywhere(answer);
    assert UrlIn(metadata[i], answer);
  }

  /** The lookup reports the TypeError of the first entry it reaches whose url is not a string. */
  lemma {:induction false} NonStringUrlRaises(metadata: seq<Object>, answer: string, i: nat)
    requires i < |metadata| && !HasStringUrl(metadata[i])
    requires forall k :: 0 <= k < i ==> HasStringUrl(metadata[k]) && !UrlIn(metadata[k], answer)
    ensures FirstMatch(metadata, answer) == Failure("TypeError")
  {
    var k := i;
    while k > 0
      invariant 0 <= k <= i
      invariant FirstMatchFrom(metadata, answer, k) == Failure("TypeError")
    {
      k := k - 1;
    }
  }

  const MaxPhotos := 5

  function Min(a: nat, b: nat): nat {
    if a < b then a else b
  }

  /**
   * `photos[:5]`: the first five photos of a list, the first five characters
   * of a string; any other value cannot be sliced and raises.
   */
  function FirstPhotos(photos: Value): (r: Result<seq<Value>, string>)
    ensures photos.Arr? ==> r == Success(photos.items[..Min(MaxPhotos, |photos.items|)])
    ensures photos.Str? ==> r.Success? && |r.value| == Min(MaxPhotos, |photos.s|)
    ensures photos.Str? ==> forall i :: 0 <= i < |r.value| ==> r.value[i] == Str([photos.s[i]])
    ensures !photos.Arr? && !photos.Str? ==> r.Failure?
  {
    match photos
    case Arr(items, _) => Success(items[..Min(MaxPhotos, |items|)])
    case Str(s) => Success(seq(Min(MaxPhotos, |s|), i requires 0 <= i < Min(MaxPhotos, |s|) => Str([s[i]])))
    case Obj(_, _) => Failure("KeyError")
    case _ => Failure("TypeError")
  }

  /** What the photo block shows: the images, or the exception that ends the run. */
  datatype Photos = Shown(images: seq<Value>) | Raised(error: string)

  /**
   * The photo block for one answer: nothing when no entry matches or the
   * matching entry has no `photos` key, otherwise its first photos.
   */
  function PhotosFor(metadata: seq<Object>, answer: string): Photos {
    match FirstMatch(metadata, answer)
    case Failure(e) => Raised(e)
    case Success(None) => Shown([])
    case Success(Some(i)) =>
      if "photos" !in metadata[i] then Shown([])
      else
        match FirstPhotos(metadata[i]["photos"])
        case Failure(e) => Raised(e)
        case Success(list) => Shown(list)
  }

  /**
   * With string urls and list-valued photos, the block shows at most five
   * photos, the first ones of the first matching entry, in order; it shows
   * nothing when no entry matches or the matching entry has no photos.
   */
  lemma PhotosOfFirstMatch(metadata: seq<Object>, answer: string)
    requires AllUrlsStrings(metadata)
    requires forall i :: 0 <= i < |metadata| && "photos" in metadata[i] ==> metadata[i]["photos"].Arr?
    ensures PhotosFor(metadata, answer).Shown? && FirstMatch(metadata, answer).Success?
    ensures |PhotosFor(metadata, answer).images| <= MaxPhotos
    ensures FirstMatch(metadata, answer).value.None? ==> PhotosFor(metadata, answer).images == []
    ensures var r := FirstMatch(metadata, answer).value;
      r.Some? && "photos" in metadata[r.value] ==>
        var items := metadata[r.value]["photos"].items;
        && UrlIn(metadata[r.value], answer)
        && PhotosFor(metadata, answer).images <= items
        && |PhotosFor(metadata, answer).images| == Min(MaxPhotos, |items|)
    ensures var r := FirstMatch(metadata, answer).value;
      r.Some? && "photos" !in metadata[r.value] ==> PhotosFor(metadata, answer).images == []
  {
    FirstMatchSpec(metadata, answer);
  }

  /** The `for foto in ...[:5]: st.image(foto)` loop: shows each photo of the block in order. */
  method ShowPhotos(metadata: seq<Object>, answer: string) returns (photos: Photos)
    ensures photos == PhotosFor(metadata, answer)
  {
    var block := PhotosFor(metadata, answer);
    if block.Raised? {
      return block;
    }
    var images: seq<Value> := [];
    for k := 0 to |block.images|
      invariant images == block.images[..k]
    {
      images := images + [block.images[k]];
    }
    photos := Shown(images);
  }

  /**
   * One answer handled by app.py after it is displayed: the lead branch, then
   * the photo block. A send that raises ends the run before the photos.
   */
  method Respond(answer: string, metadata: seq<Object>, parse: string -> Option<Object>, stamp: string, failAt: Option<nat>)
    returns (lead: Lead, sent: seq<Delivery>, photos: Option<Photos>)
    ensures lead == LeadDecision(answer, parse, stamp)
    ensures !lead.Notify? ==> sent == []
    ensures photos.None? <==> lead.Notify? && failAt == Some(0)
    ensures photos.Some? ==> photos.value == PhotosFor(metadata, answer)
    ensures lead.Notify? && photos.Some? ==> sent == [Delivery(AgentNumbers[0], lead.body)]
    ensures photos.None? ==> sent == []
  {
    var raised;
    lead, sent, raised := HandleLead(answer, parse, stamp, failAt);
    if raised {
      photos := None;
    } else {
      var shown := ShowPhotos(metadata, answer);
      photos := Some(shown);
    }
  }
}
