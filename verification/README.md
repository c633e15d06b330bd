# Apolo AI assistant — a Dafny model of its core logic

Apolo AI is a real-estate assistant for the Century 21 Apolo office in Cancún. It has:

- a Streamlit chat (`app.py`) that answers questions about the listings;
- a Flask/Twilio WhatsApp webhook (`whatsapp_bot.py`) that answers the same questions over WhatsApp;
- a document assistant (`doc_app.py`);
- two indexers that feed the retrieval index, one for a Word document (`create_doc_embeddings.py`) and one for the scraped listings (`create_embeddings.py`);
- a scraper (`scrap.py`) that collects the listing links.

The language model, the embeddings and FAISS are foreign services. They are not modelled. What is modelled is the sequential string and list logic around them:

- **Lead extraction** (`LeadSearch`, `AgentMessage`, `App`, `WhatsappBot`). The regex `\{.*?"lead_detected"\s*:\s*true.*?\}` (DOTALL) is modelled the way Python's backtracking matcher runs it. Its result is characterised without reference to the matcher: it starts at the leftmost `{` that has a closable marker after it, and ends at the first `}` after the first marker after that `{`.
  - `json.loads` is an abstract partial parser, passed in as a function.
  - Both front ends build the agent message `mensaje_agente` the same way. It can be read back field by field.
  - The fan-out sends that message to each agent number in list order.
  - The two front ends differ in two ways. `app.py` re-checks `lead_detected` after parsing and catches only `JSONDecodeError`. `whatsapp_bot.py` forwards any object that parses and catches every exception.
- **Photo lookup** (`App`). It picks the first metadata entry whose `url` occurs in the answer, then shows at most five of its photos. A url that is not a string raises `TypeError`.
- **Chat transcript** (`DocApp.Session`). The `st.session_state.messages` list and the chain memory are modelled as a class:
  - both are initialised only when absent;
  - each question appends a user/assistant pair, with a fixed error text when the chain raises;
  - the clear button empties both.
- **Document chunker** (`DocEmbeddings`). The input is the non-blank stripped paragraphs, then the table rows as ` | `-joined cells. These are grouped four at a time into newline-joined chunks, one index entry per chunk, in order.
- **Listing indexer** (`ListingEmbeddings`). It keeps the listings with a truthy description and address, renders each as one labelled text, and writes a metadata record per embedded text, index-aligned with the texts.
- **Link scraper** (`Scrap`). It builds the page URLs and crawls until the first page without a property anchor. Links are collected in page order. It then computes the duplicates and the distinct links.

The index is modelled as the ordered list of texts that were embedded. `None` stands for "no index yet".

Behaviour of the code worth knowing:

- **The lead search is not the smallest balanced object.** A stray `{` earlier in the prose starts the candidate (`LeadSearch.StrayBraceWidensCandidate`). A `}` inside a string value ends it early.
- **No contact-datum rule.** Neither front end checks that one of nombre/teléfono/email is non-empty.
- **Missing keys print as `None`.** A missing key in the agent message prints as `None`, not as an empty string (`AgentMessage.MissingKeyReadsNone`).
- **`whatsapp_bot.py` does not re-check `lead_detected`** (`WhatsappBot.NoRecheck`).

## Model

| member | source | states |
|---|---|---|
| Text.Strip | whatsapp_bot.py:131 | `str.strip()`: the result has no whitespace at either end, and is empty exactly when the input is all whitespace |
| Text.StripIsInfix | create_doc_embeddings.py:37 | the stripped text is a contiguous part of the input with only whitespace before and after it |
| Text.StripIdempotent | create_doc_embeddings.py:42 | stripping a stripped text changes nothing |
| Text.Join | create_doc_embeddings.py:44-56 | `sep.join(parts)`: the parts with the separator between consecutive ones; `JoinSplit` and `SplitJoin` make `Split` its inverse |
| Text.Find | app.py:158 | the first position at or after `k` holding the character; None exactly when there is none |
| Text.Split | create_doc_embeddings.py:56 | splitting on a separator gives at least one piece, and no piece holds the separator |
| Text.JoinSplit | create_doc_embeddings.py:56 | joining the pieces of a split with the separator gives back the text |
| Text.SplitJoin | create_doc_embeddings.py:56 | splitting a newline join of line-free pieces gives back the pieces |
| Text.NatToString | create_embeddings.py:44 | `str(n)` is a non-empty string of decimal digits, with no leading zero unless `n == 0` |
| Text.DecimalRoundTrip | scrap.py:34 | reading `str(n)` as a decimal number gives back `n` |
| Text.NatToStringInjective | scrap.py:34 | different numbers print differently |
| Text.Occurs | app.py:176 | Python's `sub in s` for strings: `sub` is a contiguous part of `s`; `EmptyUrlMatchesAll` and `FirstMatchSpec` use it |
| Json.Truthy | app.py:163 | Python truthiness of a JSON value: `None`, `False`, zero and empty strings, lists and objects are false |
| Json.Show | app.py:165-168 | `str(v)`, what an f-string prints for a JSON value: `None`, `True`/`False`, a string itself |
| Json.Len | create_embeddings.py:44 | `len(v)` of a string, list or object; None where Python raises TypeError |
| Json.Get | app.py:163 | `d.get(key)`: the value under the key, or `None` when it is missing |
| Conversation.Exchange | doc_app.py:87-109 | one exchange is two turns, the user's question and then the assistant's reply |
| Conversation.ExchangeKeepsAlternating | doc_app.py:87-109 | appending an exchange keeps the transcript even-length and alternating user/assistant, and leaves the earlier turns in front |
| Conversation.Questions | doc_app.py:87 | the questions of an alternating transcript are its even-numbered turns, in order |
| Conversation.QuestionsOfExchange | doc_app.py:87 | an exchange adds exactly its own question at the end of the question list |
| LeadSearch.SkipSpaces | app.py:158 | a greedy `\s*` consumes exactly the whitespace run that starts at `k` |
| LeadSearch.MarkerEnd | app.py:158 | a marker match `"lead_detected"\s*:\s*true` at `j` ends after the key |
| LeadSearch.CloseOf | app.py:158 | the `}` that closes a marker lies after the marker |
| LeadSearch.FirstClosed | app.py:158 | the lazy `.*?` after `{` stops at the first position where a marker with a later `}` matches; None when none does |
| LeadSearch.MarkersApart | app.py:158 | two marker matches cannot overlap |
| LeadSearch.FirstClosedIsFirstMarker | app.py:158 | the first closable marker is the first marker, when some `}` follows it |
| LeadSearch.MatchAtSpec | app.py:158 | the match attempt at `b` succeeds exactly when `b` holds `{` with a closable marker after it; the span then ends just after the first `}` that follows the first marker after `b` |
| LeadSearch.SearchFromSpec | app.py:158 | scanning start positions from `i` finds the first one that opens a match, or none when none does |
| LeadSearch.Search | app.py:158 | `re.search` of `\{.*?"lead_detected"\s*:\s*true.*?\}` with DOTALL over the answer: the (start, end) of the match or None; `SearchSpec` and `LeadSpanIsSearch` state in both directions which span it is |
| LeadSearch.SearchSpec | app.py:158 | `re.search` finds a candidate exactly when some `{` has a closable marker after it, and returns the leftmost such `{` with the span described above |
| LeadSearch.SpanAfterUnique | app.py:158 | the end of the candidate is determined by its start |
| LeadSearch.LeadSpanIsSearch | whatsapp_bot.py:149 | any span satisfying the leftmost/first-marker/first-brace description is the one the search returns |
| LeadSearch.SpanShape | app.py:158 | every candidate starts with `{`, ends with `}` and holds a whole marker `"lead_detected"\s*:\s*true` strictly inside, ending before the final `}` |
| LeadSearch.Group | app.py:162 | `match.group()` exists exactly when the search succeeds; it starts with `{`, ends with `}` and contains a whole marker `"lead_detected"\s*:\s*true` before its final `}` |
| LeadSearch.NoMarkerNoCandidate | app.py:158-160 | a text with no marker anywhere yields no candidate |
| LeadSearch.NonTrueValueIsNoMarker | app.py:158 | `"lead_detected"`, optional whitespace, `:`, optional whitespace and a value that starts with a non-space and differs from `true` within its first four characters (`false`, `"true"`, `1`, `tru}`, `trUE`, …) is not a marker |
| LeadSearch.EmbeddedObjectFound | app.py:158 | a lead object `{"lead_detected": true…}` embedded in prose with no earlier `{` and no `}` in its fields is found whole |
| LeadSearch.StrayBraceWidensCandidate | app.py:158 | a stray `{` in the prose before the object starts the candidate instead, so the span covers the prose too |
| AgentMessage.Field | app.py:165-168 | `f"{parsed.get(key)}"` prints `None` for a missing key and the string itself for a string value |
| AgentMessage.LeadValues | app.py:164-169 | the message shows nombre, teléfono, email and mensaje, in that order, then the timestamp |
| AgentMessage.Message | app.py:164-169 | `mensaje_agente`: the header, then one labelled line per value, joined by line breaks; `MessageUnfolds` writes it out and `ReadBackMessage` reads it back |
| AgentMessage.ReadBack | app.py:164-169 | reading a message back gives five values or nothing |
| AgentMessage.LabelsSingleLine | app.py:164-169 | no label contains a line break |
| AgentMessage.ReadBackMessage | app.py:164-169 | the message is the header followed by the five labelled lines: reading it back gives each value after its own label, in order |
| AgentMessage.MissingKeyReadsNone | whatsapp_bot.py:153-158 | a lead object without one of the four keys gets a line whose value reads back as `None` |
| AgentMessage.Compose | app.py:164-169 | the `+=` construction of `mensaje_agente` yields the message with the five values of the parsed object and the timestamp |
| AgentMessage.MessageUnfolds | whatsapp_bot.py:153-158 | the message written out is the header, then each label, value and line break in order, with no line break after the date |
| AgentMessage.SendToAgents | app.py:23-30 | sends go to the numbers in list order with the same body; a raising send stops the loop there and is reported |
| AgentMessage.EachAgentOnce | app.py:25-30 | with distinct numbers, a completed fan-out reaches every number exactly once |
| App.LeadDecision | app.py:158-173 | the decision on one answer: no candidate, a malformed candidate caught, a parsed object with a falsy flag, or the agent message; the lemmas below state each case |
| App.NotifyOnlyIfTruthy | app.py:163-170 | a notification happens only for a parsed candidate whose `lead_detected` is truthy, and carries that object's fields |
| App.NoMarkerNoNotify | app.py:158-160 | an answer without the marker sends nothing |
| App.MalformedCandidateCaught | app.py:161-173 | a candidate `json.loads` rejects ends in the caught `JSONDecodeError`, with no notification |
| App.EmbeddedLeadNotifies | app.py:158-170 | a well-formed lead object embedded in the answer, with truthy `lead_detected`, is reported with that object's fields |
| App.FalsyLeadFlagIgnored | app.py:163 | a parsed candidate whose `lead_detected` is falsy is not a lead |
| App.HandleLead | app.py:158-173 | the lead branch takes the decision above; without a lead nothing is sent; with one, the message goes to the configured number unless that send raises, which ends the run with nothing delivered |
| App.FirstMatchFrom | app.py:176 | the lookup from `k` on returns an index in range, if any |
| App.FirstMatch | app.py:176 | the lookup returns an index in range, if any |
| App.FirstMatchFromSpec | app.py:176 | with string urls, the scan from `k` picks the first entry whose url occurs in the answer, and none exactly when no url occurs |
| App.FirstMatchSpec | app.py:176 | with string urls, the lookup picks the first entry in list order whose url occurs in the answer, and finds nothing exactly when none occurs |
| App.EmptyUrlMatchesAll | app.py:176 | an entry whose url is empty matches every answer, so the lookup never goes past it |
| App.NonStringUrlRaises | app.py:176 | the lookup raises `TypeError` at the first entry it reaches whose url is not a string |
| App.FirstPhotos | app.py:179 | `photos[:5]` gives the first up to five items of a list, or of a string its first up to five characters, each as a one-character string, in order; any other value raises |
| App.PhotosFor | app.py:176-180 | the photo block: the lookup's TypeError, nothing without a match or a `photos` key, otherwise `photos[:5]` of the first match or its error; `PhotosOfFirstMatch` states it |
| App.PhotosOfFirstMatch | app.py:176-180 | with string urls and list photos, the block shows at most five photos, a prefix of the first match's photos, and nothing when there is no match or no `photos` key |
| App.ShowPhotos | app.py:177-180 | the display loop shows the photo block's images in order |
| App.Respond | app.py:149-180 | one answer runs the lead branch, then the photo block; a lead is delivered once to the configured number and the photos follow; a raising send ends the run before the photos, with nothing delivered |
| WhatsappBot.Incoming | whatsapp_bot.py:131 | the incoming message is trimmed, and a missing `Body` reads as empty |
| WhatsappBot.IncomingTrimsBody | whatsapp_bot.py:131 | a present body loses only the whitespace around it |
| WhatsappBot.IncomingIgnoresSender | whatsapp_bot.py:132-138 | the question passed to the chain does not depend on `From` |
| WhatsappBot.LeadDecision | whatsapp_bot.py:149-161 | the decision on one answer: no candidate, a caught parse error, or the agent message for any parsed object; `NoRecheck` and `AgreesWithApp` compare it with app.py |
| WhatsappBot.NoRecheck | whatsapp_bot.py:152-159 | a candidate that parses with a falsy `lead_detected` is forwarded here but dropped by app.py |
| WhatsappBot.AgreesWithApp | whatsapp_bot.py:149-159 | apart from that case, both front ends agree on whether to notify and on the message |
| WhatsappBot.Bot.constructor | whatsapp_bot.py:92-96 | the shared memory starts empty |
| WhatsappBot.Bot.Webhook | whatsapp_bot.py:129-163 | the reply is the chain's answer unchanged; the one shared memory gains this exchange whoever sent it; the lead branch catches its errors and the reply is still returned |
| WhatsappBot.ForwardLead | whatsapp_bot.py:149-161 | any parsed candidate is forwarded to each agent in order; a parse error or a raising send is caught and logged |
| WhatsappBot.BothAgentsOnce | whatsapp_bot.py:116-126 | a completed fan-out reaches both hard-coded numbers once each, in list order |
| DocApp.ErrorTextRoundTrip | doc_app.py:103 | the error reply carries the exception text between the fixed prefix and suffix, and it can be recovered |
| DocApp.ErrorTextInjective | doc_app.py:103 | different exception texts give different error replies |
| DocApp.ReplyText | doc_app.py:99-103 | the assistant turn is the chain's answer, or the error text carrying the exception message |
| DocApp.Session.constructor | doc_app.py:56-66 | a new session holds neither transcript nor memory |
| DocApp.Session.Init | doc_app.py:56-66 | transcript and memory are created empty only when absent; existing history survives a rerun |
| DocApp.Session.Render | doc_app.py:80-82 | turns are shown in stored order |
| DocApp.Session.Submit | doc_app.py:85-109 | a question appends exactly the user turn with the prompt verbatim, then the assistant turn with the answer or the error text; the memory records the exchange only when the chain answered |
| DocApp.Session.Clear | doc_app.py:112-114 | the clear button empties both the transcript and the memory |
| DocApp.Session.Run | doc_app.py:56-114 | one script run shows the old transcript; an empty or absent prompt leaves transcript and memory as initialised, otherwise the transcript gains one exchange and the memory gains it when the chain answered; clearing empties both |
| DocApp.Transcript | doc_app.py:87-109 | n submissions give 2n turns |
| DocApp.TranscriptShape | doc_app.py:87-109 | a transcript built by submissions alternates user/assistant starting with the user, and its questions are the prompts verbatim, in order |
| DocApp.TranscriptReplies | doc_app.py:99-109 | each assistant turn is its answer or its error text |
| DocEmbeddings.Kept | create_doc_embeddings.py:37 | a text contributes its stripped form when that is non-empty, and nothing when it is blank |
| DocEmbeddings.StrippedNonBlank | create_doc_embeddings.py:37 | every entry kept is non-empty and stripped |
| DocEmbeddings.StrippedNonBlankAppend | create_doc_embeddings.py:37 | the comprehension keeps document order: the entries of a later part of the input follow those of an earlier one |
| DocEmbeddings.KeptComesFromInput | create_doc_embeddings.py:37 | every kept entry is the stripped form of some input text |
| DocEmbeddings.NonBlankIsKept | create_doc_embeddings.py:37 | every non-blank input text is kept, stripped |
| DocEmbeddings.AllBlankKeepsNothing | create_doc_embeddings.py:37 | blank texts contribute nothing |
| DocEmbeddings.RowEntry | create_doc_embeddings.py:42-44 | a row adds one entry exactly when some cell is non-blank, and that entry is its stripped non-blank cells joined by the cell separator |
| DocEmbeddings.JoinStripped | create_doc_embeddings.py:44 | joining non-empty stripped cells with the cell separator gives a non-empty stripped text |
| DocEmbeddings.RowsClean | create_doc_embeddings.py:41-44 | every row entry is non-empty and stripped |
| DocEmbeddings.TablesClean | create_doc_embeddings.py:40-44 | every table entry is non-empty and stripped |
| DocEmbeddings.DocumentParagraphs | create_doc_embeddings.py:37-44 | the paragraph list: the stripped non-blank body paragraphs, then one entry per table row with a non-blank cell; `ParagraphsClean` and `ExtractParagraphs` state it |
| DocEmbeddings.ParagraphsClean | create_doc_embeddings.py:37-44 | no paragraph handed to the chunker is empty or has whitespace at either end |
| DocEmbeddings.TablesTextAppend | create_doc_embeddings.py:40-44 | the rows of a later table follow those of an earlier one |
| DocEmbeddings.ExtractParagraphs | create_doc_embeddings.py:37-44 | the paragraph list is the stripped non-blank body paragraphs, then one entry per non-blank row, table after table |
| DocEmbeddings.Groups | create_doc_embeddings.py:53-62 | the chunks the loop builds: consecutive groups of four paragraphs and a shorter last one; `GroupsShape` and `FlattenGroups` state it |
| DocEmbeddings.GroupsShape | create_doc_embeddings.py:49-71 | P paragraphs give ⌈P/4⌉ groups; all but the last hold four, and the last holds one to four |
| DocEmbeddings.FlattenGroups | create_doc_embeddings.py:53-71 | the groups put back together in order give the paragraph list |
| DocEmbeddings.GroupsAppend | create_doc_embeddings.py:53-62 | grouping a multiple of four paragraphs, then more, groups each part separately |
| DocEmbeddings.ChunkTexts | create_doc_embeddings.py:56 | each chunk text is its group joined by newlines |
| DocEmbeddings.ChunkTextSplits | create_doc_embeddings.py:56 | a chunk of line-free paragraphs splits back into them |
| DocEmbeddings.AddChunk | create_doc_embeddings.py:57-61 | the first chunk creates the index, and later ones are merged in after the others |
| DocEmbeddings.FlushChunk | create_doc_embeddings.py:55-62 | adding the chunk that follows whole groups extends the index by that group |
| DocEmbeddings.BuildIndex | create_doc_embeddings.py:49-71 | the loop and the remainder give one index entry per group, in order; the index stays None for no paragraphs |
| DocEmbeddings.Save | create_doc_embeddings.py:74 | saving succeeds exactly when an index exists |
| DocEmbeddings.EmptyDocumentFailsSave | create_doc_embeddings.py:37-50 | a document with only blank text yields no paragraphs |
| DocEmbeddings.BlankTables | create_doc_embeddings.py:40-44 | tables with only blank cells add nothing |
| DocEmbeddings.BlankRows | create_doc_embeddings.py:41-44 | rows with only blank cells add nothing |
| DocEmbeddings.IndexDocument | create_doc_embeddings.py:37-74 | the saved index holds one newline-joined chunk per group of four paragraphs, in order; with no paragraphs the save fails |
| ListingEmbeddings.Filter | create_embeddings.py:23-26 | every kept listing has a truthy description and address |
| ListingEmbeddings.FilterAppend | create_embeddings.py:23-26 | filtering distributes over concatenation, so kept listings keep their original order |
| ListingEmbeddings.FilterSingle | create_embeddings.py:25 | one listing is kept exactly when its description and address are truthy |
| ListingEmbeddings.FilterCounts | create_embeddings.py:23-26 | the kept listings are exactly those passing the filter, each as often as it occurs |
| ListingEmbeddings.FieldText | create_embeddings.py:36-45 | a missing field prints as the empty string |
| ListingEmbeddings.TextValues | create_embeddings.py:35-46 | the text has ten values exactly when `len(photos)` does not raise |
| ListingEmbeddings.TextValuesSpec | create_embeddings.py:35-46 | the values are the fields in fixed order (title, price, address, description, features, agent name, email, phone, photo count, url) |
| ListingEmbeddings.Pieces | create_embeddings.py:35-46 | one piece per label, each piece its label followed by its value |
| ListingEmbeddings.CombinedText | create_embeddings.py:35-46 | `combined_text`: the labelled pieces one after the other, or the TypeError of the photo count; `FieldInPlace` and `PhotoCountReadsBack` state its content |
| ListingEmbeddings.FieldInPlace | create_embeddings.py:35-46 | in the rendered text each label is followed by its value, in label order |
| ListingEmbeddings.MissingFieldEmpty | create_embeddings.py:36-45 | a missing key gives an empty value after its label |
| ListingEmbeddings.PhotoCountReadsBack | create_embeddings.py:44 | "Número de fotos" is the decimal `len(photos)`, which is 0 without a `photos` key |
| ListingEmbeddings.Project | create_embeddings.py:55-64 | the metadata record projects url, title, price, address, agent name, email and phone, with photos defaulting to `[]` |
| ListingEmbeddings.AsObject | create_embeddings.py:55-64 | the written record has exactly the eight keys |
| ListingEmbeddings.TextCountMatchesMetadata | create_embeddings.py:44-63 | the photo count in a listing's text equals the number of photos in its metadata record |
| ListingEmbeddings.StringUrlsLookupSafe | create_embeddings.py:56 | listings with string urls give metadata that the app.py lookup scans without `TypeError` |
| ListingEmbeddings.IndexedStep | create_embeddings.py:48-64 | indexing one more listing appends its text and its record |
| ListingEmbeddings.IndexListings | create_embeddings.py:29-64 | succeeds exactly when every kept listing renders; then there is one embedded text and one record per kept listing, index-aligned and in order, and no index before the first |
| ListingEmbeddings.Save | create_embeddings.py:69-71 | saving fails without an index; otherwise it stores the texts and the metadata |
| ListingEmbeddings.NothingKeptNothingSaved | create_embeddings.py:29-69 | with no listing passing the filter, the index stays None and the save fails |
| Scrap.PageUrl | scrap.py:34 | the URL of a page number |
| Scrap.PageUrlRoundTrip | scrap.py:34 | page 1 is the base URL; every other page URL carries its number, which reads back |
| Scrap.PageUrlInjective | scrap.py:34 | different pages load different URLs |
| Scrap.StopFrom | scrap.py:40-43 | the crawl stops at the first page without an anchor |
| Scrap.Kept | scrap.py:45-48 | exactly the truthy hrefs are kept |
| Scrap.Collected | scrap.py:45-48 | `all_links` after pages `lo` to `hi - 1`: their truthy hrefs, page after page; `CollectedFromPages` and `PagesCollected` state it |
| Scrap.CollectedFromPages | scrap.py:45-48 | every collected link is a truthy href of a visited page |
| Scrap.PagesCollected | scrap.py:45-48 | every truthy href of a visited page is collected |
| Scrap.Urls | scrap.py:32-51 | one URL per visited page |
| Scrap.UrlsNoRepeats | scrap.py:32-51 | no page is loaded twice |
| Scrap.Crawl | scrap.py:32-51 | pages 1, 2, … are visited in turn up to the first empty one, and links are collected in page order, then on-page order |
| Scrap.AppendTruthy | scrap.py:45-48 | the truthy hrefs of one page, in on-page order |
| Scrap.Distinct | scrap.py:65 | the distinct links have no repeats and the same membership as the collected ones |
| Scrap.Repeated | scrap.py:56 | the keys whose count is above one |
| Scrap.Duplicates | scrap.py:56 | the links counted more than once, each listed once; `DuplicatesSpec` states it |
| Scrap.DuplicatesSpec | scrap.py:56 | a link is a duplicate exactly when it was collected more than once, and none is listed twice |
| Scrap.UniqueLinksSpec | scrap.py:65 | `unique_links` has no repeats, the same links as `all_links`, and is no longer than it |
| Scrap.DistinctShorter | scrap.py:65 | there are no more distinct links than links |
| Scrap.DistinctOfDistinct | scrap.py:65 | a list without repeats is its own distinct list |
| Scrap.Run | scrap.py:32-69 | the saved list is the collected list with duplicates included; the duplicates and the distinct links are computed from it |
| Scrap.SavedKeepsRepeats | scrap.py:68-71 | a page listing one property twice gives a saved list with a repeat, one unique link and one duplicate |

## Left out

- The Azure OpenAI chat and embedding calls and FAISS (`from_texts`, `merge_from`, `save_local`, `load_local`, the retriever). These are foreign libraries over float vectors. The index is the ordered list of embedded texts, and the chain is a function parameter.
- `json.loads`. It is an abstract partial parser, passed as a parameter. Only the search and the branches on parse success or failure are modelled.
- Twilio sending, Flask routing and the TwiML envelope (`whatsapp_bot.py:145-146`, 163). These are I/O. A send is a `Delivery` record, a raising send is an index parameter, and the reply is the answer text.
- Streamlit rendering, CSS, the spinner placeholder and `st.rerun()`. These are UI.
- The `app.py` history expander (lines 183-186). It is display only.
- `App.Respond`, `WhatsappBot.Bot.Webhook`: an exception raised by the chain itself is not modelled. The chain is a total function. In `app.py` and `whatsapp_bot.py` such an exception is uncaught; `doc_app.py`'s catch is modelled.
- The `app.py` chain memory (lines 99-105). `App.Respond` starts from the answer. The shared memory is modelled in `WhatsappBot.Bot` and the session memory in `DocApp.Session`.
- LangChain `PromptTemplate` rendering and `ConversationBufferMemory` internals. These are library behaviour. The memory is the list of question/answer turns it records.
- `datetime.now()`. It is the `stamp` parameter.
- `print` logging. This includes the exception log in `whatsapp_bot.py`, which is the `logged` flag.
- `time.sleep`, the browser waits, the cookie banner, CLI arguments and `sys.exit`. These are timing and environment.
- Python's `str()`/`repr()` of numbers, lists and dicts. A JSON value carries its printed text as an opaque string.
- `App.FirstPhotos`: a dict-valued `photos` cannot be sliced. Python 3.12 and later raise `KeyError` for it and earlier versions raise `TypeError`; the model reports `KeyError`.
- Scrap.StopFrom, Scrap.Crawl: the site is a finite list of pages, every page past its end showing no anchor, so the modelled crawl always ends. `scrap.py`'s `while True` runs forever on a site where every result page lists a property; the model does not capture that non-termination.
- `Scrap.Distinct`, `Scrap.Run`: `list(set(all_links))` has an order that depends on hashing. The model fixes first-occurrence order, so `Scrap.Run`'s `unique` is `Distinct` of the saved links in that order. Python promises only membership, no repeats and at most the same length; `UniqueLinksSpec` and `DistinctShorter` prove these, and they hold in any order.
- The log line in `scrap.py:71` calls the saved `all_links` "unique". It is a print, and `Scrap.SavedKeepsRepeats` shows the saved list can hold repeats.
- `parse_listings.py`. It is threaded Selenium scraping with nondeterministic completion order.
- `quick_test.py`. It is one chain invocation with printing.
