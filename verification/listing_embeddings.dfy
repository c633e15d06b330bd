/**
 * The listing indexer (create_embeddings.py): listings with a truthy
 * description and address are rendered as one text each and embedded, and a
 * metadata record per embedded listing is written beside the index. The
 * index is modelled as the ordered list of embedded texts.
 */
module ListingEmbeddings {
  import opened Wrappers
  import opened Text
  import opened Json
  import App

  /** The filter of lines 23-26. */
  predicate Keep(listing: Object) {
    Truthy(Get(listing, "description")) && Truthy(Get(listing, "address"))
  }

  /** `[l for l in listings if l.get("description") and l.get("address")]` */
  function Filter(listings: seq<Object>): (r: seq<Object>)
    ensures |r| <= |listings|
    ensures forall k :: 0 <= k < |r| ==> Keep(r[k])
    decreases |listings|
  {
    if listings == [] then []
    else
      var n := |listings| - 1;
      Filter(listings[..n]) + (if Keep(listings[n]) then [listings[n]] else [])
  }

  /** Filtering distributes over concatenation: kept listings stay in their original order. */
  lemma {:induction false} FilterAppend(a: seq<Object>, b: seq<Object>)
    ensures Filter(a + b) == Filter(a) + Filter(b)
    decreases |b|
  {
    if b == [] {
      assert a + b == a;
    } else {
      var n := |b| - 1;
      assert (a + b)[..|a + b| - 1] == a + b[..n];
      assert (a + b)[|a + b| - 1] == b[n];
      FilterAppend(a, b[..n]);
    }
  }

  /** A listing is kept exactly when it passes the filter. */
  lemma FilterSingle(l: Object)
    ensures Filter([l]) == (if Keep(l) then [l] else [])
  {
    assert [l][..0] == [];
  }

  /** The kept listings are exactly the listings that pass the filter, each as often as it occurs. */
  lemma {:induction false} FilterCounts(listings: seq<Object>, l: Object)
    ensures multiset(Filter(listings))[l] == (if Keep(l) then multiset(listings)[l] else 0)
    decreases |listings|
  {
    if listings != [] {
      var n := |listings| - 1;
      FilterCounts(listings[..n], l);
      assert listings == listings[..n] + [listings[n]];
    }
  }

  /** The value of `listing.get(key, '')` as an f-string prints it. */
  function FieldText(listing: Object, key: string): (r: string)
    ensures key !in listing ==> r == ""
  {
    Show(GetOr(listing, key, Str("")))
  }

  /** `listing.get('photos', [])`. */
  function Photos(listing: Object): (r: Value)
    ensures "photos" !in listing ==> r.Arr? && r.items == []
  {
    GetOr(listing, "photos", Arr([], "[]"))
  }

  /** The labels of `combined_text`, in order; each is followed by the value of the matching key. */
  const TextLabels: seq<string> := [
    "Título: ", ". Precio: ", ". Dirección: ", ". Descripción: ", ". Características: ",
    ". Agente: ", ", Email: ", ", Teléfono: ", ". Número de fotos: ", ". URL: "]

  /** The keys printed after the labels, except the photo count (position 8), which is `len(photos)`. */
  const TextKeys: seq<string> := [
    "title", "price", "address", "description", "features",
    "agent_name", "agent_email", "agent_phone", "photos", "url"]

  /** Concatenation of text pieces. */
  function Concat(pieces: seq<string>): string
    decreases |pieces|
  {
    if pieces == [] then [] else pieces[0] + Concat(pieces[1..])
  }

  /** Where piece `i` starts in the concatenation. */
  function Offset(pieces: seq<string>, i: nat): nat
    requires i <= |pieces|
    decreases i
  {
    if i == 0 then 0 else Offset(pieces, i - 1) + |pieces[i - 1]|
  }

  /** Piece `i` sits at its offset in the concatenation. */
  lemma {:induction false} ConcatAt(pieces: seq<string>, i: nat)
    requires i < |pieces|
    ensures Offset(pieces, i) + |pieces[i]| <= |Concat(pieces)|
    ensures Concat(pieces)[Offset(pieces, i)..Offset(pieces, i) + |pieces[i]|] == pieces[i]
    decreases i
  {
    if i == 0 {
      assert Concat(pieces) == pieces[0] + Concat(pieces[1..]);
    } else {
      var rest := pieces[1..];
      ConcatAt(rest, i - 1);
      OffsetShift(pieces, i);
      assert Concat(pieces) == pieces[0] + Concat(rest);
      assert rest[i - 1] == pieces[i];
      var o := Offset(rest, i - 1);
      AppendSlice(pieces[0], Concat(rest), o, o + |pieces[i]|);
    }
  }

  /** A slice of the second part of a concatenation, taken from the whole. */
  lemma AppendSlice(a: string, b: string, lo: nat, hi: nat)
    requires lo <= hi <= |b|
    ensures (a + b)[|a| + lo..|a| + hi] == b[lo..hi]
  {
    var x, y := (a + b)[|a| + lo..|a| + hi], b[lo..hi];
    forall k | 0 <= k < hi - lo ensures x[k] == y[k] {
      assert x[k] == (a + b)[|a| + lo + k];
    }
  }

  /** Offsets in the pieces after the first are shifted by the first piece's length. */
  lemma {:induction false} OffsetShift(pieces: seq<string>, i: nat)
    requires 1 <= i <= |pieces|
    ensures Offset(pieces, i) == |pieces[0]| + Offset(pieces[1..], i - 1)
    decreases i
  {
    if i > 1 {
      OffsetShift(pieces, i - 1);
      assert pieces[1..][i - 2] == pieces[i - 1];
    }
  }

  /**
   * The values `combined_text` prints, in label order; None when
   * `len(listing.get('photos', []))` raises TypeError (photos is None, a
   * boolean or a number).
   */
  function TextValues(listing: Object): (r: Option<seq<string>>)
    ensures r.Some? <==> Len(Photos(listing)).Some?
    ensures r.Some? ==> |r.value| == 10
  {
    match Len(Photos(listing))
    case None => None
    case Some(count) =>
      Some(seq(10, i requires 0 <= i < 10 => if i == 8 then NatToString(count) else FieldText(listing, TextKeys[i])))
  }

  /**
   * The values are the fields named by the keys, in order, with the photo
   * count in place of the photos; there are values exactly when that count
   * exists.
   */
  lemma TextValuesSpec(listing: Object)
    ensures var r := TextValues(listing);
      && (r.Some? ==> forall i :: 0 <= i < 10 && i != 8 ==> r.value[i] == FieldText(listing, TextKeys[i]))
      && (r.Some? ==> r.value[8] == NatToString(Len(Photos(listing)).value))
  {
  }

  /** Each label followed by its value. */
  function Pieces(labels: seq<string>, values: seq<string>): (r: seq<string>)
    requires |labels| == |values|
    ensures |r| == |labels|
    ensures forall i :: 0 <= i < |labels| ==> r[i] == labels[i] + values[i]
  {
    seq(|labels|, i requires 0 <= i < |labels| => labels[i] + values[i])
  }

  /** The text of lines 35-46 for the given values: the labelled pieces, one after the other. */
  function Rendered(values: seq<string>): string
    requires |values| == 10
  {
    Concat(Pieces(TextLabels, values))
  }

  /** `combined_text` (lines 35-46), or the TypeError its photo count raises. */
  function CombinedText(listing: Object): Result<string, string> {
    match TextValues(listing)
    case None => Failure("TypeError")
    case Some(values) => Success(Rendered(values))
  }

  /** A piece made of a label and a value has its label, then its value, at the piece's offset. */
  lemma PieceInPlace(pieces: seq<string>, i: nat, lab: string, value: string)
    requires i < |pieces| && pieces[i] == lab + value
    ensures var o := Offset(pieces, i);
      && o + |lab| + |value| <= |Concat(pieces)|
      && Concat(pieces)[o..o + |lab|] == lab
      && Concat(pieces)[o + |lab|..o + |lab| + |value|] == value
  {
    var text, o, piece := Concat(pieces), Offset(pieces, i), pieces[i];
    ConcatAt(pieces, i);
    assert o + |piece| <= |text| && text[o..o + |piece|] == piece;
    PieceParts(text, o, piece, lab, value);
  }

  /** In the text of a listing, each label is followed by its value, in the order of the labels. */
  lemma FieldInPlace(values: seq<string>, i: nat, lab: string)
    requires |values| == 10 && i < 10 && lab == TextLabels[i]
    ensures var o := Offset(Pieces(TextLabels, values), i);
      && o + |lab| + |values[i]| <= |Rendered(values)|
      && Rendered(values)[o..o + |lab|] == lab
      && Rendered(values)[o + |lab|..o + |lab| + |values[i]|] == values[i]
  {
    var pieces := Pieces(TextLabels, values);
    assert pieces[i] == lab + values[i];
    PieceInPlace(pieces, i, lab, values[i]);
  }

  /** A missing key prints as the empty string, so its label is followed directly by the next label. */
  lemma MissingFieldEmpty(listing: Object, i: nat)
    requires i < 10 && i != 8 && CombinedText(listing).Success? && TextKeys[i] !in listing
    ensures TextValues(listing).value[i] == ""
  {
    TextValuesSpec(listing);
  }

  /** A label-and-value piece found in a text has its label, then its value, at the same place. */
  lemma PieceParts(text: string, o: nat, piece: string, lab: string, value: string)
    requires piece == lab + value
    requires o + |piece| <= |text| && text[o..o + |piece|] == piece
    ensures text[o..o + |lab|] == lab
    ensures text[o + |lab|..o + |lab| + |value|] == value
  {
    assert text[o..o + |lab|] == piece[..|lab|];
    assert text[o + |lab|..o + |lab| + |value|] == piece[|lab|..];
  }

  /** The photo count in the text reads back as `len(photos)`, which is 0 without a `photos` key. */
  lemma PhotoCountReadsBack(listing: Object)
    requires CombinedText(listing).Success?
    ensures var count := TextValues(listing).value[8];
      && (forall k :: 0 <= k < |count| ==> IsDigit(count[k]))
      && DecimalValue(count) == Len(Photos(listing)).value
      && ("photos" !in listing ==> DecimalValue(count) == 0)
  {
    TextValuesSpec(listing);
    DecimalRoundTrip(Len(Photos(listing)).value);
  }

  /** A metadata record of lines 55-64: the fields app.py needs to show a listing. */
  datatype Record = Record(url: Value, title: Value, price: Value, address: Value,
                           agentName: Value, agentEmail: Value, agentPhone: Value, photos: Value)

  /** The metadata record of a listing: its fields as `listing.get` reads them, photos defaulting to `[]`. */
  function Project(listing: Object): (r: Record)
    ensures r.url == Get(listing, "url") && r.title == Get(listing, "title") && r.price == Get(listing, "price")
    ensures r.address == Get(listing, "address") && r.agentName == Get(listing, "agent_name")
    ensures r.agentEmail == Get(listing, "agent_email") && r.agentPhone == Get(listing, "agent_phone")
    ensures r.photos == Photos(listing)
  {
    Record(Get(listing, "url"), Get(listing, "title"), Get(listing, "price"), Get(listing, "address"),
           Get(listing, "agent_name"), Get(listing, "agent_email"), Get(listing, "agent_phone"), Photos(listing))
  }

  /** The record as the JSON object written to `metadata.json`. */
  function AsObject(record: Record): (r: Object)
    ensures r.Keys == {"url", "title", "price", "address", "agent_name", "agent_email", "agent_phone", "photos"}
    ensures r["url"] == record.url && r["photos"] == record.photos
  {
    map["url" := record.url, "title" := record.title, "price" := record.price, "address" := record.address,
        "agent_name" := record.agentName, "agent_email" := record.agentEmail,
        "agent_phone" := record.agentPhone, "photos" := record.photos]
  }

  /** The photo count in a listing's text is the number of photos its metadata record carries. */
  lemma TextCountMatchesMetadata(listing: Object)
    requires CombinedText(listing).Success?
    ensures TextValues(listing).Some? && (forall k :: 0 <= k < |TextValues(listing).value[8]| ==> IsDigit(TextValues(listing).value[8][k]))
    ensures Len(Project(listing).photos) == Some(DecimalValue(TextValues(listing).value[8]))
  {
    PhotoCountReadsBack(listing);
  }

  /**
   * Listings whose url is a string give metadata the photo lookup of app.py
   * can scan without a TypeError.
   */
  lemma StringUrlsLookupSafe(listings: seq<Object>)
    requires forall k :: 0 <= k < |listings| ==> Get(listings[k], "url").Str?
    ensures App.AllUrlsStrings(seq(|listings|, k requires 0 <= k < |listings| => AsObject(Project(listings[k]))))
  {
  }

  /** Every listing renders: none has a photo count that raises. */
  predicate AllRender(listings: seq<Object>) {
    forall k :: 0 <= k < |listings| ==> CombinedText(listings[k]).Success?
  }

  /** What the indexing loop produced: the embedded texts (None before the first) and the metadata records. */
  datatype Indexed = Indexed(index: Option<seq<string>>, metadata: seq<Record>)

  /**
   * Lines 29-64: one embedding and one metadata record per kept listing, in
   * order. A listing whose photo count raises stops the script.
   */
  method IndexListings(listings: seq<Object>) returns (r: Result<Indexed, string>)
    ensures r.Success? <==> AllRender(Filter(listings))
    ensures r.Success? ==> IndexedAs(Filter(listings), |Filter(listings)|, r.value)
  {
    var kept := Filter(listings);
    var index: Option<seq<string>> := None;
    var metadata: seq<Record> := [];
    for i := 0 to |kept|
      invariant IndexedAs(kept, i, Indexed(index, metadata))
    {
      var listing := kept[i];
      var text := CombinedText(listing);
      if text.Failure? {
        return Failure(text.error);
      }
      var entry := text.value;
      var record := Project(listing);
      IndexedStep(kept, i, Indexed(index, metadata), entry);
      if index.None? {
        index := Some([entry]);
      } else {
        index := Some(index.value + [entry]);
      }
      metadata := metadata + [record];
    }
    r := Success(Indexed(index, metadata));
  }

  /**
   * The first `n` kept listings are indexed: one embedded text and one
   * metadata record each, in order; no index exists before the first.
   */
  predicate IndexedAs(kept: seq<Object>, n: nat, indexed: Indexed)
    requires n <= |kept|
  {
    && |indexed.metadata| == n
    && (n == 0 <==> indexed.index.None?)
    && (indexed.index.Some? ==> |indexed.index.value| == n)
    && (indexed.index.Some? ==> forall k :: 0 <= k < n ==> CombinedText(kept[k]) == Success(indexed.index.value[k]))
    && (forall k :: 0 <= k < n ==> indexed.metadata[k] == Project(kept[k]))
  }

  /** Indexing one more kept listing whose text is `entry`. */
  lemma IndexedStep(kept: seq<Object>, i: nat, indexed: Indexed, entry: string)
    requires i < |kept| && IndexedAs(kept, i, indexed) && CombinedText(kept[i]) == Success(entry)
    ensures var index := if indexed.index.None? then Some([entry]) else Some(indexed.index.value + [entry]);
      IndexedAs(kept, i + 1, Indexed(index, indexed.metadata + [Project(kept[i])]))
  {
  }

  /**
   * Lines 68-71: `faiss_index.save_local` fails on None (AttributeError)
   * before the metadata file is written; otherwise both are stored.
   */
  function Save(indexed: Indexed): (r: Result<(seq<string>, seq<Record>), string>)
    ensures r.Success? <==> indexed.index.Some?
    ensures r.Success? ==> r.value == (indexed.index.value, indexed.metadata)
  {
    if indexed.index.None? then Failure("AttributeError") else Success((indexed.index.value, indexed.metadata))
  }

  /** With no listing passing the filter, nothing is indexed and saving fails. */
  lemma NothingKeptNothingSaved(listings: seq<Object>, indexed: Indexed)
    requires forall k :: 0 <= k < |listings| ==> !Keep(listings[k])
    requires IndexedAs(Filter(listings), |Filter(listings)|, indexed)
    ensures Filter(listings) == [] && indexed.index.None?
    ensures Save(indexed).Failure?
  {
    NothingPassesFilter(listings);
  }

  /** A list none of whose listings passes the filter filters to nothing. */
  lemma {:induction false} NothingPassesFilter(listings: seq<Object>)
    requires forall k :: 0 <= k < |listings| ==> !Keep(listings[k])
    ensures Filter(listings) == []
    decreases |listings|
  {
    if listings != [] {
      NothingPassesFilter(listings[..|listings| - 1]);
    }
  }
}
