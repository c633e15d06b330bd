/**
 * The document indexer (create_doc_embeddings.py): the text of a .docx file
 * is flattened into paragraphs (body paragraphs, then table rows), the
 * paragraphs are grouped four at a time into newline-joined chunks, and one
 * index entry is added per chunk. The index is modelled as the ordered list
 * of chunk texts that were embedded; `None` until the first chunk creates it.
 */
module DocEmbeddings {
  import opened Wrappers
  import opened Text

  /** A .docx file as python-docx shows it: paragraph texts, and tables as rows of cell texts. */
  datatype Document = Document(paragraphs: seq<string>, tables: seq<seq<seq<string>>>)

  /** What one text contributes to `[x.strip() for x in xs if x.strip()]`. */
  function Kept(x: string): (r: seq<string>)
    ensures |r| <= 1
    ensures r == [] <==> AllSpace(x)
    ensures r != [] ==> r[0] == Strip(x) && r[0] != [] && IsStripped(r[0])
  {
    var y := Strip(x);
    if y != [] then [y] else []
  }

  /** `[x.strip() for x in xs if x.strip()]` */
  function StrippedNonBlank(xs: seq<string>): (r: seq<string>)
    ensures |r| <= |xs|
    ensures forall k :: 0 <= k < |r| ==> r[k] != [] && IsStripped(r[k])
    decreases |xs|
  {
    if xs == [] then [] else StrippedNonBlank(xs[..|xs| - 1]) + Kept(xs[|xs| - 1])
  }

  /** The comprehension keeps document order: the texts of a later part follow those of an earlier one. */
  lemma {:induction false} StrippedNonBlankAppend(a: seq<string>, b: seq<string>)
    ensures StrippedNonBlank(a + b) == StrippedNonBlank(a) + StrippedNonBlank(b)
    decreases |b|
  {
    if b != [] {
      var n := |b| - 1;
      assert (a + b)[..|a + b| - 1] == a + b[..n];
      assert (a + b)[|a + b| - 1] == b[n];
      StrippedNonBlankAppend(a, b[..n]);
    } else {
      assert a + b == a;
    }
  }

  /** Every kept entry is the stripped form of some input text. */
  lemma {:induction false} KeptComesFromInput(xs: seq<string>, i: nat)
    requires i < |StrippedNonBlank(xs)|
    ensures exists k :: 0 <= k < |xs| && Strip(xs[k]) == StrippedNonBlank(xs)[i]
    decreases |xs|
  {
    var n := |xs| - 1;
    var init := StrippedNonBlank(xs[..n]);
    if i < |init| {
      KeptComesFromInput(xs[..n], i);
      var k :| 0 <= k < n && Strip(xs[..n][k]) == init[i];
      assert xs[..n][k] == xs[k];
    } else {
      assert Strip(xs[n]) == StrippedNonBlank(xs)[i];
    }
  }

  /** Every input text that is not blank is kept, stripped, at some position `i`. */
  lemma {:induction false} NonBlankIsKept(xs: seq<string>, k: nat) returns (i: nat)
    requires k < |xs| && !AllSpace(xs[k])
    ensures i < |StrippedNonBlank(xs)| && StrippedNonBlank(xs)[i] == Strip(xs[k])
    decreases |xs|
  {
    var n := |xs| - 1;
    var init := StrippedNonBlank(xs[..n]);
    assert StrippedNonBlank(xs) == init + Kept(xs[n]);
    if k < n {
      assert xs[..n][k] == xs[k];
      i := NonBlankIsKept(xs[..n], k);
    } else {
      i := |init|;
      assert k == n;
      assert Kept(xs[n]) == [Strip(xs[n])];
    }
  }

  /** Blank texts contribute nothing. */
  lemma {:induction false} AllBlankKeepsNothing(xs: seq<string>)
    requires forall k :: 0 <= k < |xs| ==> AllSpace(xs[k])
    ensures StrippedNonBlank(xs) == []
    decreases |xs|
  {
    if xs != [] {
      AllBlankKeepsNothing(xs[..|xs| - 1]);
    }
  }

  const CellSeparator := " | "

  /** What one table row adds: its non-empty stripped cells joined by ` | `, or nothing when every cell is blank. */
  function RowEntry(row: seq<string>): (r: seq<string>)
    ensures |r| <= 1
    ensures r == [] <==> StrippedNonBlank(row) == []
    ensures r != [] ==> r == [Join(CellSeparator, StrippedNonBlank(row))]
  {
    var cells := StrippedNonBlank(row);
    if cells != [] then [Join(CellSeparator, cells)] else []
  }

  /** The rows of one table, in order. */
  function RowsText(rows: seq<seq<string>>): seq<string>
    decreases |rows|
  {
    if rows == [] then [] else RowsText(rows[..|rows| - 1]) + RowEntry(rows[|rows| - 1])
  }

  /** The rows of all tables, table by table. */
  function TablesText(tables: seq<seq<seq<string>>>): seq<string>
    decreases |tables|
  {
    if tables == [] then [] else TablesText(tables[..|tables| - 1]) + RowsText(tables[|tables| - 1])
  }

  /** The list of paragraphs the chunker receives. */
  function DocumentParagraphs(doc: Document): seq<string> {
    StrippedNonBlank(doc.paragraphs) + TablesText(doc.tables)
  }

  /** A join of non-empty stripped pieces is non-empty and stripped. */
  lemma {:induction false} JoinStripped(parts: seq<string>)
    requires |parts| >= 1
    requires forall k :: 0 <= k < |parts| ==> parts[k] != [] && IsStripped(parts[k])
    ensures var j := Join(CellSeparator, parts);
      j != [] && j[0] == parts[0][0] && j[|j| - 1] == parts[|parts| - 1][|parts[|parts| - 1]| - 1]
    ensures IsStripped(Join(CellSeparator, parts))
  {
    if |parts| > 1 {
      JoinStripped(parts[1..]);
      var rest := Join(CellSeparator, parts[1..]);
      var j := parts[0] + CellSeparator + rest;
      assert Join(CellSeparator, parts) == j;
      assert j[0] == parts[0][0];
      assert j[|j| - 1] == rest[|rest| - 1];
    }
  }

  /** Every table entry is non-empty and stripped. */
  lemma {:induction false} RowsClean(rows: seq<seq<string>>)
    ensures forall k :: 0 <= k < |RowsText(rows)| ==> RowsText(rows)[k] != [] && IsStripped(RowsText(rows)[k])
    decreases |rows|
  {
    if rows != [] {
      var init, entry := RowsText(rows[..|rows| - 1]), RowEntry(rows[|rows| - 1]);
      RowsClean(rows[..|rows| - 1]);
      if entry != [] {
        JoinStripped(StrippedNonBlank(rows[|rows| - 1]));
      }
      forall k | 0 <= k < |init + entry| ensures (init + entry)[k] != [] && IsStripped((init + entry)[k]) {
        if k < |init| {
          assert (init + entry)[k] == init[k];
        } else {
          assert (init + entry)[k] == entry[0];
        }
      }
    }
  }

  lemma {:induction false} TablesClean(tables: seq<seq<seq<string>>>)
    ensures forall k :: 0 <= k < |TablesText(tables)| ==> TablesText(tables)[k] != [] && IsStripped(TablesText(tables)[k])
    decreases |tables|
  {
    if tables != [] {
      TablesClean(tables[..|tables| - 1]);
      RowsClean(tables[|tables| - 1]);
    }
  }

  /** No paragraph handed to the chunker is empty or has whitespace at either end. */
  lemma ParagraphsClean(doc: Document)
    ensures forall k :: 0 <= k < |DocumentParagraphs(doc)| ==>
      DocumentParagraphs(doc)[k] != [] && IsStripped(DocumentParagraphs(doc)[k])
  {
    TablesClean(doc.tables);
  }

  /** Table entries come table after table: the rows of a later table follow those of an earlier one. */
  lemma {:induction false} TablesTextAppend(t1: seq<seq<seq<string>>>, t2: seq<seq<seq<string>>>)
    ensures TablesText(t1 + t2) == TablesText(t1) + TablesText(t2)
    decreases |t2|
  {
    if t2 != [] {
      var n := |t2| - 1;
      assert (t1 + t2)[..|t1 + t2| - 1] == t1 + t2[..n];
      assert (t1 + t2)[|t1 + t2| - 1] == t2[n];
      TablesTextAppend(t1, t2[..n]);
    } else {
      assert t1 + t2 == t1;
    }
  }

  /**
   * Lines 37-44: the body paragraphs, stripped and without blank ones, then
   * one entry per table row that has a non-blank cell.
   */
  method ExtractParagraphs(doc: Document) returns (paragraphs: seq<string>)
    ensures paragraphs == DocumentParagraphs(doc)
  {
    var tables := doc.tables;
    paragraphs := StrippedNonBlank(doc.paragraphs);
    ghost var body := paragraphs;
    for t := 0 to |tables|
      invariant paragraphs == body + TablesText(tables[..t])
    {
      var rows := tables[t];
      ghost var before := paragraphs;
      for r := 0 to |rows|
        invariant paragraphs == before + RowsText(rows[..r])
      {
        var cells := StrippedNonBlank(rows[r]);
        if cells != [] {
          paragraphs := paragraphs + [Join(CellSeparator, cells)];
        }
        RowsTextStep(rows, r);
        AppendAssoc(before, RowsText(rows[..r]), RowEntry(rows[r]));
      }
      assert rows[..|rows|] == rows;
      TablesTextStep(tables, t);
      AppendAssoc(body, TablesText(tables[..t]), RowsText(rows));
    }
    assert tables[..|tables|] == tables;
  }

  /** Regrouping a concatenation. */
  lemma AppendAssoc(a: seq<string>, b: seq<string>, c: seq<string>)
    ensures a + b + c == a + (b + c)
  {
  }

  lemma RowsTextStep(rows: seq<seq<string>>, r: nat)
    requires r < |rows|
    ensures RowsText(rows[..r + 1]) == RowsText(rows[..r]) + RowEntry(rows[r])
  {
    assert rows[..r + 1][..r] == rows[..r];
  }

  lemma TablesTextStep(tables: seq<seq<seq<string>>>, t: nat)
    requires t < |tables|
    ensures TablesText(tables[..t + 1]) == TablesText(tables[..t]) + RowsText(tables[t])
  {
    assert tables[..t + 1][..t] == tables[..t];
  }

  /** `CHUNK_SIZE`: paragraphs per chunk. */
  const ChunkSize := 4

  /** The paragraph groups the loop forms: runs of four, then the rest. */
  function Groups(s: seq<string>): (r: seq<seq<string>>)
    decreases |s|
  {
    if s == [] then [] else if |s| <= ChunkSize then [s] else [s[..ChunkSize]] + Groups(s[ChunkSize..])
  }

  /** Concatenation of groups. */
  function Flatten(gs: seq<seq<string>>): seq<string>
    decreases |gs|
  {
    if gs == [] then [] else gs[0] + Flatten(gs[1..])
  }

  /** ⌈P/4⌉ groups, all of four paragraphs but the last, which holds one to four. */
  lemma {:induction false} GroupsShape(s: seq<string>)
    ensures |Groups(s)| == (|s| + ChunkSize - 1) / ChunkSize
    ensures forall k :: 0 <= k < |Groups(s)| - 1 ==> |Groups(s)[k]| == ChunkSize
    ensures s != [] ==> 1 <= |Groups(s)[|Groups(s)| - 1]| <= ChunkSize
    decreases |s|
  {
    if |s| > ChunkSize {
      GroupsShape(s[ChunkSize..]);
    }
  }

  /** Putting the groups back together in order gives the paragraph list. */
  lemma {:induction false} FlattenGroups(s: seq<string>)
    ensures Flatten(Groups(s)) == s
    decreases |s|
  {
    if |s| > ChunkSize {
      FlattenGroups(s[ChunkSize..]);
      assert Groups(s)[1..] == Groups(s[ChunkSize..]);
      assert s[..ChunkSize] + s[ChunkSize..] == s;
    } else if s != [] {
      assert Groups(s)[1..] == [];
    }
  }

  /** Grouping a list whose length is a multiple of four, then more: the groups of each part. */
  lemma {:induction false} GroupsAppend(a: seq<string>, b: seq<string>)
    requires |a| % ChunkSize == 0
    ensures Groups(a + b) == Groups(a) + Groups(b)
    decreases |a|
  {
    if a == [] {
      assert a + b == b;
    } else {
      var rest := a[ChunkSize..];
      assert (a + b)[..ChunkSize] == a[..ChunkSize];
      assert (a + b)[ChunkSize..] == rest + b;
      GroupsAppend(rest, b);
      if |a| == ChunkSize {
        assert a[..ChunkSize] == a;
        assert Groups(a) == [a];
        assert rest + b == b;
        if b == [] {
          assert a + b == a;
        }
      }
    }
  }

  /** One chunk's text: its paragraphs joined by newlines. */
  function ChunkText(group: seq<string>): string {
    Join("\n", group)
  }

  /** The chunk texts in order. */
  function ChunkTexts(gs: seq<seq<string>>): (r: seq<string>)
    ensures |r| == |gs|
    ensures forall k :: 0 <= k < |gs| ==> r[k] == ChunkText(gs[k])
  {
    seq(|gs|, k requires 0 <= k < |gs| => ChunkText(gs[k]))
  }

  /** A chunk of paragraphs without line breaks splits back into those paragraphs. */
  lemma ChunkTextSplits(group: seq<string>)
    requires |group| >= 1
    requires forall k :: 0 <= k < |group| ==> '\n' !in group[k]
    ensures Split(ChunkText(group), '\n') == group
  {
    SplitJoin(group, '\n');
  }

  /** The entries of the index; none before it exists. */
  function Entries(index: Option<seq<string>>): seq<string> {
    if index.None? then [] else index.value
  }

  /** `faiss_index` after adding one chunk: the first chunk creates it, later ones are merged in after the others. */
  function AddChunk(index: Option<seq<string>>, text: string): (r: Option<seq<string>>)
    ensures r.Some? && r.value == Entries(index) + [text]
  {
    if index.None? then Some([text]) else Some(index.value + [text])
  }

  /** The chunk texts of some groups followed by one more. */
  lemma ChunkTextsSnoc(gs: seq<seq<string>>, g: seq<string>)
    ensures ChunkTexts(gs + [g]) == ChunkTexts(gs) + [ChunkText(g)]
  {
  }

  /** Adding the chunk that follows whole groups extends the index by that chunk's group. */
  lemma FlushChunk(done: seq<string>, chunk: seq<string>, index: Option<seq<string>>)
    requires |done| % ChunkSize == 0 && 1 <= |chunk| <= ChunkSize
    requires Entries(index) == ChunkTexts(Groups(done))
    ensures Entries(AddChunk(index, ChunkText(chunk))) == ChunkTexts(Groups(done + chunk))
  {
    GroupsAppend(done, chunk);
    assert Groups(chunk) == [chunk];
    ChunkTextsSnoc(Groups(done), chunk);
  }

  /**
   * Lines 49-71: the chunking loop and the remainder. The index holds one
   * entry per group, in order; it stays None for an empty paragraph list.
   */
  method BuildIndex(paragraphs: seq<string>) returns (index: Option<seq<string>>)
    ensures paragraphs == [] ==> index == None
    ensures paragraphs != [] ==> index.Some? && index.value == ChunkTexts(Groups(paragraphs))
  {
    index := None;
    var chunk: seq<string> := [];
    ghost var done: seq<string> := [];
    for i := 0 to |paragraphs|
      invariant done + chunk == paragraphs[..i]
      invariant |done| % ChunkSize == 0 && |chunk| < ChunkSize
      invariant index.None? <==> done == []
      invariant Entries(index) == ChunkTexts(Groups(done))
    {
      chunk := chunk + [paragraphs[i]];
      assert done + chunk == paragraphs[..i + 1];
      if |chunk| >= ChunkSize {
        FlushChunk(done, chunk, index);
        index := AddChunk(index, ChunkText(chunk));
        done, chunk := done + chunk, [];
      }
    }
    assert paragraphs[..|paragraphs|] == paragraphs;
    if chunk != [] {
      FlushChunk(done, chunk, index);
      index := AddChunk(index, ChunkText(chunk));
      done := done + chunk;
    }
  }

  /** `faiss_index.save_local(index_dir)`: fails on None (AttributeError), otherwise stores the entries. */
  function Save(index: Option<seq<string>>): (r: Result<seq<string>, string>)
    ensures r.Success? <==> index.Some?
  {
    if index.None? then Failure("AttributeError") else Success(index.value)
  }

  /** A document with no text leaves no index, and saving fails. */
  lemma EmptyDocumentFailsSave(doc: Document)
    requires forall k :: 0 <= k < |doc.paragraphs| ==> AllSpace(doc.paragraphs[k])
    requires forall t, r :: 0 <= t < |doc.tables| && 0 <= r < |doc.tables[t]| ==>
      forall c :: 0 <= c < |doc.tables[t][r]| ==> AllSpace(doc.tables[t][r][c])
    ensures DocumentParagraphs(doc) == []
  {
    AllBlankKeepsNothing(doc.paragraphs);
    BlankTables(doc.tables);
  }

  lemma {:induction false} BlankTables(tables: seq<seq<seq<string>>>)
    requires forall t, r :: 0 <= t < |tables| && 0 <= r < |tables[t]| ==>
      forall c :: 0 <= c < |tables[t][r]| ==> AllSpace(tables[t][r][c])
    ensures TablesText(tables) == []
    decreases |tables|
  {
    if tables != [] {
      var n := |tables| - 1;
      BlankTables(tables[..n]);
      BlankRows(tables[n]);
    }
  }

  lemma {:induction false} BlankRows(rows: seq<seq<string>>)
    requires forall r :: 0 <= r < |rows| ==> forall c :: 0 <= c < |rows[r]| ==> AllSpace(rows[r][c])
    ensures RowsText(rows) == []
    decreases |rows|
  {
    if rows != [] {
      var n := |rows| - 1;
      BlankRows(rows[..n]);
      AllBlankKeepsNothing(rows[n]);
    }
  }

  /**
   * The whole script on a document: the saved index holds, in order, one
   * newline-joined chunk per group of four paragraphs; with no paragraphs the
   * save fails.
   */
  method IndexDocument(doc: Document) returns (saved: Result<seq<string>, string>)
    ensures DocumentParagraphs(doc) == [] ==> saved.Failure?
    ensures DocumentParagraphs(doc) != [] ==> saved == Success(ChunkTexts(Groups(DocumentParagraphs(doc))))
  {
    var paragraphs := ExtractParagraphs(doc);
    var index := BuildIndex(paragraphs);
    saved := Save(index);
  }
}
