/**
 * The lead candidate search shared by app.py and whatsapp_bot.py:
 *
 *     re.search(r'\{.*?"lead_detected"\s*:\s*true.*?\}', text, re.DOTALL)
 *
 * modelled as the backtracking matcher runs it. `re.search` tries start
 * positions from the left; at a start holding `{` the lazy `.*?` tries the
 * marker at each later position in turn; each greedy `\s*` is followed by a
 * non-space literal (`:` or `t`), so it never gives characters back; the
 * final lazy `.*?\}` stops at the first `}` after `true`. With DOTALL `.`
 * matches every character, newlines included.
 */
module LeadSearch {
  import opened Wrappers
  import opened Text

  const Key: string := "\"lead_detected\""
  const TrueWord: string := "true"

  /** `w` occurs in `s` at position `k`. */
  predicate HasAt(s: string, k: nat, w: string) {
    k + |w| <= |s| && s[k..k + |w|] == w
  }

  /** Where a greedy `\s*` started at `k` stops: the first non-space at or after `k`. */
  function SkipSpaces(s: string, k: nat): (r: nat)
    requires k <= |s|
    ensures k <= r <= |s|
    ensures forall i :: k <= i < r ==> IsSpace(s[i])
    ensures r < |s| ==> !IsSpace(s[r])
    decreases |s| - k
  {
    if k < |s| && IsSpace(s[k]) then SkipSpaces(s, k + 1) else k
  }

  /** Where `"lead_detected"\s*:\s*true` ends when matched at `j`; None when it does not match there. */
  function MarkerEnd(s: string, j: nat): (r: Option<nat>)
    requires j <= |s|
    ensures r.Some? ==> j + |Key| < r.value <= |s|
  {
    if !HasAt(s, j, Key) then None
    else
      var c := SkipSpaces(s, j + |Key|);
      if c == |s| || s[c] != ':' then None
      else
        var t := SkipSpaces(s, c + 1);
        if HasAt(s, t, TrueWord) then Some(t + |TrueWord|) else None
  }

  /** The marker `"lead_detected"\s*:\s*true` matches at `j`. */
  predicate MarkerAt(s: string, j: nat) {
    j <= |s| && MarkerEnd(s, j).Some?
  }

  /** A marker matches at `j` and some `}` follows it, so `.*?\}` can finish. */
  predicate ClosedAt(s: string, j: nat) {
    MarkerAt(s, j) && Find(s, '}', MarkerEnd(s, j).value).Some?
  }

  /** Index of the `}` that closes the marker at `j`. */
  function CloseOf(s: string, j: nat): (r: nat)
    requires ClosedAt(s, j)
    ensures j + |Key| < r < |s| && s[r] == '}'
  {
    Find(s, '}', MarkerEnd(s, j).value).value
  }

  /** The lazy `.*?` after `{`: the first position `>= j` where the rest of the pattern matches. */
  function FirstClosed(s: string, j: nat): (r: Option<nat>)
    requires j <= |s|
    ensures r.Some? ==> j <= r.value <= |s| && ClosedAt(s, r.value)
    ensures r.Some? ==> forall k :: j <= k < r.value ==> !ClosedAt(s, k)
    ensures r.None? ==> forall k :: j <= k <= |s| ==> !ClosedAt(s, k)
    decreases |s| - j
  {
    if ClosedAt(s, j) then Some(j) else if j == |s| then None else FirstClosed(s, j + 1)
  }

  /** The match attempt at start position `b`, as a (start, end) span. */
  function MatchAt(s: string, b: nat): Option<(nat, nat)>
    requires b < |s|
  {
    if s[b] != '{' then None
    else
      match FirstClosed(s, b + 1)
      case None => None
      case Some(j) => Some((b, CloseOf(s, j) + 1))
  }

  function SearchFrom(s: string, i: nat): Option<(nat, nat)>
    requires i <= |s|
    decreases |s| - i
  {
    if i == |s| then None else if MatchAt(s, i).Some? then MatchAt(s, i) else SearchFrom(s, i + 1)
  }

  /** `re.search(...)`: the span `(start, end)` of `match.group()`, or None. */
  function Search(s: string): Option<(nat, nat)> {
    SearchFrom(s, 0)
  }

  /** A `{` at `b` with a closable marker somewhere after it. */
  ghost predicate Opens(s: string, b: nat) {
    b < |s| && s[b] == '{' && exists j :: b < j <= |s| && ClosedAt(s, j)
  }

  /**
   * The span the search must return, stated without the search: it starts at
   * the leftmost `{` that has a closable marker after it, and ends just after
   * the first `}` that follows the first marker after that `{`.
   */
  ghost predicate IsLeadSpan(s: string, b: nat, e: nat) {
    && Opens(s, b)
    && (forall i :: 0 <= i < b ==> !Opens(s, i))
    && IsSpanAfter(s, b, e)
  }

  /** The pieces a marker match at `j` is made of. */
  lemma MarkerParts(s: string, j: nat) returns (c: nat, t: nat)
    requires MarkerAt(s, j)
    ensures j + |Key| <= c < t && t + |TrueWord| <= |s|
    ensures s[j..j + |Key|] == Key
    ensures forall i :: j + |Key| <= i < c ==> IsSpace(s[i])
    ensures s[c] == ':'
    ensures forall i :: c < i < t ==> IsSpace(s[i])
    ensures s[t..t + |TrueWord|] == TrueWord
    ensures MarkerEnd(s, j) == Some(t + |TrueWord|)
  {
    c := SkipSpaces(s, j + |Key|);
    t := SkipSpaces(s, c + 1);
  }

  /** Two markers never overlap: a later one starts at or after the end of an earlier one. */
  lemma MarkersApart(s: string, j1: nat, j2: nat)
    requires j1 < j2 && MarkerAt(s, j1) && MarkerAt(s, j2)
    ensures MarkerEnd(s, j1).value <= j2
  {
    MarkerInterior(s, j1);
    KeyShape();
    var w := s[j2..j2 + |Key|];
    assert s[j2] == w[0] && s[j2 + 1] == w[1];
  }

  /** The characters of `Key`: a quote, `l`, no quote until the closing quote at 14. */
  lemma KeyShape()
    ensures |Key| == 15 && Key[0] == '"' && Key[1] == 'l' && Key[14] == '"'
    ensures forall i :: 0 < i < 14 ==> Key[i] != '"'
  {
  }

  /**
   * Inside a marker match at `j` the only double quote after `j` is the
   * marker's closing one at `j + 14`, and no `l` follows that quote.
   */
  lemma MarkerInterior(s: string, j: nat)
    requires MarkerAt(s, j)
    ensures j + 15 < MarkerEnd(s, j).value && s[j + 15] != 'l'
    ensures forall i :: j < i < MarkerEnd(s, j).value && i != j + 14 ==> s[i] != '"'
  {
    var c, t := MarkerParts(s, j);
    KeyShape();
    var w := s[j..j + |Key|];
    forall i | j < i < j + 14 ensures s[i] != '"' {
      assert s[i] == w[i - j];
    }
    var u := s[t..t + |TrueWord|];
    assert u == "true";
    forall i | t <= i < t + 4 ensures s[i] != '"' {
      assert s[i] == u[i - t];
    }
    assert !IsSpace('l') && 'l' != ':';
  }

  /** Once some marker can be closed, the first closable marker is the first marker. */
  lemma FirstClosedIsFirstMarker(s: string, b: nat, j: nat)
    requires b < j <= |s| && FirstClosed(s, b + 1) == Some(j)
    ensures forall k :: b < k < j ==> !MarkerAt(s, k)
  {
    forall k | b < k < j ensures !MarkerAt(s, k) {
      if MarkerAt(s, k) {
        MarkersApart(s, k, j);
        var e := CloseOf(s, j);
        assert MarkerEnd(s, k).value <= e && s[e] == '}';
        assert ClosedAt(s, k);
        assert false;
      }
    }
  }

  lemma MatchAtSpec(s: string, b: nat)
    requires b < |s|
    ensures MatchAt(s, b).Some? <==> Opens(s, b)
    ensures MatchAt(s, b).Some? ==> MatchAt(s, b).value.0 == b && IsSpanAfter(s, b, MatchAt(s, b).value.1)
  {
    if s[b] != '{' || FirstClosed(s, b + 1).None? {
      MatchAtNone(s, b);
    } else {
      var j := FirstClosed(s, b + 1).value;
      MatchAtSome(s, b, j);
      OpensAt(s, b, j);
      ClosedSpan(s, b, j);
    }
  }

  lemma MatchAtNone(s: string, b: nat)
    requires b < |s| && (s[b] != '{' || FirstClosed(s, b + 1).None?)
    ensures MatchAt(s, b).None? && !Opens(s, b)
  {
    if s[b] == '{' {
      NothingClosedNoOpen(s, b);
    }
  }

  lemma MatchAtSome(s: string, b: nat, j: nat)
    requires b < |s| && s[b] == '{' && FirstClosed(s, b + 1) == Some(j)
    ensures MatchAt(s, b).Some? && MatchAt(s, b).value.0 == b && MatchAt(s, b).value.1 == CloseOf(s, j) + 1
  {
  }

  /** Without a closable marker after it, a position opens no match. */
  lemma NothingClosedNoOpen(s: string, b: nat)
    requires b < |s| && FirstClosed(s, b + 1).None?
    ensures !Opens(s, b)
  {
  }

  /** A `{` before a closable marker opens a match. */
  lemma OpensAt(s: string, b: nat, j: nat)
    requires b < |s| && s[b] == '{' && FirstClosed(s, b + 1) == Some(j)
    ensures Opens(s, b)
  {
    assert ClosedAt(s, j);
  }

  /** The match opened at `b` ends after the `}` closing the first marker after `b`. */
  lemma ClosedSpan(s: string, b: nat, j: nat)
    requires b < j <= |s| && FirstClosed(s, b + 1) == Some(j)
    ensures IsSpanAfter(s, b, CloseOf(s, j) + 1)
  {
    FirstClosedIsFirstMarker(s, b, j);
    assert FirstMarkerAfter(s, b, j);
  }

  /** `e` is where the match started at `b` ends: just after the first `}` following the first marker. */
  ghost predicate IsSpanAfter(s: string, b: nat, e: nat) {
    exists j :: FirstMarkerAfter(s, b, j) && Find(s, '}', MarkerEnd(s, j).value) == Some(e - 1)
  }

  /** `j` is the first position after `b` where the marker matches. */
  predicate FirstMarkerAfter(s: string, b: nat, j: nat) {
    b < j <= |s| && MarkerAt(s, j) && forall k :: b < k < j ==> !MarkerAt(s, k)
  }

  /** No start position from `i` on opens a match. */
  ghost predicate NoOpenFrom(s: string, i: nat) {
    forall b :: i <= b < |s| ==> !Opens(s, b)
  }

  /** `b` is the first start position from `i` on that opens a match. */
  ghost predicate FirstOpenFrom(s: string, i: nat, b: nat) {
    i <= b && Opens(s, b) && forall k :: i <= k < b ==> !Opens(s, k)
  }

  lemma {:induction false} SearchFromSpec(s: string, i: nat)
    requires i <= |s|
    ensures SearchFrom(s, i).None? <==> NoOpenFrom(s, i)
    ensures SearchFrom(s, i).Some? ==>
      FirstOpenFrom(s, i, SearchFrom(s, i).value.0) && IsSpanAfter(s, SearchFrom(s, i).value.0, SearchFrom(s, i).value.1)
    decreases |s| - i
  {
    if i < |s| {
      MatchAtSpec(s, i);
      if MatchAt(s, i).None? {
        SearchFromSpec(s, i + 1);
        assert SearchFrom(s, i) == SearchFrom(s, i + 1);
        if SearchFrom(s, i).Some? {
          var b := SearchFrom(s, i).value.0;
          assert FirstOpenFrom(s, i + 1, b);
          assert !Opens(s, i);
        }
      }
    }
  }

  /**
   * The search finds a candidate exactly when some `{` has a closable marker
   * after it, and the span it returns is the one `IsLeadSpan` describes.
   */
  lemma SearchSpec(s: string)
    ensures Search(s).None? <==> forall b :: 0 <= b < |s| ==> !Opens(s, b)
    ensures Search(s).Some? ==> IsLeadSpan(s, Search(s).value.0, Search(s).value.1)
  {
    SearchFromSpec(s, 0);
  }

  /** The end of a span is determined by its start. */
  lemma SpanAfterUnique(s: string, b: nat, e1: nat, e2: nat)
    requires IsSpanAfter(s, b, e1) && IsSpanAfter(s, b, e2)
    ensures e1 == e2
  {
    var j1 :| FirstMarkerAfter(s, b, j1) && Find(s, '}', MarkerEnd(s, j1).value) == Some(e1 - 1);
    var j2 :| FirstMarkerAfter(s, b, j2) && Find(s, '}', MarkerEnd(s, j2).value) == Some(e2 - 1);
    assert j1 == j2;
  }

  /** `IsLeadSpan` pins the span down: the search returns it and nothing else. */
  lemma LeadSpanIsSearch(s: string, b: nat, e: nat)
    requires IsLeadSpan(s, b, e)
    ensures Search(s) == Some((b, e))
  {
    SearchSpec(s);
    var (b', e') := Search(s).value;
    assert b' == b;
    SpanAfterUnique(s, b, e, e');
  }

  /**
   * Any candidate starts with `{`, ends with `}` and holds a whole marker
   * `"lead_detected"\s*:\s*true` in between, ending before the final `}`.
   */
  lemma SpanShape(s: string)
    requires Search(s).Some?
    ensures var b, e := Search(s).value.0, Search(s).value.1;
      && b + |Key| + 1 < e <= |s| && s[b] == '{' && s[e - 1] == '}'
      && exists j :: b < j && MarkerAt(s, j) && MarkerEnd(s, j).value < e
  {
    SearchSpec(s);
    var (b, e) := Search(s).value;
    assert IsSpanAfter(s, b, e);
    var j :| FirstMarkerAfter(s, b, j) && Find(s, '}', MarkerEnd(s, j).value) == Some(e - 1);
    assert MarkerAt(s, j);
  }

  /**
   * `match.group()`: the candidate text handed to `json.loads`, or None when
   * the search finds nothing. It starts with `{`, ends with `}` and holds a
   * whole marker `"lead_detected"\s*:\s*true` before its final `}`.
   */
  function Group(s: string): (r: Option<string>)
    ensures r.Some? <==> Search(s).Some?
    ensures r.Some? ==> |r.value| >= |Key| + 2 && r.value[0] == '{' && r.value[|r.value| - 1] == '}'
    ensures r.Some? ==> EnclosesMarker(r.value)
  {
    match Search(s)
    case None => None
    case Some((b, e)) =>
      GroupText(s);
      Some(s[b..e])
  }

  /** The text of the span the search finds. */
  lemma GroupText(s: string)
    requires Search(s).Some?
    ensures var b, e := Search(s).value.0, Search(s).value.1;
      && b <= e <= |s|
      && var g := s[b..e];
      && |g| >= |Key| + 2 && g[0] == '{' && g[|g| - 1] == '}'
      && EnclosesMarker(g)
  {
    SpanShape(s);
    SpanText(s, Search(s).value.0, Search(s).value.1);
  }

  /** `g` holds a whole marker after its first character that ends before its last one. */
  predicate EnclosesMarker(g: string) {
    exists j :: 0 < j < |g| && MarkerAt(g, j) && MarkerEnd(g, j).value < |g|
  }

  /** The text of a span shaped like a candidate has the shape `Group` promises. */
  lemma SpanText(s: string, b: nat, e: nat)
    requires b + |Key| + 1 < e <= |s| && s[b] == '{' && s[e - 1] == '}'
    requires exists j :: b < j && MarkerAt(s, j) && MarkerEnd(s, j).value < e
    ensures var g := s[b..e];
      && |g| >= |Key| + 2 && g[0] == '{' && g[|g| - 1] == '}'
      && EnclosesMarker(g)
  {
    SliceEnds(s, b, e);
    SliceEnclosesMarker(s, b, e);
  }

  /** The first and last characters of a slice. */
  lemma SliceEnds(s: string, b: nat, e: nat)
    requires b < e <= |s|
    ensures s[b..e][0] == s[b] && s[b..e][e - b - 1] == s[e - 1]
  {
  }

  /** A marker after `b` that ends before `e - 1` makes `s[b..e]` enclose a marker. */
  lemma SliceEnclosesMarker(s: string, b: nat, e: nat)
    requires e <= |s|
    requires exists j :: b < j && MarkerAt(s, j) && MarkerEnd(s, j).value < e
    ensures EnclosesMarker(s[b..e])
  {
    var j :| b < j && MarkerAt(s, j) && MarkerEnd(s, j).value < e;
    MarkerInSlice(s, b, e, j);
    assert MarkerAt(s[b..e], j - b);
  }

  /** A marker that ends inside a slice is a marker of the slice, shifted. */
  lemma MarkerInSlice(s: string, b: nat, e: nat, j: nat)
    requires b < j && MarkerAt(s, j) && MarkerEnd(s, j).value < e <= |s|
    ensures MarkerAt(s[b..e], j - b) && MarkerEnd(s[b..e], j - b) == Some(MarkerEnd(s, j).value - b)
  {
    var c, t := MarkerParts(s, j);
    PartsInSlice(s, b, e, j, c, t);
    MarkerFromParts(s[b..e], j - b, c - b, t - b);
  }

  /** The parts of a marker that lie inside a slice lie in the slice, shifted. */
  lemma PartsInSlice(s: string, b: nat, e: nat, j: nat, c: nat, t: nat)
    requires b <= j && j + |Key| <= c < t && t + |TrueWord| <= e <= |s|
    requires HasAt(s, j, Key) && HasAt(s, t, TrueWord)
    requires forall i :: j + |Key| <= i < c ==> IsSpace(s[i])
    requires s[c] == ':'
    requires forall i :: c < i < t ==> IsSpace(s[i])
    ensures HasAt(s[b..e], j - b, Key) && HasAt(s[b..e], t - b, TrueWord)
    ensures forall i :: j - b + |Key| <= i < c - b ==> IsSpace(s[b..e][i])
    ensures s[b..e][c - b] == ':'
    ensures forall i :: c - b < i < t - b ==> IsSpace(s[b..e][i])
  {
    HasAtSlice(s, b, e, j, Key);
    HasAtSlice(s, b, e, t, TrueWord);
    SpacesInSlice(s, b, e, j + |Key|, c);
    SpacesInSlice(s, b, e, c + 1, t);
  }

  /** Whitespace in `s[lo..hi]` is whitespace in the slice `s[b..e]`, shifted by `b`. */
  lemma SpacesInSlice(s: string, b: nat, e: nat, lo: nat, hi: nat)
    requires b <= lo <= hi <= e <= |s|
    requires forall i :: lo <= i < hi ==> IsSpace(s[i])
    ensures forall i :: lo - b <= i < hi - b ==> IsSpace(s[b..e][i])
  {
    var g := s[b..e];
    forall i | lo - b <= i < hi - b ensures IsSpace(g[i]) {
      assert g[i] == s[b + i];
    }
  }

  /** The key, whitespace, `:`, whitespace and `true` laid out from `j` make a marker ending after `true`. */
  lemma MarkerFromParts(s: string, j: nat, c: nat, t: nat)
    requires j + |Key| <= c < t && HasAt(s, j, Key) && HasAt(s, t, TrueWord)
    requires forall i :: j + |Key| <= i < c ==> IsSpace(s[i])
    requires s[c] == ':'
    requires forall i :: c < i < t ==> IsSpace(s[i])
    ensures MarkerEnd(s, j) == Some(t + |TrueWord|)
  {
    assert s[t] == s[t..t + |TrueWord|][0] == 't';
    assert !IsSpace(':') && !IsSpace('t');
    SkipSpacesOver(s, j + |Key|, c);
    SkipSpacesOver(s, c + 1, t);
  }

  /** An occurrence inside a slice is an occurrence in the slice, shifted. */
  lemma HasAtSlice(s: string, b: nat, e: nat, j: nat, w: string)
    requires b <= j && j + |w| <= e <= |s| && HasAt(s, j, w)
    ensures HasAt(s[b..e], j - b, w)
  {
    var g, d := s[b..e], j - b;
    var x, y := g[d..d + |w|], s[j..j + |w|];
    forall k | 0 <= k < |w| ensures x[k] == y[k] {
      assert x[k] == g[d + k] == s[j + k];
    }
    assert x == y;
  }

  /** A text with no `"lead_detected"\s*:\s*true` anywhere yields no candidate. */
  lemma NoMarkerNoCandidate(s: string)
    requires forall j :: 0 <= j <= |s| ==> !MarkerAt(s, j)
    ensures Search(s) == None
  {
    SearchSpec(s);
  }

  /**
   * `"lead_detected"` followed by `:` and a value that does not start with
   * `true` (`false`, `"true"`, `1`, `tru}`, `trUE`, ...) is not a marker: the
   * value starts with a non-space and differs from `true` within its first
   * four characters.
   */
  lemma NonTrueValueIsNoMarker(s: string, j: nat, w1: string, w2: string, v: string)
    requires HasAt(s, j, Key + w1 + ":" + w2 + v)
    requires AllSpace(w1) && AllSpace(w2)
    requires v != [] && !IsSpace(v[0])
    requires exists k :: 0 <= k < |v| && k < |TrueWord| && v[k] != TrueWord[k]
    ensures !MarkerAt(s, j)
  {
    var c, t := KeyValueLayout(s, j, Key, w1, w2, v);
    SkipSpacesOver(s, j + |Key|, c);
    SkipSpacesOver(s, c + 1, t);
    NotTrueAt(s, t, v);
  }

  /** Where `v` occurs and differs from `true` within its first four characters, `true` does not occur. */
  lemma NotTrueAt(s: string, t: nat, v: string)
    requires HasAt(s, t, v)
    requires exists k :: 0 <= k < |v| && k < |TrueWord| && v[k] != TrueWord[k]
    ensures !HasAt(s, t, TrueWord)
  {
    var k :| 0 <= k < |v| && k < |TrueWord| && v[k] != TrueWord[k];
    assert s[t + k] == s[t..t + |v|][k] == v[k];
    assert t + |TrueWord| > |s| || s[t..t + |TrueWord|][k] != TrueWord[k];
  }

  /** Where the parts of `key w1 : w2 v` sit when that text occurs at `j`, with `w1`, `w2` whitespace. */
  lemma KeyValueLayout(s: string, j: nat, key: string, w1: string, w2: string, v: string) returns (c: nat, t: nat)
    requires HasAt(s, j, key + w1 + ":" + w2 + v) && v != []
    requires AllSpace(w1) && AllSpace(w2)
    ensures c == j + |key| + |w1| && t == c + 1 + |w2| && t < |s|
    ensures HasAt(s, j, key)
    ensures forall i :: j + |key| <= i < c ==> IsSpace(s[i])
    ensures s[c] == ':'
    ensures forall i :: c < i < t ==> IsSpace(s[i])
    ensures s[t] == v[0]
    ensures HasAt(s, t, v)
  {
    var w := key + w1 + ":" + w2 + v;
    var m := |key|;
    c, t := j + m + |w1|, j + m + |w1| + 1 + |w2|;
    assert s[j..j + |w|] == w;
    assert s[j..j + m] == w[..m];
    forall i | j + m <= i < c ensures IsSpace(s[i]) {
      assert s[i] == w[i - j] == w1[i - j - m];
    }
    assert s[c] == w[c - j];
    forall i | c < i < t ensures IsSpace(s[i]) {
      assert s[i] == w[i - j] == w2[i - c - 1];
    }
    assert s[t] == w[t - j];
    forall i | 0 <= i < |v| ensures s[t..t + |v|][i] == v[i] {
      assert s[t + i] == w[t - j + i];
    }
  }

  /** The object the instruction template asks for: `{"lead_detected": true` then the other fields and `}`. */
  function LeadObject(fields: string): string {
    "{" + Key + ": true" + fields + "}"
  }

  /**
   * A lead object embedded in prose is found whole, provided no `{` comes
   * before it and its remaining fields hold no `}`.
   */
  lemma EmbeddedObjectFound(p: string, fields: string, q: string)
    requires '{' !in p && '}' !in fields
    ensures Search(p + LeadObject(fields) + q) == Some((|p|, |p| + |LeadObject(fields)|))
  {
    ObjectAfter(p, |p|, fields, q);
  }

  /**
   * A stray `{` in the prose before the object starts the candidate instead:
   * `stray` is prose that begins with `{` and holds no double quote; the span
   * runs from that `{` over the prose and the object.
   */
  lemma StrayBraceWidensCandidate(p: string, stray: string, fields: string, q: string)
    requires '{' !in p && '}' !in fields
    requires |stray| >= 1 && stray[0] == '{' && '"' !in stray
    ensures Search(p + stray + LeadObject(fields) + q) == Some((|p|, |p| + |stray| + |LeadObject(fields)|))
  {
    var pre := p + stray;
    forall k | |p| < k < |pre| ensures pre[k] != '"' {
      assert pre[k] == stray[k - |p|];
    }
    ObjectAfter(pre, |p|, fields, q);
  }

  /**
   * A lead object after `pre` is found from `b` on when the first `{` of
   * `pre` is at `b` (or `pre` has none, `b == |pre|`) and no double quote
   * follows it in `pre`.
   */
  lemma ObjectAfter(pre: string, b: nat, fields: string, q: string)
    requires '}' !in fields && b <= |pre|
    requires forall i :: 0 <= i < b ==> pre[i] != '{'
    requires b < |pre| ==> pre[b] == '{'
    requires forall k :: b < k < |pre| ==> pre[k] != '"'
    ensures Search(pre + LeadObject(fields) + q) == Some((b, |pre| + |LeadObject(fields)|))
  {
    var obj := LeadObject(fields);
    var s := pre + obj + q;
    var m := |pre| + |Key| + 7;
    ObjectCloses(pre, fields, q);
    assert MarkerEnd(s, |pre| + 1) == Some(m);
    PrefixScan(pre, b, obj, q);
    FirstBraceSpan(s, b, |pre| + 1, m, |pre| + |obj|);
  }

  /** What `pre` says about the first `{` and the quotes after it carries over to `pre + w + q` when `w` starts with `{`. */
  lemma PrefixScan(pre: string, b: nat, w: string, q: string)
    requires b <= |pre| && |w| > 0 && w[0] == '{'
    requires forall i :: 0 <= i < b ==> pre[i] != '{'
    requires b < |pre| ==> pre[b] == '{'
    requires forall k :: b < k < |pre| ==> pre[k] != '"'
    ensures var s := pre + w + q;
      && s[b] == '{'
      && (forall i :: 0 <= i < b ==> s[i] != '{')
      && (forall k :: b < k < |pre| + 1 ==> s[k] != '"')
  {
    var s := pre + w + q;
    forall i | 0 <= i < b ensures s[i] != '{' {
      assert s[i] == pre[i];
    }
    forall k | b < k < |pre| + 1 ensures s[k] != '"' {
      if k < |pre| {
        assert s[k] == pre[k];
      }
    }
  }

  /**
   * The search result when the first `{` is at `b`, no quote comes between it
   * and a closable marker at `j`, and the first `}` after that marker is at `e - 1`.
   */
  lemma FirstBraceSpan(s: string, b: nat, j: nat, m: nat, e: nat)
    requires b < j <= |s| && s[b] == '{'
    requires forall i :: 0 <= i < b ==> s[i] != '{'
    requires forall k :: b < k < j ==> s[k] != '"'
    requires MarkerEnd(s, j) == Some(m) && m <= |s| && Find(s, '}', m) == Some(e - 1)
    ensures Search(s) == Some((b, e))
  {
    assert ClosedAt(s, j);
    NoBraceNoOpen(s, b);
    NoQuoteNoMarkers(s, b + 1, j);
    FirstMarkerSpan(s, b, j, e);
    LeadSpanIsSearch(s, b, e);
  }

  /** A `{` at `b` whose first marker after it is closable at `j` opens a span ending at that marker's `}`. */
  lemma FirstMarkerSpan(s: string, b: nat, j: nat, e: nat)
    requires b < j <= |s| && s[b] == '{' && ClosedAt(s, j)
    requires forall k :: b < k < j ==> !MarkerAt(s, k)
    requires Find(s, '}', MarkerEnd(s, j).value) == Some(e - 1)
    ensures Opens(s, b) && IsSpanAfter(s, b, e)
  {
  }

  /** Positions before the first `{` open nothing. */
  lemma NoBraceNoOpen(s: string, b: nat)
    requires b <= |s|
    requires forall i :: 0 <= i < b ==> s[i] != '{'
    ensures forall i :: 0 <= i < b ==> !Opens(s, i)
  {
  }

  /** A stretch without double quotes holds no marker start. */
  lemma NoQuoteNoMarkers(s: string, lo: nat, hi: nat)
    requires lo <= hi <= |s|
    requires forall k :: lo <= k < hi ==> s[k] != '"'
    ensures forall k :: lo <= k < hi ==> !MarkerAt(s, k)
  {
    forall k | lo <= k < hi ensures !MarkerAt(s, k) {
      NoQuoteNoMarker(s, k);
    }
  }

  /** The marker of a lead object placed after `pre` is closed by the object's own `}`. */
  lemma ObjectCloses(pre: string, fields: string, q: string)
    requires '}' !in fields
    ensures MarkerEnd(pre + LeadObject(fields) + q, |pre| + 1) == Some(|pre| + |Key| + 7)
    ensures Find(pre + LeadObject(fields) + q, '}', |pre| + |Key| + 7) == Some(|pre| + |LeadObject(fields)| - 1)
  {
    ObjectMarker(pre, fields, q);
    ObjectBrace(pre, fields, q);
  }

  /** The marker of a lead object placed after `pre` ends right after its `true`. */
  lemma ObjectMarker(pre: string, fields: string, q: string)
    requires '}' !in fields
    ensures MarkerEnd(pre + LeadObject(fields) + q, |pre| + 1) == Some(|pre| + |Key| + 7)
  {
    var obj := LeadObject(fields);
    var s := pre + obj + q;
    var n := |pre|;
    var m := |Key| + 7;
    ObjectShape(fields);
    InfixAt(pre, obj, q);
    assert s[n + 1..n + m] == obj[1..m];
    TrueMarkerAt(s, n + 1);
  }

  /** The first `}` after the marker of a lead object placed after `pre` is the object's last character. */
  lemma ObjectBrace(pre: string, fields: string, q: string)
    requires '}' !in fields
    ensures Find(pre + LeadObject(fields) + q, '}', |pre| + |Key| + 7) == Some(|pre| + |LeadObject(fields)| - 1)
  {
    var obj := LeadObject(fields);
    var s := pre + obj + q;
    var n := |pre|;
    var m := |Key| + 7;
    ObjectShape(fields);
    InfixAt(pre, obj, q);
    forall i | n + m <= i < n + |obj| - 1 ensures s[i] != '}' {
      assert s[i] == obj[i - n];
    }
    FindIs(s, '}', n + m, n + |obj| - 1);
  }

  /** The characters of the middle part of a concatenation. */
  lemma InfixAt(pre: string, w: string, q: string)
    ensures forall i :: 0 <= i < |w| ==> (pre + w + q)[|pre| + i] == w[i]
    ensures (pre + w + q)[|pre|..|pre| + |w|] == w
  {
    assert (pre + w + q)[|pre|..|pre| + |w|] == w;
  }

  /** A lead object: `{`, the marker with `: true`, then fields without `}` up to the final `}`. */
  lemma ObjectShape(fields: string)
    requires '}' !in fields
    ensures var obj := LeadObject(fields);
      var m := |Key| + 7;
      && |obj| == m + |fields| + 1
      && obj[0] == '{' && obj[1..m] == Key + ": true" && obj[|obj| - 1] == '}'
      && forall i :: m <= i < |obj| - 1 ==> obj[i] != '}'
  {
    var obj := LeadObject(fields);
    var m := |Key| + 7;
    assert obj == ("{" + Key + ": true") + fields + "}";
    assert obj[1..m] == Key + ": true";
    forall i | m <= i < |obj| - 1 ensures obj[i] != '}' {
      assert obj[i] == fields[i - m];
    }
  }

  /** `"lead_detected": true` at `j` is a marker ending right after `true`. */
  lemma TrueMarkerAt(s: string, j: nat)
    requires HasAt(s, j, Key + ": true")
    ensures MarkerEnd(s, j) == Some(j + |Key| + 6)
  {
    var c := j + |Key|;
    var w := s[j..c + 6];
    assert w == Key + ": true";
    assert s[j..c] == w[..|Key|] == Key;
    assert s[c] == w[|Key|] == ':';
    assert s[c + 1] == w[|Key| + 1] == ' ';
    assert s[c + 2..c + 6] == w[|Key| + 2..] == TrueWord;
    assert !IsSpace(':') && IsSpace(' ') && !IsSpace('t');
    SkipSpacesOver(s, c, c);
    SkipSpacesOver(s, c + 1, c + 2);
  }

  /** A marker starts with a double quote. */
  lemma NoQuoteNoMarker(s: string, k: nat)
    requires k < |s| && s[k] != '"'
    ensures !MarkerAt(s, k)
  {
    if k + |Key| <= |s| {
      assert s[k..k + |Key|][0] == s[k];
    }
  }

  /** `\s*` from `k` stops at `t` when `k..t` is whitespace and `t` is not. */
  lemma {:induction false} SkipSpacesOver(s: string, k: nat, t: nat)
    requires k <= t < |s|
    requires forall i :: k <= i < t ==> IsSpace(s[i])
    requires !IsSpace(s[t])
    ensures SkipSpaces(s, k) == t
    decreases t - k
  {
    if k < t { SkipSpacesOver(s, k + 1, t); }
  }
}
