/**
 * The heuristic claim extractor: split text into sentences, keep the short
 * assertive ones that mention a trigger keyword, and turn each into a claim
 * document tied to the source item it came from.
 */
module ClaimExtractor {
  import opened Wrappers
  import opened Seqs
  import opened Text

  const Keywords: seq<string> :=
    ["cause", "prevent", "cure", "vaccine", "ban", "laws", "immediately", "proven", "study", "research"]

  const MinWords: nat := 5
  const MaxWords: nat := 40

  /** `[s.strip() for s in pieces if s.strip()]`. */
  function StrippedNonEmpty(pieces: seq<string>): (r: seq<string>)
    ensures |r| <= |pieces|
  {
    if pieces == [] then []
    else
      var s := Trim(pieces[|pieces| - 1]);
      StrippedNonEmpty(pieces[..|pieces| - 1]) + (if s != "" then [s] else [])
  }

  /**
   * The sentences of `text`: its '.'-separated pieces, stripped, empty ones dropped.
   * There are no more sentences than pieces, and none is empty, holds a '.', or has
   * whitespace at either end.
   */
  function Sentences(text: string): (r: seq<string>)
    ensures |r| <= |Split(text, ".")|
    ensures forall s :: s in r ==> IsSentence(s)
  {
    SplitPiecesAreSeparatorFree(text, ".");
    StrippedPiecesAreSentences(Split(text, "."));
    StrippedNonEmpty(Split(text, "."))
  }

  /** A sentence is non-empty, holds no '.', and neither starts nor ends with whitespace. */
  predicate IsSentence(s: string) {
    s != "" && '.' !in s && !IsSpace(s[0]) && !IsSpace(s[|s| - 1])
  }

  lemma {:induction false} StrippedPiecesAreSentences(pieces: seq<string>)
    requires NoneContains(pieces, ".")
    ensures forall s :: s in StrippedNonEmpty(pieces) ==> IsSentence(s)
    decreases |pieces|
  {
    if pieces != [] {
      var init, last := pieces[..|pieces| - 1], pieces[|pieces| - 1];
      assert NoneContains(init, ".") by {
        forall k | 0 <= k < |init| ensures !Contains(init[k], ".") { assert init[k] == pieces[k]; }
      }
      StrippedPiecesAreSentences(init);
      var t := Trim(last);
      if t != "" {
        TrimmedPieceIsSentence(last);
      }
      assert StrippedNonEmpty(pieces) == StrippedNonEmpty(init) + (if t != "" then [t] else []);
    }
  }

  lemma TrimmedPieceIsSentence(piece: string)
    requires !Contains(piece, ".") && Trim(piece) != ""
    ensures IsSentence(Trim(piece))
  {
    ContainsChar(piece, '.');
  }

  /**
   * Python's `any(k in s.lower() for k in keywords)`: plain substring tests, so "because"
   * counts for "cause". Every keyword has at least three letters, so a shorter text has none.
   */
  predicate HasKeyword(s: string)
    ensures HasKeyword(s) ==> |s| >= 3
  {
    assert forall k :: k in Keywords ==> |k| >= 3;
    exists k :: k in Keywords && Contains(Lower(s), k)
  }

  /** The keyword test ignores case: lower-casing the text first changes nothing. */
  lemma KeywordTestIgnoresCase(s: string)
    ensures HasKeyword(Lower(s)) <==> HasKeyword(s)
  {
    assert Lower(Lower(s)) == Lower(s);
  }

  /**
   * A candidate sentence has 5 to 40 words and a keyword. Words are separated by
   * whitespace, so it is at least nine characters long.
   */
  predicate Qualifies(s: string)
    ensures Qualifies(s) ==> HasKeyword(s) && |s| >= 2 * MinWords - 1
  {
    WordsFit(s);
    MinWords <= |Words(s)| <= MaxWords && HasKeyword(s)
  }

  /** The keyword test matches inside longer words: "because" holds "cause". */
  lemma BecauseHasKeyword()
    ensures HasKeyword("because")
  {
    var l := Lower("because");
    forall k | 0 <= k < 7 ensures l[k] == "because"[k] {
      assert l[k] == LowerChar("because"[k]);
    }
    assert l == "because";
    assert l[2..7] == "cause";
    assert OccursAt(l, "cause", 2);
    ContainsMeansOccurs(l, "cause");
    assert Contains(l, "cause");
    assert Keywords[0] == "cause";
  }

  /**
   * `extract_from_text`: every sentence with 5 to 40 words that contains a keyword,
   * in source order, duplicates kept.
   */
  method ExtractFromText(text: string) returns (candidates: seq<string>)
    ensures candidates == Filter(Sentences(text), Qualifies)
    ensures forall c :: c in candidates ==> IsSentence(c) && MinWords <= |Words(c)| <= MaxWords && HasKeyword(c)
    ensures forall s :: s in Sentences(text) ==> (s in candidates <==> Qualifies(s))
    ensures candidates == [] <==> forall s :: s in Sentences(text) ==> !Qualifies(s)
  {
    var sentences := Sentences(text);
    candidates := KeepCandidates(sentences);
    FilterEmpty(sentences, Qualifies);
  }

  /** The loop of `extract_from_text`: skip sentences outside 5..40 words, keep those with a keyword. */
  method KeepCandidates(sentences: seq<string>) returns (candidates: seq<string>)
    ensures candidates == Filter(sentences, Qualifies)
  {
    candidates := [];
    for i := 0 to |sentences|
      invariant candidates == Filter(sentences[..i], Qualifies)
    {
      var s := sentences[i];
      FilterPrefixSnoc(sentences, i, Qualifies);
      var n := |Words(s)|;
      if n < MinWords || n > MaxWords {
        continue;
      }
      if HasKeyword(s) {
        candidates := candidates + [s];
      }
    }
    assert sentences[..|sentences|] == sentences;
  }

  // ---------------------------------------------------------------------------
  // run_extractor

  datatype Meta = Meta(fullText: Option<string>)

  /** A fetched item as read back from storage; `meta` may be missing. */
  datatype RawItem = RawItem(id: string, meta: Option<Meta>, summary: Option<string>, title: Option<string>)

  /** The document stored for each extracted claim. */
  datatype ClaimDoc = ClaimDoc(rawId: string, text: string, status: string)

  /** `item.get('meta', {}).get('full_text')`. */
  function FullText(item: RawItem): Option<string> {
    if item.meta.Some? then item.meta.value.fullText else None
  }

  /** The text claims are extracted from: full text, else summary, else title; none when all are empty. */
  function ClaimText(item: RawItem): (r: Option<string>)
    ensures r.Some? ==> Truthy(r) && (r == FullText(item) || r == item.summary || r == item.title)
    ensures r.None? <==> !Truthy(FullText(item)) && !Truthy(item.summary) && !Truthy(item.title)
  {
    var opts := [FullText(item), item.summary, item.title];
    assert opts[0] == FullText(item) && opts[1] == item.summary && opts[2] == item.title;
    FirstTruthy(opts)
  }

  lemma ClaimTextFallback(item: RawItem)
    ensures Truthy(FullText(item)) ==> ClaimText(item) == FullText(item)
    ensures !Truthy(FullText(item)) && Truthy(item.summary) ==> ClaimText(item) == item.summary
    ensures !Truthy(FullText(item)) && !Truthy(item.summary) && Truthy(item.title) ==> ClaimText(item) == item.title
    ensures !Truthy(FullText(item)) && !Truthy(item.summary) && !Truthy(item.title) ==> ClaimText(item).None?
  {
    var opts := [FullText(item), item.summary, item.title];
    var r := ClaimText(item);
    assert opts[0] == FullText(item) && opts[1] == item.summary && opts[2] == item.title;
    if r.Some? {
      var i :| 0 <= i < |opts| && opts[i] == r && Truthy(r) && forall j :: 0 <= j < i ==> !Truthy(opts[j]);
    }
  }

  /** One unverified claim document per candidate, tied to the item's id. */
  function DocsFor(rawId: string, candidates: seq<string>): seq<ClaimDoc> {
    if candidates == [] then []
    else DocsFor(rawId, candidates[..|candidates| - 1]) + [ClaimDoc(rawId, candidates[|candidates| - 1], "unverified")]
  }

  function ClaimsFor(item: RawItem): seq<ClaimDoc> {
    match ClaimText(item)
    case None => []
    case Some(text) => DocsFor(item.id, Filter(Sentences(text), Qualifies))
  }

  /** The claims created for `items`, item by item. */
  function ClaimsFrom(items: seq<RawItem>): seq<ClaimDoc> {
    if items == [] then []
    else ClaimsFrom(items[..|items| - 1]) + ClaimsFor(items[|items| - 1])
  }

  lemma {:induction false} DocsForShape(rawId: string, candidates: seq<string>)
    ensures |DocsFor(rawId, candidates)| == |candidates|
    ensures forall k :: 0 <= k < |candidates| ==>
      DocsFor(rawId, candidates)[k] == ClaimDoc(rawId, candidates[k], "unverified")
    decreases |candidates|
  {
    if candidates != [] {
      var init := candidates[..|candidates| - 1];
      DocsForShape(rawId, init);
    }
  }

  /** `d` is one of the claims `item` yields: it carries the item's id and one of its candidate sentences. */
  predicate Yields(item: RawItem, d: ClaimDoc) {
    d.rawId == item.id && ClaimText(item).Some? && d.text in Filter(Sentences(ClaimText(item).value), Qualifies)
  }

  /**
   * Every created claim is unverified, carries the id of an item that had claim
   * text, and its text is one of that text's candidate sentences.
   */
  lemma {:induction false} CreatedClaimsShape(items: seq<RawItem>)
    ensures forall d :: d in ClaimsFrom(items) ==>
      d.status == "unverified" && exists i :: 0 <= i < |items| && Yields(items[i], d)
    decreases |items|
  {
    if items != [] {
      var init, item := items[..|items| - 1], items[|items| - 1];
      CreatedClaimsShape(init);
      forall d | d in ClaimsFrom(items)
        ensures d.status == "unverified" && exists i :: 0 <= i < |items| && Yields(items[i], d)
      {
        if d in ClaimsFrom(init) {
          var i :| 0 <= i < |init| && Yields(init[i], d);
          YieldsInPrefix(items, i, d);
        } else {
          assert d in ClaimsFor(item);
          ClaimsForShape(item, d);
          assert items[|items| - 1] == item;
        }
      }
    }
  }

  lemma YieldsInPrefix(items: seq<RawItem>, i: nat, d: ClaimDoc)
    requires i < |items| - 1 && Yields(items[..|items| - 1][i], d)
    ensures Yields(items[i], d)
  {
    assert items[..|items| - 1][i] == items[i];
  }

  /** A claim created for one item is unverified and one of the claims the item yields. */
  lemma ClaimsForShape(item: RawItem, d: ClaimDoc)
    requires d in ClaimsFor(item)
    ensures d.status == "unverified" && Yields(item, d)
  {
    DocsForMember(item.id, Filter(Sentences(ClaimText(item).value), Qualifies), d);
  }

  lemma DocsForMember(rawId: string, candidates: seq<string>, d: ClaimDoc)
    requires d in DocsFor(rawId, candidates)
    ensures d == ClaimDoc(rawId, d.text, "unverified") && d.text in candidates
  {
    DocsForShape(rawId, candidates);
    var k :| 0 <= k < |candidates| && DocsFor(rawId, candidates)[k] == d;
  }

  /** An item without claim text contributes no claims. */
  lemma ItemWithoutTextIsSkipped(item: RawItem)
    requires ClaimText(item).None?
    ensures ClaimsFrom([item]) == []
  {
  }

  /**
   * `run_extractor` over the items read from storage: for each item with claim
   * text, one unverified claim document per candidate sentence, in order.
   */
  method RunExtractor(items: seq<RawItem>) returns (created: seq<ClaimDoc>)
    ensures created == ClaimsFrom(items)
    ensures forall d :: d in created ==> d.status == "unverified" && exists item :: item in items && d.rawId == item.id
  {
    created := [];
    for i := 0 to |items|
      invariant created == ClaimsFrom(items[..i])
    {
      var item := items[i];
      assert items[..i + 1][..i] == items[..i];
      var fullText := ClaimText(item);
      if fullText.None? {
        continue;
      }
      var candidates := ExtractFromText(fullText.value);
      var docs := InsertClaims(item.id, candidates);
      created := created + docs;
    }
    assert items[..|items|] == items;
    CreatedClaimsShape(items);
    forall d | d in created ensures exists item :: item in items && d.rawId == item.id {
      var i :| 0 <= i < |items| && d.rawId == items[i].id && ClaimText(items[i]).Some?
               && d.text in Filter(Sentences(ClaimText(items[i]).value), Qualifies);
      assert items[i] in items;
    }
  }

  /** The inner loop of `run_extractor`: one unverified claim document per candidate, in order. */
  method InsertClaims(rawId: string, candidates: seq<string>) returns (docs: seq<ClaimDoc>)
    ensures docs == DocsFor(rawId, candidates)
  {
    docs := [];
    for j := 0 to |candidates|
      invariant docs == DocsFor(rawId, candidates[..j])
    {
      assert candidates[..j + 1][..j] == candidates[..j];
      docs := docs + [ClaimDoc(rawId, candidates[j], "unverified")];
    }
    assert candidates[..|candidates|] == candidates;
  }
}
