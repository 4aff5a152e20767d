/**
 * The deterministic part of the verifier agent: how a claim's sub-queries are
 * searched and their evidence concatenated, deduplicated by link and cleared of
 * satire sources, how code fences are stripped from language-model replies, which
 * defaults stand in when the model is unavailable, and how the result record is
 * assembled. Every network call is an input: a search engine is a function from a
 * query to its results, a language-model reply is a function from the request to
 * the reply's content (none when the call fails), and `json.loads` is a function
 * from text to the fields it parsed (none when it raises).
 */
module Verifier {
  import opened Wrappers
  import opened Seqs
  import opened Text
  import opened Records

  // ---------------------------------------------------------------------------
  // Satire and fiction filter

  const FictionSources: seq<string> :=
    ["r/WritingPrompts", "r/memes", "r/jokes", "r/fakehistoryporn",
     "r/aliens", "r/conspiracy", "The Onion", "Babylon Bee"]

  /** A missing or `None` value reads as the empty string (`value or ''`). */
  function OrEmpty(o: Option<string>): string {
    o.GetOr("")
  }

  /** Some fiction name, lower-cased, occurs in the already lower-cased `lowered`. */
  predicate NamesFiction(lowered: string) {
    exists fs :: fs in FictionSources && Contains(lowered, Lower(fs))
  }

  /** The item's source or link names a fiction outlet, ignoring case. */
  predicate IsFiction(e: Evidence) {
    NamesFiction(Lower(OrEmpty(e.source))) || NamesFiction(Lower(OrEmpty(e.link)))
  }

  predicate Admitted(e: Evidence) {
    !IsFiction(e)
  }

  /**
   * `filter_evidence`: drops the items that name a fiction outlet and keeps the
   * others in order. Filtering the result again changes nothing.
   */
  method FilterEvidence(evidence: seq<Evidence>) returns (filtered: seq<Evidence>)
    ensures filtered == Filter(evidence, Admitted)
    ensures IsSubsequence(filtered, evidence) && |filtered| <= |evidence|
    ensures forall i :: 0 <= i < |evidence| ==> (evidence[i] in filtered <==> !IsFiction(evidence[i]))
    ensures Filter(filtered, Admitted) == filtered
  {
    filtered := [];
    for i := 0 to |evidence|
      invariant filtered == Filter(evidence[..i], Admitted)
    {
      var e := evidence[i];
      var source := Lower(OrEmpty(e.source));
      var link := Lower(OrEmpty(e.link));
      var fiction := NamesFiction(source) || NamesFiction(link);
      AdmitNext(evidence, i, filtered, fiction);
      if fiction {
        continue;
      }
      filtered := filtered + [e];
    }
    assert evidence[..|evidence|] == evidence;
    FilterIsSubsequence(evidence, Admitted);
    FilterIdempotent(evidence, Admitted);
  }

  /** One loop step: the item at `i` is appended exactly when it names no fiction outlet. */
  lemma AdmitNext(evidence: seq<Evidence>, i: nat, filtered: seq<Evidence>, fiction: bool)
    requires i < |evidence| && filtered == Filter(evidence[..i], Admitted)
    requires fiction == IsFiction(evidence[i])
    ensures fiction ==> filtered == Filter(evidence[..i + 1], Admitted)
    ensures !fiction ==> filtered + [evidence[i]] == Filter(evidence[..i + 1], Admitted)
  {
    FilterPrefixSnoc(evidence, i, Admitted);
  }

  /** An item with neither source nor link is never dropped. */
  lemma UnlabelledEvidenceIsKept(e: Evidence)
    requires OrEmpty(e.source) == "" && OrEmpty(e.link) == ""
    ensures Admitted(e)
  {
  }

  /** Filtering a link-distinct list leaves it link-distinct. */
  lemma {:induction false} FilterKeepsDistinctLinks(s: seq<Evidence>, p: Evidence -> bool)
    requires DistinctLinks(s)
    ensures DistinctLinks(Filter(s, p))
    decreases |s|
  {
    if s != [] {
      var init, x := s[..|s| - 1], s[|s| - 1];
      assert s == init + [x];
      FilterKeepsDistinctLinks(init, p);
      FilterSnoc(init, x, p);
      var f := Filter(init, p);
      if p(x) {
        forall i | 0 <= i < |f| ensures f[i].link != x.link {
          assert f[i] in init;
        }
      }
    }
  }

  // ---------------------------------------------------------------------------
  // Deduplication by link

  /** The list the dedup loop builds: each item is kept unless an earlier kept item has its link. */
  function Deduplicated(s: seq<Evidence>): seq<Evidence> {
    if s == [] then []
    else
      var d := Deduplicated(s[..|s| - 1]);
      var e := s[|s| - 1];
      if e.link in LinkSet(d) then d else d + [e]
  }

  /** The first item of `s` whose link is `link`, scanning from the front. */
  function FirstWithLink(s: seq<Evidence>, link: Option<string>): Option<Evidence> {
    if s == [] then None
    else if s[0].link == link then Some(s[0])
    else FirstWithLink(s[1..], link)
  }

  lemma {:induction false} FirstWithLinkSnoc(s: seq<Evidence>, e: Evidence, link: Option<string>)
    ensures FirstWithLink(s + [e], link) ==
      if FirstWithLink(s, link).Some? then FirstWithLink(s, link)
      else if e.link == link then Some(e) else None
    decreases |s|
  {
    if s != [] {
      assert (s + [e])[1..] == s[1..] + [e];
      FirstWithLinkSnoc(s[1..], e, link);
    }
  }

  lemma {:induction false} FirstWithLinkFound(s: seq<Evidence>, link: Option<string>)
    ensures FirstWithLink(s, link).Some? <==> link in LinkSet(s)
    decreases |s|
  {
    if s != [] {
      FirstWithLinkFound(s[1..], link);
      assert LinkSet(s) == {s[0].link} + LinkSet(s[1..]) by {
        assert forall x :: x in s <==> x == s[0] || x in s[1..];
      }
    }
  }

  /** The deduplicated list has exactly the links of the input. */
  lemma {:induction false} DedupKeepsEveryLink(s: seq<Evidence>)
    ensures LinkSet(Deduplicated(s)) == LinkSet(s)
    decreases |s|
  {
    if s != [] {
      var init, e := s[..|s| - 1], s[|s| - 1];
      assert s == init + [e];
      DedupKeepsEveryLink(init);
      LinkSetSnoc(init, e);
      LinkSetSnoc(Deduplicated(init), e);
    }
  }

  /** No two items of the deduplicated list share a link. */
  lemma {:induction false} DedupLinksDistinct(s: seq<Evidence>)
    ensures DistinctLinks(Deduplicated(s))
    decreases |s|
  {
    if s != [] {
      var init, e := s[..|s| - 1], s[|s| - 1];
      DedupLinksDistinct(init);
      var d := Deduplicated(init);
      if e.link !in LinkSet(d) {
        forall i | 0 <= i < |d| ensures d[i].link != e.link {
          assert d[i] in d;
        }
      }
    }
  }

  /** The deduplicated list keeps items in their input order. */
  lemma {:induction false} DedupIsSubsequence(s: seq<Evidence>)
    ensures IsSubsequence(Deduplicated(s), s)
    decreases |s|
  {
    if s != [] {
      var init, e := s[..|s| - 1], s[|s| - 1];
      DedupIsSubsequence(init);
      var d := Deduplicated(init);
      if e.link !in LinkSet(d) {
        assert (d + [e])[..|d|] == d;
      }
    }
  }

  /** Each kept item is the first item of the input that carries its link. */
  lemma {:induction false} DedupKeepsFirstOccurrence(s: seq<Evidence>)
    ensures forall k :: 0 <= k < |Deduplicated(s)| ==>
      FirstWithLink(s, Deduplicated(s)[k].link) == Some(Deduplicated(s)[k])
    decreases |s|
  {
    if s != [] {
      var init, e := s[..|s| - 1], s[|s| - 1];
      assert s == init + [e];
      DedupKeepsFirstOccurrence(init);
      DedupKeepsEveryLink(init);
      var d := Deduplicated(init);
      var r := Deduplicated(s);
      forall k | 0 <= k < |r| ensures FirstWithLink(s, r[k].link) == Some(r[k]) {
        FirstWithLinkSnoc(init, e, r[k].link);
        if k < |d| {
          assert r[k] == d[k];
        } else {
          FirstWithLinkFound(init, e.link);
        }
      }
    }
  }

  /**
   * The dedup loop of `verify_claim_text`: keeps the first item for each link, in
   * order, with a set of the links already seen.
   */
  method DedupByLink(all: seq<Evidence>) returns (unique: seq<Evidence>)
    ensures unique == Deduplicated(all)
    ensures LinkSet(unique) == LinkSet(all)
    ensures DistinctLinks(unique)
    ensures IsSubsequence(unique, all) && |unique| <= |all|
    ensures forall e :: e in unique ==> e in all
    ensures forall k :: 0 <= k < |unique| ==> FirstWithLink(all, unique[k].link) == Some(unique[k])
  {
    var seen: set<Option<string>> := {};
    unique := [];
    for i := 0 to |all|
      invariant unique == Deduplicated(all[..i])
      invariant seen == LinkSet(unique)
    {
      var e := all[i];
      assert all[..i + 1][..i] == all[..i];
      if e.link !in seen {
        LinkSetSnoc(unique, e);
        unique := unique + [e];
        seen := seen + {e.link};
      }
    }
    assert all[..|all|] == all;
    DedupKeepsEveryLink(all);
    DedupLinksDistinct(all);
    DedupIsSubsequence(all);
    SubsequenceLength(unique, all);
    SubsequenceMembers(unique, all);
    DedupKeepsFirstOccurrence(all);
  }

  // ---------------------------------------------------------------------------
  // Searching the sub-queries

  /** Evidence for `queries`, query by query; for each query the web, then NewsAPI, then Reddit results. */
  function EvidenceFor(queries: seq<string>, web: string -> seq<Evidence>,
                       news: string -> seq<Evidence>, reddit: string -> seq<Evidence>): seq<Evidence>
  {
    if queries == [] then []
    else
      var q := queries[|queries| - 1];
      EvidenceFor(queries[..|queries| - 1], web, news, reddit) + web(q) + news(q) + reddit(q)
  }

  /** One of the three engines returned `e` for the query `q`. */
  predicate FoundBy(e: Evidence, q: string, web: string -> seq<Evidence>,
                    news: string -> seq<Evidence>, reddit: string -> seq<Evidence>) {
    e in web(q) || e in news(q) || e in reddit(q)
  }

  /** An item is gathered exactly when some searched query's engines returned it. */
  lemma {:induction false} EvidenceForMembers(queries: seq<string>, web: string -> seq<Evidence>,
                                               news: string -> seq<Evidence>, reddit: string -> seq<Evidence>, e: Evidence)
    ensures e in EvidenceFor(queries, web, news, reddit) <==>
      exists i :: 0 <= i < |queries| && FoundBy(e, queries[i], web, news, reddit)
    decreases |queries|
  {
    if queries != [] {
      var init, q := queries[..|queries| - 1], queries[|queries| - 1];
      EvidenceForMembers(init, web, news, reddit, e);
      var before := EvidenceFor(init, web, news, reddit);
      assert EvidenceFor(queries, web, news, reddit) == before + web(q) + news(q) + reddit(q);
      if e in before {
        var i :| 0 <= i < |init| && FoundBy(e, init[i], web, news, reddit);
        assert init[i] == queries[i];
      } else if FoundBy(e, q, web, news, reddit) {
        assert FoundBy(e, queries[|queries| - 1], web, news, reddit);
      }
      if exists i :: 0 <= i < |queries| && FoundBy(e, queries[i], web, news, reddit) {
        var i :| 0 <= i < |queries| && FoundBy(e, queries[i], web, news, reddit);
        if i < |init| {
          assert init[i] == queries[i];
        }
      }
    }
  }

  lemma ConcatThree(a: seq<Evidence>, b: seq<Evidence>, c: seq<Evidence>)
    ensures Concat([a, b, c]) == a + b + c
  {
    assert [a, b, c][..2] == [a, b];
    assert [a, b][..1] == [a];
    assert [a][..0] == [];
    assert Concat([a]) == a;
    assert Concat([a, b]) == a + b;
  }

  /**
   * The search loop of `verify_claim_text`: only the first three queries are
   * searched, and each query's three result lists are appended in engine order.
   */
  method GatherEvidence(queries: seq<string>, web: string -> seq<Evidence>,
                        news: string -> seq<Evidence>, reddit: string -> seq<Evidence>)
    returns (all: seq<Evidence>)
    ensures all == EvidenceFor(Take(queries, 3), web, news, reddit)
  {
    var searched := Take(queries, 3);
    all := [];
    for i := 0 to |searched|
      invariant all == EvidenceFor(searched[..i], web, news, reddit)
    {
      var q := searched[i];
      var results := [web(q), news(q), reddit(q)];
      ghost var before := all;
      for j := 0 to |results|
        invariant all == before + Concat(results[..j])
      {
        assert results[..j + 1][..j] == results[..j];
        all := all + results[j];
      }
      assert results[..3] == results;
      ConcatThree(web(q), news(q), reddit(q));
      assert searched[..i + 1][..i] == searched[..i];
    }
    assert searched[..|searched|] == searched;
  }

  // ---------------------------------------------------------------------------
  // Code fences around language-model replies

  const JsonFence: string := "```json"
  const Fence: string := "```"

  /**
   * The fence handling applied to a reply's content before it is parsed. Whenever
   * the content holds a fence, what comes out has no whitespace at either end.
   */
  function StripFences(content: string): (r: string)
    ensures Contains(content, Fence) ==> r == [] || (!IsSpace(r[0]) && !IsSpace(r[|r| - 1]))
  {
    if Contains(content, JsonFence) then Trim(Split(Split(content, JsonFence)[1], Fence)[0])
    else if Contains(content, Fence) then Trim(Split(Split(content, Fence)[1], Fence)[0])
    else content
  }

  /** Content without any fence is passed on untouched. */
  lemma StripUnfenced(content: string)
    requires !Contains(content, Fence)
    ensures StripFences(content) == content
  {
    var j := IndexOf(content, JsonFence);
    if j.Some? {
      JsonFenceStartsFence(content, j.value);
    }
  }

  /** With plain fences the result is the trimmed text between the first two fences. */
  lemma StripBareFence(content: string)
    requires !Contains(content, JsonFence) && Contains(content, Fence)
    ensures StripFences(content) == Trim(UpTo(After(content, Fence), Fence))
  {
    SplitSecond(content, Fence);
    var inner := UpTo(After(content, Fence), Fence);
    UpToIsSeparatorFree(After(content, Fence), Fence);
    SplitWithoutSeparator(inner, Fence);
  }

  /** A `json` fence also begins a plain fence, so the first plain fence comes no later. */
  lemma JsonFenceStartsFence(s: string, i: nat)
    requires OccursAt(s, JsonFence, i)
    ensures OccursAt(s, Fence, i)
  {
    assert s[i..i + 3] == s[i..i + 7][..3];
  }

  /** A plain fence and a later `json` fence that overlap it make a run of four backticks. */
  lemma OverlappingFences(x: string, k: nat, j: nat)
    requires OccursAt(x, Fence, k) && OccursAt(x, JsonFence, j) && k < j < k + 3
    ensures OccursAt(x, "````", k)
  {
    assert x[k + 3] == x[j..j + 7][k + 3 - j];
    assert x[k..k + 4] == x[k..k + 3] + [x[k + 3]];
  }

  /** The first plain fence of `x`, if there is one, does not begin a run of four backticks. */
  predicate FirstFenceStandsAlone(x: string) {
    IndexOf(x, Fence).None? || !OccursAt(x, "````", IndexOf(x, Fence).value)
  }

  /**
   * When the first plain fence does not begin a run of four backticks, the text before
   * the first `json` fence and then before the first plain fence is just the text
   * before the first plain fence.
   */
  lemma UpToJsonThenFence(x: string)
    requires FirstFenceStandsAlone(x)
    ensures UpTo(UpTo(x, JsonFence), Fence) == UpTo(x, Fence)
  {
    var f := IndexOf(x, Fence);
    var j := IndexOf(x, JsonFence);
    if j.Some? {
      JsonFenceStartsFence(x, j.value);
      var k := f.value;
      var y := x[..j.value];
      assert k <= j.value;
      if k == j.value {
        UpToIsSeparatorFree(x, JsonFence);
        var g := IndexOf(y, Fence);
        if g.Some? {
          OccursInSlice(x, Fence, 0, j.value, g.value);
          assert false;
        }
      } else if k + 3 <= j.value {
        OccursWithinSlice(x, Fence, 0, j.value, k);
        var g := IndexOf(y, Fence);
        assert g.Some?;
        OccursInSlice(x, Fence, 0, j.value, g.value);
        assert g.value == k;
      } else {
        OverlappingFences(x, k, j.value);
        assert false;
      }
    }
  }

  /**
   * With a `json` fence the result is the trimmed text after the first `json` fence
   * up to the next plain fence, provided that fence does not begin a run of four backticks.
   */
  lemma StripJsonFence(content: string)
    requires Contains(content, JsonFence)
    requires FirstFenceStandsAlone(After(content, JsonFence))
    ensures StripFences(content) == Trim(UpTo(After(content, JsonFence), Fence))
  {
    SplitSecond(content, JsonFence);
    UpToJsonThenFence(After(content, JsonFence));
  }

  /**
   * Without that proviso the result can keep stray backticks: a run of four or five
   * backticks before `json` leaves one or two of them at the end of the result, so
   * "```json\nx````json" gives "x`" and "```json\nx`````json" gives "x``".
   */
  lemma StrayBackticks(x: string)
    requires 2 <= |x| <= 3 && !IsSpace(x[0]) && x[0] != '`'
    requires forall k :: 1 <= k < |x| ==> x[k] == '`'
    ensures StripFences(JsonFence + ("\n" + x + JsonFence)) == x
  {
    var u := "\n" + x;
    assert forall k :: 2 <= k < |u| ==> u[k] == x[k - 1];
    JsonFencedBackticks(u);
    ShortTextHasNoFence(u);
    TrimLeadingNewline(x);
    StripFencesAtJsonFence(JsonFence + (u + JsonFence), u, x);
  }

  /** In a `json` fence followed by `u` and another `json` fence, the text between the two is `u`. */
  lemma JsonFencedBackticks(u: string)
    requires forall k :: 2 <= k < |u| ==> u[k] == '`'
    ensures Contains(JsonFence + (u + JsonFence), JsonFence)
    ensures Split(JsonFence + (u + JsonFence), JsonFence)[1] == u
  {
    var content := JsonFence + (u + JsonFence);
    assert content[..7] == JsonFence && content[7..] == u + JsonFence;
    JsonFenceFirst(content);
    SplitSecond(content, JsonFence);
    JsonFenceAfterBackticks(u);
  }

  lemma StripFencesAtJsonFence(content: string, inner: string, r: string)
    requires Contains(content, JsonFence) && Split(content, JsonFence)[1] == inner
    requires Split(inner, Fence)[0] == inner && Trim(inner) == r
    ensures StripFences(content) == r
  {
  }

  /** A newline before text with no whitespace at its ends is all that trimming removes. */
  lemma TrimLeadingNewline(x: string)
    requires x != [] && !IsSpace(x[0]) && !IsSpace(x[|x| - 1])
    ensures Trim("\n" + x) == x
  {
    var u := "\n" + x;
    assert u[1..] == x;
    TrimLeftOne(u);
    TrimRightNone(x);
  }

  lemma TrimLeftOne(u: string)
    requires |u| >= 2 && IsSpace(u[0]) && !IsSpace(u[1])
    ensures TrimLeft(u) == u[1..]
  {
    assert TrimLeft(u) == TrimLeft(u[1..]);
  }

  lemma TrimRightNone(v: string)
    requires v != [] && !IsSpace(v[|v| - 1])
    ensures TrimRight(v) == v
  {
  }

  /** Content that opens with a `json` fence: what follows it is the rest of the content. */
  lemma JsonFenceFirst(content: string)
    requires |content| >= 7 && content[..7] == JsonFence
    ensures Contains(content, JsonFence) && After(content, JsonFence) == content[7..]
  {
    assert OccursAt(content, JsonFence, 0);
  }

  /**
   * When `u` ends in backticks from its third character on, the first `json` fence of
   * `u` followed by a `json` fence is that last one: every earlier start has a backtick
   * where `j` would have to be.
   */
  lemma JsonFenceAfterBackticks(u: string)
    requires forall k :: 2 <= k < |u| ==> u[k] == '`'
    ensures UpTo(u + JsonFence, JsonFence) == u
  {
    var after := u + JsonFence;
    assert after[|u|..] == JsonFence;
    assert OccursAt(after, JsonFence, |u|);
    forall j: nat | j < |u| ensures !OccursAt(after, JsonFence, j) {
      assert after[j..j + 7][3] == after[j + 3] == '`';
    }
    assert after[..|u|] == u;
  }

  /** Text of at most four characters whose first two are not backticks holds no plain fence. */
  lemma ShortTextHasNoFence(u: string)
    requires 2 <= |u| <= 4 && u[0] != '`' && u[1] != '`'
    ensures Split(u, Fence)[0] == u
  {
    forall j: nat | j + 3 <= |u| ensures !OccursAt(u, Fence, j) {
      assert u[j..j + 3][0] == u[j] != '`';
    }
  }

  // ---------------------------------------------------------------------------
  // Language-model replies and their defaults

  /** The keys read from the decomposer's parsed reply. */
  datatype QueryFields = QueryFields(queries: Option<seq<string>>)

  /** The keys read from the scorer's parsed reply. */
  datatype VerdictFields = VerdictFields(verdict: Option<string>, confidence: Option<real>, summary: Option<string>)

  /** What `score_with_llm` returns: a verdict (none when unavailable), a score and the reasons. */
  datatype LlmScore = LlmScore(verdict: Option<string>, score: real, reasons: seq<string>)

  /**
   * `decompose_claim`: the parsed `queries` list, or the claim itself whenever there
   * is no API key, the call fails, the reply does not parse, or it has no `queries` key.
   */
  function Decompose(claimText: string, hasApiKey: bool, reply: Option<string>,
                     parse: string -> Option<QueryFields>): (queries: seq<string>)
    ensures !hasApiKey || reply.None? ==> queries == [claimText]
    ensures hasApiKey && reply.Some? ==>
      var parsed := parse(StripFences(reply.value));
      && (parsed.None? || parsed.value.queries.None? ==> queries == [claimText])
      && (parsed.Some? && parsed.value.queries.Some? ==> queries == parsed.value.queries.value)
  {
    if !hasApiKey || reply.None? then [claimText]
    else
      var parsed := parse(StripFences(reply.value));
      if parsed.None? then [claimText]
      else parsed.value.queries.GetOr([claimText])
  }

  /** A reply without fences is parsed as it stands, and the `queries` it carries are the ones searched. */
  lemma DecomposeReadsUnfencedReply(claimText: string, reply: string, parse: string -> Option<QueryFields>, qs: seq<string>)
    requires !Contains(reply, Fence) && parse(reply) == Some(QueryFields(Some(qs)))
    ensures Decompose(claimText, true, Some(reply), parse) == qs
  {
    StripUnfenced(reply);
  }

  /**
   * A reply that wraps its JSON in a `json` fence is parsed from the trimmed text inside
   * the fence, and the `queries` found there are the ones searched.
   */
  lemma DecomposeReadsJsonFence(claimText: string, reply: string, parse: string -> Option<QueryFields>, qs: seq<string>)
    requires Contains(reply, JsonFence) && FirstFenceStandsAlone(After(reply, JsonFence))
    requires parse(Trim(UpTo(After(reply, JsonFence), Fence))) == Some(QueryFields(Some(qs)))
    ensures Decompose(claimText, true, Some(reply), parse) == qs
  {
    StripJsonFence(reply);
  }

  predicate IsLowerCase(s: string) {
    forall k :: 0 <= k < |s| ==> !('A' <= s[k] <= 'Z')
  }

  /**
   * `score_with_llm`: no verdict, score 0.0 and no reasons whenever there is no API
   * key, the call fails or the reply does not parse; otherwise the lower-cased
   * verdict (default "UNVERIFIED"), the confidence (default 0.5) and the summary
   * (default "") as the only reason.
   */
  function ScoreWithLlm(hasApiKey: bool, reply: Option<string>,
                        parse: string -> Option<VerdictFields>): (r: LlmScore)
    ensures r.verdict.None? <==> !hasApiKey || reply.None? || parse(StripFences(reply.value)).None?
    ensures r.verdict.None? ==> r.score == 0.0 && r.reasons == []
    ensures r.verdict.Some? ==> IsLowerCase(r.verdict.value) && |r.reasons| == 1
    ensures r.verdict.Some? ==>
      var fields := parse(StripFences(reply.value)).value;
      && r.score == fields.confidence.GetOr(0.5)
      && r.reasons == [fields.summary.GetOr("")]
      && (fields.verdict.None? ==> r.verdict.value == "unverified")
      && (fields.verdict.Some? ==> r.verdict.value == Lower(fields.verdict.value))
  {
    if !hasApiKey || reply.None? then LlmScore(None, 0.0, [])
    else
      var parsed := parse(StripFences(reply.value));
      if parsed.None? then LlmScore(None, 0.0, [])
      else
        var fields := parsed.value;
        LowerUnverified();
        LlmScore(Some(Lower(fields.verdict.GetOr("UNVERIFIED"))),
                 fields.confidence.GetOr(0.5),
                 [fields.summary.GetOr("")])
  }

  lemma LowerUnverified()
    ensures Lower("UNVERIFIED") == "unverified"
  {
  }

  // ---------------------------------------------------------------------------
  // The result record

  datatype VerificationResult = VerificationResult(
    verdict: string, score: real, evidence: seq<Evidence>, reasons: seq<string>, summary: string)

  /**
   * The two return statements of `verify_claim_text`: the model's verdict, score and
   * reasons when its verdict is truthy, otherwise the fixed fallback; the evidence
   * is always the list handed in.
   */
  function AssembleResult(llm: LlmScore, evidence: seq<Evidence>): (r: VerificationResult)
    ensures r.evidence == evidence && r.verdict != ""
    ensures Truthy(llm.verdict) ==>
      && r.verdict == llm.verdict.value && r.score == llm.score && r.reasons == llm.reasons
      && r.summary == (if llm.reasons == [] then "Verified by AI." else llm.reasons[0])
    ensures !Truthy(llm.verdict) ==>
      && r.verdict == "unverified" && r.score == 0.0
      && r.reasons == ["LLM verification unavailable."]
      && r.summary == "Could not verify claim due to system limitation."
  {
    if Truthy(llm.verdict) then
      VerificationResult(llm.verdict.value, llm.score, evidence, llm.reasons,
                         if llm.reasons != [] then llm.reasons[0] else "Verified by AI.")
    else
      VerificationResult("unverified", 0.0, evidence, ["LLM verification unavailable."],
                         "Could not verify claim due to system limitation.")
  }

  /**
   * Since a truthy verdict always comes with exactly one reason, the summary of a
   * model-backed result is the model's own summary, so "Verified by AI." appears only
   * when the model wrote it.
   */
  lemma ModelSummaryIsReported(hasApiKey: bool, reply: Option<string>,
                               parse: string -> Option<VerdictFields>, evidence: seq<Evidence>)
    requires Truthy(ScoreWithLlm(hasApiKey, reply, parse).verdict)
    ensures AssembleResult(ScoreWithLlm(hasApiKey, reply, parse), evidence).summary ==
      parse(StripFences(reply.value)).value.summary.GetOr("")
  {
  }

  // ---------------------------------------------------------------------------
  // The whole pipeline

  /** The evidence `verify_claim_text` hands to the scorer: gathered, then deduplicated. */
  function UniqueEvidence(text: string, hasApiKey: bool,
                          decomposerReply: string -> Option<string>, parseQueries: string -> Option<QueryFields>,
                          web: string -> seq<Evidence>, news: string -> seq<Evidence>, reddit: string -> seq<Evidence>)
    : seq<Evidence>
  {
    var queries := Decompose(text, hasApiKey, decomposerReply(text), parseQueries);
    Deduplicated(EvidenceFor(Take(queries, 3), web, news, reddit))
  }

  /**
   * `verify_claim_text`: decompose, search the first three queries, deduplicate,
   * score the deduplicated (unfiltered) evidence, and return the filtered evidence
   * with the model's verdict or the fallback.
   */
  method VerifyClaimText(text: string, hasApiKey: bool,
                         decomposerReply: string -> Option<string>, parseQueries: string -> Option<QueryFields>,
                         web: string -> seq<Evidence>, news: string -> seq<Evidence>, reddit: string -> seq<Evidence>,
                         scorerReply: (string, seq<Evidence>) -> Option<string>,
                         parseVerdict: string -> Option<VerdictFields>)
    returns (result: VerificationResult)
    ensures var unique := UniqueEvidence(text, hasApiKey, decomposerReply, parseQueries, web, news, reddit);
      result == AssembleResult(ScoreWithLlm(hasApiKey, scorerReply(text, unique), parseVerdict),
                               Filter(unique, Admitted))
    ensures DistinctLinks(result.evidence)
    ensures forall e :: e in result.evidence ==> !IsFiction(e)
    ensures result.verdict != ""
  {
    var queries := Decompose(text, hasApiKey, decomposerReply(text), parseQueries);
    var all := GatherEvidence(queries, web, news, reddit);
    var unique := DedupByLink(all);
    var llm := ScoreWithLlm(hasApiKey, scorerReply(text, unique), parseVerdict);
    var filtered := FilterEvidence(unique);
    FilterKeepsDistinctLinks(unique, Admitted);
    result := AssembleResult(llm, filtered);
  }
}
