/** Record shapes exchanged between the backend agents and the dashboard. */
module Records {
  import opened Wrappers

  /**
   * One piece of evidence as the search agents emit it. Every search function
   * writes all four keys, but any of them may hold `None`.
   */
  datatype Evidence = Evidence(
    title: Option<string>,
    snippet: Option<string>,
    link: Option<string>,
    source: Option<string>)

  /** Two items never share a link. */
  predicate DistinctLinks(s: seq<Evidence>) {
    forall i, j :: 0 <= i < j < |s| ==> s[i].link != s[j].link
  }

  function LinkSet(s: seq<Evidence>): set<Option<string>> {
    set e | e in s :: e.link
  }

  lemma LinkSetSnoc(s: seq<Evidence>, e: Evidence)
    ensures LinkSet(s + [e]) == LinkSet(s) + {e.link}
  {
  }
}
