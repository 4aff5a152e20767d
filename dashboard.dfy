/**
 * The dashboard: the state it polls from the backend, the all-or-nothing
 * refresh of that state, the colour classes chosen for verdict tags, and the
 * evidence and id snippets shown for each record.
 */
module Dashboard {
  import opened Wrappers
  import opened Seqs
  import opened Text
  import opened Records

  // ---------------------------------------------------------------------------
  // Records as the dashboard reads them

  datatype ClaimRecord = ClaimRecord(id: string, text: string, status: string)

  /** A stored verification; `evidence` may be missing from the record. */
  datatype VerificationRecord = VerificationRecord(id: string, verdict: string, score: real, evidence: Option<seq<Evidence>>)

  datatype SourceItem = SourceItem(id: string, title: Option<string>)

  /** The outcome of one backend read. */
  datatype Read<T> = Loaded(value: T) | Failed

  /** The three reads one refresh awaits together. */
  datatype Tick = Tick(claims: Read<seq<ClaimRecord>>, vers: Read<seq<VerificationRecord>>, items: Read<seq<SourceItem>>)

  /** The refresh succeeds only when every one of its three reads does. */
  predicate Succeeded(t: Tick) {
    t.claims.Loaded? && t.vers.Loaded? && t.items.Loaded?
  }

  /** The four state cells of the dashboard. */
  datatype Snapshot = Snapshot(claims: seq<ClaimRecord>, vers: seq<VerificationRecord>, items: seq<SourceItem>, loading: bool)

  /** Empty lists, still loading. */
  const Initial := Snapshot([], [], [], true)

  /**
   * `fetchAll`: when all three reads succeed the three lists are replaced by
   * their results together; when any fails no list changes. Loading ends either way.
   */
  function AfterFetch(s: Snapshot, t: Tick): (r: Snapshot)
    ensures !r.loading
    ensures Succeeded(t) ==> r.claims == t.claims.value && r.vers == t.vers.value && r.items == t.items.value
    ensures !Succeeded(t) ==> r.claims == s.claims && r.vers == s.vers && r.items == s.items
  {
    if Succeeded(t) then Snapshot(t.claims.value, t.vers.value, t.items.value, false)
    else s.(loading := false)
  }

  /** The state after the refreshes `ticks`, in order, starting from `s`. */
  function Replay(s: Snapshot, ticks: seq<Tick>): Snapshot {
    if ticks == [] then s
    else AfterFetch(Replay(s, ticks[..|ticks| - 1]), ticks[|ticks| - 1])
  }

  /** The position of the last successful refresh in `ticks`, if any. */
  function LastSuccess(ticks: seq<Tick>): (r: Option<nat>)
    ensures r.Some? ==> r.value < |ticks| && Succeeded(ticks[r.value]) &&
                        forall k :: r.value < k < |ticks| ==> !Succeeded(ticks[k])
    ensures r.None? ==> forall k :: 0 <= k < |ticks| ==> !Succeeded(ticks[k])
  {
    if ticks == [] then None
    else if Succeeded(ticks[|ticks| - 1]) then Some(|ticks| - 1)
    else
      var r := LastSuccess(ticks[..|ticks| - 1]);
      assert forall k :: 0 <= k < |ticks| - 1 ==> ticks[k] == ticks[..|ticks| - 1][k];
      r
  }

  /**
   * `loading` is true only before the first refresh: it starts true and no
   * refresh ever sets it back.
   */
  lemma {:induction false} LoadingOnlyBeforeFirstFetch(ticks: seq<Tick>)
    ensures Replay(Initial, ticks).loading <==> ticks == []
  {
  }

  /**
   * After any sequence of refreshes the lists are exactly those of the last
   * refresh that succeeded, or still the initial empty lists when none did:
   * a failed refresh never leaves a mix of old and new lists.
   */
  lemma {:induction false} ReplayShowsLastSuccess(ticks: seq<Tick>)
    ensures var s := Replay(Initial, ticks);
      match LastSuccess(ticks)
      case Some(k) => s.claims == ticks[k].claims.value && s.vers == ticks[k].vers.value && s.items == ticks[k].items.value
      case None => s.claims == [] && s.vers == [] && s.items == []
    decreases |ticks|
  {
    if ticks != [] {
      var init := ticks[..|ticks| - 1];
      ReplayShowsLastSuccess(init);
      if !Succeeded(ticks[|ticks| - 1]) {
        assert LastSuccess(ticks) == LastSuccess(init);
        if LastSuccess(init).Some? {
          var k := LastSuccess(init).value;
          assert ticks[k] == init[k];
        }
      }
    }
  }

  /** The dashboard component's state cells and its refresh. */
  class Board {
    var claims: seq<ClaimRecord>
    var vers: seq<VerificationRecord>
    var items: seq<SourceItem>
    var loading: bool

    function View(): Snapshot
      reads this
    {
      Snapshot(claims, vers, items, loading)
    }

    /** The initial `useState` values. */
    constructor()
      ensures View() == Initial
    {
      claims, vers, items, loading := [], [], [], true;
    }

    /** One `fetchAll`, given the outcome of its three reads. */
    method FetchAll(t: Tick)
      modifies this
      ensures View() == AfterFetch(old(View()), t)
    {
      if Succeeded(t) {
        claims := t.claims.value;
        vers := t.vers.value;
        items := t.items.value;
        loading := false;
      } else {
        loading := false;
      }
    }
  }

  // ---------------------------------------------------------------------------
  // What each record shows

  /** The evidence listed under a verification: none when missing or empty, else the first three in order. */
  function ShownEvidence(v: VerificationRecord): (r: seq<Evidence>)
    ensures v.evidence.None? ==> r == []
    ensures v.evidence.Some? ==> |r| == Min(3, |v.evidence.value|) && r == v.evidence.value[..|r|]
  {
    if v.evidence.Some? && |v.evidence.value| > 0 then Take(v.evidence.value, 3) else []
  }

  /** `e.title || e.snippet || e.link`: the first truthy of the three, else the link as it is. */
  function Label(e: Evidence): (r: Option<string>)
    ensures FirstTruthy([e.title, e.snippet, e.link]).Some? ==> r == FirstTruthy([e.title, e.snippet, e.link])
    ensures FirstTruthy([e.title, e.snippet, e.link]).None? ==> r == e.link
  {
    var opts := [e.title, e.snippet, e.link];
    assert opts[0] == e.title && opts[1] == e.snippet && opts[2] == e.link;
    if Truthy(e.title) then e.title
    else if Truthy(e.snippet) then e.snippet
    else e.link
  }

  /** A label is blank only when title, snippet and link all are. */
  lemma LabelBlankOnlyWithoutText(e: Evidence)
    ensures !Truthy(Label(e)) <==> !Truthy(e.title) && !Truthy(e.snippet) && !Truthy(e.link)
  {
  }

  /** The labels shown for a verification, one per shown evidence item, in order. */
  function EvidenceLabels(v: VerificationRecord): (r: seq<Option<string>>)
    ensures |r| == |ShownEvidence(v)| <= 3
    ensures v.evidence.Some? ==> |r| == Min(3, |v.evidence.value|) && forall k :: 0 <= k < |r| ==> r[k] == Label(v.evidence.value[k])
  {
    Map(ShownEvidence(v), Label)
  }

  /** `id.slice(-6)`: the last six characters, or the whole id when it is shorter. */
  function IdSuffix(id: string): (r: string)
    ensures |r| == Min(6, |id|)
    ensures id == id[..|id| - |r|] + r
  {
    if |id| <= 6 then id else id[|id| - 6..]
  }

  /** Shortening twice changes nothing. */
  lemma IdSuffixIdempotent(id: string)
    ensures IdSuffix(IdSuffix(id)) == IdSuffix(id)
  {
  }
}
