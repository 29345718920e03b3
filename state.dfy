/**
 The state a light client keeps during verification: its light store and the
 verification trace, which records for each target height the heights of the
 blocks that were used as evidence to verify it (for instance the hops of a
 bisection).
 */
module LightClientState {
  import opened LightStore
  import opened BlockOrder

  /** The verification trace: target height to the set of evidence heights. */
  type VerificationTrace = map<Height, set<Height>>

  /** The evidence recorded for `target`; a target never traced has none. */
  function Evidence(trace: VerificationTrace, target: Height): (e: set<Height>)
  {
    if target in trace then trace[target] else {}
  }

  /** Every evidence height is at or below the target it was recorded for. */
  ghost predicate WellOrderedTrace(trace: VerificationTrace)
  {
    forall t, h :: t in trace && h in trace[t] ==> h <= t
  }

  /** The trace after recording `height` as evidence for `target`: the entry
      for `target` is created if missing, gains `height`, and nothing else
      changes. */
  function Record(trace: VerificationTrace, target: Height, height: Height): (r: VerificationTrace)
    ensures r.Keys == trace.Keys + {target}
    ensures Evidence(r, target) == Evidence(trace, target) + {height}
    ensures forall t :: t != target ==> Evidence(r, t) == Evidence(trace, t)
  {
    trace[target := Evidence(trace, target) + {height}]
  }

  /** Recording an edge that is already there changes nothing; in particular,
      recording the same edge twice is the same as recording it once. */
  lemma RecordPresent(trace: VerificationTrace, target: Height, height: Height)
    requires height in Evidence(trace, target)
    ensures Record(trace, target, height) == trace
  {
    assert target in trace;
    var r := Record(trace, target, height);
    assert r.Keys == trace.Keys;
    assert forall t :: t in trace ==> r[t] == trace[t] by {
      forall t | t in trace ensures r[t] == trace[t] {
        assert Evidence(r, t) == Evidence(trace, t) || t == target;
      }
    }
  }

  /** Recording `(target, height)` twice gives the trace of recording it once. */
  lemma RecordIdempotent(trace: VerificationTrace, target: Height, height: Height)
    ensures Record(Record(trace, target, height), target, height) == Record(trace, target, height)
  {
  }

  /** Recording an edge allowed by the precondition of `trace_block` keeps
      every evidence height at or below its target. */
  lemma RecordKeepsOrder(trace: VerificationTrace, target: Height, height: Height)
    requires WellOrderedTrace(trace)
    requires height <= target
    ensures WellOrderedTrace(Record(trace, target, height))
  {
  }

  /** An edge `(target, height)` as passed to `trace_block`. */
  datatype Edge = Edge(target: Height, height: Height)

  /** The trace after recording each edge of `edges` in turn. */
  function RecordAll(trace: VerificationTrace, edges: seq<Edge>): (r: VerificationTrace)
    decreases edges
  {
    if edges == [] then trace
    else RecordAll(Record(trace, edges[0].target, edges[0].height), edges[1..])
  }

  /** The heights that `edges` records as evidence for `target`. */
  ghost function EdgesFor(edges: seq<Edge>, target: Height): (hs: set<Height>)
  {
    set i | 0 <= i < |edges| && edges[i].target == target :: edges[i].height
  }

  /** After any sequence of `trace_block` calls, the evidence for a target is
      what it had before plus the heights recorded for it: neither the order of
      the calls nor repeated calls make a difference. */
  lemma {:induction false} RecordAllEvidence(trace: VerificationTrace, edges: seq<Edge>, target: Height)
    ensures Evidence(RecordAll(trace, edges), target) == Evidence(trace, target) + EdgesFor(edges, target)
    decreases edges
  {
    if edges != [] {
      var e := edges[0];
      var next := Record(trace, e.target, e.height);
      RecordAllEvidence(next, edges[1..], target);
      assert EdgesFor(edges, target)
          == (if e.target == target then {e.height} else {}) + EdgesFor(edges[1..], target)
      by {
        forall h | h in EdgesFor(edges, target)
          ensures h in (if e.target == target then {e.height} else {}) + EdgesFor(edges[1..], target)
        {
          var i :| 0 <= i < |edges| && edges[i].target == target && edges[i].height == h;
          if i > 0 {
            assert edges[1..][i - 1] == edges[i];
          }
        }
        forall h | h in EdgesFor(edges[1..], target) ensures h in EdgesFor(edges, target) {
          var i :| 0 <= i < |edges[1..]| && edges[1..][i].target == target && edges[1..][i].height == h;
          assert edges[i + 1] == edges[1..][i];
        }
      }
    }
  }

  /** The blocks that flat-mapping `get(h, Verified)` over the heights `hs`
      yields, counted with multiplicity; the order in which `hs` is walked does
      not matter (see VerifiedEvidenceRemove). */
  ghost function VerifiedEvidence(store: Store, hs: set<Height>): (blocks: multiset<LightBlock>)
    decreases hs
  {
    if hs == {} then multiset{}
    else
      var h :| h in hs;
      VerifiedEvidence(store, hs - {h}) + Found(Get(store, h, Verified))
  }

  /** A lookup result as the zero or one blocks that `flat_map` takes from it. */
  function Found(o: Option<LightBlock>): (blocks: multiset<LightBlock>)
  {
    match o
    case None => multiset{}
    case Some(b) => multiset{b}
  }

  /** Any height of `hs` may be taken out first: the walk order of the set
      does not change the blocks collected. */
  lemma {:induction false} VerifiedEvidenceRemove(store: Store, hs: set<Height>, h: Height)
    requires h in hs
    ensures VerifiedEvidence(store, hs) == VerifiedEvidence(store, hs - {h}) + Found(Get(store, h, Verified))
    decreases hs
  {
    var g :| g in hs && VerifiedEvidence(store, hs)
      == VerifiedEvidence(store, hs - {g}) + Found(Get(store, g, Verified));
    if g != h {
      VerifiedEvidenceRemove(store, hs - {g}, h);
      VerifiedEvidenceRemove(store, hs - {h}, g);
      assert hs - {g} - {h} == hs - {h} - {g};
    }
  }

  /** Every Verified block at a height of `hs` is collected. */
  lemma {:induction false} VerifiedEvidenceComplete(store: Store, hs: set<Height>, h: Height)
    requires h in hs && Get(store, h, Verified).Some?
    ensures Get(store, h, Verified).value in VerifiedEvidence(store, hs)
  {
    VerifiedEvidenceRemove(store, hs, h);
  }

  /** Every collected block is the Verified block at some height of `hs`. */
  lemma {:induction false} VerifiedEvidenceSound(store: Store, hs: set<Height>)
    ensures forall b :: b in VerifiedEvidence(store, hs) ==> exists h :: h in hs && Get(store, h, Verified) == Some(b)
    decreases hs
  {
    if hs != {} {
      var g :| g in hs;
      VerifiedEvidenceRemove(store, hs, g);
      VerifiedEvidenceSound(store, hs - {g});
    }
  }

  /** In a store keyed by block height, no block is collected twice, and each
      collected block sits at its own height among `hs`. */
  lemma {:induction false} VerifiedEvidenceKeyed(store: Store, hs: set<Height>)
    requires Keyed(store)
    ensures forall b :: VerifiedEvidence(store, hs)[b] <= 1
    ensures forall b :: b in VerifiedEvidence(store, hs) ==> b.height in hs && Get(store, b.height, Verified) == Some(b)
    decreases hs
  {
    if hs != {} {
      var g :| g in hs;
      VerifiedEvidenceRemove(store, hs, g);
      VerifiedEvidenceKeyed(store, hs - {g});
    }
  }

  /** The heights of the Verified blocks at the heights `hs`. */
  ghost function VerifiedHeights(store: Store, hs: set<Height>): (verified: set<Height>)
  {
    set h | h in hs && Get(store, h, Verified).Some?
  }

  /** The heights of the blocks in `s`. */
  ghost function HeightsOf(s: seq<LightBlock>): (heights: set<Height>)
  {
    set i | 0 <= i < |s| :: s[i].height
  }

  /** A descending arrangement of the blocks collected from a store keyed by
      block height is strictly descending, and its heights are exactly the
      heights in `hs` whose block is Verified. */
  lemma KeyedTrace(store: Store, hs: set<Height>, s: seq<LightBlock>)
    requires Keyed(store)
    requires multiset(s) == VerifiedEvidence(store, hs)
    requires DescendingByHeight(s)
    ensures StrictlyDescendingByHeight(s)
    ensures HeightsOf(s) == VerifiedHeights(store, hs)
  {
    VerifiedEvidenceKeyed(store, hs);
    forall i, j | 0 <= i < j < |s| && s[i].height == s[j].height ensures s[i] == s[j] {
      assert s[i] in multiset(s) && s[j] in multiset(s);
    }
    StrictWhenDistinct(s);
    KeyedTraceHeights(store, hs, s);
  }

  /** The heights half of KeyedTrace. */
  lemma KeyedTraceHeights(store: Store, hs: set<Height>, s: seq<LightBlock>)
    requires Keyed(store)
    requires multiset(s) == VerifiedEvidence(store, hs)
    ensures HeightsOf(s) == VerifiedHeights(store, hs)
  {
    VerifiedEvidenceKeyed(store, hs);
    forall h | h in VerifiedHeights(store, hs) ensures h in HeightsOf(s) {
      VerifiedEvidenceComplete(store, hs, h);
      var b := Get(store, h, Verified).value;
      assert b in multiset(s);
      var i :| 0 <= i < |s| && s[i] == b;
    }
    forall h | h in HeightsOf(s) ensures h in VerifiedHeights(store, hs) {
      var i :| 0 <= i < |s| && s[i].height == h;
      assert s[i] in multiset(s);
    }
  }

  /** Over a store keyed by block height and a trace that keeps every
      evidence height at or below its target, every collected block lies at
      or below the target. */
  lemma KeyedTraceBelowTarget(store: Store, trace: VerificationTrace, target: Height, s: seq<LightBlock>)
    requires Keyed(store) && WellOrderedTrace(trace)
    requires multiset(s) == VerifiedEvidence(store, Evidence(trace, target))
    ensures forall b :: b in s ==> b.height <= target
  {
    VerifiedEvidenceKeyed(store, Evidence(trace, target));
    forall b | b in s ensures b.height <= target {
      assert b in multiset(s);
    }
  }

  /** The iterator pipeline of `get_trace`: walks the evidence heights in
      whatever order the set yields them and keeps, for each, the block that
      `get(h, Verified)` returns, if any. */
  method CollectVerified(store: Store, evidence: set<Height>) returns (collected: seq<LightBlock>)
    ensures multiset(collected) == VerifiedEvidence(store, evidence)
  {
    collected := [];
    var remaining := evidence;
    while remaining != {}
      invariant remaining <= evidence
      invariant multiset(collected) + VerifiedEvidence(store, remaining) == VerifiedEvidence(store, evidence)
      decreases remaining
    {
      var h :| h in remaining;
      VerifiedEvidenceRemove(store, remaining, h);
      var found := Get(store, h, Verified);
      if found.Some? {
        assert multiset(collected + [found.value]) == multiset(collected) + Found(found);
        collected := collected + [found.value];
      }
      remaining := remaining - {h};
    }
  }

  /** The light client's state: its light store and its verification trace. */
  class State {
    /** Store for light blocks. */
    var lightStore: Store
    /** Which blocks were needed to verify each target block. */
    var verificationTrace: VerificationTrace

    /** `new`: a state over the given store, with an empty trace. */
    constructor (store: Store)
      ensures lightStore == store
      ensures verificationTrace == map[]
      ensures WellOrderedTrace(verificationTrace)
    {
      lightStore := store;
      verificationTrace := map[];
    }

    /** `trace_block`: records that the block at `height` was needed to verify
        the block at `targetHeight`. */
    method TraceBlock(targetHeight: Height, height: Height)
      requires height <= targetHeight
      modifies this`verificationTrace
      ensures verificationTrace == Record(old(verificationTrace), targetHeight, height)
      ensures height in verificationTrace[targetHeight]
      ensures lightStore == old(lightStore)
      ensures old(WellOrderedTrace(verificationTrace)) ==> WellOrderedTrace(verificationTrace)
    {
      if targetHeight !in verificationTrace {
        verificationTrace := verificationTrace[targetHeight := {}];
      }
      verificationTrace := verificationTrace[targetHeight := verificationTrace[targetHeight] + {height}];
      if old(WellOrderedTrace(verificationTrace)) {
        RecordKeepsOrder(old(verificationTrace), targetHeight, height);
      }
    }

    /** `get_trace`: the Verified blocks at the evidence heights recorded for
        `targetHeight`, most recent first. Heights whose block is missing or
        carries another status are left out; a target with no entry gives an
        empty trace. */
    method GetTrace(targetHeight: Height) returns (trace: seq<LightBlock>)
      ensures multiset(trace) == VerifiedEvidence(lightStore, Evidence(verificationTrace, targetHeight))
      ensures DescendingByHeight(trace)
      ensures targetHeight !in verificationTrace ==> trace == []
      ensures Keyed(lightStore) ==> StrictlyDescendingByHeight(trace)
      ensures Keyed(lightStore) ==> HeightsOf(trace) == VerifiedHeights(lightStore, Evidence(verificationTrace, targetHeight))
      ensures Keyed(lightStore) && WellOrderedTrace(verificationTrace) ==> forall b :: b in trace ==> b.height <= targetHeight
    {
      var evidence := Evidence(verificationTrace, targetHeight);
      var collected := CollectVerified(lightStore, evidence);
      trace := SortDescendingByHeight(collected);
      if Keyed(lightStore) {
        KeyedTrace(lightStore, evidence, trace);
        if WellOrderedTrace(verificationTrace) {
          KeyedTraceBelowTarget(lightStore, verificationTrace, targetHeight, trace);
        }
      }
    }
  }

  /** What a caller can conclude from the contracts alone, for a bisection
      from a Trusted anchor at 100 to 200 through a Verified midpoint at 150:
      each hop is traced separately, recording a hop twice changes nothing,
      and `get_trace(200)` yields the block at 150 only. */
  method BisectionScenario(b100: LightBlock, b150: LightBlock, b200: LightBlock)
    requires b100.height == 100 && b150.height == 150 && b200.height == 200
  {
    var store := map[100 := StoredBlock(b100, Trusted),
                     150 := StoredBlock(b150, Verified),
                     200 := StoredBlock(b200, Verified)];
    var state := new State(store);
    state.TraceBlock(150, 100);
    state.TraceBlock(200, 150);
    state.TraceBlock(200, 150);
    assert state.verificationTrace.Keys == {150, 200};
    assert Evidence(state.verificationTrace, 150) == {100};
    assert Evidence(state.verificationTrace, 200) == {150};

    var top := state.GetTrace(200);
    VerifiedEvidenceRemove(store, {150}, 150);
    assert Found(Get(store, 150, Verified)) == multiset{b150};
    assert multiset(top) == multiset{b150};
    assert top == [b150] by {
      assert |top| == 1;
      assert top[0] in multiset(top);
    }
  }

  /** The same bisection seen from the midpoint: `get_trace(150)` leaves the
      Trusted anchor at 100 out, and an untraced target gives nothing. */
  method TrustedAnchorScenario(b100: LightBlock, b150: LightBlock)
    requires b100.height == 100 && b150.height == 150
  {
    var store := map[100 := StoredBlock(b100, Trusted), 150 := StoredBlock(b150, Verified)];
    var state := new State(store);
    state.TraceBlock(150, 100);
    assert Evidence(state.verificationTrace, 150) == {100};

    var mid := state.GetTrace(150);
    VerifiedEvidenceRemove(store, {100}, 100);
    assert mid == [] by {
      assert multiset(mid) == multiset{};
    }

    var none := state.GetTrace(101);
    assert none == [];
  }
}
