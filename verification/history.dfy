/** Bounded, gap-deduplicated exchange-rate history (src/math/history.ts).

    One document per pair is kept in a key-value store under "fx:" + pair.
    Appending a sample loads the document, keeps the sample only when it is
    more than `minGapMs` away from the last stored one, trims the list to the
    newest `historyMax` samples, always advances `updatedAt`, and writes the
    document back.  Timestamps are integer milliseconds. */
module History {
  import opened Wrappers

  // ---------------------------------------------------------------------------
  // Data model
  // ---------------------------------------------------------------------------

  /** `FxSample`: an observation time in milliseconds and the rate seen then. */
  datatype FxSample = FxSample(ts: int, rate: real)

  /** `FxHistoryDoc`; `updatedAt` is `None` for the empty string of a new document. */
  datatype FxHistoryDoc = FxHistoryDoc(pair: string, updatedAt: Option<int>, samples: seq<FxSample>)

  /** What the key-value store holds under a key: a payload that parses as a
      document, or one that `getJSON` turns into null (empty or not JSON). */
  datatype Entry = Stored(doc: FxHistoryDoc) | Unreadable

  /** The storage key of a pair's document. */
  function Key(pairId: string): string
  {
    "fx:" + pairId
  }

  /** Distinct pairs never share a storage key. */
  lemma KeyInjective(a: string, b: string)
    ensures Key(a) == Key(b) ==> a == b
  {
    if Key(a) == Key(b) {
      assert a == Key(a)[3..];
      assert b == Key(b)[3..];
    }
  }

  /** The document `loadFx` makes up for a pair with nothing readable stored. */
  function EmptyDoc(pairId: string): FxHistoryDoc
  {
    FxHistoryDoc(pairId, None, [])
  }

  /** `getJSON`: a missing key and an unreadable payload are both absent. */
  function GetJSON(kv: map<string, Entry>, key: string): Option<FxHistoryDoc>
  {
    if key in kv && kv[key].Stored? then Some(kv[key].doc) else None
  }

  // ---------------------------------------------------------------------------
  // The append policy, on values
  // ---------------------------------------------------------------------------

  function Abs(x: int): int { if x < 0 then -x else x }

  /** The gap rule: keep the sample when there is no last sample or when it
      is strictly more than `minGap` away from the last one, in either direction. */
  predicate Accepts(samples: seq<FxSample>, sample: FxSample, minGap: int)
  {
    samples == [] || Abs(sample.ts - samples[|samples| - 1].ts) > minGap
  }

  /** The sample list after an append: pushed and trimmed to the newest
      `historyMax` entries when the gap rule keeps it, unchanged otherwise. */
  function Appended(samples: seq<FxSample>, sample: FxSample, historyMax: int, minGap: int): seq<FxSample>
    requires historyMax >= 1
  {
    if Accepts(samples, sample, minGap) then
      var grown := samples + [sample];
      if |grown| > historyMax then grown[|grown| - historyMax..] else grown
    else samples
  }

  /** Every stored sample is more than `gap` after every earlier one. */
  ghost predicate Spaced(samples: seq<FxSample>, gap: int)
  {
    forall i, j :: 0 <= i < j < |samples| ==> samples[j].ts - samples[i].ts > gap
  }

  /** Samples in non-decreasing time order. */
  ghost predicate Ascending(samples: seq<FxSample>)
  {
    forall i, j :: 0 <= i < j < |samples| ==> samples[i].ts <= samples[j].ts
  }

  function MinInt(a: int, b: int): (r: int)
    ensures r <= a && r <= b && (r == a || r == b)
  {
    if a <= b then a else b
  }

  /** A rejected sample leaves the list as it was; an accepted one ends it
      and the list always changes. */
  lemma AppendedDecision(samples: seq<FxSample>, sample: FxSample, historyMax: int, minGap: int)
    requires historyMax >= 1 && minGap >= 0
    ensures !Accepts(samples, sample, minGap) ==> Appended(samples, sample, historyMax, minGap) == samples
    ensures Accepts(samples, sample, minGap) ==>
              var r := Appended(samples, sample, historyMax, minGap);
              r != samples && |r| > 0 && r[|r| - 1] == sample
  {
    var r := Appended(samples, sample, historyMax, minGap);
    if Accepts(samples, sample, minGap) && samples != [] {
      assert r[|r| - 1].ts != samples[|samples| - 1].ts;
    }
  }

  /** An accepted sample yields exactly the newest min(n + 1, historyMax)
      entries of the old list followed by the sample: only the oldest
      entries are ever dropped and the order of the rest is kept. */
  lemma AppendedKeepsNewest(samples: seq<FxSample>, sample: FxSample, historyMax: int, minGap: int)
    requires historyMax >= 1
    requires Accepts(samples, sample, minGap)
    ensures var r := Appended(samples, sample, historyMax, minGap);
            && |r| == MinInt(|samples| + 1, historyMax)
            && r == (samples + [sample])[|samples| + 1 - |r|..]
  {
  }

  /** A list within the bound stays within it. */
  lemma AppendedBounded(samples: seq<FxSample>, sample: FxSample, historyMax: int, minGap: int)
    requires historyMax >= 1
    requires |samples| <= historyMax
    ensures |Appended(samples, sample, historyMax, minGap)| <= historyMax
  {
  }

  lemma SpacedSnoc(samples: seq<FxSample>, sample: FxSample, gap: int)
    requires gap >= 0
    requires Spaced(samples, gap)
    requires samples == [] || sample.ts - samples[|samples| - 1].ts > gap
    ensures Spaced(samples + [sample], gap)
  {
    var grown := samples + [sample];
    var n := |samples|;
    forall i, j | 0 <= i < j < |grown|
      ensures grown[j].ts - grown[i].ts > gap
    {
      if j == n && i < n - 1 {
        assert samples[n - 1].ts - samples[i].ts > gap;
      }
    }
  }

  lemma SpacedSlice(samples: seq<FxSample>, lo: nat, hi: nat, gap: int)
    requires lo <= hi <= |samples|
    requires Spaced(samples, gap)
    ensures Spaced(samples[lo..hi], gap)
  {
    var r := samples[lo..hi];
    forall i, j | 0 <= i < j < |r|
      ensures r[j].ts - r[i].ts > gap
    {
      assert r[i] == samples[i + lo] && r[j] == samples[j + lo];
    }
  }

  /** Spaced samples stay spaced as long as the new sample is not more than
      the gap older than the last one. */
  lemma AppendKeepsSpacing(samples: seq<FxSample>, sample: FxSample, historyMax: int, minGap: int)
    requires historyMax >= 1 && minGap >= 0
    requires Spaced(samples, minGap)
    requires samples == [] || sample.ts >= samples[|samples| - 1].ts - minGap
    ensures Spaced(Appended(samples, sample, historyMax, minGap), minGap)
  {
    if Accepts(samples, sample, minGap) {
      var grown := samples + [sample];
      SpacedSnoc(samples, sample, minGap);
      if |grown| > historyMax {
        SpacedSlice(grown, |grown| - historyMax, |grown|, minGap);
      }
    }
  }

  /** Ascending order is the caller's business: a sample more than the gap
      older than the last one passes the gap rule (it compares absolute
      distances) and, with room for two samples, leaves the list out of order. */
  lemma AppendAcceptsOlderSample(samples: seq<FxSample>, sample: FxSample, historyMax: int, minGap: int)
    requires historyMax >= 2 && minGap >= 0
    requires samples != []
    requires sample.ts < samples[|samples| - 1].ts - minGap
    ensures Accepts(samples, sample, minGap)
    ensures !Ascending(Appended(samples, sample, historyMax, minGap))
  {
    var r := Appended(samples, sample, historyMax, minGap);
    var grown := samples + [sample];
    assert r == grown[|grown| - |r|..];
    assert |r| >= 2;
    assert r[|r| - 2] == samples[|samples| - 1];
    assert r[|r| - 1] == sample;
  }

  /** Appending `xs` one after the other, oldest first. */
  function AppendAll(samples: seq<FxSample>, xs: seq<FxSample>, historyMax: int, minGap: int): seq<FxSample>
    requires historyMax >= 1
  {
    if xs == [] then samples
    else Appended(AppendAll(samples, xs[..|xs| - 1], historyMax, minGap), xs[|xs| - 1], historyMax, minGap)
  }

  /** Starting from an empty history, appending spaced samples keeps exactly
      the newest min(|xs|, historyMax) of them, in order. */
  lemma {:induction false} AppendAllKeepsNewest(xs: seq<FxSample>, historyMax: int, minGap: int)
    requires historyMax >= 1 && minGap >= 0
    requires Spaced(xs, minGap)
    ensures AppendAll([], xs, historyMax, minGap) == xs[|xs| - MinInt(|xs|, historyMax)..]
  {
    if xs != [] {
      var n := |xs|;
      var m := MinInt(n - 1, historyMax);
      var kept := AppendAll([], xs[..n - 1], historyMax, minGap);
      assert kept == xs[n - 1 - m..n - 1] by {
        SpacedSlice(xs, 0, n - 1, minGap);
        AppendAllKeepsNewest(xs[..n - 1], historyMax, minGap);
      }
      assert n >= 2 ==> xs[n - 1].ts - xs[n - 2].ts > minGap by {
        SpacedLastStep(xs, minGap);
      }
      calc {
        AppendAll([], xs, historyMax, minGap);
        Appended(kept, xs[n - 1], historyMax, minGap);
        { AppendNextOfWindow(xs, historyMax, minGap); }
        xs[n - MinInt(n, historyMax)..];
      }
    }
  }

  lemma SpacedLastStep(xs: seq<FxSample>, gap: int)
    requires Spaced(xs, gap)
    ensures |xs| >= 2 ==> xs[|xs| - 1].ts - xs[|xs| - 2].ts > gap
  {
  }

  lemma SliceSnoc(xs: seq<FxSample>, a: nat)
    requires a < |xs|
    ensures xs[a..|xs| - 1] + [xs[|xs| - 1]] == xs[a..]
  {
  }

  /** The inductive step: the newest min(n - 1, historyMax) samples before
      the last one, plus the last sample, give the newest min(n, historyMax). */
  lemma AppendNextOfWindow(xs: seq<FxSample>, historyMax: int, minGap: int)
    requires historyMax >= 1 && minGap >= 0
    requires |xs| > 0
    requires |xs| >= 2 ==> xs[|xs| - 1].ts - xs[|xs| - 2].ts > minGap
    ensures Appended(xs[|xs| - 1 - MinInt(|xs| - 1, historyMax)..|xs| - 1], xs[|xs| - 1], historyMax, minGap)
              == xs[|xs| - MinInt(|xs|, historyMax)..]
  {
    var n := |xs|;
    var m := MinInt(n - 1, historyMax);
    var kept := xs[n - 1 - m..n - 1];
    var x := xs[n - 1];
    assert kept != [] ==> kept[|kept| - 1] == xs[n - 2];
    assert Accepts(kept, x, minGap);
    var grown := kept + [x];
    SliceSnoc(xs, n - 1 - m);
    if m == historyMax {
      assert grown[|grown| - historyMax..] == xs[n - historyMax..];
    } else {
      assert m == n - 1;
    }
  }

  // ---------------------------------------------------------------------------
  // The store
  // ---------------------------------------------------------------------------

  /** `loadFx` on a given store content: the stored document, or an empty
      one for the pair. */
  function LoadDoc(kv: map<string, Entry>, pairId: string): (doc: FxHistoryDoc)
    ensures Key(pairId) in kv && kv[Key(pairId)].Stored? ==> doc == kv[Key(pairId)].doc
    ensures !(Key(pairId) in kv && kv[Key(pairId)].Stored?) ==>
              doc.pair == pairId && doc.updatedAt == None && doc.samples == []
  {
    match GetJSON(kv, Key(pairId))
    case Some(d) => d
    case None => EmptyDoc(pairId)
  }

  /** Every readable document holds at most `historyMax` samples. */
  ghost predicate BoundedStore(kv: map<string, Entry>, historyMax: int)
  {
    forall k :: k in kv && kv[k].Stored? ==> |kv[k].doc.samples| <= historyMax
  }

  /** Writing one pair's document leaves what every other pair loads unchanged. */
  lemma StoreKeepsOtherPairs(kv: map<string, Entry>, pairId: string, e: Entry)
    ensures forall other :: other != pairId ==> LoadDoc(kv[Key(pairId) := e], other) == LoadDoc(kv, other)
  {
    forall other | other != pairId
      ensures LoadDoc(kv[Key(pairId) := e], other) == LoadDoc(kv, other)
    {
      KeyInjective(other, pairId);
    }
  }

  /** Writing a document within the bound keeps the whole store within it. */
  lemma StoreKeepsBound(kv: map<string, Entry>, key: string, doc: FxHistoryDoc, historyMax: int)
    requires BoundedStore(kv, historyMax)
    requires |doc.samples| <= historyMax
    ensures BoundedStore(kv[key := Stored(doc)], historyMax)
  {
  }

  /** The key-value store with the two history operations over it.
      `historyMax` is FX_HISTORY_MAX_SAMPLES and `minGapMs` is MIN_GAP_MS. */
  class FxStore {
    var kv: map<string, Entry>
    const historyMax: int
    const minGapMs: int

    ghost predicate Valid()
      reads this
    {
      historyMax >= 1 && minGapMs >= 0
    }

    ghost predicate Bounded()
      reads this
    {
      BoundedStore(kv, historyMax)
    }

    constructor (historyMax: int, minGapMs: int, contents: map<string, Entry>)
      requires historyMax >= 1 && minGapMs >= 0
      ensures Valid()
      ensures this.historyMax == historyMax && this.minGapMs == minGapMs
      ensures kv == contents
    {
      this.historyMax := historyMax;
      this.minGapMs := minGapMs;
      kv := contents;
    }

    /** `loadFx`: the stored document, or an empty one for the pair. */
    function LoadFx(pairId: string): (doc: FxHistoryDoc)
      reads this
      ensures doc == LoadDoc(kv, pairId)
    {
      LoadDoc(kv, pairId)
    }

    /** `appendFx`: load, apply the gap rule and the trim, stamp `updatedAt`
        with the sample's time (even when the sample is dropped), save. */
    method AppendFx(pairId: string, sample: FxSample) returns (doc: FxHistoryDoc)
      requires Valid()
      modifies this
      ensures Valid()
      ensures kv == old(kv)[Key(pairId) := Stored(doc)]
      ensures doc.pair == old(LoadFx(pairId)).pair
      ensures doc.updatedAt == Some(sample.ts)
      ensures doc.samples == Appended(old(LoadFx(pairId)).samples, sample, historyMax, minGapMs)
      ensures LoadFx(pairId) == doc
      ensures forall other :: other != pairId ==> LoadFx(other) == old(LoadFx(other))
      ensures old(Bounded()) ==> Bounded()
    {
      var id := Key(pairId);
      doc := LoadFx(pairId);
      ghost var loaded := doc;

      var n := |doc.samples|;
      if n == 0 || Abs(sample.ts - doc.samples[n - 1].ts) > minGapMs {
        doc := doc.(samples := doc.samples + [sample]);
        if |doc.samples| > historyMax {
          doc := doc.(samples := doc.samples[|doc.samples| - historyMax..]);
        }
      }
      doc := doc.(updatedAt := Some(sample.ts));
      assert doc == loaded.(updatedAt := Some(sample.ts),
                            samples := Appended(loaded.samples, sample, historyMax, minGapMs));

      ghost var before := kv;
      kv := kv[id := Stored(doc)];

      StoreKeepsOtherPairs(before, pairId, Stored(doc));
      if BoundedStore(before, historyMax) {
        AppendedBounded(loaded.samples, sample, historyMax, minGapMs);
        StoreKeepsBound(before, id, doc, historyMax);
      }
    }
  }
}
