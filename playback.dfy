/**
 * The pacing tick of `startStreaming` in wwwroot/js/ecgChart.js: every timer
 * period the callback reads `chart.data[chart.index]` and then sets
 * `chart.index = (chart.index + 1) % chart.data.length`. On an empty data list
 * the read is `undefined` and the new index is NaN, which it stays.
 */
module Playback {
  import opened Options
  import Modular

  /** A value of `chart.index`: a natural number, or NaN. */
  datatype JsIndex = Index(n: nat) | NaN

  /** `chart.data[chart.index]`: the sample under the index, undefined (None) outside the list. */
  function TickValue(data: seq<int>, index: JsIndex): (v: Option<int>)
    ensures v.Some? <==> index.Index? && index.n < |data|
    ensures v.Some? ==> v.value == data[index.n]
  {
    if index.Index? && index.n < |data| then Some(data[index.n]) else None
  }

  /** `(chart.index + 1) % chart.data.length`: in range for non-empty data, NaN for empty data or a NaN index. */
  function TickIndex(data: seq<int>, index: JsIndex): (r: JsIndex)
    ensures r.NaN? <==> |data| == 0 || index.NaN?
    ensures r.Index? ==> r.n < |data|
  {
    if |data| == 0 || index.NaN? then NaN else Index((index.n + 1) % |data|)
  }

  /** The values sent by k ticks from a given index, and the index after them. */
  function Ticks(data: seq<int>, index: JsIndex, k: nat): (seq<Option<int>>, JsIndex) {
    if k == 0 then ([], index)
    else
      var (sent, i) := Ticks(data, index, k - 1);
      (sent + [TickValue(data, i)], TickIndex(data, i))
  }

  /** Playback loops through the data: tick j sends data[(start + j) mod n], and the index stays in range. */
  lemma {:induction false} TicksCycle(data: seq<int>, start: nat, k: nat)
    requires start < |data|
    ensures Ticks(data, Index(start), k).1 == Index((start + k) % |data|)
    ensures |Ticks(data, Index(start), k).0| == k
    ensures forall j :: 0 <= j < k ==> Ticks(data, Index(start), k).0[j] == Some(data[(start + j) % |data|])
  {
    if k == 0 {
      Modular.ModBelow(start, |data|);
    } else {
      TicksCycle(data, start, k - 1);
      Modular.ModSucc(start + k - 1, |data|);
    }
  }

  /** One pass over the whole list from index 0 sends every sample once, in order, and ends back at 0. */
  lemma FullPass(data: seq<int>)
    requires |data| > 0
    ensures Ticks(data, Index(0), |data|).1 == Index(0)
    ensures |Ticks(data, Index(0), |data|).0| == |data|
    ensures forall j :: 0 <= j < |data| ==> Ticks(data, Index(0), |data|).0[j] == Some(data[j])
  {
    TicksCycle(data, 0, |data|);
    Modular.ModUnique(|data|, |data|, 1, 0);
    forall j | 0 <= j < |data| ensures Ticks(data, Index(0), |data|).0[j] == Some(data[j]) {
      Modular.ModBelow(j, |data|);
    }
  }

  /** With an empty list every tick sends undefined and the index is NaN from the first tick on. */
  lemma {:induction false} EmptyDataTicks(index: JsIndex, k: nat)
    ensures k > 0 ==> Ticks([], index, k).1 == NaN
    ensures |Ticks([], index, k).0| == k
    ensures forall j :: 0 <= j < k ==> Ticks([], index, k).0[j] == None
  {
    if k > 0 {
      EmptyDataTicks(index, k - 1);
    }
  }
}
