// The decoding audio provider of the original library build: a sample is
// made of as many decoded packets as it takes to reach 50 ms. Packets are
// fetched one after another until their durations add up to at least
// 500000 (100 ns units) or a fetch fails; the sample starts at the first
// fetched packet's timestamp and lasts the sum of the durations. Only the
// first fetch may skip broken packets, and the discontinuity flag as it
// stands after that first fetch is the one the sample carries.
//
// Fetching and decoding one packet (GetNextPacket with its decoder and
// resampler) is not part of this model: each fetch of a request is an
// input, given once for a fetch that may skip broken packets and once for
// one that may not. After the last given fetch the file is at its end and
// a fetch fails with E_FAIL.

module UncompressedAudioLegacy {
  import opened Common

  /** MINAUDIOSAMPLEDURATION: 50 ms in 100 ns units. */
  const MIN_AUDIO_SAMPLE_DURATION: int := 500000

  /**
   * What one GetNextPacket call gives: its HRESULT, the bytes it wrote, the
   * timestamp and duration in 100 ns units, and whether it marked the
   * stream discontinuous (a broken packet was met).
   */
  datatype Fetch = Fetch(hr: HResult, data: seq<Byte>, pts: int, dur: int, marked: bool)

  /** One GetNextPacket call, as it goes when it may skip broken packets and when it may not. */
  datatype Call = Call(skipping: Fetch, strict: Fetch)

  /** The k-th fetch of a request: only the first may skip; past the input the file has ended. */
  function FetchAt(calls: seq<Call>, k: nat): (f: Fetch)
    ensures k < |calls| && k == 0 ==> f == calls[k].skipping
    ensures k < |calls| && k > 0 ==> f == calls[k].strict
    ensures k >= |calls| ==> f.hr == EFail && f.data == [] && f.dur == 0 && !f.marked
  {
    if k >= |calls| then Fetch(EFail, [], 0, 0, false)
    else if k == 0 then calls[k].skipping
    else calls[k].strict
  }

  /** The outcome of the loop: the sample's bytes, timestamp, duration and flag, the provider's flag, and the fetches made. */
  datatype Gathered = Gathered(
    data: seq<Byte>,
    pts: int,
    dur: int,
    discontinuous: bool,
    flag: bool,
    lastOk: bool,
    used: nat)

  /** The summed durations of the successful fetches among fetches from..to-1. */
  function FetchedDuration(calls: seq<Call>, from: nat, to: nat): int
    decreases to - from
  {
    if from >= to then 0
    else (if FetchAt(calls, from).hr == SOk then FetchAt(calls, from).dur else 0) + FetchedDuration(calls, from + 1, to)
  }

  /**
   * The bytes every fetch among fetches from..to-1 wrote, failed ones
   * included: they all write into the one DataWriter of the request.
   */
  function FetchedData(calls: seq<Call>, from: nat, to: nat): seq<Byte>
    decreases to - from
  {
    if from >= to then [] else FetchAt(calls, from).data + FetchedData(calls, from + 1, to)
  }

  /**
   * The do-while loop of GetNextSample from fetch k on: `flag` is the
   * provider's discontinuity flag, `disc` the flag saved after the first
   * fetch, `finalPts` the sample's timestamp (-1 while unset), `finalDur`
   * its duration so far. The loop ends after a failed fetch, or once the
   * duration reaches 50 ms; every fetch before the last one succeeded.
   */
  function Gather(calls: seq<Call>, k: nat, flag: bool, disc: bool, finalPts: int, finalDur: int, data: seq<Byte>): (g: Gathered)
    requires k <= |calls|
    ensures k < g.used <= |calls| + 1
    ensures g.lastOk ==> g.dur >= MIN_AUDIO_SAMPLE_DURATION
    ensures !g.lastOk ==> FetchAt(calls, g.used - 1).hr != SOk
    ensures flag || FetchAt(calls, k).marked ==> g.flag
    ensures g.discontinuous == if k == 0 then flag || FetchAt(calls, 0).marked else disc
    decreases |calls| - k
  {
    var f := FetchAt(calls, k);
    var flag' := flag || f.marked;
    var disc' := if k == 0 then flag' else disc;
    if f.hr != SOk then Gathered(data + f.data, finalPts, finalDur, disc', flag', false, k + 1)
    else
      var pts' := if finalPts == -1 then f.pts else finalPts;
      var dur' := finalDur + f.dur;
      if dur' >= MIN_AUDIO_SAMPLE_DURATION then Gathered(data + f.data, pts', dur', disc', flag', true, k + 1)
      else Gather(calls, k + 1, flag', disc', pts', dur', data + f.data)
  }

  /**
   * The loop's outcome when fetch k is its last (GatherEnds): a failure adds
   * its bytes and nothing else; a success adds its bytes and duration and
   * sets the timestamp if it is still unset.
   */
  function LastFetch(f: Fetch, k: nat, flag: bool, disc: bool, finalPts: int, finalDur: int, data: seq<Byte>): Gathered
  {
    if f.hr != SOk then Gathered(data + f.data, finalPts, finalDur, disc, flag, false, k + 1)
    else Gathered(data + f.data, if finalPts == -1 then f.pts else finalPts, finalDur + f.dur, disc, flag, true, k + 1)
  }

  /** The fetch at k succeeded and the duration stays below 50 ms: the loop goes on. */
  predicate Continues(calls: seq<Call>, k: nat, finalDur: int)
  {
    FetchAt(calls, k).hr == SOk && finalDur + FetchAt(calls, k).dur < MIN_AUDIO_SAMPLE_DURATION
  }

  /** One round of Gather. */
  lemma GatherStep(calls: seq<Call>, k: nat, flag: bool, disc: bool, finalPts: int, finalDur: int, data: seq<Byte>)
    requires k <= |calls|
    ensures var f := FetchAt(calls, k);
      var g := Gather(calls, k, flag, disc, finalPts, finalDur, data);
      && (!Continues(calls, k, finalDur) ==>
            g.used == k + 1 && g.dur == finalDur + (if f.hr == SOk then f.dur else 0)
            && g.data == data + f.data)
      && (Continues(calls, k, finalDur) ==>
            k < |calls| &&
            g == Gather(calls, k + 1, flag || f.marked, if k == 0 then flag || f.marked else disc,
                        if finalPts == -1 then f.pts else finalPts, finalDur + f.dur, data + f.data))
  {
  }

  /** The sample's duration is the sum of the successful fetches' durations. */
  lemma {:induction false} GatheredDuration(calls: seq<Call>, k: nat, flag: bool, disc: bool, finalPts: int, finalDur: int, data: seq<Byte>)
    requires k <= |calls|
    ensures var g := Gather(calls, k, flag, disc, finalPts, finalDur, data);
      g.dur == finalDur + FetchedDuration(calls, k, g.used)
    decreases |calls| - k
  {
    var f := FetchAt(calls, k);
    GatherStep(calls, k, flag, disc, finalPts, finalDur, data);
    if !Continues(calls, k, finalDur) {
      assert FetchedDuration(calls, k + 1, k + 1) == 0;
    } else {
      GatheredDuration(calls, k + 1, flag || f.marked, if k == 0 then flag || f.marked else disc,
                       if finalPts == -1 then f.pts else finalPts, finalDur + f.dur, data + f.data);
    }
  }

  /**
   * The sample's bytes are those of every fetch made, in order: a fetch
   * that fails after decoding some frames leaves their bytes in the
   * writer, and they go into the sample too.
   */
  lemma {:induction false} GatheredData(calls: seq<Call>, k: nat, flag: bool, disc: bool, finalPts: int, finalDur: int, data: seq<Byte>)
    requires k <= |calls|
    ensures var g := Gather(calls, k, flag, disc, finalPts, finalDur, data);
      g.data == data + FetchedData(calls, k, g.used)
    decreases |calls| - k
  {
    var f := FetchAt(calls, k);
    if Continues(calls, k, finalDur) {
      var flag' := flag || f.marked;
      var disc' := if k == 0 then flag' else disc;
      var pts' := if finalPts == -1 then f.pts else finalPts;
      GatherGoesOn(calls, k, flag, disc, finalPts, finalDur, data);
      GatheredData(calls, k + 1, flag', disc', pts', finalDur + f.dur, data + f.data);
      var g := Gather(calls, k + 1, flag', disc', pts', finalDur + f.dur, data + f.data);
      FetchedDataStep(calls, k, g.used);
      var rest := FetchedData(calls, k + 1, g.used);
      assert (data + f.data) + rest == data + (f.data + rest);
    } else {
      GatherStops(calls, k, flag, disc, finalPts, finalDur, data);
      FetchedDataStep(calls, k, k + 1);
    }
  }

  /** The loop stops after fetch k, with that fetch's bytes written. */
  lemma GatherStops(calls: seq<Call>, k: nat, flag: bool, disc: bool, finalPts: int, finalDur: int, data: seq<Byte>)
    requires k <= |calls| && !Continues(calls, k, finalDur)
    ensures var g := Gather(calls, k, flag, disc, finalPts, finalDur, data);
      g.used == k + 1 && g.data == data + FetchAt(calls, k).data
  {
  }

  /** The loop ends at fetch k with LastFetch. */
  lemma GatherEnds(calls: seq<Call>, k: nat, flag: bool, disc: bool, finalPts: int, finalDur: int, data: seq<Byte>)
    requires k <= |calls| && !Continues(calls, k, finalDur)
    ensures var f := FetchAt(calls, k);
      Gather(calls, k, flag, disc, finalPts, finalDur, data)
        == LastFetch(f, k, flag || f.marked, if k == 0 then flag || f.marked else disc, finalPts, finalDur, data)
  {
  }

  /** The loop goes on to fetch k + 1. */
  lemma GatherGoesOn(calls: seq<Call>, k: nat, flag: bool, disc: bool, finalPts: int, finalDur: int, data: seq<Byte>)
    requires k <= |calls| && Continues(calls, k, finalDur)
    ensures var f := FetchAt(calls, k);
      k < |calls| &&
      Gather(calls, k, flag, disc, finalPts, finalDur, data)
        == Gather(calls, k + 1, flag || f.marked, if k == 0 then flag || f.marked else disc,
                  if finalPts == -1 then f.pts else finalPts, finalDur + f.dur, data + f.data)
  {
  }

  lemma FetchedDataStep(calls: seq<Call>, k: nat, to: nat)
    requires k < to
    ensures FetchedData(calls, k, to) == FetchAt(calls, k).data + FetchedData(calls, k + 1, to)
  {
  }

  /** A request from the start: no fetch yet, no timestamp (-1), no duration, no bytes. */
  function GatherAll(calls: seq<Call>, flag: bool): Gathered
  {
    Gather(calls, 0, flag, false, -1, 0, [])
  }

  /**
   * The sample starts at the first fetch's timestamp when the first fetch
   * succeeded (and its timestamp is not the -1 the code uses for unset).
   */
  lemma SampleStartsAtFirstFetch(calls: seq<Call>, flag: bool)
    requires FetchAt(calls, 0).hr == SOk && FetchAt(calls, 0).pts != -1
    ensures GatherAll(calls, flag).pts == FetchAt(calls, 0).pts
  {
    var f := FetchAt(calls, 0);
    KeepsPts(calls, 1, flag || f.marked, flag || f.marked, f.pts, 0 + f.dur, [] + f.data);
  }

  /** Once set, the sample's timestamp is kept by later fetches. */
  lemma {:induction false} KeepsPts(calls: seq<Call>, k: nat, flag: bool, disc: bool, finalPts: int, finalDur: int, data: seq<Byte>)
    requires 0 < k <= |calls| + 1 && finalPts != -1
    ensures k <= |calls| ==> Gather(calls, k, flag, disc, finalPts, finalDur, data).pts == finalPts
    decreases |calls| + 1 - k
  {
    if k < |calls| {
      var f := FetchAt(calls, k);
      if f.hr == SOk && finalDur + f.dur < MIN_AUDIO_SAMPLE_DURATION {
        KeepsPts(calls, k + 1, flag || f.marked, disc, finalPts, finalDur + f.dur, data + f.data);
      }
    }
  }

  /**
   * Only the first fetch may skip: two inputs that agree on the first
   * fetch's skipping answer and on the later fetches' strict answers give
   * the same sample.
   */
  lemma {:induction false} OnlyFirstFetchSkips(calls: seq<Call>, calls': seq<Call>, flag: bool)
    requires |calls| == |calls'| && (calls != [] ==> calls[0].skipping == calls'[0].skipping)
    requires forall j :: 0 < j < |calls| ==> calls[j].strict == calls'[j].strict
    ensures GatherAll(calls, flag) == GatherAll(calls', flag)
  {
    SameFetches(calls, calls', 0, flag, false, -1, 0, []);
  }

  lemma {:induction false} SameFetches(calls: seq<Call>, calls': seq<Call>, k: nat, flag: bool, disc: bool, finalPts: int, finalDur: int, data: seq<Byte>)
    requires |calls| == |calls'| && k <= |calls|
    requires forall j :: k <= j ==> FetchAt(calls, j) == FetchAt(calls', j)
    ensures Gather(calls, k, flag, disc, finalPts, finalDur, data) == Gather(calls', k, flag, disc, finalPts, finalDur, data)
    decreases |calls| - k
  {
    var f := FetchAt(calls, k);
    assert FetchAt(calls', k) == f;
    if Continues(calls, k, finalDur) {
      var pts' := if finalPts == -1 then f.pts else finalPts;
      var flag' := flag || f.marked;
      SameFetches(calls, calls', k + 1, flag', if k == 0 then flag' else disc, pts', finalDur + f.dur, data + f.data);
      SameNextFetch(calls, calls', k, flag, disc, finalPts, finalDur, data);
    } else {
      SameLastFetch(calls, calls', k, flag, disc, finalPts, finalDur, data);
    }
  }

  lemma SameNextFetch(calls: seq<Call>, calls': seq<Call>, k: nat, flag: bool, disc: bool, finalPts: int, finalDur: int, data: seq<Byte>)
    requires |calls| == |calls'| && k <= |calls|
    requires FetchAt(calls, k) == FetchAt(calls', k) && Continues(calls, k, finalDur)
    requires var f := FetchAt(calls, k);
      Gather(calls, k + 1, flag || f.marked, if k == 0 then flag || f.marked else disc,
             if finalPts == -1 then f.pts else finalPts, finalDur + f.dur, data + f.data)
      == Gather(calls', k + 1, flag || f.marked, if k == 0 then flag || f.marked else disc,
                if finalPts == -1 then f.pts else finalPts, finalDur + f.dur, data + f.data)
    ensures Gather(calls, k, flag, disc, finalPts, finalDur, data) == Gather(calls', k, flag, disc, finalPts, finalDur, data)
  {
    GatherGoesOn(calls, k, flag, disc, finalPts, finalDur, data);
    GatherGoesOn(calls', k, flag, disc, finalPts, finalDur, data);
  }

  lemma SameLastFetch(calls: seq<Call>, calls': seq<Call>, k: nat, flag: bool, disc: bool, finalPts: int, finalDur: int, data: seq<Byte>)
    requires |calls| == |calls'| && k <= |calls|
    requires FetchAt(calls, k) == FetchAt(calls', k) && !Continues(calls, k, finalDur)
    ensures Gather(calls, k, flag, disc, finalPts, finalDur, data) == Gather(calls', k, flag, disc, finalPts, finalDur, data)
  {
    GatherEnds(calls, k, flag, disc, finalPts, finalDur, data);
    GatherEnds(calls', k, flag, disc, finalPts, finalDur, data);
  }

  /** The fields of the provider that GetNextSample changes. */
  datatype AudioState = AudioState(isEnabled: bool, isDiscontinuous: bool, queue: seq<Packet>)

  /** The sample GetNextSample returns. */
  datatype AudioSample = AudioSample(data: seq<Byte>, pts: int, duration: int, discontinuous: bool)

  /**
   * GetNextSample: a positive total duration makes a sample; the provider's
   * flag is cleared only if the last fetch succeeded. A total of zero (or
   * less) gives no sample, and the stream is flushed and disabled.
   */
  function NextSample(s: AudioState, calls: seq<Call>): (r: (Option<AudioSample>, AudioState))
    ensures var g := GatherAll(calls, s.isDiscontinuous);
      && (r.0.Some? <==> g.dur > 0)
      && (r.0.Some? ==> r.0.value == AudioSample(g.data, g.pts, g.dur, g.discontinuous)
                        && r.1 == s.(isDiscontinuous := g.flag && !g.lastOk))
      && (r.0.None? ==> r.1 == AudioState(false, true, []))
  {
    var g := GatherAll(calls, s.isDiscontinuous);
    if g.dur > 0 then
      (Some(AudioSample(g.data, g.pts, g.dur, g.discontinuous)), s.(isDiscontinuous := if g.lastOk then false else g.flag))
    else (None, AudioState(false, true, []))
  }

  /**
   * A sample that reached 50 ms leaves the provider's flag cleared; a sample
   * cut short by a failed fetch reports the flag as it was after the first
   * fetch and keeps it set if any fetch marked it.
   */
  lemma FullSampleClearsFlag(s: AudioState, calls: seq<Call>)
    requires GatherAll(calls, s.isDiscontinuous).lastOk
    ensures NextSample(s, calls).0.Some? && !NextSample(s, calls).1.isDiscontinuous
    ensures NextSample(s, calls).0.value.duration >= MIN_AUDIO_SAMPLE_DURATION
  {
  }

  /**
   * A sample cut short by a failing second fetch still carries what that
   * fetch wrote before it failed, behind the first fetch's bytes.
   */
  lemma FailedFetchBytesKept(s: AudioState, calls: seq<Call>)
    requires FetchAt(calls, 0).hr == SOk && 0 < FetchAt(calls, 0).dur < MIN_AUDIO_SAMPLE_DURATION
    requires FetchAt(calls, 1).hr != SOk
    ensures NextSample(s, calls).0.Some?
    ensures NextSample(s, calls).0.value.data == FetchAt(calls, 0).data + FetchAt(calls, 1).data
    ensures NextSample(s, calls).0.value.duration == FetchAt(calls, 0).dur
  {
    var f := FetchAt(calls, 0);
    var flag := s.isDiscontinuous || f.marked;
    GatherStep(calls, 0, s.isDiscontinuous, false, -1, 0, []);
    GatherStep(calls, 1, flag, flag, f.pts, f.dur, [] + f.data);
  }

  /** When the first fetch fails, there is no sample and the stream is disabled. */
  lemma FirstFetchFailureDisables(s: AudioState, calls: seq<Call>)
    requires FetchAt(calls, 0).hr != SOk
    ensures NextSample(s, calls) == (None, AudioState(false, true, []))
  {
    assert FetchedDuration(calls, 0, 1) == 0 by {
      assert FetchedDuration(calls, 1, 1) == 0;
    }
  }

  class UncompressedAudioSampleProvider {
    var isEnabled: bool
    var isDiscontinuous: bool
    var packetQueue: seq<Packet>

    function State(): AudioState
      reads this
    {
      AudioState(isEnabled, isDiscontinuous, packetQueue)
    }

    method DisableStream()
      modifies this
      ensures State() == AudioState(false, true, [])
    {
      packetQueue := [];
      isDiscontinuous := true;
      isEnabled := false;
    }

    /** GetNextSample: fetches until 50 ms of audio or a failure; see NextSample. */
    method GetNextSample(calls: seq<Call>) returns (sample: Option<AudioSample>)
      modifies this
      ensures (sample, State()) == NextSample(old(State()), calls)
    {
      ghost var goal := GatherAll(calls, isDiscontinuous);
      var finalPts, finalDur, data := -1, 0, [];
      var isFirstPacket := true;
      var discontinuous := false;
      var k: nat := 0;
      var ok: bool;
      while true
        invariant k <= |calls| && isFirstPacket == (k == 0)
        invariant isEnabled == old(isEnabled) && packetQueue == old(packetQueue)
        invariant goal == Gather(calls, k, isDiscontinuous, discontinuous, finalPts, finalDur, data)
        decreases |calls| - k
      {
        var f := FetchAt(calls, k);
        if f.marked {
          isDiscontinuous := true;
        }
        if isFirstPacket {
          discontinuous := isDiscontinuous;
        }
        isFirstPacket := false;
        data := data + f.data;
        ok := f.hr == SOk;
        if ok {
          if finalPts == -1 {
            finalPts := f.pts;
          }
          finalDur := finalDur + f.dur;
        }
        if !(ok && finalDur < MIN_AUDIO_SAMPLE_DURATION) {
          assert goal == Gathered(data, finalPts, finalDur, discontinuous, isDiscontinuous, ok, k + 1);
          break;
        }
        k := k + 1;
      }
      if finalDur > 0 {
        sample := Some(AudioSample(data, finalPts, finalDur, discontinuous));
        if ok {
          isDiscontinuous := false;
        }
      } else {
        sample := None;
        DisableStream();
      }
    }
  }
}
