/** The rolling audio buffer of a transcriber (`_record_audio_frame`, `_drain_audio_buffer`). */
module AudioWindow {
  import opened Outcomes
  import opened Sequences

  datatype Frame = Frame(data: seq<int>, sampleRate: nat, numChannels: nat, samplesPerChannel: nat)

  datatype Audio = Audio(pcm: seq<int>, sampleRate: nat, numChannels: nat)

  const BUFFER_SECONDS := 3

  function Total(frames: seq<Frame>): nat {
    if frames == [] then 0 else frames[0].samplesPerChannel + Total(frames[1..])
  }

  function Pcm(frames: seq<Frame>): seq<int> {
    if frames == [] then [] else Pcm(frames[..|frames| - 1]) + frames[|frames| - 1].data
  }

  /** A rate of zero, taken from the first frame, leaves the buffer unbounded. */
  function Limit(rate: Option<nat>): Option<nat> {
    match rate
    case Some(r) => if r == 0 then None else Some(BUFFER_SECONDS * r)
    case None => None
  }

  /** The most recent frames that fit. */
  function Window(limit: Option<nat>, recorded: seq<Frame>): seq<Frame> {
    if limit.None? || Total(recorded) <= limit.value then recorded else Window(limit, recorded[1..])
  }

  function DataLength(frames: seq<Frame>): nat {
    if frames == [] then 0 else DataLength(frames[..|frames| - 1]) + |frames[|frames| - 1].data|
  }

  /** The samples of each frame follow those of the frames before it. */
  lemma {:induction false} PcmHoldsFrame(frames: seq<Frame>, k: nat)
    requires k < |frames|
    ensures |Pcm(frames)| == DataLength(frames)
    ensures var start := DataLength(frames[..k]);
            start + |frames[k].data| <= |Pcm(frames)|
            && Pcm(frames)[start..start + |frames[k].data|] == frames[k].data
  {
    var n := |frames| - 1;
    PcmLength(frames);
    PcmLength(frames[..n]);
    if k < n {
      PcmHoldsFrame(frames[..n], k);
      assert frames[..n][..k] == frames[..k];
      var start := DataLength(frames[..k]);
      assert Pcm(frames)[start..start + |frames[k].data|] == Pcm(frames[..n])[start..start + |frames[k].data|];
    }
  }

  lemma {:induction false} PcmLength(frames: seq<Frame>)
    ensures |Pcm(frames)| == DataLength(frames)
  {
    if frames != [] {
      PcmLength(frames[..|frames| - 1]);
    }
  }

  /** The window is the longest suffix within the limit. */
  lemma {:induction false} WindowIsLongestSuffix(max: nat, recorded: seq<Frame>)
    ensures var window := Window(Some(max), recorded);
            && |window| <= |recorded| && window == recorded[|recorded| - |window|..] && Total(window) <= max
            && forall k :: 0 <= k < |recorded| - |window| ==> Total(recorded[k..]) > max
  {
    if Total(recorded) <= max {
      assert recorded[0..] == recorded;
    } else {
      var rest, window := recorded[1..], Window(Some(max), recorded);
      WindowIsLongestSuffix(max, rest);
      forall k | 0 <= k < |recorded| - |window| ensures Total(recorded[k..]) > max {
        if k == 0 {
          assert recorded[0..] == recorded;
        } else {
          assert recorded[k..] == rest[k - 1..];
        }
      }
    }
  }

  lemma {:induction false} TotalSnoc(frames: seq<Frame>, frame: Frame)
    ensures Total(frames + [frame]) == Total(frames) + frame.samplesPerChannel
  {
    if frames == [] {
      assert [] + [frame] == [frame] && [frame][1..] == [];
    } else {
      TailOfAppend(frames, [frame]);
      TotalSnoc(frames[1..], frame);
    }
  }

  /** Frames dropped earlier would never have come back: trimming as frames arrive gives the same window. */
  lemma {:induction false} WindowSnoc(limit: Option<nat>, recorded: seq<Frame>, frame: Frame)
    ensures Window(limit, Window(limit, recorded) + [frame]) == Window(limit, recorded + [frame])
  {
    if limit.Some? && Total(recorded) > limit.value {
      TotalSnoc(recorded, frame);
      TailOfAppend(recorded, [frame]);
      WindowSnoc(limit, recorded[1..], frame);
    }
  }

  class AudioBuffer {
    var frames: seq<Frame>
    var bufferedSamples: int
    var sampleRate: Option<nat>
    var numChannels: Option<nat>

    /** Every frame recorded since the last drain that returned audio. */
    ghost var recorded: seq<Frame>

    ghost predicate Valid()
      reads this
    {
      && frames == Window(Limit(sampleRate), recorded)
      && bufferedSamples == Total(frames)
      && (sampleRate.None? <==> numChannels.None?)
      && (sampleRate.None? ==> recorded == [])
    }

    constructor ()
      ensures Valid() && recorded == [] && sampleRate == None
    {
      frames, bufferedSamples, recorded := [], 0, [];
      sampleRate, numChannels := None, None;
    }

    /** The first frame ever seen settles rate and channels. */
    method RecordAudioFrame(frame: Frame)
      requires Valid()
      modifies this
      ensures Valid() && recorded == old(recorded) + [frame]
      ensures frames == if sampleRate == Some(0) then recorded else Window(Some(3 * sampleRate.value), recorded)
      ensures old(sampleRate).None? ==> sampleRate == Some(frame.sampleRate) && numChannels == Some(frame.numChannels)
      ensures old(sampleRate).Some? ==> sampleRate == old(sampleRate) && numChannels == old(numChannels)
    {
      if sampleRate.None? {
        sampleRate, numChannels := Some(frame.sampleRate), Some(frame.numChannels);
        assert Window(Limit(sampleRate), recorded) == [];
      }
      WindowSnoc(Limit(sampleRate), recorded, frame);
      TotalSnoc(frames, frame);
      recorded := recorded + [frame];
      frames := frames + [frame];
      bufferedSamples := bufferedSamples + frame.samplesPerChannel;
      if sampleRate.value != 0 {
        var maxSamples := BUFFER_SECONDS * sampleRate.value;
        while bufferedSamples > maxSamples && frames != []
          modifies this`frames, this`bufferedSamples
          invariant Window(Limit(sampleRate), frames) == Window(Limit(sampleRate), recorded)
          invariant bufferedSamples == Total(frames)
          decreases |frames|
        {
          var dropped := frames[0];
          frames := frames[1..];
          bufferedSamples := bufferedSamples - dropped.samplesPerChannel;
        }
      }
    }

    /** The window's samples in order, after which recording starts afresh; nothing happens if it is empty. */
    method DrainAudioBuffer() returns (audio: Option<Audio>)
      requires Valid()
      modifies this
      ensures Valid() && sampleRate == old(sampleRate) && numChannels == old(numChannels)
      ensures audio.None? <==> Window(Limit(old(sampleRate)), old(recorded)) == []
      ensures audio.None? ==> recorded == old(recorded)
      ensures audio.Some? ==>
                && recorded == []
                && audio.value.pcm == Pcm(Window(Limit(old(sampleRate)), old(recorded)))
                && Some(audio.value.sampleRate) == old(sampleRate)
                && audio.value.numChannels == if old(numChannels) == Some(0) then 1 else old(numChannels).value
    {
      if frames == [] || sampleRate.None? {
        return None;
      }
      var pcm: seq<int> := [];
      for i := 0 to |frames|
        modifies {}
        invariant pcm == Pcm(frames[..i])
      {
        assert frames[..i + 1][..i] == frames[..i];
        pcm := pcm + frames[i].data;
      }
      assert frames[..|frames|] == frames;
      var channels := if numChannels.value == 0 then 1 else numChannels.value;
      audio := Some(Audio(pcm, sampleRate.value, channels));
      frames, bufferedSamples, recorded := [], 0, [];
    }
  }
}
