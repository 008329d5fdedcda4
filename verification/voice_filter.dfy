/**
 * `applyVoiceFilter`: the per-speaker peaking filter. Only the parameter
 * record and whether an audio context exists are modelled; the Web Audio
 * node graph itself is not.
 */
module VoiceFilter {
  import opened Options

  datatype FilterKind = Peaking

  /** The parameters written into the biquad filter node. */
  datatype FilterConfig = FilterConfig(kind: FilterKind, frequency: int, gain: int)

  /**
   * The audio side of the page: `ready` is whether `audioContext` exists,
   * `filter` the one filter node currently routed to the destination.
   */
  datatype AudioOut = AudioOut(ready: bool, filter: Option<FilterConfig>)

  const BaseFrequency: int := 200
  const FrequencyStep: int := 200
  const Boost: int := 10

  /** The filter chosen for a speaker index. */
  function ConfigFor(id: nat): (c: FilterConfig)
    ensures c.kind == Peaking && c.gain == Boost
    ensures c.frequency >= BaseFrequency && (c.frequency - BaseFrequency) % FrequencyStep == 0
    ensures SpeakerOf(c) == Some(id)
  {
    FilterConfig(Peaking, BaseFrequency + id * FrequencyStep, Boost)
  }

  /** Reads back which speaker a filter configuration belongs to, if any. */
  function SpeakerOf(c: FilterConfig): Option<nat>
  {
    if c.kind == Peaking && c.gain == Boost && c.frequency >= BaseFrequency
       && (c.frequency - BaseFrequency) % FrequencyStep == 0
    then Some((c.frequency - BaseFrequency) / FrequencyStep)
    else None
  }

  /** Every configuration that names a speaker is that speaker's configuration. */
  lemma SpeakerOfInverse(c: FilterConfig, id: nat)
    ensures SpeakerOf(c) == Some(id) <==> c == ConfigFor(id)
  {
    if SpeakerOf(c) == Some(id) {
      assert c.frequency == BaseFrequency + id * FrequencyStep;
    }
  }

  /** Distinct speakers get distinct filters. */
  lemma ConfigForInjective(a: nat, b: nat)
    ensures ConfigFor(a) == ConfigFor(b) <==> a == b
  {
    assert SpeakerOf(ConfigFor(a)) == Some(a);
  }

  /**
   * Without an audio context nothing happens; otherwise the previous filter
   * is disconnected and replaced by the speaker's filter.
   */
  function Apply(audio: AudioOut, id: nat): (a: AudioOut)
    ensures a.ready == audio.ready
    ensures !audio.ready ==> a == audio
    ensures audio.ready ==> a.filter.Some? && SpeakerOf(a.filter.value) == Some(id)
  {
    if !audio.ready then audio
    else AudioOut(audio.ready, Some(ConfigFor(id)))
  }
}
