/**
 * One patch played end to end: an oscillator into a gain at 0.8 linked to an
 * `adsr` record with the default stages, the gain into the output.
 *
 * The scenario runs the pure `Voice` functions on a buffer written by hand
 * with readable ids ("osc", "gain", "env") instead of UUIDs. Such a buffer is
 * not reachable through `AddNode` and does not satisfy `IdsWellFormed`; the
 * `Voice` functions do not depend on the shape of ids, only on their equality.
 */
module Scenarios {
  import opened Base
  import opened Patch
  import opened Voice
  import opened VoiceProperties

  const NoParam := Param(None, None, 0.0, None, None, None, None, None)
  const Sine := NodeRecord("osc", Osc, NoParam, ["gain"], None)
  const Amp := NodeRecord("gain", Gain, NoParam.(gain := 0.8), [Output], Some("env"))
  const Env := NodeRecord("env", Adsr, NoParam, [], None)
  const Buffer := [Sine, Amp, Env]

  const DefaultEnvelope := Curve(
    Stage(0.0, 0.0, None), Stage(0.7, 0.15, None), Stage(0.5, 0.25, None),
    Stage(0.45, 0.5, None), Stage(0.0000001, 0.5, None))

  const Played := [
    Entry("osc", OscillatorNode("sine", 0.0), 0),
    Entry("gain", GainNode(0.0), 1),
    Entry("env", EnvelopeObject(DefaultEnvelope), 2)]

  const Wired := [Connect("osc", "gain"), ConnectOut("gain")]

  const Triggered := [
    SetFrequency("osc", 440.0), Start("osc"),
    Cancel("gain", 0.0), SetValue("gain", 0.0, 0.0),
    SetTarget("gain", 0.56, 0.15, 0.1), SetTarget("gain", 0.4, 0.4, 0.1),
    SetTarget("gain", 0.36, 0.9, 0.1), SetTarget("gain", 0.00000008, 1.4, 0.1)]

  /**
   * Pressing at time 0 and 440 Hz: wire osc -> gain -> output, start the
   * oscillator, set the gain to 0 at once, then approach 0.7*0.8 at 0.15 s,
   * 0.5*0.8 at 0.4 s, 0.45*0.8 at 0.9 s and 1e-7*0.8 at 1.4 s, each with time
   * constant 0.1.
   */
  lemma PressScenario()
    ensures Press(Buffer, 0.0, 440.0) == PressOutcome(Wired + Triggered, None, Played)
  {
    InstantiateScenario();
    WireScenario();
    TriggerScenario();
  }

  /** Wiring connects the oscillator to the gain and the gain to the output; the envelope has no connections. */
  lemma WireScenario()
    ensures WirePass(Played, Buffer, Played) == Emission(Wired, None)
  {
    assert Played[..3] == Played;
    assert Played[..2][..1] == Played[..1];
    assert Played[..1][..0] == [];
    assert Lookup(Played, "gain") == Some(1);
    assert ["gain"][..0] == [];
    assert WireTargets(Played, Played[0], ["gain"]) == Emission([Connect("osc", "gain")], None);
    assert [Output][..0] == [];
    assert WireTargets(Played, Played[1], [Output]) == Emission([ConnectOut("gain")], None);
    assert WirePass(Played, Buffer, Played[..1]) == Emission([Connect("osc", "gain")], None);
    assert WirePass(Played, Buffer, Played[..2]) == Emission([Connect("osc", "gain"), ConnectOut("gain")], None);
  }

  /** Triggering starts the oscillator at 440 Hz and schedules the default curve on the gain, scaled by 0.8. */
  lemma TriggerScenario()
    ensures TriggerPass(Played, Buffer, Played, 0.0, 440.0) == Emission(Triggered, None)
  {
    assert Played[..3] == Played;
    assert Played[..2][..1] == Played[..1];
    assert Played[..1][..0] == [];
    assert Lookup(Played, "env") == Some(2);
    assert TriggerEntry(Played, Buffer, Played[1], 0.0, 440.0) == Emission(EnvelopeSchedule("gain", DefaultEnvelope, 0.8, 0.0), None);
    assert TriggerPass(Played, Buffer, Played[..1], 0.0, 440.0) == Emission([SetFrequency("osc", 440.0), Start("osc")], None);
  }

  lemma InstantiateScenario()
    ensures Instantiate(Buffer) == Ok(Played)
  {
    InstantiateFirstTwo();
    assert CreateAudioNode(Env) == Ok(Played[2].node);
    InstantiateSnoc([Sine, Amp], Env);
    assert [Sine, Amp] + [Env] == Buffer;
    assert Lookup(Played[..2], "env") == None by {
      assert Played[..2][1..] == [Played[1]];
      assert [Played[1]][1..] == [];
    }
    PutNewKeyAppends(Played[..2], Played[2]);
    assert Played[..2] + [Played[2]] == Played;
  }

  /** The oscillator and the gain are built first, in buffer order. */
  lemma InstantiateFirstTwo()
    ensures Instantiate([Sine, Amp]) == Ok(Played[..2])
  {
    assert Instantiate([]) == Ok([]);
    assert CreateAudioNode(Sine) == Ok(Played[0].node);
    InstantiateSnoc([], Sine);
    assert [] + [Sine] == [Sine];
    PutNewKeyAppends([], Played[0]);
    assert [] + [Played[0]] == [Played[0]];
    assert Instantiate([Sine]) == Ok([Played[0]]);
    assert CreateAudioNode(Amp) == Ok(Played[1].node);
    InstantiateSnoc([Sine], Amp);
    assert [Sine] + [Amp] == [Sine, Amp];
    assert Lookup([Played[0]], "gain") == None by {
      assert [Played[0]][1..] == [];
    }
    PutNewKeyAppends([Played[0]], Played[1]);
    assert [Played[0]] + [Played[1]] == Played[..2];
  }

  /** The same patch after `connectToDestination` on the envelope record. */
  const EnvOut := Env.(connections := [Output])

  const Broken := [Sine, Amp, EnvOut]

  /**
   * Pressing that patch wires osc -> gain -> output, then throws on the
   * envelope object's connect: nothing is started or automated.
   */
  lemma UnconnectableScenario()
    ensures Press(Broken, 0.0, 440.0) == PressOutcome(Wired, Some(NotConnectable("env", Output)), Played)
  {
    InstantiateBroken();
    WireBroken();
  }

  /** The connections play no part in building: the same three primitives. */
  lemma InstantiateBroken()
    ensures Instantiate(Broken) == Ok(Played)
  {
    InstantiateFirstTwo();
    assert CreateAudioNode(EnvOut) == Ok(Played[2].node);
    InstantiateSnoc([Sine, Amp], EnvOut);
    assert [Sine, Amp] + [EnvOut] == Broken;
    assert Lookup(Played[..2], "env") == None by {
      assert Played[..2][1..] == [Played[1]];
      assert [Played[1]][1..] == [];
    }
    PutNewKeyAppends(Played[..2], Played[2]);
    assert Played[..2] + [Played[2]] == Played;
  }

  /** The first two entries are wired as before; the envelope's connect throws. */
  lemma WireBroken()
    ensures WirePass(Played, Broken, Played) == Emission(Wired, Some(NotConnectable("env", Output)))
  {
    assert Played[..3] == Played;
    assert Played[..2][..1] == Played[..1];
    assert Played[..1][..0] == [];
    assert Lookup(Played, "gain") == Some(1);
    assert ["gain"][..0] == [];
    assert [Output][..0] == [];
    assert WireTargets(Played, Played[0], ["gain"]) == Emission([Connect("osc", "gain")], None);
    assert WireTargets(Played, Played[1], [Output]) == Emission([ConnectOut("gain")], None);
    assert WireTargets(Played, Played[2], [Output]) == Emission([], Some(NotConnectable("env", Output)));
    assert WirePass(Played, Broken, Played[..1]) == Emission([Connect("osc", "gain")], None);
    assert WirePass(Played, Broken, Played[..2]) == Emission(Wired, None);
  }

  /** Releasing at 2 s fades the gain from 2.2 s with the release time constant; the cleanup stops the oscillator. */
  lemma ReleaseScenario()
    ensures ReleasePass(Played, Buffer, Played, 2.0) == Emission([Cancel("gain", 2.0), SetTarget("gain", 0.0, 2.2, 0.1)], None)
    ensures StopPass(Buffer, Played) == [Stop("osc")]
  {
    assert Played[..3] == Played;
    assert Played[..2][..1] == Played[..1];
    assert Played[..1][..0] == [];
    assert Played[1..] == Played[1..][..2];
    assert Played[1..][1..] == [Played[2]];
    assert Lookup(Played, "env") == Some(2);
    assert StopPass(Buffer, Played[..1]) == [Stop("osc")];
    assert StopPass(Buffer, Played[..2]) == [Stop("osc")];
    assert ReleasePass(Played, Buffer, Played[..1], 2.0) == Done;
    assert ReleasePass(Played, Buffer, Played[..2], 2.0) == Emission([Cancel("gain", 2.0), SetTarget("gain", 0.0, 2.2, 0.1)], None);
  }
}
