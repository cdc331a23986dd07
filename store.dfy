/**
 * The audio store: the patch editing buffer `_nodes`, the selection, the
 * `playingNodes` map of the last voice, and the commands sent so far to the
 * audio backend. Whether an audio context exists is a flag; the backend's
 * clock is passed in as `now` where the store reads `currentTime`.
 */
module Store {
  import opened Base
  import opened Patch
  import opened Voice
  import opened VoiceProperties
  import Uuid

  class AudioStore {
    var hasContext: bool
    var nodes: seq<NodeRecord>
    /** `_selectedNode`: the index of the selected record, which it keeps aliasing. */
    var selected: Option<nat>
    /** `playingNodes`: the voice built by the last successful `press`. */
    var playing: seq<Entry>
    /** Every command sent to the audio backend, oldest first. */
    var log: seq<Command>

    ghost predicate Valid()
      reads this
    {
      && (selected.Some? ==> selected.value < |nodes|)
      && WellFormed(nodes)
      && UniqueIds(playing)
      && Realised(playing, nodes)
    }

    constructor ()
      ensures Valid()
      ensures !hasContext && nodes == [] && selected == None && playing == [] && log == []
    {
      hasContext, nodes, selected, playing, log := false, [], None, [], [];
    }

    /** `initAudioContext`: from now on there is an audio context. */
    method InitAudioContext()
      requires Valid()
      modifies this`hasContext
      ensures Valid()
      ensures hasContext
    {
      hasContext := true;
    }

    predicate InRange(index: int)
      reads this
    {
      0 <= index < |nodes|
    }

    /** The computed `selectedNode`: the selected record as it is now. */
    function SelectedNode(): (r: Option<NodeRecord>)
      reads this
      requires Valid()
      ensures r.Some? <==> selected.Some?
      ensures r.Some? ==> r.value in nodes
    {
      if selected.Some? then Some(nodes[selected.value]) else None
    }

    /**
     * `addNode`: without a context nothing happens and no id is returned;
     * otherwise one record with a fresh `uuidV4` id, no connections and no
     * envelope is appended and its id returned.
     */
    method AddNode(kind: NodeType, param: Param, nibbles: seq<bv4>) returns (id: Option<string>)
      requires Valid() && |nibbles| == 36
      modifies this`nodes
      ensures Valid()
      ensures !hasContext ==> id == None && nodes == old(nodes)
      ensures hasContext ==>
        && id == Some(Uuid.FormatUuid(nibbles))
        && nodes == old(nodes) + [NodeRecord(id.value, kind, param, [], None)]
    {
      if hasContext {
        var newId := Uuid.UuidV4(nibbles);
        AppendKeepsWellFormed(nodes, NodeRecord(newId, kind, param, [], None));
        nodes := nodes + [NodeRecord(newId, kind, param, [], None)];
        id := Some(newId);
      } else {
        id := None;
      }
    }

    /** `selectNodeFromIndex`: select the record at an index in range, else keep the selection. */
    method SelectNodeFromIndex(index: int)
      requires Valid()
      modifies this`selected
      ensures Valid()
      ensures selected == if InRange(index) then Some(index) else old(selected)
    {
      if 0 <= index < |nodes| {
        selected := Some(index);
      }
    }

    /** The buffer with `t` appended to the connections of record `i` and nothing else changed. */
    static function WithConnection(nodes: seq<NodeRecord>, i: nat, t: string): (after: seq<NodeRecord>)
      requires i < |nodes|
      ensures |after| == |nodes| && SameShape(nodes, after)
      ensures after[i].connections == nodes[i].connections + [t]
      ensures after[i].param == nodes[i].param && after[i].envelope == nodes[i].envelope
      ensures forall k :: 0 <= k < |nodes| && k != i ==> after[k] == nodes[k]
    {
      nodes[i := nodes[i].(connections := nodes[i].connections + [t])]
    }

    lemma KeepsRealised(before: seq<NodeRecord>, after: seq<NodeRecord>)
      requires SameShape(before, after) && Realised(playing, before)
      ensures Realised(playing, after)
    {
    }

    /**
     * `connectNodes`: with both indices in range, the destination's id is
     * appended to the source's connections (duplicates and self-loops
     * included); otherwise nothing changes.
     */
    method ConnectNodes(source: int, destination: int)
      requires Valid()
      modifies this`nodes
      ensures Valid()
      ensures old(InRange(source) && InRange(destination)) ==>
        nodes == WithConnection(old(nodes), source, old(nodes)[destination].id)
      ensures !old(InRange(source) && InRange(destination)) ==> nodes == old(nodes)
    {
      if 0 <= source < |nodes| && 0 <= destination < |nodes| {
        var target := nodes[destination].id;
        assert nodes[destination] in nodes;
        ConnectKeepsWellFormed(nodes, source, target);
        KeepsRealised(nodes, WithConnection(nodes, source, target));
        nodes := WithConnection(nodes, source, target);
      }
    }

    /** `connectToDestination`: with the index in range, `'destination'` is appended to its connections. */
    method ConnectToDestination(index: int)
      requires Valid()
      modifies this`nodes
      ensures Valid()
      ensures old(InRange(index)) ==> nodes == WithConnection(old(nodes), index, Output)
      ensures !old(InRange(index)) ==> nodes == old(nodes)
    {
      if 0 <= index < |nodes| {
        ConnectKeepsWellFormed(nodes, index, Output);
        KeepsRealised(nodes, WithConnection(nodes, index, Output));
        nodes := WithConnection(nodes, index, Output);
      }
    }

    /** Whether `connectGainToEnveloppe` links: both in range, a `gain` source, an `adsr` destination. */
    predicate Linkable(source: int, destination: int)
      reads this
    {
      InRange(source) && InRange(destination) && nodes[source].kind == Gain && nodes[destination].kind == Adsr
    }

    /**
     * `connectGainToEnveloppe`: when linkable, the source's envelope becomes the
     * destination's id; in every other case nothing changes.
     */
    method ConnectGainToEnveloppe(source: int, destination: int)
      requires Valid()
      modifies this`nodes
      ensures Valid()
      ensures old(Linkable(source, destination)) ==>
        && |nodes| == |old(nodes)|
        && nodes[source] == old(nodes)[source].(envelope := Some(old(nodes)[destination].id))
        && forall k :: 0 <= k < |nodes| && k != source ==> nodes[k] == old(nodes)[k]
      ensures !old(Linkable(source, destination)) ==> nodes == old(nodes)
    {
      if 0 <= source < |nodes| && 0 <= destination < |nodes| {
        if nodes[source].kind == Gain && nodes[destination].kind == Adsr {
          var target := nodes[destination].id;
          var after := nodes[source := nodes[source].(envelope := Some(target))];
          assert nodes[destination] in nodes;
          LinkKeepsWellFormed(nodes, source, target);
          KeepsRealised(nodes, after);
          nodes := after;
        }
      }
    }

    /**
     * `press`: with a context, build a voice from every record, wire it and
     * trigger it at `now + delay`; on success it replaces `playingNodes`
     * (the previous voice is not stopped). A throw leaves `playingNodes` as it
     * was, with the commands issued before it still sent.
     */
    method Press(now: real, delay: real := 0.0, frequency: real := 880.0) returns (failure: Option<Fault>)
      requires Valid()
      modifies this`playing, this`log
      ensures Valid()
      ensures !hasContext ==> failure == None && playing == old(playing) && log == old(log)
      ensures hasContext ==>
        var r := Voice.Press(nodes, Delayed(now, delay), frequency);
        && failure == r.failure
        && log == old(log) + r.cmds
        && playing == (if r.failure.None? then r.voice else old(playing))
    {
      failure := None;
      if hasContext {
        var outcome := CompileVoice(nodes, Delayed(now, delay), frequency);
        log := log + outcome.cmds;
        failure := outcome.failure;
        if failure.None? {
          playing := outcome.voice;
        }
      }
    }

    /**
     * `release`: with a context and a non-empty `playingNodes`, every gain whose
     * envelope resolves in `playingNodes` is cancelled at `now + delay` and sent
     * towards 0 at `now + delay + 0.2`, and the cleanup is scheduled. Otherwise
     * nothing happens.
     */
    method Release(now: real, delay: real := 0.0) returns (failure: Option<Fault>, cleanupScheduled: bool)
      requires Valid()
      modifies this`log
      ensures Valid()
      ensures !(hasContext && |playing| > 0) ==> failure == None && !cleanupScheduled && log == old(log)
      ensures hasContext && |playing| > 0 ==>
        var r := ReleasePass(playing, nodes, playing, Delayed(now, delay));
        && failure == r.failure
        && cleanupScheduled == r.failure.None?
        && log == old(log) + r.cmds
    {
      failure, cleanupScheduled := None, false;
      if hasContext && |playing| > 0 {
        var faded := ReleaseVoice(playing, nodes, Delayed(now, delay));
        log := log + faded.cmds;
        failure := faded.failure;
        cleanupScheduled := failure.None?;
      }
    }

    /**
     * The body of the cleanup `release` schedules: stop every oscillator of
     * `playingNodes` as it is when the cleanup runs, then empty it.
     */
    method Cleanup()
      requires Valid()
      modifies this`log, this`playing
      ensures Valid()
      ensures log == old(log) + StopPass(nodes, old(playing))
      ensures playing == []
    {
      var stops := StopOscillators(nodes, playing);
      log := log + stops;
      playing := [];
    }
  }

  /** The backend time of an action asked for `delay` seconds after `now`. */
  function Delayed(now: real, delay: real): real {
    now + delay
  }

  // ----- the forEach loops of press, release and the cleanup -----

  /**
   * The body of `press` once a context exists: the three `forEach` passes in
   * order, stopping at the first throw.
   */
  method CompileVoice(nodes: seq<NodeRecord>, t0: real, hz: real) returns (outcome: PressOutcome)
    ensures outcome == Voice.Press(nodes, t0, hz)
  {
    var made := BuildVoice(nodes);
    if made.Err? {
      return PressOutcome([], Some(made.error), []);
    }
    var voice := made.value;
    var wired := WireVoice(voice, nodes);
    if wired.failure.Some? {
      return PressOutcome(wired.cmds, wired.failure, voice);
    }
    var triggered := TriggerVoice(voice, nodes, t0, hz);
    outcome := PressOutcome(wired.cmds + triggered.cmds, triggered.failure, voice);
  }

  /** The first `forEach` of `press`: `createAudioNode` on each record, stored with `Map.set`. */
  method BuildVoice(nodes: seq<NodeRecord>) returns (made: Result<seq<Entry>, Fault>)
    ensures made == Instantiate(nodes)
  {
    var voice: seq<Entry> := [];
    var i := 0;
    while i < |nodes|
      invariant 0 <= i <= |nodes|
      invariant Instantiate(nodes[..i]) == Ok(voice)
    {
      assert nodes[..i + 1][..i] == nodes[..i];
      var node := CreateAudioNode(nodes[i]);
      if node.Err? {
        InstantiateSticky(nodes, i + 1);
        return Err(node.error);
      }
      voice := Put(voice, Entry(nodes[i].id, node.value, i));
      i := i + 1;
    }
    assert nodes[..|nodes|] == nodes;
    made := Ok(voice);
  }

  /** The wiring `forEach` of `press` over every entry of the voice. */
  method WireVoice(voice: seq<Entry>, nodes: seq<NodeRecord>) returns (wired: Emission)
    requires InBuffer(voice, nodes)
    ensures wired == WirePass(voice, nodes, voice)
  {
    var cmds: seq<Command> := [];
    var k := 0;
    while k < |voice|
      invariant 0 <= k <= |voice|
      invariant WirePass(voice, nodes, voice[..k]) == Emission(cmds, None)
    {
      var e := voice[k];
      assert voice[..k + 1][..k] == voice[..k];
      var step := WireConnections(voice, e, nodes[e.info].connections);
      if step.failure.Some? {
        WirePassSticky(voice, nodes, voice, k + 1);
        return Emission(cmds + step.cmds, step.failure);
      }
      cmds := cmds + step.cmds;
      k := k + 1;
    }
    assert voice[..|voice|] == voice;
    wired := Emission(cmds, None);
  }

  /** The inner `forEach` over one entry's `connections`: at most one connect per target. */
  method WireConnections(voice: seq<Entry>, e: Entry, targets: seq<string>) returns (wired: Emission)
    ensures wired == WireTargets(voice, e, targets)
  {
    var cmds: seq<Command> := [];
    var j := 0;
    while j < |targets|
      invariant 0 <= j <= |targets|
      invariant WireTargets(voice, e, targets[..j]) == Emission(cmds, None)
    {
      var destId := targets[j];
      assert targets[..j + 1][..j] == targets[..j];
      var broken := false;
      if destId == Output {
        if e.node.EnvelopeObject? {
          broken := true;
        } else {
          cmds := cmds + [ConnectOut(e.id)];
        }
      } else {
        var found := Lookup(voice, destId);
        if found.Some? {
          if e.node.EnvelopeObject? || voice[found.value].node.EnvelopeObject? {
            broken := true;
          } else {
            cmds := cmds + [Connect(e.id, destId)];
          }
        }
      }
      if broken {
        WireTargetsSticky(voice, e, targets, j + 1);
        return Emission(cmds, Some(NotConnectable(e.id, destId)));
      }
      j := j + 1;
    }
    assert targets[..|targets|] == targets;
    wired := Emission(cmds, None);
  }

  /** The trigger `forEach` of `press`: frequencies and starts, envelope schedules. */
  method TriggerVoice(voice: seq<Entry>, nodes: seq<NodeRecord>, t0: real, hz: real) returns (triggered: Emission)
    requires InBuffer(voice, nodes)
    ensures triggered == TriggerPass(voice, nodes, voice, t0, hz)
  {
    var cmds: seq<Command> := [];
    var k := 0;
    while k < |voice|
      invariant 0 <= k <= |voice|
      invariant TriggerPass(voice, nodes, voice[..k], t0, hz) == Emission(cmds, None)
    {
      var e := voice[k];
      var info := nodes[e.info];
      assert voice[..k + 1][..k] == voice[..k];
      assert TriggerPass(voice, nodes, voice[..k + 1], t0, hz) == Then(Emission(cmds, None), TriggerEntry(voice, nodes, e, t0, hz));
      if info.kind == Osc {
        cmds := cmds + [SetFrequency(e.id, hz), Start(e.id)];
      } else if info.kind == Gain && EnvelopeRef(info).Some? {
        var found := Lookup(voice, EnvelopeRef(info).value);
        if found.Some? {
          var env := voice[found.value].node;
          if env.EnvelopeObject? {
            cmds := cmds + EnvelopeSchedule(e.id, env.curve, info.param.gain, t0);
          } else {
            TriggerPassSticky(voice, nodes, voice, t0, hz, k + 1);
            return Emission(cmds + [Cancel(e.id, t0)], Some(NotAnEnvelope(e.id)));
          }
        }
      }
      k := k + 1;
    }
    assert voice[..|voice|] == voice;
    triggered := Emission(cmds, None);
  }

  /** The `forEach` of `release` over `playingNodes`. */
  method ReleaseVoice(playing: seq<Entry>, nodes: seq<NodeRecord>, t: real) returns (faded: Emission)
    requires InBuffer(playing, nodes)
    ensures faded == ReleasePass(playing, nodes, playing, t)
  {
    var cmds: seq<Command> := [];
    var k := 0;
    while k < |playing|
      invariant 0 <= k <= |playing|
      invariant ReleasePass(playing, nodes, playing[..k], t) == Emission(cmds, None)
    {
      var e := playing[k];
      var info := nodes[e.info];
      assert playing[..k + 1][..k] == playing[..k];
      assert ReleasePass(playing, nodes, playing[..k + 1], t)
        == Then(ReleasePass(playing, nodes, playing[..k], t), ReleaseEntry(playing, nodes, e, t));
      if info.kind == Gain && EnvelopeRef(info).Some? {
        var found := Lookup(playing, EnvelopeRef(info).value);
        if found.Some? {
          var env := playing[found.value].node;
          if env.EnvelopeObject? {
            cmds := cmds + Fade(e.id, t, TimeConstant(env.curve.release.constant));
          } else {
            ReleasePassSticky(playing, nodes, playing, t, k + 1);
            return Emission(cmds + [Cancel(e.id, t)], Some(NotAnEnvelope(e.id)));
          }
        }
      }
      k := k + 1;
    }
    assert playing[..|playing|] == playing;
    faded := Emission(cmds, None);
  }

  /** The cleanup's `forEach`: a stop for every oscillator entry, in map order. */
  method StopOscillators(nodes: seq<NodeRecord>, playing: seq<Entry>) returns (stops: seq<Command>)
    requires InBuffer(playing, nodes)
    ensures stops == StopPass(nodes, playing)
  {
    stops := [];
    var k := 0;
    while k < |playing|
      invariant 0 <= k <= |playing|
      invariant stops == StopPass(nodes, playing[..k])
    {
      var e := playing[k];
      assert playing[..k + 1][..k] == playing[..k];
      if nodes[e.info].kind == Osc {
        stops := stops + [Stop(e.id)];
      }
      k := k + 1;
    }
    assert playing[..|playing|] == playing;
  }
}
