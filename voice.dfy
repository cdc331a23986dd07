/**
 * The voice compiler behind the store's `press` and `release`: turning node
 * records into audio primitives (`createAudioNode`), the `Map` from id to
 * primitive, and the commands each pass sends to the audio backend.
 *
 * The backend is an abstract trace of `Command`s naming primitives by the id of
 * the record they were created from. Each pass is a function of the voice
 * (the `Map`), the live records and the list of entries visited so far; a pass
 * that throws is an `Emission` whose `failure` is set, carrying the commands
 * issued before the throw.
 */
module Voice {
  import opened Base
  import opened Patch

  /** The value object `createAudioNode` returns for an `adsr` record. */
  datatype Curve = Curve(start: Stage, attack: Stage, decay: Stage, sustain: Stage, release: Stage)

  /** What `createAudioNode` returns: two backend primitives or the envelope value object. */
  datatype AudioNode =
    | OscillatorNode(waveform: string, detune: real)
    | GainNode(level: real)
    | EnvelopeObject(curve: Curve)

  /**
   * One `Map` entry `id -> {node, info}`. `info` is the live record object, so it
   * is kept as its index in the buffer: records are never removed or moved.
   */
  datatype Entry = Entry(id: string, node: AudioNode, info: nat)

  /** The exceptions the passes can raise. */
  datatype Fault =
    | UnsupportedType(tag: string)
      // `createAudioNode` on an unknown type
    | NotConnectable(source: string, target: string)
      // `connect` called on, or with, the envelope value object
    | NotAnEnvelope(gain: string)
      // an envelope id that resolves to a primitive, not to an envelope

  /** The commands the store sends to the audio backend. */
  datatype Command =
    | Connect(source: string, target: string)
    | ConnectOut(source: string)
    | Cancel(node: string, time: real)
    | SetValue(node: string, value: real, time: real)
    | SetTarget(node: string, value: real, time: real, constant: real)
    | SetFrequency(node: string, hz: real)
    | Start(node: string)
    | Stop(node: string)

  /** The commands a pass issued and the exception that ended it, if any. */
  datatype Emission = Emission(cmds: seq<Command>, failure: Option<Fault>)

  const Done := Emission([], None)

  /** Run `a`, then `b` unless `a` threw. */
  function Then(a: Emission, b: Emission): Emission {
    if a.failure.Some? then a else Emission(a.cmds + b.cmds, b.failure)
  }

  // ----- createAudioNode -----

  const DefaultStart := Stage(0.0, 0.0, None)
  const DefaultAttack := Stage(0.7, 0.15, None)
  const DefaultDecay := Stage(0.5, 0.25, None)
  const DefaultSustain := Stage(0.45, 0.5, None)
  const DefaultRelease := Stage(0.0000001, 0.5, None)

  function StageOr(s: Option<Stage>, default: Stage): Stage {
    if s.Some? then s.value else default
  }

  /** The primitive kind each record type is turned into. */
  predicate Realises(n: AudioNode, kind: NodeType) {
    match kind
    case Osc => n.OscillatorNode?
    case Gain => n == GainNode(0.0)
    case Adsr => n.EnvelopeObject?
    case Unsupported(_) => false
  }

  /**
   * `createAudioNode`: an oscillator (waveform falling back to `'sine'`, detune
   * to 0), a gain at 0, the envelope value object with its defaults, or a throw.
   */
  function CreateAudioNode(r: NodeRecord): (made: Result<AudioNode, Fault>)
    ensures made.Err? <==> r.kind.Unsupported?
    ensures made.Err? ==> made.error == UnsupportedType(r.kind.tag)
    ensures made.Ok? ==> Realises(made.value, r.kind)
    ensures made.Ok? && made.value.OscillatorNode? ==> made.value.waveform != ""
  {
    match r.kind
    case Osc =>
      var waveform := if r.param.waveform.None? || r.param.waveform.value == "" then "sine" else r.param.waveform.value;
      var detune := if r.param.detune.None? then 0.0 else r.param.detune.value;
      Ok(OscillatorNode(waveform, detune))
    case Gain => Ok(GainNode(0.0))
    case Adsr =>
      Ok(EnvelopeObject(Curve(
        StageOr(r.param.start, DefaultStart),
        StageOr(r.param.attack, DefaultAttack),
        StageOr(r.param.decay, DefaultDecay),
        StageOr(r.param.sustain, DefaultSustain),
        StageOr(r.param.release, DefaultRelease))))
    case Unsupported(tag) => Err(UnsupportedType(tag))
  }

  // ----- the Map from id to {node, info} -----

  function Ids(v: seq<Entry>): set<string> {
    set e | e in v :: e.id
  }

  predicate UniqueIds(v: seq<Entry>) {
    forall i, j :: 0 <= i < j < |v| ==> v[i].id != v[j].id
  }

  /** Every entry points at a record of `nodes` with its id and a primitive of its type. */
  predicate Realised(v: seq<Entry>, nodes: seq<NodeRecord>) {
    forall e :: e in v ==> e.info < |nodes| && nodes[e.info].id == e.id && Realises(e.node, nodes[e.info].kind)
  }

  /** Every entry's `info` index lies in the buffer. */
  predicate InBuffer(es: seq<Entry>, nodes: seq<NodeRecord>) {
    forall e :: e in es ==> e.info < |nodes|
  }

  /** `Map.get`: the position of the entry for `id`, if any. */
  function Lookup(v: seq<Entry>, id: string): (r: Option<nat>)
    ensures r.Some? ==> r.value < |v| && v[r.value].id == id
    ensures r.Some? ==> forall j :: 0 <= j < r.value ==> v[j].id != id
    ensures r.None? <==> id !in Ids(v)
  {
    if |v| == 0 then None
    else if v[0].id == id then Some(0)
    else
      var rest := Lookup(v[1..], id);
      assert Ids(v) == {v[0].id} + Ids(v[1..]) by {
        assert v == [v[0]] + v[1..];
      }
      if rest.None? then None else Some(rest.value + 1)
  }

  /** `Map.set`: a known id keeps its position and gets the new value; a new id goes last. */
  function Put(v: seq<Entry>, e: Entry): (r: seq<Entry>)
    requires UniqueIds(v)
    ensures UniqueIds(r)
    ensures e in r
    ensures forall x :: x in r ==> x == e || (x in v && x.id != e.id)
    ensures |v| <= |r| <= |v| + 1
    ensures forall j :: 0 <= j < |v| && v[j].id != e.id ==> r[j] == v[j]
    ensures Ids(r) == Ids(v) + {e.id}
  {
    match Lookup(v, e.id)
    case Some(j) =>
      var r := v[j := e];
      assert forall x :: x in r ==> x == e || (x in v && x.id != e.id) by {
        forall x | x in r ensures x == e || (x in v && x.id != e.id) {
          var i :| 0 <= i < |r| && r[i] == x;
          if i != j { assert v[i] == x && v[i].id != v[j].id; }
        }
      }
      assert Ids(r) == Ids(v) + {e.id} by {
        forall y | y in Ids(v) ensures y in Ids(r) {
          var x :| x in v && x.id == y;
          var i :| 0 <= i < |v| && v[i] == x;
          if i == j { assert r[j] == e && y == e.id; } else { assert r[i] == x; }
        }
      }
      r
    case None =>
      var r := v + [e];
      assert Ids(r) == Ids(v) + {e.id} by {
        assert forall x :: x in r <==> x in v || x == e;
      }
      r
  }

  /** Every entry holds the LAST record with its id among `rs`, as repeated `Map.set` leaves it. */
  predicate LatestRecords(v: seq<Entry>, rs: seq<NodeRecord>) {
    forall e, j :: e in v && e.info < j < |rs| ==> rs[j].id != e.id
  }

  /** `j` is the first record of `rs` with an unsupported type and `f` its exception. */
  predicate FirstUnsupported(rs: seq<NodeRecord>, j: nat, f: Fault) {
    && j < |rs|
    && rs[j].kind.Unsupported?
    && f == UnsupportedType(rs[j].kind.tag)
    && forall i :: 0 <= i < j ==> !rs[i].kind.Unsupported?
  }

  lemma IdsOfSnoc(rs: seq<NodeRecord>, r: NodeRecord)
    ensures IdsOf(rs + [r]) == IdsOf(rs) + {r.id}
  {
    assert forall x :: x in rs + [r] <==> x in rs || x == r;
  }

  /**
   * The first `forEach` of `press`: `createAudioNode` on every record in order,
   * each result stored under the record's id. The first unknown type throws.
   */
  function Instantiate(rs: seq<NodeRecord>): (r: Result<seq<Entry>, Fault>)
    ensures r.Err? <==> exists j :: 0 <= j < |rs| && rs[j].kind.Unsupported?
    ensures r.Err? ==> r.error.UnsupportedType?
    ensures r.Ok? ==> UniqueIds(r.value) && Realised(r.value, rs)
  {
    if |rs| == 0 then Ok([])
    else
      var n := |rs| - 1;
      match Instantiate(rs[..n])
      case Err(f) =>
        UnsupportedInPrefix(rs, n);
        Err(f)
      case Ok(v) =>
        match CreateAudioNode(rs[n])
        case Err(f) => Err(f)
        case Ok(node) =>
          var e := Entry(rs[n].id, node, n);
          SupportedExtends(rs, n);
          PutRealises(rs, v, e);
          Ok(Put(v, e))
  }

  lemma UnsupportedInPrefix(rs: seq<NodeRecord>, n: nat)
    requires n <= |rs|
    requires exists j :: 0 <= j < n && rs[..n][j].kind.Unsupported?
    ensures exists j :: 0 <= j < |rs| && rs[j].kind.Unsupported?
  {
    var j :| 0 <= j < n && rs[..n][j].kind.Unsupported?;
    assert rs[j] == rs[..n][j];
  }

  lemma SupportedExtends(rs: seq<NodeRecord>, n: nat)
    requires n == |rs| - 1 && !rs[n].kind.Unsupported?
    requires !exists j :: 0 <= j < n && rs[..n][j].kind.Unsupported?
    ensures !exists j :: 0 <= j < |rs| && rs[j].kind.Unsupported?
  {
    forall j | 0 <= j < n ensures !rs[j].kind.Unsupported? {
      assert rs[..n][j] == rs[j];
    }
  }

  lemma PutRealises(rs: seq<NodeRecord>, v: seq<Entry>, e: Entry)
    requires |rs| > 0 && UniqueIds(v) && Realised(v, rs[..|rs| - 1])
    requires e.info == |rs| - 1 && e.id == rs[|rs| - 1].id && Realises(e.node, rs[|rs| - 1].kind)
    ensures UniqueIds(Put(v, e)) && Realised(Put(v, e), rs)
  {
    forall x | x in Put(v, e) ensures x.info < |rs| && rs[x.info].id == x.id && Realises(x.node, rs[x.info].kind) {
      if x != e { assert rs[..|rs| - 1][x.info] == rs[x.info]; }
    }
  }

  // ----- wiring pass -----

  /**
   * A connection that resolves (the output, or a key of the map) but has the
   * envelope object at one end: that object has no `connect`, and connecting
   * to it is not connecting to an audio node, so the connect throws.
   */
  predicate Unconnectable(v: seq<Entry>, src: Entry, target: string) {
    && (target == Output || target in Ids(v))
    && (src.node.EnvelopeObject? || (target != Output && v[Lookup(v, target).value].node.EnvelopeObject?))
  }

  /** One `connections` entry of `src`: the output, a resolvable id, or a dangling id (skipped). */
  function ConnectTarget(v: seq<Entry>, src: Entry, target: string): (r: Emission)
    ensures r == Done <==> target != Output && target !in Ids(v)
    ensures r.failure.Some? <==> Unconnectable(v, src, target)
    ensures |r.cmds| <= 1
    ensures r.failure.Some? ==> r.cmds == [] && r.failure == Some(NotConnectable(src.id, target))
    ensures forall c :: c in r.cmds ==> c == (if target == Output then ConnectOut(src.id) else Connect(src.id, target))
  {
    if target == Output then
      if src.node.EnvelopeObject? then Emission([], Some(NotConnectable(src.id, target)))
      else Emission([ConnectOut(src.id)], None)
    else
      match Lookup(v, target)
      case None => Done
      case Some(j) =>
        if src.node.EnvelopeObject? || v[j].node.EnvelopeObject? then Emission([], Some(NotConnectable(src.id, target)))
        else Emission([Connect(src.id, target)], None)
  }

  /** The inner `forEach` over one record's `connections`. */
  function WireTargets(v: seq<Entry>, src: Entry, targets: seq<string>): (r: Emission)
    ensures |r.cmds| <= |targets|
    ensures r.failure.Some? ==> r.failure.value.NotConnectable? && r.failure.value.source == src.id
  {
    if |targets| == 0 then Done
    else Then(WireTargets(v, src, targets[..|targets| - 1]), ConnectTarget(v, src, targets[|targets| - 1]))
  }

  /** The wiring `forEach` over the entries `es` of the voice `v`. */
  function WirePass(v: seq<Entry>, nodes: seq<NodeRecord>, es: seq<Entry>): (r: Emission)
    requires InBuffer(es, nodes)
    ensures r.failure.Some? ==> r.failure.value.NotConnectable?
  {
    if |es| == 0 then Done
    else
      var e := es[|es| - 1];
      Then(WirePass(v, nodes, es[..|es| - 1]), WireTargets(v, e, nodes[e.info].connections))
  }

  // ----- trigger pass and envelope schedule -----

  /** `info.envelope` when it is truthy: set and not the empty string. */
  function EnvelopeRef(r: NodeRecord): (ref: Option<string>)
    ensures ref.Some? <==> r.envelope.Some? && r.envelope.value != ""
    ensures ref.Some? ==> ref == r.envelope
  {
    if r.envelope.Some? && r.envelope.value != "" then r.envelope else None
  }

  /** `stage.constant || .1`: an absent or zero time constant becomes 0.1. */
  function TimeConstant(c: Option<real>): (k: real)
    ensures k != 0.0
    ensures k == 0.1 || c == Some(k)
  {
    if c.None? || c.value == 0.0 then 0.1 else c.value
  }

  /**
   * The automation `press` schedules on a gain scaled by `g`: cancel, the start
   * value at `t0`, then the four stages at their cumulative end times.
   */
  function EnvelopeSchedule(id: string, c: Curve, g: real, t0: real): (cmds: seq<Command>)
    ensures |cmds| == 6
  {
    var a := t0 + c.attack.duration;
    var d := a + c.decay.duration;
    var s := d + c.sustain.duration;
    var r := s + c.release.duration;
    [ Cancel(id, t0),
      SetValue(id, c.start.value * g, t0),
      SetTarget(id, c.attack.value * g, a, TimeConstant(c.attack.constant)),
      SetTarget(id, c.decay.value * g, d, TimeConstant(c.decay.constant)),
      SetTarget(id, c.sustain.value * g, s, TimeConstant(c.sustain.constant)),
      SetTarget(id, c.release.value * g, r, TimeConstant(c.release.constant)) ]
  }

  /** A gain whose truthy envelope link resolves in the map to a primitive rather than to the envelope object. */
  predicate LinksPrimitive(v: seq<Entry>, r: NodeRecord) {
    && r.kind == Gain && EnvelopeRef(r).Some? && Lookup(v, EnvelopeRef(r).value).Some?
    && !v[Lookup(v, EnvelopeRef(r).value).value].node.EnvelopeObject?
  }

  /** The trigger step for one entry: start an oscillator, or schedule an enveloped gain. */
  function TriggerEntry(v: seq<Entry>, nodes: seq<NodeRecord>, e: Entry, t0: real, hz: real): (r: Emission)
    requires e.info < |nodes|
    ensures nodes[e.info].kind == Osc ==> r == Emission([SetFrequency(e.id, hz), Start(e.id)], None)
    ensures !(nodes[e.info].kind == Osc || nodes[e.info].kind == Gain) ==> r == Done
    ensures r.failure.Some? <==> LinksPrimitive(v, nodes[e.info])
    ensures r.failure.Some? ==> r == Emission([Cancel(e.id, t0)], Some(NotAnEnvelope(e.id)))
  {
    var r := nodes[e.info];
    match r.kind
    case Osc => Emission([SetFrequency(e.id, hz), Start(e.id)], None)
    case Gain =>
      if EnvelopeRef(r).None? then Done
      else (
        match Lookup(v, EnvelopeRef(r).value)
        case None => Done
        case Some(j) =>
          if v[j].node.EnvelopeObject? then Emission(EnvelopeSchedule(e.id, v[j].node.curve, r.param.gain, t0), None)
          else Emission([Cancel(e.id, t0)], Some(NotAnEnvelope(e.id))))
    case _ => Done
  }

  /** The trigger `forEach` over the entries `es` of the voice `v`. */
  function TriggerPass(v: seq<Entry>, nodes: seq<NodeRecord>, es: seq<Entry>, t0: real, hz: real): (r: Emission)
    requires InBuffer(es, nodes)
    ensures r.failure.Some? ==> r.failure.value.NotAnEnvelope?
  {
    if |es| == 0 then Done
    else Then(TriggerPass(v, nodes, es[..|es| - 1], t0, hz), TriggerEntry(v, nodes, es[|es| - 1], t0, hz))
  }

  /** What `press` sends to the backend, whether it threw, and the voice it built. */
  datatype PressOutcome = PressOutcome(cmds: seq<Command>, failure: Option<Fault>, voice: seq<Entry>)

  /**
   * `press` with a context, at backend time `t0` (current time plus delay) and
   * frequency `hz`: instantiate, wire, trigger. On success `voice` becomes the
   * new `playingNodes`; on a throw it is discarded.
   */
  function Press(nodes: seq<NodeRecord>, t0: real, hz: real): (r: PressOutcome)
    ensures r.failure.None? ==> UniqueIds(r.voice) && Realised(r.voice, nodes)
  {
    match Instantiate(nodes)
    case Err(f) => PressOutcome([], Some(f), [])
    case Ok(v) =>
      var both := Then(WirePass(v, nodes, v), TriggerPass(v, nodes, v, t0, hz));
      PressOutcome(both.cmds, both.failure, v)
  }

  // ----- release and the deferred cleanup -----

  /** Delay after the release time at which the fade to 0 is aimed. */
  const ReleaseOffset := 0.2

  /** What release sends to one enveloped gain: cancel at `t`, then one approach to 0 from `t + 0.2`. */
  function Fade(id: string, t: real, constant: real): (cmds: seq<Command>)
    ensures |cmds| == 2 && cmds[0] == Cancel(id, t)
    ensures cmds[1].SetTarget? && cmds[1].node == id && cmds[1].value == 0.0 && cmds[1].time > t
  {
    [Cancel(id, t), SetTarget(id, 0.0, t + ReleaseOffset, constant)]
  }

  /** The release step for one playing entry: fade an enveloped gain to 0. */
  function ReleaseEntry(v: seq<Entry>, nodes: seq<NodeRecord>, e: Entry, t: real): (r: Emission)
    requires e.info < |nodes|
    ensures || nodes[e.info].kind != Gain || EnvelopeRef(nodes[e.info]).None?
            || Lookup(v, EnvelopeRef(nodes[e.info]).value).None?
            ==> r == Done
    ensures r.failure.Some? <==> LinksPrimitive(v, nodes[e.info])
    ensures r.failure.Some? ==> r == Emission([Cancel(e.id, t)], Some(NotAnEnvelope(e.id)))
  {
    var r := nodes[e.info];
    if r.kind != Gain || EnvelopeRef(r).None? then Done
    else
      match Lookup(v, EnvelopeRef(r).value)
      case None => Done
      case Some(j) =>
        if v[j].node.EnvelopeObject? then
          Emission(Fade(e.id, t, TimeConstant(v[j].node.curve.release.constant)), None)
        else Emission([Cancel(e.id, t)], Some(NotAnEnvelope(e.id)))
  }

  /** The release `forEach` over the entries `es` of the playing map `v`. */
  function ReleasePass(v: seq<Entry>, nodes: seq<NodeRecord>, es: seq<Entry>, t: real): (r: Emission)
    requires InBuffer(es, nodes)
    ensures r.failure.Some? ==> r.failure.value.NotAnEnvelope?
  {
    if |es| == 0 then Done
    else Then(ReleasePass(v, nodes, es[..|es| - 1], t), ReleaseEntry(v, nodes, es[|es| - 1], t))
  }

  /** The cleanup `forEach`: stop every oscillator entry of `es`. */
  function StopPass(nodes: seq<NodeRecord>, es: seq<Entry>): (stops: seq<Command>)
    requires InBuffer(es, nodes)
    ensures |stops| <= |es|
  {
    if |es| == 0 then []
    else
      var e := es[|es| - 1];
      StopPass(nodes, es[..|es| - 1]) + (if nodes[e.info].kind == Osc then [Stop(e.id)] else [])
  }
}
