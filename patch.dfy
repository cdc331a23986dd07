/**
 * The patch editing buffer's records: one node record per entry of the
 * store's `_nodes` array, `{id, type, param, connections, envelope}`.
 */
module Patch {
  import opened Base
  import Uuid

  /** A `type` tag that is none of the three known ones. */
  type UnknownTag = s: string | s != "osc" && s != "gain" && s != "adsr" witness "noise"

  /** The record's `type` tag; any tag other than the three known ones is kept verbatim. */
  datatype NodeType = Osc | Gain | Adsr | Unsupported(tag: UnknownTag)

  /** One envelope stage `{value, duration, constant}`; `constant` may be absent. */
  datatype Stage = Stage(value: real, duration: real, constant: Option<real>)

  /**
   * The record's `param` object. Oscillators read `type` (here `waveform`) and
   * `detune`, gains read `gain`, envelopes read their five stages.
   */
  datatype Param = Param(
    waveform: Option<string>,
    detune: Option<real>,
    gain: real,
    start: Option<Stage>,
    attack: Option<Stage>,
    decay: Option<Stage>,
    sustain: Option<Stage>,
    release: Option<Stage>)

  datatype NodeRecord = NodeRecord(
    id: string,
    kind: NodeType,
    param: Param,
    connections: seq<string>,
    envelope: Option<string>)

  /** The connection target that stands for the audio output. */
  const Output: string := "destination"

  /** The ids of the records in a buffer. */
  function IdsOf(nodes: seq<NodeRecord>): set<string> {
    set r | r in nodes :: r.id
  }

  /** The ids of the `adsr` records in a buffer. */
  function EnvelopeIdsOf(nodes: seq<NodeRecord>): set<string> {
    set r | r in nodes && r.kind == Adsr :: r.id
  }

  /** Every id was produced by `uuidV4`. */
  predicate IdsWellFormed(nodes: seq<NodeRecord>) {
    forall i :: 0 <= i < |nodes| ==> Uuid.IsUuidV4(nodes[i].id)
  }

  /** Every connection names the output or a record of the buffer. */
  predicate ConnectionsResolve(nodes: seq<NodeRecord>) {
    forall i, t :: 0 <= i < |nodes| && t in nodes[i].connections ==> t == Output || t in IdsOf(nodes)
  }

  /** Only gains carry an envelope link, and it names an `adsr` record of the buffer. */
  predicate EnvelopesResolve(nodes: seq<NodeRecord>) {
    forall i :: 0 <= i < |nodes| && nodes[i].envelope.Some? ==>
      nodes[i].kind == Gain && nodes[i].envelope.value in EnvelopeIdsOf(nodes)
  }

  /** What the edit operations keep true of the buffer. */
  predicate WellFormed(nodes: seq<NodeRecord>) {
    IdsWellFormed(nodes) && ConnectionsResolve(nodes) && EnvelopesResolve(nodes)
  }

  /** Two buffers that agree on every record's id and type. */
  predicate SameShape(a: seq<NodeRecord>, b: seq<NodeRecord>) {
    |a| == |b| && forall i :: 0 <= i < |a| ==> a[i].id == b[i].id && a[i].kind == b[i].kind
  }

  /** Same ids and types means the same id sets. */
  lemma SameShapeIds(a: seq<NodeRecord>, b: seq<NodeRecord>)
    requires SameShape(a, b)
    ensures IdsOf(a) == IdsOf(b) && EnvelopeIdsOf(a) == EnvelopeIdsOf(b)
  {
    forall x | x in IdsOf(a) ensures x in IdsOf(b) {
      var r :| r in a && r.id == x;
      var i :| 0 <= i < |a| && a[i] == r;
      assert b[i] in b;
    }
    forall x | x in IdsOf(b) ensures x in IdsOf(a) {
      var r :| r in b && r.id == x;
      var i :| 0 <= i < |b| && b[i] == r;
      assert a[i] in a;
    }
    forall x | x in EnvelopeIdsOf(a) ensures x in EnvelopeIdsOf(b) {
      var r :| r in a && r.kind == Adsr && r.id == x;
      var i :| 0 <= i < |a| && a[i] == r;
      assert b[i] in b;
    }
    forall x | x in EnvelopeIdsOf(b) ensures x in EnvelopeIdsOf(a) {
      var r :| r in b && r.kind == Adsr && r.id == x;
      var i :| 0 <= i < |b| && b[i] == r;
      assert a[i] in a;
    }
  }

  /** `addNode`'s fresh record (new id, no connections, no envelope) keeps the buffer well formed. */
  lemma AppendKeepsWellFormed(nodes: seq<NodeRecord>, r: NodeRecord)
    requires WellFormed(nodes)
    requires Uuid.IsUuidV4(r.id) && r.connections == [] && r.envelope == None
    ensures WellFormed(nodes + [r])
  {
    var after := nodes + [r];
    assert forall x :: x in after <==> x in nodes || x == r;
    assert IdsOf(nodes) <= IdsOf(after);
    assert EnvelopeIdsOf(nodes) <= EnvelopeIdsOf(after);
    forall i, t | 0 <= i < |after| && t in after[i].connections
      ensures t == Output || t in IdsOf(after)
    {
      assert i < |nodes| && after[i] == nodes[i];
    }
  }

  /** Appending the output or the id of a record of the buffer keeps it well formed. */
  lemma ConnectKeepsWellFormed(nodes: seq<NodeRecord>, i: nat, t: string)
    requires WellFormed(nodes) && i < |nodes|
    requires t == Output || t in IdsOf(nodes)
    ensures WellFormed(nodes[i := nodes[i].(connections := nodes[i].connections + [t])])
  {
    var after := nodes[i := nodes[i].(connections := nodes[i].connections + [t])];
    SameShapeIds(nodes, after);
  }

  /** Linking a gain to an `adsr` record of the buffer keeps it well formed. */
  lemma LinkKeepsWellFormed(nodes: seq<NodeRecord>, i: nat, e: string)
    requires WellFormed(nodes) && i < |nodes|
    requires nodes[i].kind == Gain && e in EnvelopeIdsOf(nodes)
    ensures WellFormed(nodes[i := nodes[i].(envelope := Some(e))])
  {
    var after := nodes[i := nodes[i].(envelope := Some(e))];
    SameShapeIds(nodes, after);
  }
}
