/**
 * Properties of the voice compiler: what `press` and `release` send to the
 * backend, and the fact that a thrown exception ends each pass.
 */
module VoiceProperties {
  import opened Base
  import opened Patch
  import opened Voice

  // ----- building the voice -----

  /** A failing build reports the first record, in buffer order, whose type is unknown. */
  lemma {:induction false} InstantiateFailsAtFirstUnsupported(rs: seq<NodeRecord>)
    requires Instantiate(rs).Err?
    ensures exists j :: FirstUnsupported(rs, j, Instantiate(rs).error)
    decreases |rs|
  {
    var n := |rs| - 1;
    var prefix := rs[..n];
    if Instantiate(prefix).Err? {
      InstantiateFailsAtFirstUnsupported(prefix);
      var j :| FirstUnsupported(prefix, j, Instantiate(prefix).error);
      assert FirstUnsupported(rs, j, Instantiate(rs).error);
    } else {
      assert CreateAudioNode(rs[n]).Err?;
      assert Instantiate(rs) == Err(UnsupportedType(rs[n].kind.tag));
      forall i | 0 <= i < n ensures !rs[i].kind.Unsupported? {
        assert prefix[i] == rs[i];
      }
      assert FirstUnsupported(rs, n, Instantiate(rs).error);
    }
  }

  /**
   * A successful build has one entry per distinct id of the buffer, and each
   * entry holds the last record with that id, as repeated `Map.set` leaves it.
   */
  lemma {:induction false} InstantiateKeys(rs: seq<NodeRecord>)
    requires Instantiate(rs).Ok?
    ensures Ids(Instantiate(rs).value) == IdsOf(rs)
    ensures LatestRecords(Instantiate(rs).value, rs)
    decreases |rs|
  {
    if |rs| > 0 {
      InstantiateStep(rs);
      InstantiateKeys(rs[..|rs| - 1]);
      PutKeepsKeys(rs, Instantiate(rs[..|rs| - 1]).value, Entry(rs[|rs| - 1].id, CreateAudioNode(rs[|rs| - 1]).value, |rs| - 1));
    }
  }

  /** Every entry holds exactly the primitive `createAudioNode` makes from the record it points at. */
  predicate Created(v: seq<Entry>, nodes: seq<NodeRecord>) {
    forall e :: e in v ==> e.info < |nodes| && CreateAudioNode(nodes[e.info]) == Ok(e.node)
  }

  /**
   * The map built by `press` stores the created primitives themselves: each
   * entry holds exactly what `createAudioNode` returns for its record,
   * parameters and envelope stages included.
   */
  lemma {:induction false} InstantiateNodes(rs: seq<NodeRecord>)
    requires Instantiate(rs).Ok?
    ensures Created(Instantiate(rs).value, rs)
    decreases |rs|
  {
    if |rs| > 0 {
      InstantiateStep(rs);
      InstantiateNodes(rs[..|rs| - 1]);
      PutKeepsCreated(rs, Instantiate(rs[..|rs| - 1]).value, CreateAudioNode(rs[|rs| - 1]).value);
    }
  }

  /** One `Map.set` of the last record's primitive keeps every entry tied to the primitive of its record. */
  lemma PutKeepsCreated(rs: seq<NodeRecord>, v: seq<Entry>, node: AudioNode)
    requires |rs| > 0 && UniqueIds(v) && Created(v, rs[..|rs| - 1])
    requires CreateAudioNode(rs[|rs| - 1]) == Ok(node)
    ensures Created(Put(v, Entry(rs[|rs| - 1].id, node, |rs| - 1)), rs)
  {
    var e := Entry(rs[|rs| - 1].id, node, |rs| - 1);
    forall x | x in Put(v, e) ensures x.info < |rs| && CreateAudioNode(rs[x.info]) == Ok(x.node) {
      if x != e {
        assert x in v;
        assert rs[..|rs| - 1][x.info] == rs[x.info];
      }
    }
  }

  /** A successful build is the build of all but the last record, then one `Map.set` of the last one. */
  lemma InstantiateStep(rs: seq<NodeRecord>)
    requires |rs| > 0 && Instantiate(rs).Ok?
    ensures Instantiate(rs[..|rs| - 1]).Ok? && CreateAudioNode(rs[|rs| - 1]).Ok?
    ensures Instantiate(rs).value == Put(Instantiate(rs[..|rs| - 1]).value,
      Entry(rs[|rs| - 1].id, CreateAudioNode(rs[|rs| - 1]).value, |rs| - 1))
  {
  }

  /** `Map.set` of a key not yet present appends the entry after all others: insertion order. */
  lemma PutNewKeyAppends(v: seq<Entry>, e: Entry)
    requires UniqueIds(v) && e.id !in Ids(v)
    ensures Put(v, e) == v + [e]
  {
  }

  /** `Map.set` of a key already present replaces its entry where it stands. */
  lemma PutKnownKeyReplaces(v: seq<Entry>, e: Entry, j: nat)
    requires UniqueIds(v) && j < |v| && v[j].id == e.id
    ensures Put(v, e) == v[j := e]
  {
    assert v[j] in v;
  }

  /** Building one more record appends one `Map.set` to a successful build. */
  lemma InstantiateSnoc(rs: seq<NodeRecord>, r: NodeRecord)
    requires Instantiate(rs).Ok? && CreateAudioNode(r).Ok?
    ensures Instantiate(rs + [r]) == Ok(Put(Instantiate(rs).value, Entry(r.id, CreateAudioNode(r).value, |rs|)))
  {
    assert (rs + [r])[..|rs|] == rs;
  }

  /** One `Map.set` step of the build keeps the keys and the latest records in step with the buffer. */
  lemma PutKeepsKeys(rs: seq<NodeRecord>, v: seq<Entry>, e: Entry)
    requires |rs| > 0 && UniqueIds(v)
    requires Ids(v) == IdsOf(rs[..|rs| - 1]) && LatestRecords(v, rs[..|rs| - 1])
    requires e.id == rs[|rs| - 1].id && e.info == |rs| - 1
    ensures Ids(Put(v, e)) == IdsOf(rs)
    ensures LatestRecords(Put(v, e), rs)
  {
    var n := |rs| - 1;
    var prefix := rs[..n];
    assert rs == prefix + [rs[n]];
    IdsOfSnoc(prefix, rs[n]);
    forall x, j | x in Put(v, e) && x.info < j < |rs| ensures rs[j].id != x.id {
      if x != e {
        assert x in v && x.id != e.id;
        if j < n { assert prefix[j] == rs[j]; }
      }
    }
  }

  // ----- a thrown exception ends the pass -----

  lemma {:induction false} InstantiateSticky(rs: seq<NodeRecord>, k: nat)
    requires k <= |rs| && Instantiate(rs[..k]).Err?
    ensures Instantiate(rs) == Instantiate(rs[..k])
    decreases |rs|
  {
    if k < |rs| {
      var n := |rs| - 1;
      assert rs[..n][..k] == rs[..k];
      InstantiateSticky(rs[..n], k);
      assert Instantiate(rs[..n]).Err?;
    } else {
      assert rs[..k] == rs;
    }
  }

  lemma {:induction false} WireTargetsSticky(v: seq<Entry>, src: Entry, ts: seq<string>, k: nat)
    requires k <= |ts| && WireTargets(v, src, ts[..k]).failure.Some?
    ensures WireTargets(v, src, ts) == WireTargets(v, src, ts[..k])
    decreases |ts|
  {
    if k < |ts| {
      var prefix := ts[..|ts| - 1];
      assert prefix[..k] == ts[..k];
      WireTargetsSticky(v, src, prefix, k);
      WireTargetsStep(v, src, ts);
    } else {
      assert ts[..k] == ts;
    }
  }

  /** After a throw, connecting one more target changes nothing. */
  lemma WireTargetsStep(v: seq<Entry>, src: Entry, ts: seq<string>)
    requires |ts| > 0
    requires WireTargets(v, src, ts[..|ts| - 1]).failure.Some?
    ensures WireTargets(v, src, ts) == WireTargets(v, src, ts[..|ts| - 1])
  {
  }

  lemma {:induction false} WirePassSticky(v: seq<Entry>, nodes: seq<NodeRecord>, es: seq<Entry>, k: nat)
    requires InBuffer(es, nodes)
    requires k <= |es| && WirePass(v, nodes, es[..k]).failure.Some?
    ensures WirePass(v, nodes, es) == WirePass(v, nodes, es[..k])
    decreases |es|
  {
    if k < |es| {
      var prefix := es[..|es| - 1];
      assert prefix[..k] == es[..k];
      WirePassSticky(v, nodes, prefix, k);
      WirePassStep(v, nodes, es);
    } else {
      assert es[..k] == es;
    }
  }

  /** After a throw, wiring one more entry changes nothing. */
  lemma WirePassStep(v: seq<Entry>, nodes: seq<NodeRecord>, es: seq<Entry>)
    requires InBuffer(es, nodes) && |es| > 0
    requires WirePass(v, nodes, es[..|es| - 1]).failure.Some?
    ensures WirePass(v, nodes, es) == WirePass(v, nodes, es[..|es| - 1])
  {
  }

  lemma {:induction false} TriggerPassSticky(v: seq<Entry>, nodes: seq<NodeRecord>, es: seq<Entry>, t0: real, hz: real, k: nat)
    requires InBuffer(es, nodes)
    requires k <= |es| && TriggerPass(v, nodes, es[..k], t0, hz).failure.Some?
    ensures TriggerPass(v, nodes, es, t0, hz) == TriggerPass(v, nodes, es[..k], t0, hz)
    decreases |es|
  {
    if k < |es| {
      var prefix := es[..|es| - 1];
      assert prefix[..k] == es[..k];
      TriggerPassSticky(v, nodes, prefix, t0, hz, k);
      TriggerPassStep(v, nodes, es, t0, hz);
    } else {
      assert es[..k] == es;
    }
  }

  /** After a throw, triggering one more entry changes nothing. */
  lemma TriggerPassStep(v: seq<Entry>, nodes: seq<NodeRecord>, es: seq<Entry>, t0: real, hz: real)
    requires InBuffer(es, nodes) && |es| > 0
    requires TriggerPass(v, nodes, es[..|es| - 1], t0, hz).failure.Some?
    ensures TriggerPass(v, nodes, es, t0, hz) == TriggerPass(v, nodes, es[..|es| - 1], t0, hz)
  {
  }

  lemma {:induction false} ReleasePassSticky(v: seq<Entry>, nodes: seq<NodeRecord>, es: seq<Entry>, t: real, k: nat)
    requires InBuffer(es, nodes)
    requires k <= |es| && ReleasePass(v, nodes, es[..k], t).failure.Some?
    ensures ReleasePass(v, nodes, es, t) == ReleasePass(v, nodes, es[..k], t)
    decreases |es|
  {
    if k < |es| {
      var prefix := es[..|es| - 1];
      assert prefix[..k] == es[..k];
      ReleasePassSticky(v, nodes, prefix, t, k);
      ReleasePassStep(v, nodes, es, t);
    } else {
      assert es[..k] == es;
    }
  }

  /** After a throw, releasing one more entry changes nothing. */
  lemma ReleasePassStep(v: seq<Entry>, nodes: seq<NodeRecord>, es: seq<Entry>, t: real)
    requires InBuffer(es, nodes) && |es| > 0
    requires ReleasePass(v, nodes, es[..|es| - 1], t).failure.Some?
    ensures ReleasePass(v, nodes, es, t) == ReleasePass(v, nodes, es[..|es| - 1], t)
  {
  }

  // ----- what each pass can emit -----

  /** The commands of `Then(a, b)` come from `a` or from `b`. */
  lemma ThenCmds(a: Emission, b: Emission)
    ensures forall c :: c in Then(a, b).cmds ==> c in a.cmds || c in b.cmds
  {
  }

  predicate IsConnect(c: Command) {
    c.Connect? || c.ConnectOut?
  }

  /** `c` is automation (cancel, set, approach) on the gain of primitive `x`. */
  predicate Automates(c: Command, x: string) {
    (c.Cancel? || c.SetValue? || c.SetTarget?) && c.node == x
  }

  /** Wiring one record: connects from that record only, to its own targets, at most one per target. */
  lemma {:induction false} WireTargetsShape(v: seq<Entry>, src: Entry, ts: seq<string>)
    ensures |WireTargets(v, src, ts).cmds| <= |ts|
    ensures forall c :: c in WireTargets(v, src, ts).cmds ==>
      IsConnect(c) && c.source == src.id && (if c.Connect? then c.target in ts && c.target != Output else Output in ts)
    ensures WireTargets(v, src, ts).failure.Some? ==> WireTargets(v, src, ts).failure.value.NotConnectable?
    decreases |ts|
  {
    if |ts| > 0 {
      var n := |ts| - 1;
      WireTargetsShape(v, src, ts[..n]);
      assert forall t :: t in ts[..n] ==> t in ts;
      assert ts[n] in ts;
    }
  }

  /** `c` is a connect from `src` to one of the targets `ts`. */
  predicate WiredFrom(c: Command, src: Entry, ts: seq<string>) {
    IsConnect(c) && c.source == src.id && (if c.Connect? then c.target in ts && c.target != Output else Output in ts)
  }

  /**
   * The wiring pass emits connects only, each from one of the entries to one
   * of that entry's own connections, and fails only on the envelope object.
   */
  lemma {:induction false} WirePassShape(v: seq<Entry>, nodes: seq<NodeRecord>, es: seq<Entry>)
    requires InBuffer(es, nodes)
    ensures forall c :: c in WirePass(v, nodes, es).cmds ==> IsConnect(c)
    ensures forall c :: c in WirePass(v, nodes, es).cmds ==> exists e :: e in es && WiredFrom(c, e, nodes[e.info].connections)
    ensures WirePass(v, nodes, es).failure.Some? ==> WirePass(v, nodes, es).failure.value.NotConnectable?
    decreases |es|
  {
    if |es| > 0 {
      var prefix := es[..|es| - 1];
      var e := es[|es| - 1];
      WirePassShape(v, nodes, prefix);
      WireTargetsShape(v, e, nodes[e.info].connections);
      var before := WirePass(v, nodes, prefix);
      var last := WireTargets(v, e, nodes[e.info].connections);
      assert WirePass(v, nodes, es) == Then(before, last);
      ThenCmds(before, last);
      forall c | c in Then(before, last).cmds
        ensures IsConnect(c) && exists x :: x in es && WiredFrom(c, x, nodes[x.info].connections)
      {
        if c in before.cmds {
          var x :| x in prefix && WiredFrom(c, x, nodes[x.info].connections);
          assert x in es;
        } else {
          assert c in last.cmds && e in es;
          assert WiredFrom(c, e, nodes[e.info].connections);
        }
      }
    }
  }

  /**
   * In a wiring pass that does not throw, each entry's connects appear as one
   * contiguous run: every connection of every entry is wired.
   */
  lemma {:induction false} WirePassRuns(v: seq<Entry>, nodes: seq<NodeRecord>, es: seq<Entry>, e: Entry)
    requires InBuffer(es, nodes) && e in es
    requires WirePass(v, nodes, es).failure.None?
    ensures exists p :: RunAt(WirePass(v, nodes, es).cmds, p, WireTargets(v, e, nodes[e.info].connections).cmds)
    decreases |es|
  {
    var n := |es| - 1;
    var prefix := es[..n];
    var run := WireTargets(v, e, nodes[e.info].connections).cmds;
    var before := WirePass(v, nodes, prefix);
    var last := WireTargets(v, es[n], nodes[es[n].info].connections);
    assert WirePass(v, nodes, es) == Then(before, last);
    assert before.failure.None?;
    if e == es[n] {
      RunAtEnd(before.cmds, last.cmds);
    } else {
      assert e in prefix by { assert es == prefix + [es[n]]; }
      WirePassRuns(v, nodes, prefix, e);
      var p :| RunAt(before.cmds, p, run);
      RunAtExtend(before.cmds, last.cmds, p, run);
    }
  }

  /** A target that is neither the output nor in the map adds nothing. */
  lemma DanglingTargetSkipped(v: seq<Entry>, src: Entry, ts: seq<string>, t: string)
    requires t != Output && t !in Ids(v)
    ensures WireTargets(v, src, ts + [t]) == WireTargets(v, src, ts)
  {
    assert (ts + [t])[..|ts|] == ts;
  }

  /** The connect one target yields when it resolves. */
  function ExpectedConnect(src: Entry, t: string): Command {
    if t == Output then ConnectOut(src.id) else Connect(src.id, t)
  }

  /** The connects of the targets `ts`, one per target, in order. */
  function ExpectedConnects(src: Entry, ts: seq<string>): seq<Command> {
    seq(|ts|, i requires 0 <= i < |ts| => ExpectedConnect(src, ts[i]))
  }

  /**
   * When every target is the output or resolves, and no envelope object is
   * involved, each target yields exactly its connect, in order.
   */
  lemma {:induction false} WireTargetsExact(v: seq<Entry>, src: Entry, ts: seq<string>)
    requires !src.node.EnvelopeObject?
    requires forall t :: t in ts ==> t == Output || t in Ids(v)
    requires forall x :: x in v && x.id in ts ==> !x.node.EnvelopeObject?
    ensures WireTargets(v, src, ts).failure == None
    ensures WireTargets(v, src, ts).cmds == seq(|ts|, i requires 0 <= i < |ts| => ExpectedConnect(src, ts[i]))
    decreases |ts|
  {
    if |ts| > 0 {
      var n := |ts| - 1;
      var prefix := ts[..n];
      assert forall t :: t in prefix ==> t in ts;
      WireTargetsExact(v, src, prefix);
      assert ts[n] in ts;
      ConnectTargetExact(v, src, ts[n]);
      assert WireTargets(v, src, ts) == Then(WireTargets(v, src, prefix), ConnectTarget(v, src, ts[n]));
      ExpectedSnoc(src, ts);
    }
  }

  lemma ExpectedSnoc(src: Entry, ts: seq<string>)
    requires |ts| > 0
    ensures seq(|ts|, i requires 0 <= i < |ts| => ExpectedConnect(src, ts[i]))
      == seq(|ts| - 1, i requires 0 <= i < |ts| - 1 => ExpectedConnect(src, ts[..|ts| - 1][i])) + [ExpectedConnect(src, ts[|ts| - 1])]
  {
  }

  /** A connection to the output, or to a resolvable non-envelope entry, is exactly its connect. */
  lemma ConnectTargetExact(v: seq<Entry>, src: Entry, t: string)
    requires !src.node.EnvelopeObject?
    requires t == Output || t in Ids(v)
    requires forall x :: x in v && x.id == t ==> !x.node.EnvelopeObject?
    ensures ConnectTarget(v, src, t) == Emission([ExpectedConnect(src, t)], None)
  {
    if t != Output {
      var j := Lookup(v, t).value;
      assert v[j] in v;
    }
  }

  /** The trigger pass never stops or connects anything, and fails only on a non-envelope link. */
  lemma {:induction false} TriggerPassShape(v: seq<Entry>, nodes: seq<NodeRecord>, es: seq<Entry>, t0: real, hz: real)
    requires InBuffer(es, nodes)
    ensures forall c :: c in TriggerPass(v, nodes, es, t0, hz).cmds ==> !c.Stop? && !IsConnect(c)
    ensures TriggerPass(v, nodes, es, t0, hz).failure.Some? ==> TriggerPass(v, nodes, es, t0, hz).failure.value.NotAnEnvelope?
    decreases |es|
  {
    if |es| > 0 {
      TriggerPassShape(v, nodes, es[..|es| - 1], t0, hz);
    }
  }

  /**
   * `press` throws `UnsupportedType` exactly when some record has an unknown
   * type; it then reports the first one and has sent nothing to the backend.
   */
  lemma PressRejectsUnsupported(nodes: seq<NodeRecord>, t0: real, hz: real)
    ensures (exists j :: 0 <= j < |nodes| && nodes[j].kind.Unsupported?) <==>
      (Press(nodes, t0, hz).failure.Some? && Press(nodes, t0, hz).failure.value.UnsupportedType?)
    ensures (exists j :: 0 <= j < |nodes| && nodes[j].kind.Unsupported?) ==>
      Press(nodes, t0, hz).cmds == [] && exists j :: FirstUnsupported(nodes, j, Press(nodes, t0, hz).failure.value)
  {
    if Instantiate(nodes).Ok? {
      var v := Instantiate(nodes).value;
      WirePassShape(v, nodes, v);
      TriggerPassShape(v, nodes, v, t0, hz);
    } else {
      InstantiateFailsAtFirstUnsupported(nodes);
    }
  }

  /** `press` sends no stop: the voice it replaces in `playingNodes` keeps running. */
  lemma PressNeverStops(nodes: seq<NodeRecord>, t0: real, hz: real)
    ensures forall c :: c in Press(nodes, t0, hz).cmds ==> !c.Stop?
  {
    if Instantiate(nodes).Ok? {
      var v := Instantiate(nodes).value;
      WirePassShape(v, nodes, v);
      TriggerPassShape(v, nodes, v, t0, hz);
    }
  }

  /** In a successful press, all connects come before every frequency, start and automation command. */
  lemma PressConnectsFirst(nodes: seq<NodeRecord>, t0: real, hz: real)
    requires Instantiate(nodes).Ok?
    ensures var cmds := Press(nodes, t0, hz).cmds;
      forall i, j :: 0 <= i < j < |cmds| && !IsConnect(cmds[i]) ==> !IsConnect(cmds[j])
  {
    var v := Instantiate(nodes).value;
    var w := WirePass(v, nodes, v);
    WirePassShape(v, nodes, v);
    TriggerPassShape(v, nodes, v, t0, hz);
    var cmds := Press(nodes, t0, hz).cmds;
    forall k | 0 <= k < |w.cmds| ensures IsConnect(cmds[k]) {
      assert cmds[k] == w.cmds[k] && w.cmds[k] in w.cmds;
    }
    if w.failure.None? {
      var tr := TriggerPass(v, nodes, v, t0, hz).cmds;
      forall k | |w.cmds| <= k < |cmds| ensures !IsConnect(cmds[k]) {
        assert cmds[k] == tr[k - |w.cmds|] && tr[k - |w.cmds|] in tr;
      }
    }
  }

  /** With every record instantiated and the buffer's connections resolving, the map resolves them too. */
  lemma TargetsResolveInVoice(nodes: seq<NodeRecord>, e: Entry)
    requires Instantiate(nodes).Ok? && ConnectionsResolve(nodes)
    requires e in Instantiate(nodes).value
    ensures forall t :: t in nodes[e.info].connections ==> t == Output || t in Ids(Instantiate(nodes).value)
  {
    InstantiateKeys(nodes);
  }

  /**
   * For a well-formed buffer, each connection of a record that is not the
   * envelope object, to targets that are not envelope objects, yields exactly
   * its connect: nothing dangles.
   */
  lemma PressWiresEveryConnection(nodes: seq<NodeRecord>, t0: real, hz: real, e: Entry)
    requires Instantiate(nodes).Ok? && ConnectionsResolve(nodes)
    requires e in Instantiate(nodes).value && !e.node.EnvelopeObject?
    requires forall x :: x in Instantiate(nodes).value && x.id in nodes[e.info].connections ==> !x.node.EnvelopeObject?
    ensures WireTargets(Instantiate(nodes).value, e, nodes[e.info].connections)
      == Emission(ExpectedConnects(e, nodes[e.info].connections), None)
    ensures var v := Instantiate(nodes).value;
      WirePass(v, nodes, v).failure.None? ==>
        exists p :: RunAt(Press(nodes, t0, hz).cmds, p, ExpectedConnects(e, nodes[e.info].connections))
  {
    var v := Instantiate(nodes).value;
    TargetsResolveInVoice(nodes, e);
    WireTargetsExact(v, e, nodes[e.info].connections);
    var w := WirePass(v, nodes, v);
    if w.failure.None? {
      var tr := TriggerPass(v, nodes, v, t0, hz);
      var run := WireTargets(v, e, nodes[e.info].connections).cmds;
      assert Press(nodes, t0, hz).cmds == Then(w, tr).cmds;
      WirePassRuns(v, nodes, v, e);
      var p :| RunAt(w.cmds, p, run);
      RunAtExtend(w.cmds, tr.cmds, p, run);
    }
  }

  /** One unconnectable connection makes the inner `forEach` throw. */
  lemma {:induction false} WireTargetsThrows(v: seq<Entry>, src: Entry, ts: seq<string>, target: string)
    requires target in ts && Unconnectable(v, src, target)
    ensures WireTargets(v, src, ts).failure.Some?
    decreases |ts|
  {
    var n := |ts| - 1;
    var before := WireTargets(v, src, ts[..n]);
    assert WireTargets(v, src, ts) == Then(before, ConnectTarget(v, src, ts[n]));
    if ts[n] != target {
      assert target in ts[..n] by { assert ts == ts[..n] + [ts[n]]; }
      WireTargetsThrows(v, src, ts[..n], target);
    }
  }

  /** One unconnectable connection of any entry makes the wiring `forEach` throw. */
  lemma {:induction false} WirePassThrows(v: seq<Entry>, nodes: seq<NodeRecord>, es: seq<Entry>, e: Entry, target: string)
    requires InBuffer(es, nodes) && e in es
    requires target in nodes[e.info].connections && Unconnectable(v, e, target)
    ensures WirePass(v, nodes, es).failure.Some?
    decreases |es|
  {
    var n := |es| - 1;
    var before := WirePass(v, nodes, es[..n]);
    assert WirePass(v, nodes, es) == Then(before, WireTargets(v, es[n], nodes[es[n].info].connections));
    if es[n] == e {
      WireTargetsThrows(v, e, nodes[e.info].connections, target);
    } else {
      assert e in es[..n] by { assert es == es[..n] + [es[n]]; }
      WirePassThrows(v, nodes, es[..n], e, target);
    }
  }

  /**
   * A press whose voice has a resolvable connection from or to the envelope
   * object throws `NotConnectable` while wiring: it sends only connects, and
   * no oscillator is started and no gain automated.
   */
  lemma PressRejectsUnconnectable(nodes: seq<NodeRecord>, t0: real, hz: real, e: Entry, target: string)
    requires Instantiate(nodes).Ok? && e in Instantiate(nodes).value
    requires target in nodes[e.info].connections && Unconnectable(Instantiate(nodes).value, e, target)
    ensures Press(nodes, t0, hz).failure.Some? && Press(nodes, t0, hz).failure.value.NotConnectable?
    ensures forall c :: c in Press(nodes, t0, hz).cmds ==> IsConnect(c)
  {
    var v := Instantiate(nodes).value;
    WirePassThrows(v, nodes, v, e, target);
    WirePassShape(v, nodes, v);
    assert Press(nodes, t0, hz).cmds == WirePass(v, nodes, v).cmds;
  }

  // ----- the trigger pass -----

  /** `run` occurs in `cmds` as one contiguous block starting at `p`. */
  predicate RunAt(cmds: seq<Command>, p: int, run: seq<Command>) {
    0 <= p && p + |run| <= |cmds| && cmds[p..p + |run|] == run
  }

  lemma RunAtEnd(before: seq<Command>, last: seq<Command>)
    ensures RunAt(before + last, |before|, last)
  {
    assert (before + last)[|before|..|before| + |last|] == last;
  }

  lemma RunAtExtend(before: seq<Command>, last: seq<Command>, p: int, run: seq<Command>)
    requires RunAt(before, p, run)
    ensures RunAt(before + last, p, run)
  {
    assert (before + last)[p..p + |run|] == before[p..p + |run|];
  }

  /** One trigger step starts only the oscillator of its own entry, and always does so for an `osc` entry. */
  lemma TriggerEntryStarts(v: seq<Entry>, nodes: seq<NodeRecord>, e: Entry, t0: real, hz: real, x: string)
    requires e.info < |nodes|
    ensures nodes[e.info].kind == Osc ==> TriggerEntry(v, nodes, e, t0, hz).cmds == [SetFrequency(e.id, hz), Start(e.id)]
    ensures Start(x) in TriggerEntry(v, nodes, e, t0, hz).cmds ==> e.id == x && nodes[e.info].kind == Osc
  {
  }

  /**
   * A successful trigger pass gives every oscillator entry the frequency and a
   * start, and starts nothing else.
   */
  lemma {:induction false} TriggerStartsOscillators(v: seq<Entry>, nodes: seq<NodeRecord>, es: seq<Entry>, t0: real, hz: real, x: string)
    requires InBuffer(es, nodes)
    requires TriggerPass(v, nodes, es, t0, hz).failure.None?
    ensures (exists e :: e in es && e.id == x && nodes[e.info].kind == Osc) ==>
      SetFrequency(x, hz) in TriggerPass(v, nodes, es, t0, hz).cmds && Start(x) in TriggerPass(v, nodes, es, t0, hz).cmds
    ensures Start(x) in TriggerPass(v, nodes, es, t0, hz).cmds ==> exists e :: e in es && e.id == x && nodes[e.info].kind == Osc
    decreases |es|
  {
    if |es| > 0 {
      var n := |es| - 1;
      var prefix := es[..n];
      assert es == prefix + [es[n]];
      assert TriggerPass(v, nodes, prefix, t0, hz).failure.None?;
      TriggerStartsOscillators(v, nodes, prefix, t0, hz, x);
      var last := TriggerEntry(v, nodes, es[n], t0, hz);
      assert TriggerPass(v, nodes, es, t0, hz).cmds == TriggerPass(v, nodes, prefix, t0, hz).cmds + last.cmds;
      TriggerEntryStarts(v, nodes, es[n], t0, hz, x);
    }
  }

  /** A gain entry whose envelope is not set or does not resolve in the map. */
  predicate Unscheduled(v: seq<Entry>, nodes: seq<NodeRecord>, e: Entry)
    requires e.info < |nodes|
  {
    var r := nodes[e.info];
    r.kind == Gain && (EnvelopeRef(r).None? || Lookup(v, EnvelopeRef(r).value).None?)
  }

  /**
   * No automation is sent to a primitive all of whose entries are unscheduled
   * gains: such a gain keeps the value 0 it was created with.
   */
  lemma {:induction false} TriggerSkipsUnscheduled(v: seq<Entry>, nodes: seq<NodeRecord>, es: seq<Entry>, t0: real, hz: real, x: string)
    requires InBuffer(es, nodes)
    requires forall e :: e in es && e.id == x ==> Unscheduled(v, nodes, e)
    ensures forall c :: c in TriggerPass(v, nodes, es, t0, hz).cmds ==> !Automates(c, x)
    decreases |es|
  {
    if |es| > 0 {
      var n := |es| - 1;
      var prefix := es[..n];
      forall e | e in prefix && e.id == x ensures Unscheduled(v, nodes, e) {
        assert e in es;
      }
      TriggerSkipsUnscheduled(v, nodes, prefix, t0, hz, x);
      assert es[n] in es;
      var before := TriggerPass(v, nodes, prefix, t0, hz);
      var last := TriggerEntry(v, nodes, es[n], t0, hz);
      assert TriggerPass(v, nodes, es, t0, hz) == Then(before, last);
      ThenCmds(before, last);
      TriggerEntryAutomatesOwn(v, nodes, es[n], t0, hz);
      forall c | c in Then(before, last).cmds ensures !Automates(c, x) {
        if c !in before.cmds {
          assert c in last.cmds;
        }
      }
    }
  }

  /** One trigger step automates only its own entry, and an unscheduled gain not at all. */
  lemma TriggerEntryAutomatesOwn(v: seq<Entry>, nodes: seq<NodeRecord>, e: Entry, t0: real, hz: real)
    requires e.info < |nodes|
    ensures forall c :: c in TriggerEntry(v, nodes, e, t0, hz).cmds && (c.Cancel? || c.SetValue? || c.SetTarget?) ==> c.node == e.id
    ensures Unscheduled(v, nodes, e) ==> TriggerEntry(v, nodes, e, t0, hz) == Done
  {
  }

  /** `press` never automates a gain entry of the new voice whose envelope does not resolve. */
  lemma PressLeavesUnscheduledGain(nodes: seq<NodeRecord>, t0: real, hz: real, e: Entry)
    requires Instantiate(nodes).Ok? && e in Instantiate(nodes).value
    requires Unscheduled(Instantiate(nodes).value, nodes, e)
    ensures forall c :: c in Press(nodes, t0, hz).cmds ==> !Automates(c, e.id)
  {
    var v := Instantiate(nodes).value;
    OnlyEntryWithId(v, e);
    var w := WirePass(v, nodes, v);
    var tr := TriggerPass(v, nodes, v, t0, hz);
    TriggerSkipsUnscheduled(v, nodes, v, t0, hz, e.id);
    WirePassShape(v, nodes, v);
    assert Press(nodes, t0, hz).cmds == Then(w, tr).cmds;
    forall c | c in Then(w, tr).cmds ensures !Automates(c, e.id) {
      if c in w.cmds { assert IsConnect(c); }
    }
  }

  /** With unique ids, an entry is the only one carrying its id. */
  lemma OnlyEntryWithId(v: seq<Entry>, e: Entry)
    requires UniqueIds(v) && e in v
    ensures forall x :: x in v && x.id == e.id ==> x == e
  {
    forall x | x in v && x.id == e.id ensures x == e {
      var i :| 0 <= i < |v| && v[i] == x;
      var k :| 0 <= k < |v| && v[k] == e;
      assert i == k;
    }
  }

  /**
   * In a successful trigger pass, a gain whose envelope resolves to an envelope
   * object gets that envelope's whole schedule as one contiguous run.
   */
  lemma {:induction false} TriggerSchedulesEnvelope(v: seq<Entry>, nodes: seq<NodeRecord>, es: seq<Entry>, t0: real, hz: real, e: Entry, j: nat)
    requires InBuffer(es, nodes) && e in es
    requires TriggerPass(v, nodes, es, t0, hz).failure.None?
    requires nodes[e.info].kind == Gain && EnvelopeRef(nodes[e.info]).Some?
    requires Lookup(v, EnvelopeRef(nodes[e.info]).value) == Some(j) && v[j].node.EnvelopeObject?
    ensures exists p :: RunAt(TriggerPass(v, nodes, es, t0, hz).cmds, p, EnvelopeSchedule(e.id, v[j].node.curve, nodes[e.info].param.gain, t0))
    decreases |es|
  {
    var n := |es| - 1;
    var prefix := es[..n];
    var schedule := EnvelopeSchedule(e.id, v[j].node.curve, nodes[e.info].param.gain, t0);
    var before := TriggerPass(v, nodes, prefix, t0, hz);
    var last := TriggerEntry(v, nodes, es[n], t0, hz);
    assert TriggerPass(v, nodes, es, t0, hz) == Then(before, last);
    assert before.failure.None?;
    if e == es[n] {
      TriggerEntrySchedules(v, nodes, e, t0, hz, j);
      RunAtEnd(before.cmds, last.cmds);
    } else {
      assert e in prefix by { assert es == prefix + [es[n]]; }
      TriggerSchedulesEnvelope(v, nodes, prefix, t0, hz, e, j);
      var p :| RunAt(before.cmds, p, schedule);
      RunAtExtend(before.cmds, last.cmds, p, schedule);
    }
  }

  /** One trigger step of a gain whose envelope resolves to an envelope object is exactly its schedule. */
  lemma TriggerEntrySchedules(v: seq<Entry>, nodes: seq<NodeRecord>, e: Entry, t0: real, hz: real, j: nat)
    requires e.info < |nodes| && nodes[e.info].kind == Gain && EnvelopeRef(nodes[e.info]).Some?
    requires Lookup(v, EnvelopeRef(nodes[e.info]).value) == Some(j) && v[j].node.EnvelopeObject?
    ensures TriggerEntry(v, nodes, e, t0, hz) == Emission(EnvelopeSchedule(e.id, v[j].node.curve, nodes[e.info].param.gain, t0), None)
  {
  }

  lemma RunAtShift(before: seq<Command>, after: seq<Command>, p: int, run: seq<Command>)
    requires RunAt(after, p, run)
    ensures RunAt(before + after, |before| + p, run)
  {
    assert (before + after)[|before| + p..|before| + p + |run|] == after[p..p + |run|];
  }

  /**
   * A successful press schedules, for every enveloped gain of the voice, the
   * curve that `createAudioNode` built from the `adsr` record its envelope id
   * resolves to, scaled by the gain's own `param.gain` and started at `t0`.
   */
  lemma PressSchedulesRecordEnvelope(nodes: seq<NodeRecord>, t0: real, hz: real, e: Entry, j: nat)
    requires Press(nodes, t0, hz).failure.None? && e in Press(nodes, t0, hz).voice
    requires nodes[e.info].kind == Gain && EnvelopeRef(nodes[e.info]).Some?
    requires Lookup(Press(nodes, t0, hz).voice, EnvelopeRef(nodes[e.info]).value) == Some(j)
    requires nodes[Press(nodes, t0, hz).voice[j].info].kind == Adsr
    ensures exists p :: RunAt(Press(nodes, t0, hz).cmds, p,
      EnvelopeSchedule(e.id, CreateAudioNode(nodes[Press(nodes, t0, hz).voice[j].info]).value.curve, nodes[e.info].param.gain, t0))
  {
    var v := Instantiate(nodes).value;
    assert v == Press(nodes, t0, hz).voice;
    assert v[j] in v;
    InstantiateNodes(nodes);
    var w := WirePass(v, nodes, v);
    var tr := TriggerPass(v, nodes, v, t0, hz);
    assert Press(nodes, t0, hz) == PressOutcome(Then(w, tr).cmds, Then(w, tr).failure, v);
    assert w.failure.None? && tr.failure.None?;
    TriggerSchedulesEnvelope(v, nodes, v, t0, hz, e, j);
    var p :| RunAt(tr.cmds, p, EnvelopeSchedule(e.id, v[j].node.curve, nodes[e.info].param.gain, t0));
    RunAtShift(w.cmds, tr.cmds, p, EnvelopeSchedule(e.id, v[j].node.curve, nodes[e.info].param.gain, t0));
  }

  // ----- the envelope schedule -----

  /** The time at which an automation command acts. */
  function TimeOf(c: Command): real {
    if c.Cancel? || c.SetValue? || c.SetTarget? then c.time else 0.0
  }

  /**
   * The schedule is automation on one gain only; it starts at `t0` and, when
   * no stage duration is negative, its times never decrease.
   */
  lemma ScheduleTimesNonDecreasing(id: string, c: Curve, g: real, t0: real)
    requires c.attack.duration >= 0.0 && c.decay.duration >= 0.0
    requires c.sustain.duration >= 0.0 && c.release.duration >= 0.0
    ensures var cmds := EnvelopeSchedule(id, c, g, t0);
      && (forall i :: 0 <= i < 6 ==> Automates(cmds[i], id))
      && TimeOf(cmds[0]) == t0
      && (forall i, j :: 0 <= i <= j < 6 ==> TimeOf(cmds[i]) <= TimeOf(cmds[j]))
  {
  }

  /**
   * The value set at `t0` is the start value scaled by the gain parameter, and
   * so is each target. Each target is reached one stage duration after the
   * previous one, the first at `t0` plus the attack duration.
   */
  lemma ScheduleValues(id: string, c: Curve, g: real, t0: real)
    ensures var cmds := EnvelopeSchedule(id, c, g, t0);
      && cmds[0] == Cancel(id, t0) && cmds[1] == SetValue(id, c.start.value * g, t0)
      && cmds[2].value == c.attack.value * g && cmds[3].value == c.decay.value * g
      && cmds[4].value == c.sustain.value * g && cmds[5].value == c.release.value * g
      && TimeOf(cmds[2]) - t0 == c.attack.duration
      && TimeOf(cmds[3]) - TimeOf(cmds[2]) == c.decay.duration
      && TimeOf(cmds[4]) - TimeOf(cmds[3]) == c.sustain.duration
      && TimeOf(cmds[5]) - TimeOf(cmds[4]) == c.release.duration
  {
  }

  /** `cmd` approaches its target with the stage's time constant, or 0.1 when that is absent or zero. */
  predicate SmoothedBy(cmd: Command, s: Stage) {
    && cmd.SetTarget?
    && (s.constant.None? || s.constant.value == 0.0 ==> cmd.constant == 0.1)
    && (s.constant.Some? && s.constant.value != 0.0 ==> cmd.constant == s.constant.value)
  }

  /** Each of the four targets uses its own stage's time constant, defaulting to 0.1. */
  lemma ScheduleConstants(id: string, c: Curve, g: real, t0: real)
    ensures var cmds := EnvelopeSchedule(id, c, g, t0);
      && SmoothedBy(cmds[2], c.attack) && SmoothedBy(cmds[3], c.decay)
      && SmoothedBy(cmds[4], c.sustain) && SmoothedBy(cmds[5], c.release)
  {
  }

  /**
   * An `osc` record becomes an oscillator whose waveform and detune are, each
   * on its own, the record's value when given (a non-empty waveform) and
   * otherwise the default: a sine wave, not detuned.
   */
  lemma OscillatorDefaults(r: NodeRecord)
    requires r.kind == Osc
    ensures CreateAudioNode(r).Ok? && CreateAudioNode(r).value.OscillatorNode?
    ensures CreateAudioNode(r).value.waveform
      == (if r.param.waveform.Some? && r.param.waveform.value != "" then r.param.waveform.value else "sine")
    ensures CreateAudioNode(r).value.detune == (if r.param.detune.Some? then r.param.detune.value else 0.0)
  {
  }

  /**
   * An `adsr` record becomes an envelope whose every stage is the record's own
   * stage when one is given and that stage's default otherwise, stage by stage.
   */
  lemma DefaultCurve(r: NodeRecord)
    requires r.kind == Adsr
    ensures CreateAudioNode(r).Ok? && CreateAudioNode(r).value.EnvelopeObject?
    ensures var c := CreateAudioNode(r).value.curve;
      && c.start == (if r.param.start.Some? then r.param.start.value else Stage(0.0, 0.0, None))
      && c.attack == (if r.param.attack.Some? then r.param.attack.value else Stage(0.7, 0.15, None))
      && c.decay == (if r.param.decay.Some? then r.param.decay.value else Stage(0.5, 0.25, None))
      && c.sustain == (if r.param.sustain.Some? then r.param.sustain.value else Stage(0.45, 0.5, None))
      && c.release == (if r.param.release.Some? then r.param.release.value else Stage(0.0000001, 0.5, None))
  {
  }

  // ----- release and cleanup -----

  /**
   * The release pass only cancels at `t` and aims at 0 at `t + 0.2`, and only
   * on gain entries with an envelope link; it fails only on a non-envelope link.
   */
  lemma {:induction false} ReleasePassShape(v: seq<Entry>, nodes: seq<NodeRecord>, es: seq<Entry>, t: real)
    requires InBuffer(es, nodes)
    ensures forall c :: c in ReleasePass(v, nodes, es, t).cmds ==>
      && ((c.Cancel? && c.time == t) || (c.SetTarget? && c.value == 0.0 && c.time == t + ReleaseOffset))
      && exists e :: e in es && e.id == c.node && nodes[e.info].kind == Gain && EnvelopeRef(nodes[e.info]).Some?
    ensures ReleasePass(v, nodes, es, t).failure.Some? ==> ReleasePass(v, nodes, es, t).failure.value.NotAnEnvelope?
    decreases |es|
  {
    if |es| > 0 {
      var n := |es| - 1;
      var prefix := es[..n];
      ReleasePassShape(v, nodes, prefix, t);
      var before := ReleasePass(v, nodes, prefix, t);
      var last := ReleaseEntry(v, nodes, es[n], t);
      assert ReleasePass(v, nodes, es, t) == Then(before, last);
      ThenCmds(before, last);
      ReleaseEntryShape(v, nodes, es[n], t);
      forall c | c in Then(before, last).cmds
        ensures exists e :: e in es && e.id == c.node && nodes[e.info].kind == Gain && EnvelopeRef(nodes[e.info]).Some?
      {
        if c in before.cmds {
          var x :| x in prefix && x.id == c.node && nodes[x.info].kind == Gain && EnvelopeRef(nodes[x.info]).Some?;
          assert x in es;
        } else {
          assert c in last.cmds && es[n] in es;
        }
      }
    }
  }

  /** One release step only cancels at `t` and aims at 0 at `t + 0.2`, on its own enveloped gain. */
  lemma ReleaseEntryShape(v: seq<Entry>, nodes: seq<NodeRecord>, e: Entry, t: real)
    requires e.info < |nodes|
    ensures forall c :: c in ReleaseEntry(v, nodes, e, t).cmds ==>
      && ((c.Cancel? && c.time == t) || (c.SetTarget? && c.value == 0.0 && c.time == t + ReleaseOffset))
      && c.node == e.id && nodes[e.info].kind == Gain && EnvelopeRef(nodes[e.info]).Some?
  {
  }

  /**
   * Release sends nothing to a primitive all of whose entries are gains whose
   * envelope link is unset or does not resolve in the playing map, such as a
   * link made after `press` to a record added after it.
   */
  lemma {:induction false} ReleaseSkipsUnscheduled(v: seq<Entry>, nodes: seq<NodeRecord>, es: seq<Entry>, t: real, x: string)
    requires InBuffer(es, nodes)
    requires forall e :: e in es && e.id == x ==> Unscheduled(v, nodes, e)
    ensures forall c :: c in ReleasePass(v, nodes, es, t).cmds ==> !Automates(c, x)
    decreases |es|
  {
    if |es| > 0 {
      var n := |es| - 1;
      var prefix := es[..n];
      forall e | e in prefix && e.id == x ensures Unscheduled(v, nodes, e) {
        assert e in es;
      }
      ReleaseSkipsUnscheduled(v, nodes, prefix, t, x);
      assert es[n] in es;
      var before := ReleasePass(v, nodes, prefix, t);
      var last := ReleaseEntry(v, nodes, es[n], t);
      assert ReleasePass(v, nodes, es, t) == Then(before, last);
      ThenCmds(before, last);
      ReleaseEntryShape(v, nodes, es[n], t);
      forall c | c in Then(before, last).cmds ensures !Automates(c, x) {
        if c !in before.cmds {
          assert c in last.cmds;
        }
      }
    }
  }

  /** A successful release gives each resolvable enveloped gain exactly a cancel then one approach to 0. */
  lemma {:induction false} ReleaseFadesEnvelope(v: seq<Entry>, nodes: seq<NodeRecord>, es: seq<Entry>, t: real, e: Entry, j: nat)
    requires InBuffer(es, nodes) && e in es
    requires ReleasePass(v, nodes, es, t).failure.None?
    requires nodes[e.info].kind == Gain && EnvelopeRef(nodes[e.info]).Some?
    requires Lookup(v, EnvelopeRef(nodes[e.info]).value) == Some(j) && v[j].node.EnvelopeObject?
    ensures exists p :: RunAt(ReleasePass(v, nodes, es, t).cmds, p, Fade(e.id, t, TimeConstant(v[j].node.curve.release.constant)))
    decreases |es|
  {
    var n := |es| - 1;
    var prefix := es[..n];
    var fade := Fade(e.id, t, TimeConstant(v[j].node.curve.release.constant));
    var before := ReleasePass(v, nodes, prefix, t);
    var last := ReleaseEntry(v, nodes, es[n], t);
    assert ReleasePass(v, nodes, es, t) == Then(before, last);
    assert before.failure.None?;
    if e == es[n] {
      ReleaseEntryFades(v, nodes, e, t, j);
      RunAtEnd(before.cmds, last.cmds);
    } else {
      assert e in prefix by { assert es == prefix + [es[n]]; }
      ReleaseFadesEnvelope(v, nodes, prefix, t, e, j);
      var p :| RunAt(before.cmds, p, fade);
      RunAtExtend(before.cmds, last.cmds, p, fade);
    }
  }

  /** One release step of a gain whose envelope resolves to an envelope object is exactly its fade. */
  lemma ReleaseEntryFades(v: seq<Entry>, nodes: seq<NodeRecord>, e: Entry, t: real, j: nat)
    requires e.info < |nodes| && nodes[e.info].kind == Gain && EnvelopeRef(nodes[e.info]).Some?
    requires Lookup(v, EnvelopeRef(nodes[e.info]).value) == Some(j) && v[j].node.EnvelopeObject?
    ensures ReleaseEntry(v, nodes, e, t) == Emission(Fade(e.id, t, TimeConstant(v[j].node.curve.release.constant)), None)
  {
  }

  /** The cleanup stops exactly the oscillator entries, each once per entry, and does nothing else. */
  lemma {:induction false} StopPassExact(nodes: seq<NodeRecord>, es: seq<Entry>, x: string)
    requires InBuffer(es, nodes)
    ensures |StopPass(nodes, es)| <= |es|
    ensures forall c :: c in StopPass(nodes, es) ==> c.Stop?
    ensures Stop(x) in StopPass(nodes, es) <==> exists e :: e in es && e.id == x && nodes[e.info].kind == Osc
    decreases |es|
  {
    if |es| > 0 {
      var n := |es| - 1;
      var prefix := es[..n];
      assert es == prefix + [es[n]];
      StopPassExact(nodes, prefix, x);
    }
  }
}
