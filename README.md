# vue-audio store: a Dafny model

This project models the audio store of vue-audio, a Pinia store
(`src/stores/audio.js`) that keeps an editable patch and plays it on the Web
Audio API. The store has four parts, and each has a module here:

- **The patch editing buffer** (`store.dfy`, `patch.dfy`). This is the ordered
  list of node records `{id, type, param, connections, envelope}` and a
  selected record. `addNode`, `selectNodeFromIndex`, `connectNodes`,
  `connectToDestination` and `connectGainToEnveloppe` are methods of the class
  `AudioStore`. Each one updates its fields in place and is guarded by an
  index check: in range, exactly one thing changes; out of range, nothing does.
  The store keeps the invariant `Valid()`: ids are version-4 UUID strings, every
  connection is `'destination'` or the id of a record, and every envelope link
  names an `adsr` record.
- **The id formatter `uuidV4`** (`uuid.dfy`). Dafny has no randomness, so the 36
  random nibbles are an input. The method's first loop writes one random nibble
  into each of 36 cells; the version nibble, the variant nibble and the four
  dashes are then written in place, and a second loop renders the array as
  the id string.
  It is proved to return a 36-character string with dashes at 8, 13, 18 and 23,
  a `4` at 14, one of `8`, `9`, `a`, `b` at 19 and lower-case hex digits
  elsewhere. Each free position gives back the nibble it was made from.
- **The voice compiler `press`** (`voice.dfy`, `voice_properties.dfy`). The
  audio backend is an abstract trace of `Command`s (`Connect`, `ConnectOut`,
  `Cancel`, `SetValue`, `SetTarget`, `SetFrequency`, `Start`, `Stop`).
  `Voice.Press(nodes, t0, hz)` is the pure meaning of one press. It builds one
  primitive per record with `createAudioNode` and stores them in a JavaScript
  `Map`, modelled by `Lookup` (first match) and `Put` (replace in place, or
  append). It then wires every connection and triggers oscillators and
  enveloped gains. The store's `Press` method runs the same three `forEach`
  loops as imperative loops. They are proved equal to that function, and the
  properties are proved about the function.
- **`release` and its deferred cleanup** (`voice.dfy`, `store.dfy`). Each
  enveloped gain gets a cancel and one approach to 0. The cleanup body is a
  separate method, `Cleanup`, that stops every oscillator of the voice and
  empties it.

Times, gains and durations are `real`. A thrown exception is modelled as a
failure carried next to the commands already sent before it. The model knows
three such failures:

- `UnsupportedType`: `createAudioNode` is given a type other than `osc`, `gain`
  or `adsr`.
- `NotConnectable`: a connect from or to the plain `adsr` value object, which
  has no `connect` method and is not an audio node
  (`VoiceProperties.PressRejectsUnconnectable`).
- `NotAnEnvelope`: a gain's envelope id resolves to an oscillator or a gain,
  which is only possible with duplicate ids. The cancel is sent first, then the
  next step throws. In `press`, for a gain, reading `env.start.value` throws;
  for an oscillator, `env.start` is its `start` method, so the value read is
  `undefined` and `setValueAtTime` throws on the resulting `NaN`. In `release`,
  `env.release` is `undefined` for both, so reading its `constant` throws. The
  trace is the same in every case: one cancel, then the failure.

A throw ends the pass where it happens ("sticky" lemmas). `press` then leaves
`playingNodes` as it was.

Each entry of a voice keeps the index of its record in the live buffer rather
than a copy. This is because the store's `info` is the very record object
that the edit operations mutate. A `connectGainToEnveloppe` made after `press`
is therefore seen by the next `release`.

### What the code does and does not do

- The store has no voice registry keyed by pitch and no hard-stop on
  retrigger. `press` replaces `playingNodes` and stops nothing, so the previous
  voice keeps sounding (`Store.AudioStore.Press`,
  `VoiceProperties.PressNeverStops`).
- `release` aims the fade at `T + 0.2`, with `T` the current time plus the
  delay. The cleanup is one timer of `(delay + 2)` seconds, whatever the
  envelope durations.
- The cleanup stops the oscillators of `playingNodes` as they are when it
  fires. That may be a voice pressed after the release
  (`Store.AudioStore.Cleanup`).
- A dangling connection or envelope id is skipped silently.
- A connect from or to an `adsr` record throws a `TypeError`, because its
  primitive is a plain object with no `connect` method and is not an audio
  node.

## Model

| member | source | states |
|---|---|---|
| Uuid.HexDigit | src/stores/audio.js:24 | `toString(16)` of a nibble is a lower-case hex digit |
| Uuid.HexValue | src/stores/audio.js:24 | every lower-case hex digit is the rendering of exactly the nibble returned |
| Uuid.HexDigitInjective | src/stores/audio.js:24 | two different nibbles never render to the same digit |
| Uuid.VariantNibbleRange | src/stores/audio.js:21-22 | clearing bit 2 and setting bit 3 gives a value 8..11 and keeps the two low bits |
| Uuid.FormatUuid | src/stores/audio.js:15-25 | the formatted id has 36 characters |
| Uuid.FormatUuidIsV4 | src/stores/audio.js:15-25 | the id has dashes at 8/13/18/23, `4` at 14, one of `89ab` at 19 and hex digits elsewhere |
| Uuid.NibblesRecoverable | src/stores/audio.js:17-24 | every position that is not fixed decodes back to the random nibble drawn for it |
| Uuid.UuidV4 | src/stores/audio.js:15-25 | filling the cells with nibbles, fixing the version, variant and dash cells, then rendering the cells returns the formatted id, which is a version-4 UUID string |
| Patch.SameShapeIds | src/stores/audio.js:57-59 | edits that keep ids and types keep the set of ids and the set of `adsr` ids |
| Patch.AppendKeepsWellFormed | src/stores/audio.js:34-40 | appending a record with a UUID id, no connections and no envelope keeps the buffer invariant |
| Patch.ConnectKeepsWellFormed | src/stores/audio.js:52-61 | appending `'destination'` or an existing id to one record's connections keeps the buffer invariant |
| Patch.LinkKeepsWellFormed | src/stores/audio.js:71-73 | linking a gain to an `adsr` record's id keeps the buffer invariant |
| Voice.CreateAudioNode | src/stores/audio.js:83-104 | throws exactly for an unknown type, with that type; otherwise builds the primitive of that type, a gain at 0; an oscillator's waveform is never empty |
| Voice.Lookup | src/stores/audio.js:124 | `Map.get`: the first entry with the id, or nothing exactly when no entry has it |
| Voice.Put | src/stores/audio.js:115 | `Map.set`: keys stay unique, the entry is present, other keys keep their entries and positions, one key is added |
| Voice.Instantiate | src/stores/audio.js:113-116 | the build throws exactly when some record has an unknown type; a built voice has unique ids, and each entry points at a record with its id and holds a primitive of that record's type |
| Voice.EnvelopeSchedule | src/stores/audio.js:141-146 | the envelope automation is six commands |
| Voice.Press | src/stores/audio.js:107-153 | a press that does not throw yields a voice with unique ids whose entries point at records with their ids and realise their types |
| Voice.ConnectTarget | src/stores/audio.js:121-127 | one connection sends nothing exactly when it is a dangling id; otherwise at most one command, `ConnectOut` for `'destination'` and `Connect` to the id otherwise, or a `NotConnectable` failure with nothing sent, which happens exactly when the connection resolves and the source or the target is the envelope object (see also `VoiceProperties.DanglingTargetSkipped`) |
| Voice.WireTargets | src/stores/audio.js:120-129 | at most one command per connection; a failure is a connect failure from this source (see `VoiceProperties.WireTargetsShape`, `WireTargetsExact`) |
| Voice.WirePass | src/stores/audio.js:119-130 | the wiring pass can fail only on a connect (see `VoiceProperties.WirePassShape`, `WirePassRuns`, `WirePassSticky`) |
| Voice.EnvelopeRef | src/stores/audio.js:137 | an envelope link counts exactly when it is set and not the empty string, and then it is the link itself |
| Voice.TimeConstant | src/stores/audio.js:143-146 | the time constant used is never 0: it is the stage's own constant, or 0.1 when that is absent or 0 |
| Voice.TriggerEntry | src/stores/audio.js:134-148 | an `osc` entry gets exactly its frequency and a start; an entry that is neither `osc` nor `gain` gets nothing; it fails exactly when the entry is a gain whose link resolves to a primitive other than the envelope object, and then after exactly one cancel, naming the entry (see `VoiceProperties.TriggerEntryStarts`) |
| Voice.TriggerPass | src/stores/audio.js:133-149 | the trigger pass can fail only on an envelope link resolving to something that is not an envelope (see `VoiceProperties.TriggerPassShape`, `TriggerSchedulesEnvelope`) |
| Voice.Fade | src/stores/audio.js:164-165 | the fade is a cancel at `T` followed by one approach of the same gain to 0, aimed after `T` |
| Voice.ReleaseEntry | src/stores/audio.js:160-167 | an entry that is not a gain, has no envelope link, or whose link does not resolve in the playing map gets nothing; it fails exactly when the entry is a gain whose link resolves to a primitive other than the envelope object, and then after exactly one cancel, naming the entry |
| Voice.ReleasePass | src/stores/audio.js:159-168 | the release pass can fail only on an envelope link resolving to something that is not an envelope (see `VoiceProperties.ReleasePassShape`, `ReleaseFadesEnvelope`, `ReleaseSkipsUnscheduled`) |
| Voice.StopPass | src/stores/audio.js:172-176 | the cleanup sends at most one stop per playing entry (see `VoiceProperties.StopPassExact`) |
| VoiceProperties.InstantiateFailsAtFirstUnsupported | src/stores/audio.js:113-116 | a failing build reports the first record, in buffer order, with an unknown type |
| VoiceProperties.InstantiateKeys | src/stores/audio.js:113-116 | a built voice has one entry per distinct id, each pointing at the last record with that id |
| VoiceProperties.InstantiateNodes | src/stores/audio.js:113-116 | each entry of a built voice holds exactly what `createAudioNode` returns for the record it points at, parameters and envelope stages included |
| VoiceProperties.PutNewKeyAppends | src/stores/audio.js:115 | `Map.set` of a new key appends the entry after all others (insertion order) |
| VoiceProperties.PutKnownKeyReplaces | src/stores/audio.js:115 | `Map.set` of a key already present replaces that entry in its position |
| VoiceProperties.InstantiateSnoc | src/stores/audio.js:113-116 | building one more supported record is one more `Map.set` of its primitive on the built map |
| VoiceProperties.PutKeepsKeys | src/stores/audio.js:115 | one `Map.set` step keeps keys and latest records in step with the buffer |
| VoiceProperties.InstantiateSticky | src/stores/audio.js:113-116 | once a prefix of the build throws, the whole build throws the same |
| VoiceProperties.WireTargetsSticky | src/stores/audio.js:120-129 | once connecting a prefix of the targets throws, nothing more is sent |
| VoiceProperties.WirePassSticky | src/stores/audio.js:119-130 | once wiring a prefix of the entries throws, nothing more is sent |
| VoiceProperties.TriggerPassSticky | src/stores/audio.js:133-149 | once triggering a prefix of the entries throws, nothing more is sent |
| VoiceProperties.ReleasePassSticky | src/stores/audio.js:159-168 | once releasing a prefix of the entries throws, nothing more is sent |
| VoiceProperties.WireTargetsShape | src/stores/audio.js:120-129 | at most one command per target, each a connect from the source to one of its targets; failures are connect failures |
| VoiceProperties.ConnectTargetExact | src/stores/audio.js:121-126 | a connection to the output, or to a resolvable entry that is not an envelope, from an audio node is exactly its one connect and does not throw |
| VoiceProperties.WirePassShape | src/stores/audio.js:119-130 | the wiring pass only connects, each connect going from one of the entries to one of that entry's own connections, and only fails on a connect |
| VoiceProperties.WirePassRuns | src/stores/audio.js:119-130 | in a wiring pass that does not throw, every entry's connects appear as one contiguous run |
| VoiceProperties.DanglingTargetSkipped | src/stores/audio.js:124-127 | a target id absent from the voice adds nothing |
| VoiceProperties.WireTargetsExact | src/stores/audio.js:120-129 | with resolvable non-envelope targets, the connects are exactly one per target, in order: `ConnectOut` for `'destination'`, `Connect` otherwise |
| VoiceProperties.TargetsResolveInVoice | src/stores/audio.js:113-126 | in a built voice, every connection of a valid buffer is `'destination'` or a key of the map |
| VoiceProperties.PressWiresEveryConnection | src/stores/audio.js:119-130 | for a valid buffer, each audio-node entry is wired with exactly one connect per connection, in order, and when the wiring does not throw those connects appear as one contiguous run of the press's commands |
| VoiceProperties.TriggerPassShape | src/stores/audio.js:133-149 | the trigger pass never connects or stops; its only failure is a non-envelope envelope |
| VoiceProperties.WireTargetsThrows | src/stores/audio.js:121-127 | one connection from or to the envelope object that resolves makes the inner `forEach` throw |
| VoiceProperties.WirePassThrows | src/stores/audio.js:119-130 | one such connection of any entry makes the wiring `forEach` throw |
| VoiceProperties.PressRejectsUnconnectable | src/stores/audio.js:119-130 | a press whose voice has such a connection throws `NotConnectable` during wiring and sends only connects: nothing is started or automated |
| VoiceProperties.PressRejectsUnsupported | src/stores/audio.js:113-116 | `press` throws before sending anything exactly when some record has an unknown type, reporting the first one |
| VoiceProperties.PressNeverStops | src/stores/audio.js:107-153 | `press` never stops an oscillator, the previous voice's included |
| VoiceProperties.PressConnectsFirst | src/stores/audio.js:118-149 | every connect of a press comes before every trigger command |
| VoiceProperties.TriggerEntryStarts | src/stores/audio.js:134-136 | one trigger step gives an `osc` entry exactly its frequency and start, and starts nothing else |
| VoiceProperties.TriggerStartsOscillators | src/stores/audio.js:134-136 | an entry is started exactly when it is an `osc` entry of the voice |
| VoiceProperties.TriggerEntryAutomatesOwn | src/stores/audio.js:137-147 | one trigger step automates only its own gain, and a gain with an unset or dangling envelope gets nothing |
| VoiceProperties.TriggerEntrySchedules | src/stores/audio.js:137-147 | a gain whose envelope resolves to an envelope object gets exactly the six-command schedule of that curve and its own `param.gain`, without failure |
| VoiceProperties.TriggerSkipsUnscheduled | src/stores/audio.js:137-148 | an entry without a resolvable envelope gets no automation |
| VoiceProperties.ReleaseSkipsUnscheduled | src/stores/audio.js:159-168 | release sends nothing to a gain whose envelope link is unset or does not resolve in the playing map |
| VoiceProperties.PressLeavesUnscheduledGain | src/stores/audio.js:137-148 | `press` sends no automation to a gain whose envelope does not resolve, so it stays at 0 |
| VoiceProperties.TriggerSchedulesEnvelope | src/stores/audio.js:137-147 | a gain with a resolvable envelope gets the six-command schedule as a contiguous run |
| VoiceProperties.PressSchedulesRecordEnvelope | src/stores/audio.js:113-147 | a successful press gives each gain whose envelope id resolves to an `adsr` record the schedule of the curve created from that record, scaled by the gain's `param.gain`, as a contiguous run |
| VoiceProperties.ScheduleTimesNonDecreasing | src/stores/audio.js:143-146 | all six commands act on the gain; the first is at `T0` and, with non-negative durations, the times never decrease |
| VoiceProperties.ScheduleValues | src/stores/audio.js:141-146 | cancel at `T0`, then start·g set at `T0`; the targets are attack·g, decay·g, sustain·g and release·g, each one stage duration after the previous, the first at `T0` plus the attack duration |
| VoiceProperties.ScheduleConstants | src/stores/audio.js:143-146 | each target uses its stage's time constant, or 0.1 when that is absent or zero |
| VoiceProperties.OscillatorDefaults | src/stores/audio.js:85-89 | each field of an `osc` record's oscillator is, on its own, the record's value when given (a non-empty waveform) and otherwise the default: waveform `sine`, detune 0 |
| VoiceProperties.DefaultCurve | src/stores/audio.js:94-101 | each stage of an `adsr` record's envelope is, independently, the record's own stage when given and otherwise its default: start 0, attack (0.7, 0.15), decay (0.5, 0.25), sustain (0.45, 0.5), release (1e-7, 0.5) |
| VoiceProperties.ReleasePassShape | src/stores/audio.js:159-168 | release sends only cancels and targets of 0 at `T + 0.2`; its only failure is a non-envelope envelope |
| VoiceProperties.ReleaseEntryShape | src/stores/audio.js:160-166 | one release step only cancels at `T` or aims at 0 at `T + 0.2`, and only on its own gain with an envelope link |
| VoiceProperties.ReleaseEntryFades | src/stores/audio.js:160-166 | a gain whose envelope resolves to an envelope object gets exactly the cancel and the fade with the release time constant, without failure |
| VoiceProperties.ReleaseFadesEnvelope | src/stores/audio.js:160-166 | each enveloped gain gets exactly cancel at `T` then a target of 0 at `T + 0.2` with the release time constant |
| VoiceProperties.StopPassExact | src/stores/audio.js:172-176 | the cleanup stops exactly the `osc` entries and sends nothing else |
| Store.AudioStore.constructor | src/stores/audio.js:5-13 | the store starts with no context, no records, no selection and nothing playing |
| Store.AudioStore.InitAudioContext | src/stores/audio.js:27-29 | afterwards a context is present, and the store invariant still holds |
| Store.AudioStore.SelectedNode | src/stores/audio.js:11 | the selected record, present exactly when something is selected, is a record of the buffer |
| Store.AudioStore.AddNode | src/stores/audio.js:31-44 | no context: no id and no change; otherwise the formatted UUID is returned and exactly that record is appended |
| Store.AudioStore.SelectNodeFromIndex | src/stores/audio.js:46-50 | an index in range is selected; otherwise the selection is kept |
| Store.AudioStore.WithConnection | src/stores/audio.js:59 | one record gains a connection at the end; every other record and field is unchanged |
| Store.AudioStore.ConnectNodes | src/stores/audio.js:52-61 | both in range: the destination's id is appended to the source's connections and nothing else changes; otherwise no change |
| Store.AudioStore.ConnectToDestination | src/stores/audio.js:77-81 | in range: `'destination'` is appended to the record's connections; otherwise no change |
| Store.AudioStore.ConnectGainToEnveloppe | src/stores/audio.js:63-75 | gain source and `adsr` destination in range: only the source's envelope changes, to the destination's id; otherwise no change |
| Store.AudioStore.Press | src/stores/audio.js:107-153 | no context: nothing; otherwise the log grows by the press's commands, and the voice replaces `playingNodes` only when nothing threw |
| Store.AudioStore.Release | src/stores/audio.js:155-180 | no context or nothing playing: nothing; otherwise the log grows by the release commands and the cleanup is scheduled unless it threw |
| Store.AudioStore.Cleanup | src/stores/audio.js:171-178 | the oscillators of the voice playing when it fires are stopped and `playingNodes` becomes empty |
| Store.CompileVoice | src/stores/audio.js:107-153 | the three `forEach` loops compute exactly `Voice.Press` |
| Store.BuildVoice | src/stores/audio.js:113-116 | the `createAudioNode`/`Map.set` loop computes `Instantiate` |
| Store.WireVoice | src/stores/audio.js:119-130 | the wiring loop computes the wiring pass |
| Store.WireConnections | src/stores/audio.js:120-129 | the inner loop over one record's connections computes its connects |
| Store.TriggerVoice | src/stores/audio.js:133-149 | the trigger loop computes the trigger pass |
| Store.ReleaseVoice | src/stores/audio.js:159-168 | the release loop computes the release pass |
| Store.StopOscillators | src/stores/audio.js:172-176 | the cleanup loop computes the stop pass |
| Scenarios.InstantiateScenario | src/stores/audio.js:113-116 | sine → gain (0.8, default envelope) → output builds the three expected primitives |
| Scenarios.WireScenario | src/stores/audio.js:119-130 | that patch wires oscillator → gain → output |
| Scenarios.TriggerScenario | src/stores/audio.js:133-149 | at 440 Hz and time 0: start, then gain 0 at once, 0.56 at 0.15 s, 0.4 at 0.4 s, 0.36 at 0.9 s, 8e-8 at 1.4 s, each with constant 0.1 |
| Scenarios.PressScenario | src/stores/audio.js:107-153 | the whole press of that patch is the wiring followed by the trigger commands |
| Scenarios.UnconnectableScenario | src/stores/audio.js:107-153 | after `connectToDestination` on the `adsr` record, pressing wires oscillator → gain → output and then throws on the envelope's connect, with the voice discarded |
| Scenarios.InstantiateBroken | src/stores/audio.js:113-116 | that patch builds the same three primitives, since connections play no part in building |
| Scenarios.WireBroken | src/stores/audio.js:119-130 | wiring that patch sends the two connects, then fails on the envelope object |
| Scenarios.ReleaseScenario | src/stores/audio.js:155-178 | releasing at 2 s cancels the gain and aims it at 0 from 2.2 s; the cleanup stops the oscillator |

## Left out

- `Math.random` in `uuidV4`: the 36 nibbles are a parameter. Ids are not claimed to be unique, since the code does not ensure it.
- The Web Audio API: `AudioContext`, sound rendering and `currentTime` advancing. The backend is the command trace `log`, and the current time is the `now` parameter of `Press` and `Release`.
- `initAudioContext` only sets a "context present" flag; a new context's clock is not modelled.
- `setTimeout` in `release` and its wall-clock delay of `(delay + 2) * 1000` ms: `Release` reports whether the cleanup is scheduled, and the caller invokes `Cleanup`. Timing, interleaving and concurrency are not modelled.
- Vue reactivity (`ref`, `computed`, `defineStore`) and the router: the store is a plain class.
- Failures inside the browser's own `connect`, such as connecting into an oscillator, which has no inputs: only the throws listed above are modelled.
- JavaScript values outside the model's types: a missing `gain` or stage `duration`, whose `NaN` makes `setValueAtTime` or `setTargetAtTime` throw a `TypeError` at audio.js:142-146 after the cancel, while the model has a real for each; a stage given as something other than an object, a non-integer or non-numeric index, and `NaN` time constants. Indices are integers, and stage fields are reals.
- Not present in this code: super-oscillators, modulators, filters, delay lines, per-pitch polyphony, hard-stop on retrigger, node removal, disconnect and saved-patch storage.
- Voice.EnvelopeSchedule, Voice.Fade: times, durations and time constants are not range-checked. The browser throws a `RangeError` for a negative start time or a negative time constant (audio.js:141-146, 164-165), for example a stage given with `constant: -1`; the model sends the command and reports success.
- Voice.CreateAudioNode: the oscillator type is any non-empty string and is kept as given. In the browser, assigning a value that is not one of the oscillator types to `osc.type` at audio.js:87 is ignored and the oscillator stays `'sine'`, and assigning `'custom'` throws; the model records the string and reports success in both cases.
- Voice.CreateAudioNode: every record has a `param` object. A record without one makes `nodeInfo.param.…` throw a `TypeError` at audio.js:87, 96-100 or 142; `addNode` stores whatever `param` its caller passes, `undefined` included, but the model's `AddNode` always takes a `Param` value and reports success where the source would throw.
- Scenarios.TriggerScenario: reals are exact, not IEEE-754 doubles. The model gives 0.56 and 0.36 where JavaScript computes 0.5599999999999999 and 0.36000000000000004; every product and sum of times and gains is exact in the model.
- Voice.Command: commands name primitives by their record's id, so two voices built from one buffer share names in `log`. A later `Stop` of an oscillator id cannot be told apart, in the log, from a stop of the previous voice's oscillator, which the source never stops; the `playing` field carries the distinction, the log does not.
