# Model DB presets: a Dafny model

The Model DB plugin adds saved "default value presets" to the nodes of a
graph editor. A preset is a value-map (widget name to value). Presets are
filed by checkpoint and then by label. The plugin keeps a copy of the whole
preset store in memory (`db`) and keeps two control widgets of each
"Model DB" node in step with it:

- `ckpt_name` selects the checkpoint;
- `key` selects a label from its option list.

This project models that state machine:

- the two store lookups;
- the snapshot of a node's widgets that a save posts;
- the label list and the selection after each event;
- writing a value-map back into the widgets;
- the timestamp label a save is filed under.

The server's replies are inputs. Each new store replaces `db` whole.

## Layout

- `wrappers.dfy`: `Option`.
- `presets.dfy` (module `Presets`): widget values and value-maps. Also:
  - the store: checkpoint to `Table`. A `Table` holds the labels in the order
    `Object.keys` lists them, plus the value-map under each label;
  - `getKeys` and `getValues`;
  - the constants `DEFAULT_KEYS`, `"NO_KEY"` and `"Model DB"`.
- `timestamp.dfy` (module `Timestamp`): `getCurrentKey` over a `Clock` whose
  parts are parameters. Also `ParseKey`, its inverse.
- `widgets.dfy` (module `Widgets`): the pure core. It holds:
  - a node's widget list as a `seq<Widget>`;
  - `find` and `indexOf`;
  - the snapshot `Snapshot`, and `Applied`, which writes a value-map into the widgets;
  - one function per operation giving the widget list that operation
    leaves (`KeysUpdated`, `ValuesUpdated`, `NodeUpdated`, `KeyChanged`,
    `AddedWidgets`, `RemovedWidgets`);
  - `RemoveClicked`, the remove request the button issues, if any.
- `model_db.dfy` (module `ModelDb`): the state that changes in place.
  - `Plugin` holds the module-level `db` and `DEFAULT_VALUES`.
  - `Node` holds a node's class name and its widget list.
  - Its methods follow the source step by step: loops over `DEFAULT_KEYS`, over a value-map's
    entries and over the graph's nodes. Each is proved against the matching
    function of `Widgets`.
- `flows.dfy` (module `Flows`): what the handlers promise, as lemmas over
  those functions.

An exception stops the operation where the source throws. A node with no
`ckpt_name` or no `key` widget makes `updateKeys` and `updateValues` throw
before they write anything, so they change nothing. `UpdateKeys`,
`UpdateValues` and `UpdateNode` return `ok == false` in that case, and
`updateNodes` skips the node (js/index.js:161-172). The add and remove
replies do change state before they throw. They set `db` first, so `db`
changes even when a missing `key` widget then stops them
(js/index.js:249-250, 268-269). With a `key` widget but no `ckpt_name`, they
write the key widget's options and selection, and only then does
`updateValues` throw. Those writes stay.

Some lemmas about the final selection assume the value-maps follow the fixed
schema (`Conforming`: every key is in `DEFAULT_KEYS`). The code itself does
not check this. A stored value-map with a `key` or `ckpt_name` entry would
overwrite the control widgets when it is applied. `ValuesSpareControls`
states a sufficient condition under which that cannot happen.
`ControlsKeptExactly` states exactly when both selections survive.

## Model

| member | source | states |
|---|---|---|
| `Presets.GetKeys` | js/index.js:102-104 | The result lists each label of `db[ckpt]` exactly once, in the table's order. It is empty when the checkpoint is absent or the widget value is not a string. |
| `Presets.GetValues` | js/index.js:106-108 | The result is the value-map stored under `db[ckpt][key]` when that entry exists. Otherwise it equals the defaults. |
| `Widgets.Find` | js/index.js:120-126 | The result is the position of the first widget with that name. It is none exactly when no widget has that name. |
| `Widgets.IndexOf` | js/index.js:263 | The result is the first position of the key among the options. It is -1 exactly when the key is not a string or not among them. |
| `Widgets.Snapshot` | js/index.js:110-117 | The map's keys are exactly the listed keys. Each entry is the value of the first widget with that name, else the default, else `undefined`. |
| `ModelDb.Plugin.GetNodeValues` | js/index.js:110-117 | The loop over `DEFAULT_KEYS` returns a map whose key set is exactly `DEFAULT_KEYS`. Each entry is the first widget's value or the default. |
| `Widgets.Applied` | js/index.js:146-151 | Each entry `(k, v)` is written into the first widget named `k`. A widget whose name is not a key, or that is not the first of its name, is unchanged. Names and option lists are kept. |
| `Widgets.KeysUpdated` | js/index.js:119-132 | The key widget's options are `getKeys` of the current checkpoint. Its value is the first option, or `"NO_KEY"` when there are none. No other widget changes. |
| `ModelDb.Plugin.UpdateKeys` | js/index.js:119-132 | Without both control widgets nothing changes and `ok` is false. Otherwise the widgets become `KeysUpdated`. |
| `ModelDb.Plugin.UpdateValues` | js/index.js:134-152 | The loop over `getValues(ckpt, key)` leaves exactly `Applied` of that map. A missing control widget changes nothing. |
| `ModelDb.Plugin.UpdateNode` | js/index.js:154-157 | The node's widgets become `NodeUpdated`: the labels are refreshed, then the selected preset is applied. |
| `ModelDb.Plugin.UpdateNodes` | js/index.js:159-174 | Every node of class `"Model DB"` is updated as `UpdateNode` would. Every other node keeps its widgets. Class names are kept. |
| `ModelDb.Plugin.CkptChanged` | js/index.js:219-225 | The checkpoint callback leaves `NodeUpdated`: it refreshes the labels, then applies the selected preset. A missing control widget changes nothing. |
| `ModelDb.Plugin.KeyChanged` | js/index.js:227-236 | The key callback first selects `"NO_KEY"` when the chosen value is falsy, then applies the selected preset. |
| `ModelDb.Plugin.AddClicked` | js/index.js:243-247 | A save request is posted exactly when the node has a `ckpt_name` widget. It carries that widget's value, the timestamp label and the node's snapshot. |
| `ModelDb.Plugin.AddReplied` | js/index.js:248-253 | `db` becomes the reply store in every case, and the defaults are kept. The key widget holds the checkpoint's new labels with the new label selected, and the preset is applied. Without a `key` widget the widgets are unchanged. |
| `ModelDb.Plugin.RemoveReplied` | js/index.js:267-273 | `db` becomes the reply store in every case, and the defaults are kept. The key widget holds the new labels with the clamped selection, and the preset is applied. Without a `key` widget the widgets are unchanged. |
| `Widgets.RemoveClicked` | js/index.js:261-266 | A remove request is issued exactly when both control widgets exist and the selected key is one of the options. It carries the checkpoint, the key and the key's first position. |
| `Widgets.Clamp` | js/index.js:270-271 | The selection after a remove. Its contract is stated by `Flows.ClampSelects`. |
| `Timestamp.Pad2TwoDigits` | js/index.js:93-97 | A part below 100 is rendered as exactly two digits, with a leading `'0'` below 10. The two digits read back to the part. |
| `Timestamp.DecimalNoLeadingZero` | js/index.js:99 | The year is not padded: its digits start with `'0'` only for 0. |
| `Timestamp.CurrentKey` | js/index.js:85-100 | The label a save is filed under. Its contract is stated by `Timestamp.KeyLayout` and `Timestamp.KeyRoundTrip`. |
| `Timestamp.KeyLayout` | js/index.js:85-100 | For a real clock reading the label is the year, then 15 characters: separators `-`, `-`, space, `:`, `:` around the two digits of each part. |
| `Timestamp.KeyRoundTrip` | js/index.js:85-100 | Reading a label back recovers the year, month, day, hour, minute and second it was made from. |
| `Timestamp.KeyInjective` | js/index.js:85-100 | Different clock readings give different labels. |
| `Flows.ValuesSpareControls` | js/index.js:145-151 | With schema-conforming value-maps, `updateValues` keeps both control widgets: their positions, values and options. |
| `Flows.ControlsKeptExactly` | js/index.js:143-151 | `updateValues` keeps both control widgets' positions and options. It keeps both selections exactly when each control's entry in the applied value-map, if any, equals the value already shown. |
| `Flows.UpdateValuesWrites` | js/index.js:134-152 | After `updateValues`, the first widget named by each entry holds that entry's value. Widgets not named in the map are unchanged, and no name or option list changes. |
| `Flows.CheckpointSwitchRepopulates` | js/index.js:219-225 | Switching checkpoint makes the option list exactly the labels stored for the new checkpoint. The first of them, or `"NO_KEY"`, is selected. |
| `Flows.KeyWithoutPresetAppliesDefaults` | js/index.js:227-236 | Selecting a label with no stored value-map writes the defaults into the widgets. For a falsy choice the label looked up is `"NO_KEY"`. |
| `Flows.FalsyKeySelectsSentinel` | js/index.js:231-235 | A falsy choice of key leaves `"NO_KEY"` selected and the options unchanged. |
| `Flows.AddSelectsNewLabel` | js/index.js:248-253 | After the save reply, the options are the reply's labels for the checkpoint and the new label is selected. It is among the options when the server stored it. |
| `Flows.ApplySnapshot` | js/index.js:110-117 | Writing a snapshot into widgets with the same names gives back the same snapshot. |
| `Flows.SaveRoundTrip` | js/index.js:243-253 | Suppose the server files the posted snapshot under the new label and the checkpoint is unchanged. Then the node's snapshot after the reply equals the one posted. |
| `Flows.RemoveGuard` | js/index.js:263-265 | The request is issued exactly when some option equals the selected key. The `length > 0` test adds nothing. |
| `Flows.ClampSelects` | js/index.js:270-271 | The remembered position is selected if it still exists, else the last label, else `"NO_KEY"`. The result is always an option when options remain. |
| `Flows.RemoveRepopulates` | js/index.js:268-272 | After the remove reply, the options are the reply's labels for the checkpoint and the selection is the clamped one. |
| `Flows.RemoveLastLabel` | js/index.js:268-272 | Deleting the only label leaves the option list empty and `"NO_KEY"` selected. |
| `Flows.RemoveSelectsNeighbour` | js/index.js:263-272 | Suppose the server drops just the removed label and keeps the order. Then the label after it is selected, or the one before it when it was last, or `"NO_KEY"`. |
| `ModelDb.Plugin.constructor` | js/index.js:186-188 | The plugin starts from the fetched defaults and store. |

## Left out

- The HTTP calls `getDefaultValues`, `getData`, `setData` and `removeData` (js/index.js:25-83) are network I/O. Their results are the `data` and `defaults` parameters. A request that fails never reaches the reply methods, so it leaves the state unchanged.
- The `setup` chain (js/index.js:183-191), `isInitialized`, and the wiring in `nodeCreated` (js/index.js:192-217) are host lifecycle code. They cover adding the two buttons and attaching the callbacks. The constructor takes the fetched defaults and store, and nodeCreated's `updateNode` call is `UpdateNode`.
- The buttons get their handlers at js/index.js:209-210 whatever widgets the node has, so `AddClicked`, `AddReplied`, `RemoveReplied`, `RemoveClicked` and `CkptChanged` take any widget list and stop where the source throws. The key callback is attached at js/index.js:213 only after line 212 has used `ckpt_name` and line 213 `key`, so `ModelDb.Plugin.KeyChanged` requires both widgets. Nothing in the model adds or removes widgets after creation, so looking a widget up by name at reply time finds the one the source captured at js/index.js:201-207.
- `getConfig` (js/index.js:176-179) is unused and reads host metadata.
- The clock (`new Date()`) is the `Clock` parameter.
- `util.copy` is taken to return an equal value. Values are immutable here, so the copy's separate identity is not modelled.
- `DEBUG` logging and `console.error` are output only.
- Races between overlapping saves and removes are not modelled: they depend on the server's ordering. What the model does keep is that the add handler uses the checkpoint read at click time, while `updateValues` reads the widget again at reply time. Both are inputs.
- JavaScript's property-name coercion is not modelled. A widget value that is not a string names no checkpoint and no label here, whereas JavaScript would turn `5` into `"5"`.
- Properties inherited from `Object.prototype` (`constructor`, `__proto__`) are treated as absent from `db`.
- `Object.keys` lists integer-like names first. The model takes a table's label order as given and does not derive it from insertion order.
- Every entry of the store is assumed to be an object: each checkpoint holds a table, and each label a value-map. That makes `db[ckpt] ?` and `db[ckpt]?.[key] ||` take the stored entry whenever one is present. A `null` or other falsy entry filed by the server is not representable.
- Widget values are scalars: numbers are `real`. NaN, infinities, arrays and objects are not representable.
- Widgets are values in their node's list, so sharing a widget object between nodes is not modelled. `UpdateNodes` requires the graph to list each node once.
- The order in which `Object.entries` visits a value-map is not fixed by the model (the loop picks any remaining key). The result does not depend on it.
