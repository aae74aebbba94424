/**
 * A node's widget list and the pure part of keeping it in sync with the
 * preset store: finding widgets by name, taking a snapshot, applying a
 * value-map, and the widget list each handler of js/index.js leaves
 * behind. The imperative methods in module ModelDb are proved against
 * these functions.
 */
module Widgets {
  import opened Wrappers
  import opened Presets

  /** A widget: its name, its current value and its `options.values` list. */
  datatype Widget = Widget(name: string, value: Value, options: seq<string>)

  const CkptName: string := "ckpt_name"
  const KeyName: string := "key"

  function Names(ws: seq<Widget>): (r: seq<string>)
    ensures |r| == |ws|
    ensures forall i :: 0 <= i < |ws| ==> r[i] == ws[i].name
  {
    seq(|ws|, i requires 0 <= i < |ws| => ws[i].name)
  }

  /** The first position at or after `from` that holds `name`. */
  function FindFrom(names: seq<string>, name: string, from: nat): (r: Option<nat>)
    requires from <= |names|
    ensures r.Some? ==> from <= r.value < |names| && names[r.value] == name
    ensures forall j :: from <= j < |names| && (r.None? || j < r.value) ==> names[j] != name
    decreases |names| - from
  {
    if from == |names| then None
    else if names[from] == name then Some(from)
    else FindFrom(names, name, from + 1)
  }

  /** `node.widgets.find(e => e.name === name)`, as a position. */
  function Find(ws: seq<Widget>, name: string): (r: Option<nat>)
    ensures r.Some? ==> r.value < |ws| && ws[r.value].name == name
    ensures r.Some? ==> forall j :: 0 <= j < r.value ==> ws[j].name != name
    ensures r.None? <==> forall j :: 0 <= j < |ws| ==> ws[j].name != name
  {
    FindFrom(Names(ws), name, 0)
  }

  /** `options.indexOf(v)`: strict equality, so only a string can match. */
  function IndexOf(options: seq<string>, v: Value): (r: int)
    ensures -1 <= r < |options|
    ensures r >= 0 <==> v.Str? && v.text in options
    ensures r >= 0 ==> options[r] == v.text && forall j :: 0 <= j < r ==> options[j] != v.text
  {
    if v.Str? then
      match FindFrom(options, v.text, 0)
      case Some(i) => i
      case None => -1
    else -1
  }

  function SetValue(ws: seq<Widget>, i: nat, v: Value): seq<Widget>
    requires i < |ws|
  {
    ws[i := ws[i].(value := v)]
  }

  // ---------------------------------------------------------------------
  // Snapshot (getNodeValues).

  function DefaultOf(defaults: ValueMap, k: string): Value {
    if k in defaults then defaults[k] else Undefined
  }

  /** `w ? w.value : DEFAULT_VALUES[k]` */
  function Pick(ws: seq<Widget>, defaults: ValueMap, k: string): Value {
    match Find(ws, k)
    case Some(i) => ws[i].value
    case None => DefaultOf(defaults, k)
  }

  /** The value-map built by assigning `values[k]` for each `k` of `keys` in turn. */
  function Snapshot(ws: seq<Widget>, defaults: ValueMap, keys: seq<string>): (m: ValueMap)
    ensures forall k :: k in m <==> k in keys
    ensures forall k :: k in m ==> m[k] == Pick(ws, defaults, k)
    decreases |keys|
  {
    if keys == [] then map[]
    else
      var k := keys[|keys| - 1];
      Snapshot(ws, defaults, keys[..|keys| - 1])[k := Pick(ws, defaults, k)]
  }

  /** One more key appended to the list adds one entry. */
  lemma SnapshotStep(ws: seq<Widget>, defaults: ValueMap, keys: seq<string>, i: nat)
    requires i < |keys|
    ensures Snapshot(ws, defaults, keys[..i + 1]) ==
            Snapshot(ws, defaults, keys[..i])[keys[i] := Pick(ws, defaults, keys[i])]
  {
    assert keys[..i + 1][..i] == keys[..i];
  }

  // ---------------------------------------------------------------------
  // Applying a value-map (updateValues' loop).

  /** Every entry `(k, v)` of `vm` written into the first widget named `k`. */
  function Applied(ws: seq<Widget>, vm: ValueMap): (r: seq<Widget>)
    ensures Names(r) == Names(ws)
    ensures forall i :: 0 <= i < |ws| ==> r[i].options == ws[i].options
    ensures forall k :: k in vm && Find(ws, k).Some? ==> r[Find(ws, k).value].value == vm[k]
    ensures forall i :: 0 <= i < |ws| && ws[i].name !in vm ==> r[i] == ws[i]
    ensures forall i :: 0 <= i < |ws| && Find(ws, ws[i].name) != Some(i) ==> r[i] == ws[i]
  {
    seq(|ws|, i requires 0 <= i < |ws| => AppliedAt(ws, vm, i))
  }

  function AppliedAt(ws: seq<Widget>, vm: ValueMap, i: nat): Widget
    requires i < |ws|
  {
    if ws[i].name in vm && Find(ws, ws[i].name) == Some(i) then ws[i].(value := vm[ws[i].name])
    else ws[i]
  }

  function Restrict(vm: ValueMap, ks: set<string>): ValueMap {
    map k | k in ks && k in vm :: vm[k]
  }

  /** Writing one more entry extends the applied map by that entry. */
  lemma ApplyOneMore(ws: seq<Widget>, vm: ValueMap, done: set<string>, k: string)
    requires k in vm
    ensures var prev := Applied(ws, Restrict(vm, done));
      Applied(ws, Restrict(vm, done + {k})) ==
        match Find(prev, k)
        case Some(f) => SetValue(prev, f, vm[k])
        case None => prev
  {
    var r, r' := Restrict(vm, done), Restrict(vm, done + {k});
    var prev, next := Applied(ws, r), Applied(ws, r');
    assert Find(prev, k) == Find(ws, k) by { assert Names(prev) == Names(ws); }
    var want := match Find(ws, k) case Some(f) => SetValue(prev, f, vm[k]) case None => prev;
    forall i | 0 <= i < |ws| ensures next[i] == want[i] {
      assert next[i] == AppliedAt(ws, r', i);
      assert prev[i] == AppliedAt(ws, r, i);
      var n := ws[i].name;
      if n != k {
        assert (n in r' <==> n in r) && (n in r ==> r'[n] == r[n]);
      } else {
        assert n in r' && r'[n] == vm[k];
      }
    }
    assert |next| == |want|;
  }

  // ---------------------------------------------------------------------
  // The two control widgets.

  predicate HasControls(ws: seq<Widget>) {
    Find(ws, CkptName).Some? && Find(ws, KeyName).Some?
  }

  function CkptIndex(ws: seq<Widget>): (i: nat)
    requires HasControls(ws)
    ensures i < |ws| && ws[i].name == CkptName
  {
    Find(ws, CkptName).value
  }

  function KeyIndex(ws: seq<Widget>): (i: nat)
    requires HasControls(ws)
    ensures i < |ws| && ws[i].name == KeyName
  {
    Find(ws, KeyName).value
  }

  function CkptOf(ws: seq<Widget>): Value
    requires HasControls(ws)
  {
    ws[CkptIndex(ws)].value
  }

  function KeyOf(ws: seq<Widget>): Value
    requires HasControls(ws)
  {
    ws[KeyIndex(ws)].value
  }

  function KeyOptions(ws: seq<Widget>): seq<string>
    requires HasControls(ws)
  {
    ws[KeyIndex(ws)].options
  }

  /** Two lists with the same names find the same widgets. */
  lemma SameNames(ws: seq<Widget>, ws': seq<Widget>)
    requires Names(ws) == Names(ws')
    ensures forall name :: Find(ws, name) == Find(ws', name)
    ensures HasControls(ws) ==> HasControls(ws') && CkptIndex(ws) == CkptIndex(ws') && KeyIndex(ws) == KeyIndex(ws')
  {
  }

  /** `keyWidget.options.values = options; keyWidget.value = v`; needs only the key widget. */
  function Select(ws: seq<Widget>, options: seq<string>, v: Value): (r: seq<Widget>)
    requires Find(ws, KeyName).Some?
    ensures Names(r) == Names(ws) && Find(r, KeyName) == Find(ws, KeyName)
    ensures r[Find(ws, KeyName).value].options == options && r[Find(ws, KeyName).value].value == v
    ensures forall i :: 0 <= i < |ws| && i != Find(ws, KeyName).value ==> r[i] == ws[i]
    ensures HasControls(ws) ==> HasControls(r) && KeyIndex(r) == KeyIndex(ws) && CkptIndex(r) == CkptIndex(ws)
    ensures HasControls(ws) ==> KeyOptions(r) == options && KeyOf(r) == v && CkptOf(r) == CkptOf(ws)
  {
    var k := Find(ws, KeyName).value;
    var r := ws[k := ws[k].(options := options, value := v)];
    SameNames(ws, r);
    r
  }

  // ---------------------------------------------------------------------
  // The widget list each operation leaves.

  /** The selection `updateKeys` makes: the first label, or the sentinel. */
  function FirstOrSentinel(options: seq<string>): Value {
    if |options| > 0 then Str(options[0]) else Str(NoKey)
  }

  /** `updateKeys(node)` when both control widgets exist. */
  function KeysUpdated(ws: seq<Widget>, db: Store): (r: seq<Widget>)
    requires HasControls(ws) && StoreValid(db)
    ensures HasControls(r) && Names(r) == Names(ws)
    ensures forall l :: l in KeyOptions(r) <==>
              CkptOf(ws).Str? && CkptOf(ws).text in db && l in db[CkptOf(ws).text].presets
    ensures KeyOptions(r) == GetKeys(db, CkptOf(ws))
    ensures |KeyOptions(r)| > 0 ==> KeyOf(r) == Str(KeyOptions(r)[0])
    ensures KeyOptions(r) == [] ==> KeyOf(r) == Str(NoKey)
    ensures forall i :: 0 <= i < |ws| && i != KeyIndex(ws) ==> r[i] == ws[i]
  {
    var options := GetKeys(db, CkptOf(ws));
    Select(ws, options, FirstOrSentinel(options))
  }

  /** `updateValues(node)` when both control widgets exist. */
  function ValuesUpdated(ws: seq<Widget>, db: Store, defaults: ValueMap): (r: seq<Widget>)
    requires HasControls(ws)
    ensures HasControls(r) && Names(r) == Names(ws)
  {
    var r := Applied(ws, GetValues(db, defaults, CkptOf(ws), KeyOf(ws)));
    SameNames(ws, r);
    r
  }
  /** What `updateValues` leaves whether or not it throws: without both control widgets, the list unchanged. */
  function ValuesTried(ws: seq<Widget>, db: Store, defaults: ValueMap): (r: seq<Widget>)
    ensures Names(r) == Names(ws)
  {
    if HasControls(ws) then ValuesUpdated(ws, db, defaults) else ws
  }


  /**
   * `updateNode(node)`: a missing control widget makes `updateKeys` throw
   * before it changes anything, and `updateValues` is then not reached.
   */
  function NodeUpdated(ws: seq<Widget>, db: Store, defaults: ValueMap): seq<Widget>
    requires StoreValid(db)
  {
    if HasControls(ws) then ValuesUpdated(KeysUpdated(ws, db), db, defaults) else ws
  }

  /** What `updateNodes` leaves on a node: only nodes of the plugin's class are updated. */
  function Refreshed(comfyClass: string, ws: seq<Widget>, db: Store, defaults: ValueMap): seq<Widget>
    requires StoreValid(db)
  {
    if comfyClass == ClassName then NodeUpdated(ws, db, defaults) else ws
  }

  /** The key widget's change callback: a falsy choice becomes the sentinel. */
  function KeyChanged(ws: seq<Widget>, db: Store, defaults: ValueMap, value: Value): seq<Widget>
    requires HasControls(ws)
  {
    var ws1 := if Falsy(value) then Select(ws, KeyOptions(ws), Str(NoKey)) else ws;
    ValuesUpdated(ws1, db, defaults)
  }

  /** What the add button posts: checkpoint, fresh label and snapshot. */
  datatype SaveRequest = SaveRequest(ckpt: Value, key: string, values: ValueMap)

  /** What the remove button posts, and the position it remembers. */
  datatype RemoveRequest = RemoveRequest(ckpt: Value, key: Value, idx: nat)

  /**
   * The add button's reply: the checkpoint's new labels, the new label
   * selected, its values applied. Without a key widget the first widget
   * write throws and the list is unchanged; without a checkpoint widget
   * `updateValues` throws after the key widget was written.
   */
  function AddedWidgets(ws: seq<Widget>, data: Store, defaults: ValueMap, ckpt: Value, key: string): seq<Widget>
    requires StoreValid(data)
  {
    if Find(ws, KeyName).None? then ws
    else ValuesTried(Select(ws, GetKeys(data, ckpt), Str(key)), data, defaults)
  }

  /**
   * The remove button's guard: a request only when the selected key is one
   * of the options. Reading either control widget throws when it is
   * missing, and then no request is made.
   */
  function RemoveClicked(ws: seq<Widget>): (r: Option<RemoveRequest>)
    ensures r.Some? <==> HasControls(ws) && KeyOf(ws).Str? && KeyOf(ws).text in KeyOptions(ws)
    ensures r.Some? ==> r.value.ckpt == CkptOf(ws) && r.value.key == KeyOf(ws)
    ensures r.Some? ==> r.value.idx < |KeyOptions(ws)| && Str(KeyOptions(ws)[r.value.idx]) == KeyOf(ws)
    ensures r.Some? ==> forall j :: 0 <= j < r.value.idx ==> Str(KeyOptions(ws)[j]) != KeyOf(ws)
  {
    if !HasControls(ws) then None
    else
      var options := KeyOptions(ws);
      var key := KeyOf(ws);
      var idx := IndexOf(options, key);
      if |options| > 0 && idx > -1 then Some(RemoveRequest(CkptOf(ws), key, idx)) else None
  }

  /** `idx = Math.min(idx, options.length - 1); idx > -1 ? options[idx] : "NO_KEY"` */
  function Clamp(options: seq<string>, idx: nat): Value {
    var i := if idx < |options| - 1 then idx else |options| - 1;
    if i > -1 then Str(options[i]) else Str(NoKey)
  }

  /**
   * The remove button's reply: new labels, a neighbour selected, its values
   * applied. A missing control widget throws where the add reply's does.
   */
  function RemovedWidgets(ws: seq<Widget>, data: Store, defaults: ValueMap, ckpt: Value, idx: nat): seq<Widget>
    requires StoreValid(data)
  {
    if Find(ws, KeyName).None? then ws
    else
      var options := GetKeys(data, ckpt);
      ValuesTried(Select(ws, options, Clamp(options, idx)), data, defaults)
  }
}
