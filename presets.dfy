/**
 * The in-memory preset store of the Model DB plugin: checkpoint name ->
 * label -> value-map, together with the two lookups the widgets draw on
 * (js/index.js:9-23, 102-108).
 */
module Presets {
  import opened Wrappers

  /** A widget or JSON scalar as the editor holds it. */
  datatype Value = Undefined | Null | Bool(flag: bool) | Num(number: real) | Str(text: string)

  /** A value-map: widget name -> value. */
  type ValueMap = map<string, Value>

  /**
   * The presets of one checkpoint, as a JavaScript object holds them: the
   * labels in the order `Object.keys` enumerates them, and the value-map
   * stored under each label.
   */
  datatype Table = Table(labels: seq<string>, presets: map<string, ValueMap>)

  /** The whole store `db`: checkpoint name -> table. */
  type Store = map<string, Table>

  /** The fixed key list `DEFAULT_KEYS` a snapshot is taken over. */
  const DefaultKeys: seq<string> := [
    "positive", "negative", "seed", "control_after_generate", "steps", "cfg",
    "sampler_name", "scheduler", "denoise", "width", "height"
  ]

  /** The label shown when a checkpoint has no presets. */
  const NoKey: string := "NO_KEY"

  /** The node type the plugin attaches to (`CLASS_NAME`). */
  const ClassName: string := "Model DB"

  predicate Distinct(s: seq<string>) {
    forall i, j :: 0 <= i < j < |s| ==> s[i] != s[j]
  }

  /** An object's own keys are listed once each, and are exactly its properties. */
  predicate TableValid(t: Table) {
    && Distinct(t.labels)
    && (forall l :: l in t.labels ==> l in t.presets)
    && (forall l :: l in t.presets ==> l in t.labels)
  }

  predicate StoreValid(db: Store) {
    forall c :: c in db ==> TableValid(db[c])
  }

  /** JavaScript's `!v` (NaN is not representable here). */
  predicate Falsy(v: Value) {
    v == Undefined || v == Null || v == Bool(false) || v == Num(0.0) || v == Str("")
  }

  /** `db[ckpt]`: a table is an object, hence truthy whenever it is present. */
  function TableOf(db: Store, ckpt: Value): Option<Table> {
    if ckpt.Str? && ckpt.text in db then Some(db[ckpt.text]) else None
  }

  /** `db[ckpt]?.[key]` */
  function Stored(db: Store, ckpt: Value, key: Value): Option<ValueMap> {
    match TableOf(db, ckpt)
    case None => None
    case Some(t) => if key.Str? && key.text in t.presets then Some(t.presets[key.text]) else None
  }

  /** `getKeys(ckpt)`: the labels of the checkpoint, or none. */
  function GetKeys(db: Store, ckpt: Value): (r: seq<string>)
    requires StoreValid(db)
    ensures Distinct(r)
    ensures forall l :: l in r <==> ckpt.Str? && ckpt.text in db && l in db[ckpt.text].presets
    ensures ckpt.Str? && ckpt.text in db ==> r == db[ckpt.text].labels
    ensures !(ckpt.Str? && ckpt.text in db) ==> r == []
  {
    match TableOf(db, ckpt)
    case Some(t) => t.labels
    case None => []
  }

  /**
   * `getValues(ckpt, key)`: the stored value-map, or the defaults when the
   * pair has none. A stored value-map is an object, so `||` never falls
   * through on it.
   */
  function GetValues(db: Store, defaults: ValueMap, ckpt: Value, key: Value): (r: ValueMap)
    ensures ckpt.Str? && ckpt.text in db && key.Str? && key.text in db[ckpt.text].presets
            ==> r == db[ckpt.text].presets[key.text]
    ensures !(ckpt.Str? && ckpt.text in db && key.Str? && key.text in db[ckpt.text].presets)
            ==> r == defaults
  {
    match Stored(db, ckpt, key)
    case Some(vm) => vm
    case None => defaults
  }

  /** A value-map of the fixed schema: no key outside `DEFAULT_KEYS`. */
  predicate Conforming(vm: ValueMap) {
    forall k :: k in vm ==> k in DefaultKeys
  }

  predicate StoreConforming(db: Store) {
    forall c, l :: c in db && l in db[c].presets ==> Conforming(db[c].presets[l])
  }
}
