/**
 * What the handlers of js/index.js promise a user, stated over the widget
 * lists of module Widgets that the methods of module ModelDb are proved
 * to produce.
 */
module Flows {
  import opened Presets
  import opened Widgets

  /** The fixed schema names neither control widget. */
  lemma ConformingSparesControls(vm: ValueMap)
    requires Conforming(vm)
    ensures CkptName !in vm && KeyName !in vm
  {
  }

  /** With schema-conforming value-maps, `updateValues` leaves both control widgets alone. */
  lemma ValuesSpareControls(ws: seq<Widget>, db: Store, defaults: ValueMap)
    requires HasControls(ws) && StoreConforming(db) && Conforming(defaults)
    ensures var r := ValuesUpdated(ws, db, defaults);
      && KeyIndex(r) == KeyIndex(ws) && CkptIndex(r) == CkptIndex(ws)
      && KeyOf(r) == KeyOf(ws) && KeyOptions(r) == KeyOptions(ws) && CkptOf(r) == CkptOf(ws)
  {
    var vm := GetValues(db, defaults, CkptOf(ws), KeyOf(ws));
    assert Conforming(vm);
    ConformingSparesControls(vm);
    var r := ValuesUpdated(ws, db, defaults);
    SameNames(ws, r);
  }

  /**
   * Exactly when `updateValues` keeps both selections: each control's entry
   * in the applied value-map, if it has one, equals the value it already
   * shows. Positions and option lists are always kept.
   */
  lemma ControlsKeptExactly(ws: seq<Widget>, db: Store, defaults: ValueMap)
    requires HasControls(ws)
    ensures var vm, r := GetValues(db, defaults, CkptOf(ws), KeyOf(ws)), ValuesUpdated(ws, db, defaults);
      && KeyIndex(r) == KeyIndex(ws) && CkptIndex(r) == CkptIndex(ws)
      && KeyOptions(r) == KeyOptions(ws)
      && (CkptOf(r) == CkptOf(ws) && KeyOf(r) == KeyOf(ws) <==>
          (CkptName in vm ==> vm[CkptName] == CkptOf(ws)) && (KeyName in vm ==> vm[KeyName] == KeyOf(ws)))
  {
    var r := ValuesUpdated(ws, db, defaults);
    SameNames(ws, r);
  }

  /**
   * `updateValues` writes each entry of `getValues(ckpt, key)` into the
   * first widget of its name and changes no other widget value, nor any
   * option list.
   */
  lemma UpdateValuesWrites(ws: seq<Widget>, db: Store, defaults: ValueMap)
    requires HasControls(ws)
    ensures var vm, r := GetValues(db, defaults, CkptOf(ws), KeyOf(ws)), ValuesUpdated(ws, db, defaults);
      && |r| == |ws|
      && (forall k :: k in vm && Find(r, k).Some? ==> r[Find(r, k).value].value == vm[k])
      && (forall i :: 0 <= i < |ws| && ws[i].name !in vm ==> r[i] == ws[i])
      && (forall i :: 0 <= i < |ws| ==> r[i].name == ws[i].name && r[i].options == ws[i].options)
  {
    var r := ValuesUpdated(ws, db, defaults);
    SameNames(ws, r);
    assert Names(r) == Names(ws);
  }

  /**
   * Switching checkpoint repopulates the label list with exactly the
   * labels stored for the new checkpoint, and selects the first of them
   * or the sentinel.
   */
  lemma CheckpointSwitchRepopulates(ws: seq<Widget>, db: Store, defaults: ValueMap)
    requires HasControls(ws) && StoreValid(db) && StoreConforming(db) && Conforming(defaults)
    ensures var r, ckpt := NodeUpdated(ws, db, defaults), CkptOf(ws);
      && HasControls(r)
      && KeyOptions(r) == GetKeys(db, ckpt)
      && (forall l :: l in KeyOptions(r) <==> ckpt.Str? && ckpt.text in db && l in db[ckpt.text].presets)
      && KeyOf(r) == FirstOrSentinel(KeyOptions(r))
  {
    var ws1 := KeysUpdated(ws, db);
    ValuesSpareControls(ws1, db, defaults);
    SameNames(ws, ws1);
  }

  /**
   * A key with no stored preset applies the defaults. For a falsy choice
   * the key looked up is the sentinel that replaces it.
   */
  lemma KeyWithoutPresetAppliesDefaults(ws: seq<Widget>, db: Store, defaults: ValueMap, value: Value)
    requires HasControls(ws)
    requires Stored(db, CkptOf(ws), if Falsy(value) then Str(NoKey) else KeyOf(ws)).None?
    ensures var r := Widgets.KeyChanged(ws, db, defaults, value);
      forall k :: k in defaults && Find(r, k).Some? ==> r[Find(r, k).value].value == defaults[k]
  {
    var ws1 := if Falsy(value) then Select(ws, KeyOptions(ws), Str(NoKey)) else ws;
    assert GetValues(db, defaults, CkptOf(ws1), KeyOf(ws1)) == defaults;
    var r := Widgets.KeyChanged(ws, db, defaults, value);
    SameNames(ws1, r);
  }

  /** A falsy choice of key selects the sentinel. */
  lemma FalsyKeySelectsSentinel(ws: seq<Widget>, db: Store, defaults: ValueMap, value: Value)
    requires HasControls(ws) && StoreConforming(db) && Conforming(defaults)
    requires Falsy(value)
    ensures var r := Widgets.KeyChanged(ws, db, defaults, value);
      HasControls(r) && KeyOf(r) == Str(NoKey) && KeyOptions(r) == KeyOptions(ws)
  {
    var ws1 := Select(ws, KeyOptions(ws), Str(NoKey));
    ValuesSpareControls(ws1, db, defaults);
  }

  /**
   * After the add reply the label list is the new store's labels and the
   * new label is selected; it is among the options when the server stored it.
   */
  lemma AddSelectsNewLabel(ws: seq<Widget>, data: Store, defaults: ValueMap, ckpt: Value, key: string)
    requires HasControls(ws) && StoreValid(data) && StoreConforming(data) && Conforming(defaults)
    ensures var r := AddedWidgets(ws, data, defaults, ckpt, key);
      && HasControls(r)
      && KeyOptions(r) == GetKeys(data, ckpt)
      && KeyOf(r) == Str(key)
      && (ckpt.Str? && ckpt.text in data && key in data[ckpt.text].presets ==> key in KeyOptions(r))
  {
    ValuesSpareControls(Select(ws, GetKeys(data, ckpt), Str(key)), data, defaults);
  }

  /** Applying a snapshot to a widget list with the same names gives that snapshot back. */
  lemma ApplySnapshot(click: seq<Widget>, ws: seq<Widget>, defaults: ValueMap, keys: seq<string>)
    requires Names(ws) == Names(click)
    ensures var sent := Snapshot(click, defaults, keys);
      Snapshot(Applied(ws, sent), defaults, keys) == sent
  {
    var sent := Snapshot(click, defaults, keys);
    var r := Applied(ws, sent);
    var got := Snapshot(r, defaults, keys);
    SameNames(click, ws);
    SameNames(ws, r);
    forall k | k in keys ensures got[k] == sent[k] {
      assert got[k] == Pick(r, defaults, k);
      assert sent[k] == Pick(click, defaults, k);
      match Find(ws, k)
      case None =>
      case Some(i) =>
        assert r[i].value == sent[k];
    }
    assert got.Keys == sent.Keys;
  }

  /**
   * Save round trip: when the server files the posted snapshot under the
   * new label and the checkpoint widget still shows the checkpoint, the
   * node's snapshot after the reply equals the snapshot that was posted.
   */
  lemma SaveRoundTrip(click: seq<Widget>, reply: seq<Widget>, defaults: ValueMap, data: Store, ckpt: string, key: string)
    requires HasControls(reply) && Names(reply) == Names(click) && StoreValid(data)
    requires CkptOf(reply) == Str(ckpt)
    requires ckpt in data && key in data[ckpt].presets
    requires data[ckpt].presets[key] == Snapshot(click, defaults, DefaultKeys)
    ensures Snapshot(AddedWidgets(reply, data, defaults, Str(ckpt), key), defaults, DefaultKeys)
            == Snapshot(click, defaults, DefaultKeys)
  {
    var ws1 := Select(reply, GetKeys(data, Str(ckpt)), Str(key));
    assert GetValues(data, defaults, CkptOf(ws1), KeyOf(ws1)) == Snapshot(click, defaults, DefaultKeys);
    ApplySnapshot(click, ws1, defaults, DefaultKeys);
  }

  /** The remove request is issued exactly when the selected key is one of the options. */
  lemma RemoveGuard(ws: seq<Widget>)
    requires HasControls(ws)
    ensures RemoveClicked(ws).Some? <==> exists i :: 0 <= i < |KeyOptions(ws)| && KeyOf(ws) == Str(KeyOptions(ws)[i])
  {
    if KeyOf(ws).Str? && KeyOf(ws).text in KeyOptions(ws) {
      var i :| 0 <= i < |KeyOptions(ws)| && KeyOptions(ws)[i] == KeyOf(ws).text;
      assert KeyOf(ws) == Str(KeyOptions(ws)[i]);
    }
  }

  /** The clamped selection: the remembered position if it is still there, else the last label, else the sentinel. */
  lemma ClampSelects(options: seq<string>, idx: nat)
    ensures options == [] ==> Clamp(options, idx) == Str(NoKey)
    ensures idx < |options| ==> Clamp(options, idx) == Str(options[idx])
    ensures 0 < |options| <= idx ==> Clamp(options, idx) == Str(options[|options| - 1])
    ensures options != [] ==> Clamp(options, idx).Str? && Clamp(options, idx).text in options
  {
  }

  /** After the remove reply the label list is the new store's labels, with the clamped selection. */
  lemma RemoveRepopulates(ws: seq<Widget>, data: Store, defaults: ValueMap, ckpt: Value, idx: nat)
    requires HasControls(ws) && StoreValid(data) && StoreConforming(data) && Conforming(defaults)
    ensures var r := RemovedWidgets(ws, data, defaults, ckpt, idx);
      && HasControls(r)
      && KeyOptions(r) == GetKeys(data, ckpt)
      && KeyOf(r) == Clamp(GetKeys(data, ckpt), idx)
  {
    var options := GetKeys(data, ckpt);
    ValuesSpareControls(Select(ws, options, Clamp(options, idx)), data, defaults);
  }

  /** Deleting the only label leaves the list empty and the sentinel selected. */
  lemma RemoveLastLabel(ws: seq<Widget>, data: Store, defaults: ValueMap, ckpt: Value, idx: nat)
    requires HasControls(ws) && StoreValid(data) && StoreConforming(data) && Conforming(defaults)
    requires !(ckpt.Str? && ckpt.text in data) || data[ckpt.text].labels == []
    ensures var r := RemovedWidgets(ws, data, defaults, ckpt, idx);
      KeyOptions(r) == [] && KeyOf(r) == Str(NoKey)
  {
    RemoveRepopulates(ws, data, defaults, ckpt, idx);
  }

  /**
   * When the server drops exactly the removed label and keeps the order of
   * the others, the selection moves to the label after it, or to the one
   * before it when it was last, or to the sentinel when none is left.
   */
  lemma RemoveSelectsNeighbour(ws: seq<Widget>, data: Store, defaults: ValueMap)
    requires HasControls(ws) && StoreValid(data) && StoreConforming(data) && Conforming(defaults)
    requires RemoveClicked(ws).Some?
    requires var req, before := RemoveClicked(ws).value, KeyOptions(ws);
      GetKeys(data, req.ckpt) == before[..req.idx] + before[req.idx + 1..]
    ensures var req, before := RemoveClicked(ws).value, KeyOptions(ws);
      var r := RemovedWidgets(ws, data, defaults, req.ckpt, req.idx);
      KeyOf(r) == if req.idx + 1 < |before| then Str(before[req.idx + 1])
                  else if req.idx > 0 then Str(before[req.idx - 1])
                  else Str(NoKey)
  {
    var req, before := RemoveClicked(ws).value, KeyOptions(ws);
    var now := GetKeys(data, req.ckpt);
    RemoveRepopulates(ws, data, defaults, req.ckpt, req.idx);
    ClampSelects(now, req.idx);
    if req.idx + 1 < |before| {
      assert now[req.idx] == before[req.idx + 1];
    } else if req.idx > 0 {
      assert now[|now| - 1] == before[req.idx - 1];
    }
  }
}
