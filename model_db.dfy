/**
 * The plugin's mutable state and its handlers (js/index.js:110-275): the
 * module-level store `db` and `DEFAULT_VALUES` live in a `Plugin`; each
 * graph node is a `Node` whose widget list the methods rewrite. Every
 * method is proved against the matching function of module Widgets.
 */
module ModelDb {
  import opened Wrappers
  import opened Presets
  import opened Timestamp
  import opened Widgets

  class Node {
    var comfyClass: string
    var widgets: seq<Widget>

    constructor (comfyClass: string, widgets: seq<Widget>)
      ensures this.comfyClass == comfyClass && this.widgets == widgets
    {
      this.comfyClass := comfyClass;
      this.widgets := widgets;
    }
  }

  class Plugin {
    var db: Store
    var defaults: ValueMap

    ghost predicate Valid()
      reads this
    {
      StoreValid(db)
    }

    /** The state once the defaults and the store have been fetched. */
    constructor (defaults: ValueMap, db: Store)
      requires StoreValid(db)
      ensures Valid() && this.db == db && this.defaults == defaults
    {
      this.defaults := defaults;
      this.db := db;
    }

    /**
     * `getNodeValues(node)`: one entry per key of `DEFAULT_KEYS`, taken
     * from the first widget of that name, else from the defaults.
     */
    method GetNodeValues(node: Node) returns (values: ValueMap)
      ensures forall k :: k in values <==> k in DefaultKeys
      ensures forall k :: k in values ==>
                values[k] == match Find(node.widgets, k)
                             case Some(i) => node.widgets[i].value
                             case None => DefaultOf(defaults, k)
      ensures values == Snapshot(node.widgets, defaults, DefaultKeys)
    {
      var keys := DefaultKeys;
      values := map[];
      for i := 0 to |keys|
        invariant values == Snapshot(node.widgets, defaults, keys[..i])
      {
        var k := keys[i];
        var w := Find(node.widgets, k);
        SnapshotStep(node.widgets, defaults, keys, i);
        values := values[k := if w.Some? then node.widgets[w.value].value else DefaultOf(defaults, k)];
      }
      assert keys[..|keys|] == keys;
    }

    /** `updateKeys(node)`; `ok` is false when it throws for a missing control widget. */
    method UpdateKeys(node: Node) returns (ok: bool)
      requires Valid()
      modifies node`widgets
      ensures ok == HasControls(old(node.widgets))
      ensures node.widgets == if ok then KeysUpdated(old(node.widgets), db) else old(node.widgets)
    {
      var ckptWidget := Find(node.widgets, CkptName);
      var keyWidget := Find(node.widgets, KeyName);
      ok := ckptWidget.Some? && keyWidget.Some?;
      if !ok {
        return;
      }
      var ckpt := node.widgets[ckptWidget.value].value;
      var options := GetKeys(db, ckpt);
      node.widgets := Select(node.widgets, options, if |options| > 0 then Str(options[0]) else Str(NoKey));
    }

    /**
     * `updateValues(node)`: each entry of `getValues(ckpt, key)` is written
     * into the first widget of that name; `ok` is false when it throws.
     */
    method UpdateValues(node: Node) returns (ok: bool)
      modifies node`widgets
      ensures ok == HasControls(old(node.widgets))
      ensures node.widgets == if ok then ValuesUpdated(old(node.widgets), db, defaults) else old(node.widgets)
    {
      ok := HasControls(node.widgets);
      if !ok {
        return;
      }
      var values := GetValues(db, defaults, CkptOf(node.widgets), KeyOf(node.widgets));
      var todo := values.Keys;
      ghost var done: set<string> := {};
      while todo != {}
        invariant todo !! done && todo + done == values.Keys
        invariant node.widgets == Applied(old(node.widgets), Restrict(values, done))
        decreases todo
      {
        var k :| k in todo;
        ApplyOneMore(old(node.widgets), values, done, k);
        var w := Find(node.widgets, k);
        if w.Some? {
          node.widgets := SetValue(node.widgets, w.value, values[k]);
        }
        todo := todo - {k};
        done := done + {k};
      }
      assert Restrict(values, done) == values;
    }

    /** `updateNode(node)` */
    method UpdateNode(node: Node) returns (ok: bool)
      requires Valid()
      modifies node`widgets
      ensures ok == HasControls(old(node.widgets))
      ensures node.widgets == NodeUpdated(old(node.widgets), db, defaults)
    {
      ok := UpdateKeys(node);
      if ok {
        var done := UpdateValues(node);
      }
    }

    /**
     * `updateNodes()`: every node of the plugin's class is updated; an
     * exception leaves its node unchanged, and other nodes are skipped.
     */
    method UpdateNodes(nodes: seq<Node>)
      requires Valid()
      requires forall i, j :: 0 <= i < j < |nodes| ==> nodes[i] != nodes[j]
      modifies set n | n in nodes
      ensures forall n :: n in nodes ==> n.comfyClass == old(n.comfyClass)
      ensures forall n :: n in nodes ==> n.widgets == Refreshed(n.comfyClass, old(n.widgets), db, defaults)
    {
      for i := 0 to |nodes|
        invariant forall j :: 0 <= j < |nodes| ==> nodes[j].comfyClass == old(nodes[j].comfyClass)
        invariant forall j :: 0 <= j < i ==>
                    nodes[j].widgets == Refreshed(nodes[j].comfyClass, old(nodes[j].widgets), db, defaults)
        invariant forall j :: i <= j < |nodes| ==> nodes[j].widgets == old(nodes[j].widgets)
      {
        if nodes[i].comfyClass != ClassName {
          continue;
        }
        var ok := UpdateNode(nodes[i]);
      }
    }

    /**
     * The checkpoint widget's change callback: `updateKeys` then
     * `updateValues`, the same steps as `updateNode`.
     */
    method CkptChanged(node: Node)
      requires Valid()
      modifies node`widgets
      ensures node.widgets == NodeUpdated(old(node.widgets), db, defaults)
    {
      var ok := UpdateKeys(node);
      ok := UpdateValues(node);
    }

    /** The key widget's change callback, called with the chosen value. */
    method KeyChanged(node: Node, value: Value)
      requires HasControls(node.widgets)
      modifies node`widgets
      ensures node.widgets == Widgets.KeyChanged(old(node.widgets), db, defaults, value)
    {
      if Falsy(value) {
        node.widgets := Select(node.widgets, KeyOptions(node.widgets), Str(NoKey));
      }
      var ok := UpdateValues(node);
    }

    /**
     * The add button before the request: checkpoint, a label from the
     * clock, the snapshot. Reading a missing checkpoint widget throws, and
     * then nothing is posted.
     */
    method AddClicked(node: Node, clock: Clock) returns (req: Option<SaveRequest>)
      ensures req.Some? <==> Find(node.widgets, CkptName).Some?
      ensures req.Some? ==> req.value.ckpt == node.widgets[Find(node.widgets, CkptName).value].value
      ensures req.Some? ==> req.value.key == CurrentKey(clock)
      ensures req.Some? ==> req.value.values == Snapshot(node.widgets, defaults, DefaultKeys)
    {
      var ckptWidget := Find(node.widgets, CkptName);
      if ckptWidget.None? {
        return None;
      }
      var ckpt := node.widgets[ckptWidget.value].value;
      var key := CurrentKey(clock);
      var values := GetNodeValues(node);
      req := Some(SaveRequest(ckpt, key, values));
    }

    /**
     * The add button once the server answers with the new store `data`.
     * `db` is replaced first, so it changes even when a missing widget
     * makes the rest throw.
     */
    method AddReplied(node: Node, ckpt: Value, key: string, data: Store)
      requires StoreValid(data)
      modifies this, node`widgets
      ensures Valid() && db == data && defaults == old(defaults)
      ensures node.widgets == AddedWidgets(old(node.widgets), data, defaults, ckpt, key)
      ensures Find(old(node.widgets), KeyName).None? ==> node.widgets == old(node.widgets)
    {
      db := data;
      var keyWidget := Find(node.widgets, KeyName);
      if keyWidget.None? {
        return;
      }
      node.widgets := Select(node.widgets, GetKeys(db, ckpt), Str(key));
      var ok := UpdateValues(node);
    }

    /** The remove button once the server answers with the new store `data`. */
    method RemoveReplied(node: Node, req: RemoveRequest, data: Store)
      requires StoreValid(data)
      modifies this, node`widgets
      ensures Valid() && db == data && defaults == old(defaults)
      ensures node.widgets == RemovedWidgets(old(node.widgets), data, defaults, req.ckpt, req.idx)
      ensures Find(old(node.widgets), KeyName).None? ==> node.widgets == old(node.widgets)
    {
      db := data;
      var keyWidget := Find(node.widgets, KeyName);
      if keyWidget.None? {
        return;
      }
      var options := GetKeys(db, req.ckpt);
      var idx: int := if req.idx < |options| - 1 then req.idx else |options| - 1;
      node.widgets := Select(node.widgets, options, if idx > -1 then Str(options[idx]) else Str(NoKey));
      var ok := UpdateValues(node);
    }
  }
}
