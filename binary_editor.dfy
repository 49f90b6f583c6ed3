/**
 * The drawing document kind (src/binaryEditor.ts): the edit-stack model of
 * one image, where each edit is a stroke together with the encoded image
 * after it, and the provider that keeps one model per resource and the set
 * of editors open on it.
 *
 * As for the text kind, editors are numbers handed out in order, what an
 * editor posts to its webview (the stroke lists of `setValue`) is appended
 * to `posts`, and the files that save and saveAs write to `writes`.
 */
module BinaryEditor {
  import opened Host
  import opened EditStack
  import opened InsertionSet
  import opened Sync
  import opened EditorRegistry

  /** A stroke edit: the points of the stroke and the full encoded image once it is drawn. */
  datatype Edit = Edit(points: seq<Point>, data: seq<byte>)

  /** What a `setValue` message carries: one point list per stroke. */
  type Strokes = seq<seq<Point>>

  /** CatDrawModel.getContent: the image of the last edit, or the initial image when there is none. */
  function ContentOf(initialValue: seq<byte>, edits: seq<Edit>): (r: seq<byte>)
    ensures edits == [] ==> r == initialValue
    ensures edits != [] ==> r == edits[|edits| - 1].data
    ensures r == initialValue || exists i :: 0 <= i < |edits| && r == edits[i].data
  {
    if |edits| > 0 then edits[|edits| - 1].data else initialValue
  }

  /** CatDrawModel.getStrokes: the point list of every edit, in push order. */
  function StrokesOf(edits: seq<Edit>): (r: Strokes)
    ensures |r| == |edits|
    ensures forall i :: 0 <= i < |edits| ==> r[i] == edits[i].points
  {
    if |edits| == 0 then [] else StrokesOf(edits[..|edits| - 1]) + [edits[|edits| - 1].points]
  }

  /** Pushing a batch appends the batch's strokes after the existing ones. */
  lemma {:induction false} StrokesAfterPush(edits: seq<Edit>, es: seq<Edit>)
    ensures StrokesOf(edits + es) == StrokesOf(edits) + StrokesOf(es)
  {
    var l, r := StrokesOf(edits + es), StrokesOf(edits) + StrokesOf(es);
    assert |l| == |r|;
    forall i | 0 <= i < |l|
      ensures l[i] == r[i]
    {
      if i < |edits| {
        assert (edits + es)[i] == edits[i];
      } else {
        assert (edits + es)[i] == es[i - |edits|];
      }
    }
  }

  /** Undoing `k` edits drops exactly the last `k` strokes (all of them when `k` exceeds the depth). */
  lemma {:induction false} UndoDropsStrokes(edits: seq<Edit>, k: nat)
    ensures StrokesOf(PopMany(edits, k)) == StrokesOf(edits)[..if k <= |edits| then |edits| - k else 0]
  {
    var p := PopMany(edits, k);
    var l, r := StrokesOf(p), StrokesOf(edits)[..|p|];
    forall i | 0 <= i < |l|
      ensures l[i] == r[i]
    {
      assert p[i] == edits[i];
    }
  }

  /** After pushing a non-empty batch, the content is the image of the batch's last edit. */
  lemma ContentAfterPush(initialValue: seq<byte>, edits: seq<Edit>, es: seq<Edit>)
    requires es != []
    ensures ContentOf(initialValue, edits + es) == es[|es| - 1].data
  {
  }

  /** Pushing a batch and undoing as many edits restores both the image and the stroke list. */
  lemma {:induction false} PushPopRestores(initialValue: seq<byte>, edits: seq<Edit>, es: seq<Edit>)
    ensures ContentOf(initialValue, PopMany(edits + es, |es|)) == ContentOf(initialValue, edits)
    ensures StrokesOf(PopMany(edits + es, |es|)) == StrokesOf(edits)
  {
    PushThenPop(edits, es);
  }

  /** The edit stack of one image (CatDrawModel). */
  class CatDrawModel {
    const initialValue: seq<byte>
    var edits: seq<Edit>

    constructor (initialValue: seq<byte>)
      ensures this.initialValue == initialValue && edits == []
    {
      this.initialValue := initialValue;
      edits := [];
    }

    /**
     * CatDrawModel.create: the initial image is the resource's contents.
     * `diskBytes` is the outcome of reading the resource (None: the read throws).
     */
    static method Create(diskBytes: Option<seq<byte>>) returns (r: Option<CatDrawModel>)
      ensures r.Some? <==> diskBytes.Some?
      ensures r.Some? ==> fresh(r.value) && r.value.edits == [] && r.value.initialValue == diskBytes.value
    {
      if diskBytes.None? {
        return None;
      }
      var m := new CatDrawModel(diskBytes.value);
      return Some(m);
    }

    /** pushEdits: appends the batch in order; the existing history is kept. */
    method PushEdits(es: seq<Edit>)
      modifies this
      ensures edits == old(edits) + es
    {
      edits := edits + es;
    }

    /** popEdits: one pop per element of `es`; the payloads of `es` are ignored. */
    method PopEdits(es: seq<Edit>)
      modifies this
      ensures edits == PopMany(old(edits), |es|)
    {
      var i := 0;
      while i < |es|
        invariant 0 <= i <= |es|
        invariant edits == old(edits)[..if i <= |old(edits)| then |old(edits)| - i else 0]
      {
        edits := PopOne(edits);
        i := i + 1;
      }
    }
  }

  /** A file written by save or saveAs. */
  datatype FileWrite = FileWrite(target: Uri, content: seq<byte>)

  /** CatDrawEditorProvider together with the state of the CatDrawEditors it creates. */
  class CatDrawEditorProvider {
    var models: map<string, CatDrawModel>
    var editors: map<string, seq<EditorId>>
    var bindings: map<EditorId, Binding<CatDrawModel>>  // every editor ever resolved
    var disposed: set<EditorId>
    var nextEditor: EditorId
    var posts: seq<Post<Strokes>>  // setValue messages posted to the webviews
    var writes: seq<FileWrite>  // files written by save and saveAs

    /** The bookkeeping every operation keeps (see Registry); this kind has no active editor. */
    ghost predicate Valid()
      reads this`models, this`editors, this`bindings, this`disposed, this`nextEditor
    {
      Registry(models, editors, bindings, disposed, nextEditor, None)
    }

    /** The editors listed for `key` were bound to the model registered under it (part of Valid). */
    ghost predicate Bound(key: string)
      reads this`models, this`editors, this`bindings
    {
      key in editors ==> key in models && forall e :: e in editors[key] ==> e in bindings && bindings[e].model == models[key]
    }

    /** The current stroke list of the model registered under `key`. */
    function StrokesAt(key: string): Strokes
      reads this`models, models.Values
      requires key in models
    {
      StrokesOf(models[key].edits)
    }

    /** The current image of the model registered under `key`. */
    function ContentAt(key: string): seq<byte>
      reads this`models, models.Values
      requires key in models
    {
      ContentOf(models[key].initialValue, models[key].edits)
    }

    /** A provider with no documents open. */
    constructor ()
      ensures Valid()
      ensures models == map[] && editors == map[] && bindings == map[] && disposed == {}
      ensures posts == [] && writes == []
    {
      models, editors := map[], map[];
      bindings, disposed, nextEditor := map[], {}, 0;
      posts, writes := [], [];
    }

    /** getModel: the registered model, or the 'no model' error. */
    method GetModel(resource: Uri) returns (r: Result<CatDrawModel>)
      ensures Key(resource) in models <==> r.Success?
      ensures r.Success? ==> r.value == models[Key(resource)]
      ensures r.Failure? ==> r.error == NoModel
    {
      if Key(resource) !in models {
        return Failure(NoModel);
      }
      return Success(models[Key(resource)]);
    }

    /**
     * loadOrCreateModel: the model registered for the resource, or a new
     * one read from the resource and registered under its key; nothing is
     * registered when the read fails.
     */
    method LoadOrCreateModel(resource: Uri, diskBytes: Option<seq<byte>>) returns (r: Result<CatDrawModel>)
      modifies this`models
      ensures Key(resource) in old(models) ==> r == Success(old(models)[Key(resource)]) && models == old(models)
      ensures r.Failure? <==> Key(resource) !in old(models) && diskBytes.None?
      ensures r.Failure? ==> r.error == ReadFailed && models == old(models)
      ensures Key(resource) !in old(models) && r.Success? ==>
                && fresh(r.value) && r.value.edits == [] && r.value.initialValue == diskBytes.value
                && models == old(models)[Key(resource) := r.value]
    {
      var key := Key(resource);
      if key in models {
        return Success(models[key]);
      }
      var created := CatDrawModel.Create(diskBytes);
      if created.None? {
        return Failure(ReadFailed);
      }
      models := models[key := created.value];
      r := Success(created.value);
    }

    /**
     * The rest of resolveWebviewEditor, once the model is loaded: the new
     * editor posts the model's strokes and goes last in the resource's
     * editor set. `models0` is the registry before the model was loaded.
     */
    method RegisterEditor(resource: Uri, model: CatDrawModel, ghost models0: map<string, CatDrawModel>) returns (id: EditorId)
      requires Registry(models0, editors, bindings, disposed, nextEditor, None)
      requires Key(resource) in models0 ==> models == models0 && model == models0[Key(resource)]
      requires Key(resource) !in models0 ==> models == models0[Key(resource) := model] && model !in models0.Values
      modifies this`nextEditor, this`bindings, this`posts, this`editors
      ensures Valid()
      ensures id == old(nextEditor) && id !in old(bindings)
      ensures bindings == old(bindings)[id := Binding(resource, model)]
      ensures editors == old(editors)[Key(resource) :=
                (if Key(resource) in old(editors) then old(editors)[Key(resource)] else []) + [id]]
      ensures posts == old(posts) + [Post(id, StrokesOf(model.edits))]
    {
      RegisterKeepsRegistry(models0, editors, bindings, disposed, nextEditor, None, resource, model, models);
      var key := Key(resource);
      id := nextEditor;
      var entry := if key in editors then editors[key] else [];
      nextEditor, bindings, editors := nextEditor + 1, bindings[id := Binding(resource, model)], editors[key := Add(entry, id)];
      posts := posts + [Post(id, StrokesOf(model.edits))];
    }

    /**
     * resolveWebviewEditor: load or create the resource's model (failing,
     * with nothing registered, when the resource cannot be read), then
     * create the editor, which posts the current strokes, and add it to the
     * resource's editor set.
     */
    method ResolveWebviewEditor(resource: Uri, diskBytes: Option<seq<byte>>) returns (r: Result<EditorId>)
      requires Valid()
      modifies this
      ensures Valid()
      ensures r.Failure? <==> Key(resource) !in old(models) && diskBytes.None?
      ensures r.Failure? ==> r.error == ReadFailed && unchanged(this)
      ensures r.Success? ==> Key(resource) in models
      ensures Key(resource) in old(models) ==> models == old(models)
      ensures Key(resource) !in old(models) && r.Success? ==>
                && fresh(models[Key(resource)]) && models[Key(resource)].edits == []
                && models[Key(resource)].initialValue == diskBytes.value
                && models == old(models)[Key(resource) := models[Key(resource)]]
      ensures r.Success? ==>
                && r.value !in old(bindings)
                && bindings == old(bindings)[r.value := Binding(resource, models[Key(resource)])]
                && editors == old(editors)[Key(resource) :=
                     (if Key(resource) in old(editors) then old(editors)[Key(resource)] else []) + [r.value]]
                && posts == old(posts) + [Post(r.value, StrokesAt(Key(resource)))]
                && disposed == old(disposed) && writes == old(writes)
    {
      var m := LoadOrCreateModel(resource, diskBytes);
      if m.Failure? {
        return Failure(m.error);
      }
      var id := RegisterEditor(resource, m.value, old(models));
      r := Success(id);
    }

    /** CatDrawEditor.update: post the bound model's strokes, unless the editor is disposed. */
    method UpdateEditor(e: EditorId)
      requires e in bindings
      modifies this`posts
      ensures posts == old(posts) + if e in disposed then [] else [Post(e, StrokesOf(bindings[e].model.edits))]
    {
      if e in disposed {
        return;
      }
      posts := posts + [Post(e, StrokesOf(bindings[e].model.edits))];
    }

    /**
     * update(resource, trigger): every editor of the resource except
     * `trigger` posts the strokes the model has now; throws when the
     * resource has no editor set.
     */
    method Update(resource: Uri, trigger: Option<EditorId>) returns (r: Outcome)
      requires Bound(Key(resource))
      modifies this`posts
      ensures Key(resource) !in editors ==> r == Fail(NoEditors(Key(resource))) && posts == old(posts)
      ensures Key(resource) in editors ==>
                r == Ok && posts == old(posts) + Broadcast(editors[Key(resource)], trigger, disposed, StrokesAt(Key(resource)))
    {
      var key := Key(resource);
      if key !in editors {
        return Fail(NoEditors(key));
      }
      var entry := editors[key];
      var strokes := StrokesAt(key);
      var model := models[key];
      assert forall x :: x in entry ==> x in bindings && bindings[x].model == model;
      ghost var start := posts;
      var i := 0;
      while i < |entry|
        invariant 0 <= i <= |entry|
        invariant strokes == StrokesOf(model.edits)
        invariant posts == start + Broadcast(entry[..i], trigger, disposed, strokes)
      {
        var e := entry[i];
        ghost var before := posts;
        assert e in bindings && bindings[e].model == model;
        if trigger != Some(e) {
          UpdateEditor(e);
        }
        BroadcastStep(start, before, posts, entry, i, trigger, disposed, strokes);
        i := i + 1;
      }
      assert entry[..|entry|] == entry;
      return Ok;
    }

    /**
     * A 'stroke' message from the webview of `e`, handled by the onEdit
     * delegate: push the edit onto the model the editor was bound to, then
     * update every editor of its resource except `e`. The message listener
     * is not disposed with the editor, so a disposed editor still forwards
     * strokes: its model, which may no longer be registered, gets the edit,
     * and the update throws when its resource has no editor set left.
     */
    method StrokeEdit(e: EditorId, edit: Edit) returns (r: Outcome)
      requires Valid() && e in bindings
      modifies this`posts, bindings[e].model
      ensures Valid()
      ensures bindings[e].model.edits == old(bindings[e].model.edits) + [edit]
      ensures forall k :: k in models && models[k] != bindings[e].model ==> models[k].edits == old(models[k].edits)
      ensures e !in disposed ==> Key(bindings[e].resource) in editors && models[Key(bindings[e].resource)] == bindings[e].model
      ensures var key := Key(bindings[e].resource);
              && (key !in editors ==> r == Fail(NoEditors(key)) && posts == old(posts))
              && (key in editors ==> r == Ok && posts == old(posts) + Broadcast(editors[key], Some(e), disposed, StrokesAt(key)))
    {
      var b := bindings[e];
      b.model.PushEdits([edit]);
      r := Update(b.resource, Some(e));
    }

    /** applyEdits (redo): push the edits, then update every editor of the resource. */
    method ApplyEdits(resource: Uri, es: seq<Edit>) returns (r: Outcome)
      requires Valid()
      modifies this`posts, models.Values
      ensures Valid()
      ensures Key(resource) !in models ==>
                r == Fail(NoModel) && posts == old(posts) && forall k :: k in models ==> models[k].edits == old(models[k].edits)
      ensures Key(resource) in models ==>
                && r == Ok
                && models[Key(resource)].edits == old(models[Key(resource)].edits) + es
                && posts == old(posts) + Broadcast(editors[Key(resource)], None, disposed, StrokesAt(Key(resource)))
                && (forall k :: k in models && k != Key(resource) ==> models[k].edits == old(models[k].edits))
    {
      var m := GetModel(resource);
      if m.Failure? {
        return Fail(m.error);
      }
      m.value.PushEdits(es);
      r := Update(resource, None);
    }

    /** undoEdits: pop one edit per element of `es`, then update every editor of the resource. */
    method UndoEdits(resource: Uri, es: seq<Edit>) returns (r: Outcome)
      requires Valid()
      modifies this`posts, models.Values
      ensures Valid()
      ensures Key(resource) !in models ==>
                r == Fail(NoModel) && posts == old(posts) && forall k :: k in models ==> models[k].edits == old(models[k].edits)
      ensures Key(resource) in models ==>
                && r == Ok
                && models[Key(resource)].edits == PopMany(old(models[Key(resource)].edits), |es|)
                && posts == old(posts) + Broadcast(editors[Key(resource)], None, disposed, StrokesAt(Key(resource)))
                && (forall k :: k in models && k != Key(resource) ==> models[k].edits == old(models[k].edits))
    {
      var m := GetModel(resource);
      if m.Failure? {
        return Fail(m.error);
      }
      m.value.PopEdits(es);
      r := Update(resource, None);
    }

    /** save: write the current image to the resource; the edit history is kept. */
    method Save(resource: Uri) returns (r: Outcome)
      modifies this`writes
      ensures Key(resource) !in models ==> r == Fail(NoModel) && writes == old(writes)
      ensures Key(resource) in models ==> r == Ok && writes == old(writes) + [FileWrite(resource, ContentAt(Key(resource)))]
    {
      var m := GetModel(resource);
      if m.Failure? {
        return Fail(m.error);
      }
      writes := writes + [FileWrite(resource, ContentOf(m.value.initialValue, m.value.edits))];
      return Ok;
    }

    /** saveAs: write the current image of `resource` to `targetResource`. */
    method SaveAs(resource: Uri, targetResource: Uri) returns (r: Outcome)
      modifies this`writes
      ensures Key(resource) !in models ==> r == Fail(NoModel) && writes == old(writes)
      ensures Key(resource) in models ==>
                r == Ok && writes == old(writes) + [FileWrite(targetResource, ContentAt(Key(resource)))]
    {
      var m := GetModel(resource);
      if m.Failure? {
        return Fail(m.error);
      }
      writes := writes + [FileWrite(targetResource, ContentOf(m.value.initialValue, m.value.edits))];
      return Ok;
    }

    /**
     * CatDrawEditor.dispose with the cleanup closure of
     * resolveWebviewEditor. A second dispose does nothing. Otherwise `e`
     * leaves its resource's set, and when the set becomes empty both the
     * set and the model of that resource are dropped.
     */
    method Dispose(e: EditorId)
      requires Valid() && e in bindings
      modifies this`disposed, this`editors, this`models
      ensures Valid()
      ensures old(e in disposed) ==> unchanged(this)
      ensures old(e !in disposed) ==>
                var key := Key(bindings[e].resource);
                && key in old(editors)
                && disposed == old(disposed) + {e}
                && (old(editors)[key] == [e] ==> editors == old(editors) - {key} && models == old(models) - {key})
                && (old(editors)[key] != [e] ==>
                      editors == old(editors)[key := Delete(old(editors)[key], e)] && models == old(models))
    {
      if e in disposed {
        return;
      }
      DisposeKeepsRegistry(models, editors, bindings, disposed, nextEditor, None, e);
      disposed := disposed + {e};
      var key := Key(bindings[e].resource);
      if key !in editors {
        return;
      }
      var entry := Delete(editors[key], e);
      if |entry| == 0 {
        editors := editors - {key};
        models := models - {key};
      } else {
        editors := editors[key := entry];
      }
    }
  }
}
