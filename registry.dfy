/**
 * The bookkeeping both document kinds share (src/abcEditor.ts and
 * src/binaryEditor.ts): a model per resource key, the set of editors open
 * on each resource, and what each editor's closures captured when it was
 * resolved. The facts here are over the values of the providers' fields,
 * so that each provider method only has to establish them for its new
 * field values. `M` is the document kind's model class.
 */
module EditorRegistry {
  import opened Host
  import opened InsertionSet

  type EditorId = nat

  /** What the closures of resolveWebviewEditor capture for one editor: its resource and its model. */
  datatype Binding<M> = Binding(resource: Uri, model: M)

  /** Every resource with a model has an editor set and vice versa. */
  ghost predicate KeysAgree<M>(models: map<string, M>, editors: map<string, seq<EditorId>>)
  {
    models.Keys == editors.Keys
  }

  /** No two resources share a model. */
  ghost predicate ModelsDistinct<M>(models: map<string, M>)
  {
    forall k1, k2 :: k1 in models && k2 in models && models[k1] == models[k2] ==> k1 == k2
  }

  /** Every editor set is non-empty and holds each editor once. */
  ghost predicate SetsWellFormed(editors: map<string, seq<EditorId>>)
  {
    forall k :: k in editors ==> editors[k] != [] && NoDup(editors[k])
  }

  /** The editors listed for a resource are live editors of that resource, bound to its model. */
  ghost predicate ListedAreLive<M>(models: map<string, M>, editors: map<string, seq<EditorId>>,
                                bindings: map<EditorId, Binding<M>>, disposed: set<EditorId>)
  {
    forall k, e :: k in editors && e in editors[k] ==>
      && e in bindings && e !in disposed
      && Key(bindings[e].resource) == k && k in models && bindings[e].model == models[k]
  }

  /** Every live editor is listed under its resource. */
  ghost predicate LiveAreListed<M>(editors: map<string, seq<EditorId>>, bindings: map<EditorId, Binding<M>>, disposed: set<EditorId>)
  {
    forall e :: e in bindings && e !in disposed ==>
      Key(bindings[e].resource) in editors && e in editors[Key(bindings[e].resource)]
  }

  /** Every editor handed out is numbered below the counter; the disposed and the active ones were handed out, and the active one is live. */
  ghost predicate IdsAllocated<M>(bindings: map<EditorId, Binding<M>>, disposed: set<EditorId>,
                               nextEditor: EditorId, activeEditor: Option<EditorId>)
  {
    && (forall e :: e in bindings ==> e < nextEditor)
    && disposed <= bindings.Keys
    && (activeEditor.Some? ==> activeEditor.value in bindings && activeEditor.value !in disposed)
  }

  /**
   * The provider's bookkeeping, over the values of its fields: a model is
   * registered exactly for the resources that have editors, no two
   * resources share a model, the editors listed for a resource are, without
   * repetition, the live editors of that resource, each bound to the
   * resource's model, and the active editor, if any, is live.
   */
  ghost predicate Registry<M>(models: map<string, M>, editors: map<string, seq<EditorId>>,
                           bindings: map<EditorId, Binding<M>>, disposed: set<EditorId>,
                           nextEditor: EditorId, activeEditor: Option<EditorId>)
  {
    && KeysAgree(models, editors)
    && ModelsDistinct(models)
    && SetsWellFormed(editors)
    && ListedAreLive(models, editors, bindings, disposed)
    && LiveAreListed(editors, bindings, disposed)
    && IdsAllocated(bindings, disposed, nextEditor, activeEditor)
  }

  /** Registering a model not yet used by any resource keeps models distinct. */
  lemma RegisterKeepsDistinct<M>(models: map<string, M>, key: string, model: M)
    requires ModelsDistinct(models) && key !in models && model !in models.Values
    ensures ModelsDistinct(models[key := model])
  {
  }

  /** Appending an editor not yet in a resource's set keeps every set well formed. */
  lemma AppendKeepsSets(editors: map<string, seq<EditorId>>, key: string, id: EditorId)
    requires SetsWellFormed(editors)
    requires key in editors ==> id !in editors[key]
    ensures SetsWellFormed(editors[key := (if key in editors then editors[key] else []) + [id]])
  {
    var entry := if key in editors then editors[key] else [];
    assert NoDup(entry + [id]);
  }

  /**
   * resolveWebviewEditor keeps the bookkeeping: the new editor, bound to the
   * resource's existing model or to a model just registered for it, goes
   * last in the resource's editor set and becomes the active editor.
   */
  lemma RegisterKeepsRegistry<M>(models: map<string, M>, editors: map<string, seq<EditorId>>,
                              bindings: map<EditorId, Binding<M>>, disposed: set<EditorId>,
                              nextEditor: EditorId, activeEditor: Option<EditorId>,
                              resource: Uri, model: M, models': map<string, M>)
    requires Registry(models, editors, bindings, disposed, nextEditor, activeEditor)
    requires Key(resource) in models ==> models' == models && model == models[Key(resource)]
    requires Key(resource) !in models ==> models' == models[Key(resource) := model] && model !in models.Values
    ensures nextEditor !in bindings
    ensures Key(resource) in editors ==> nextEditor !in editors[Key(resource)]
    ensures var key := Key(resource);
            Registry(models',
                     editors[key := (if key in editors then editors[key] else []) + [nextEditor]],
                     bindings[nextEditor := Binding(resource, model)], disposed, nextEditor + 1, Some(nextEditor))
  {
    var key, id := Key(resource), nextEditor;
    var entry := if key in editors then editors[key] else [];
    var editors' := editors[key := entry + [id]];
    var bindings' := bindings[id := Binding(resource, model)];
    assert key in editors ==> id !in editors[key];
    AppendKeepsSets(editors, key, id);
    if key !in models {
      RegisterKeepsDistinct(models, key, model);
    }
    ListedAfterRegister(models, editors, bindings, disposed, id, resource, model, models');
    LiveAfterRegister(editors, bindings, disposed, id, resource, model);
  }

  lemma ListedAfterRegister<M>(models: map<string, M>, editors: map<string, seq<EditorId>>,
                            bindings: map<EditorId, Binding<M>>, disposed: set<EditorId>, id: EditorId,
                            resource: Uri, model: M, models': map<string, M>)
    requires ListedAreLive(models, editors, bindings, disposed) && KeysAgree(models, editors)
    requires id !in bindings && id !in disposed
    requires Key(resource) in models ==> models' == models && model == models[Key(resource)]
    requires Key(resource) !in models ==> models' == models[Key(resource) := model]
    ensures var key := Key(resource);
            ListedAreLive(models', editors[key := (if key in editors then editors[key] else []) + [id]],
                          bindings[id := Binding(resource, model)], disposed)
  {
    var key := Key(resource);
    var entry := if key in editors then editors[key] else [];
    var editors' := editors[key := entry + [id]];
    var bindings' := bindings[id := Binding(resource, model)];
    forall k, e | k in editors' && e in editors'[k]
      ensures && e in bindings' && e !in disposed
              && Key(bindings'[e].resource) == k && k in models' && bindings'[e].model == models'[k]
    {
      if k == key && e != id {
        assert e in entry;
      }
    }
  }

  lemma LiveAfterRegister<M>(editors: map<string, seq<EditorId>>, bindings: map<EditorId, Binding<M>>,
                          disposed: set<EditorId>, id: EditorId, resource: Uri, model: M)
    requires LiveAreListed(editors, bindings, disposed)
    ensures var key := Key(resource);
            LiveAreListed(editors[key := (if key in editors then editors[key] else []) + [id]],
                          bindings[id := Binding(resource, model)], disposed)
  {
    var key := Key(resource);
    var entry := if key in editors then editors[key] else [];
    var editors' := editors[key := entry + [id]];
    var bindings' := bindings[id := Binding(resource, model)];
    forall e | e in bindings' && e !in disposed
      ensures Key(bindings'[e].resource) in editors' && e in editors'[Key(bindings'[e].resource)]
    {
      if e != id && Key(bindings[e].resource) == key {
        assert e in entry;
      }
    }
  }

  /**
   * Disposing a live editor keeps the bookkeeping: it leaves its resource's
   * set, and when the set becomes empty both the set and the model of that
   * resource are dropped; no other resource is touched.
   */
  lemma DisposeKeepsRegistry<M>(models: map<string, M>, editors: map<string, seq<EditorId>>,
                             bindings: map<EditorId, Binding<M>>, disposed: set<EditorId>,
                             nextEditor: EditorId, activeEditor: Option<EditorId>, e: EditorId)
    requires Registry(models, editors, bindings, disposed, nextEditor, activeEditor)
    requires e in bindings && e !in disposed
    ensures Key(bindings[e].resource) in editors
    ensures var key := Key(bindings[e].resource);
            var entry := Delete(editors[key], e);
            && (|entry| == 0 <==> editors[key] == [e])
            && Registry(if |entry| == 0 then models - {key} else models,
                        if |entry| == 0 then editors - {key} else editors[key := entry],
                        bindings, disposed + {e}, nextEditor,
                        if activeEditor == Some(e) then None else activeEditor)
  {
    var key := Key(bindings[e].resource);
    assert e in editors[key];
    DeleteLast(editors[key], e);
    ListedAfterDispose(models, editors, bindings, disposed, e);
    LiveAfterDispose(editors, bindings, disposed, e);
  }

  lemma ListedAfterDispose<M>(models: map<string, M>, editors: map<string, seq<EditorId>>,
                           bindings: map<EditorId, Binding<M>>, disposed: set<EditorId>, e: EditorId)
    requires ListedAreLive(models, editors, bindings, disposed) && SetsWellFormed(editors)
    requires e in bindings && Key(bindings[e].resource) in editors
    ensures var key := Key(bindings[e].resource);
            var entry := Delete(editors[key], e);
            ListedAreLive(if |entry| == 0 then models - {key} else models,
                          if |entry| == 0 then editors - {key} else editors[key := entry],
                          bindings, disposed + {e})
  {
    var key := Key(bindings[e].resource);
    var entry := Delete(editors[key], e);
    var models' := if |entry| == 0 then models - {key} else models;
    var editors' := if |entry| == 0 then editors - {key} else editors[key := entry];
    forall k, x | k in editors' && x in editors'[k]
      ensures && x in bindings && x !in disposed + {e}
              && Key(bindings[x].resource) == k && k in models' && bindings[x].model == models'[k]
    {
      if k == key {
        assert x in entry && x != e;
      } else {
        assert editors'[k] == editors[k];
      }
      assert x in editors[k];
    }
    assert ListedAreLive(models', editors', bindings, disposed + {e});
  }

  lemma LiveAfterDispose<M>(editors: map<string, seq<EditorId>>, bindings: map<EditorId, Binding<M>>,
                         disposed: set<EditorId>, e: EditorId)
    requires LiveAreListed(editors, bindings, disposed) && SetsWellFormed(editors)
    requires e in bindings && Key(bindings[e].resource) in editors
    ensures var key := Key(bindings[e].resource);
            var entry := Delete(editors[key], e);
            LiveAreListed(if |entry| == 0 then editors - {key} else editors[key := entry], bindings, disposed + {e})
  {
    var key := Key(bindings[e].resource);
    var entry := Delete(editors[key], e);
    var editors' := if |entry| == 0 then editors - {key} else editors[key := entry];
    forall x | x in bindings && x !in disposed + {e}
      ensures Key(bindings[x].resource) in editors' && x in editors'[Key(bindings[x].resource)]
    {
      if Key(bindings[x].resource) == key {
        assert x in entry;
      }
    }
  }
}
