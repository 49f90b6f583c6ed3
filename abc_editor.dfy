/**
 * The text document kind (src/abcEditor.ts): the edit-stack model of one
 * document, and the provider that keeps one model per resource, the set of
 * editors open on it, the active editor and the backup directory.
 *
 * Editors are identified by numbers the provider hands out in order (this
 * stands for allocating a new AbcEditor); what an editor posts to its
 * webview is appended to the provider's `posts` log, and the files that
 * save and saveAs write are appended to `writes`.
 */
module AbcEditor {
  import opened Host
  import opened EditStack
  import opened InsertionSet
  import opened Sync
  import opened EditorRegistry

  /** A text edit carries the document's full new value. */
  datatype Edit = Edit(value: string)

  /** AbcModel.getContent: the value of the last edit, or the initial value when there is none. */
  function ContentOf(initialValue: string, edits: seq<Edit>): (r: string)
    ensures edits == [] ==> r == initialValue
    ensures edits != [] ==> r == edits[|edits| - 1].value
    ensures r == initialValue || exists i :: 0 <= i < |edits| && r == edits[i].value
  {
    if |edits| > 0 then edits[|edits| - 1].value else initialValue
  }

  /** After pushing a non-empty batch, the content is the batch's last value. */
  lemma ContentAfterPush(initialValue: string, edits: seq<Edit>, es: seq<Edit>)
    requires es != []
    ensures ContentOf(initialValue, edits + es) == es[|es| - 1].value
  {
  }

  /**
   * Undoing `k` edits walks back through the earlier values: the content is
   * the value of the edit `k` below the top, or the initial value once the
   * whole history is undone (and stays there however far undo goes).
   */
  lemma {:induction false} UndoWalksBack(initialValue: string, edits: seq<Edit>, k: nat)
    ensures ContentOf(initialValue, PopMany(edits, k))
            == if k < |edits| then edits[|edits| - 1 - k].value else initialValue
  {
    var r := PopMany(edits, k);
    if k < |edits| {
      assert r[|r| - 1] == edits[|edits| - 1 - k];
    }
  }

  /** Pushing a batch and undoing as many edits restores the previous content. */
  lemma {:induction false} PushPopRestoresContent(initialValue: string, edits: seq<Edit>, es: seq<Edit>)
    ensures ContentOf(initialValue, PopMany(edits + es, |es|)) == ContentOf(initialValue, edits)
  {
    PushThenPop(edits, es);
  }

  /**
   * hashPath: the string whose SHA-256 digest names a resource's backup
   * file. File and untitled resources are named by their file-system path,
   * every other resource by its canonical string. The digest is not
   * modelled; this string stands in for it as the key of the backup store.
   */
  function BackupName(resource: Uri): (r: string)
    ensures resource.scheme == "file" || resource.scheme == "untitled" ==> r == resource.fsPath
    ensures resource.scheme != "file" && resource.scheme != "untitled" ==> r == Key(resource)
  {
    if resource.scheme == "file" || resource.scheme == "untitled" then resource.fsPath else resource.text
  }

  /** The edit stack of one text document (AbcModel). */
  class AbcModel {
    const initialValue: string
    var edits: seq<Edit>

    constructor (initialValue: string)
      ensures this.initialValue == initialValue && edits == []
    {
      this.initialValue := initialValue;
      edits := [];
    }

    /**
     * AbcModel.create. An untitled document starts empty; otherwise the
     * backup, when one exists, is read in preference to the resource.
     * `backup` is the backup file's contents when that file exists, and
     * `diskText` the outcome of reading the resource (None: the read throws).
     */
    static method Create(resource: Uri, backup: Option<string>, diskText: Option<string>) returns (r: Option<AbcModel>)
      ensures r.Some? ==> fresh(r.value) && r.value.edits == []
      ensures resource.scheme == "untitled" ==> r.Some? && r.value.initialValue == ""
      ensures resource.scheme != "untitled" && backup.Some? ==> r.Some? && r.value.initialValue == backup.value
      ensures resource.scheme != "untitled" && backup.None? ==>
                (r.Some? <==> diskText.Some?) && (r.Some? ==> r.value.initialValue == diskText.value)
    {
      if resource.scheme == "untitled" {
        var m := new AbcModel("");
        return Some(m);
      }
      var text := if backup.Some? then backup else diskText;
      if text.None? {
        return None;
      }
      var m := new AbcModel(text.value);
      return Some(m);
    }

    /** pushEdits: appends the batch in order; the existing history is kept. */
    method PushEdits(es: seq<Edit>)
      modifies this
      ensures edits == old(edits) + es
    {
      edits := edits + es;
    }

    /** popEdits: one pop per element of `es`; the payloads of `es` are ignored. */
    method PopEdits(es: seq<Edit>)
      modifies this
      ensures edits == PopMany(old(edits), |es|)
    {
      var i := 0;
      while i < |es|
        invariant 0 <= i <= |es|
        invariant edits == old(edits)[..if i <= |old(edits)| then |old(edits)| - i else 0]
      {
        edits := PopOne(edits);
        i := i + 1;
      }
    }
  }

  /** Where a save writes: the resource, or for an untitled document the workspace root joined with its path. */
  datatype SaveTarget = ToResource(uri: Uri) | ToWorkspace(root: string, path: string)

  datatype FileWrite = FileWrite(target: SaveTarget, content: string)

  /** AbcEditorProvider together with the state of the AbcEditors it creates. */
  class AbcEditorProvider {
    var models: map<string, AbcModel>
    var editors: map<string, seq<EditorId>>
    var activeEditor: Option<EditorId>
    var bindings: map<EditorId, Binding<AbcModel>>  // every editor ever resolved
    var disposed: set<EditorId>
    var nextEditor: EditorId
    var posts: seq<Post<string>>  // setValue messages posted to the webviews
    var backups: map<string, string>  // the backup directory, by BackupName
    var writes: seq<FileWrite>  // files written by save and saveAs

    /** The bookkeeping every operation keeps (see Registry). */
    ghost predicate Valid()
      reads this`models, this`editors, this`activeEditor, this`bindings, this`disposed, this`nextEditor
    {
      Registry(models, editors, bindings, disposed, nextEditor, activeEditor)
    }

    /** The editors listed for `key` were bound to the model registered under it (part of Valid). */
    ghost predicate Bound(key: string)
      reads this`models, this`editors, this`bindings
    {
      key in editors ==> key in models && forall e :: e in editors[key] ==> e in bindings && bindings[e].model == models[key]
    }

    /** The current content of the model registered under `key`. */
    function ContentAt(key: string): string
      reads this`models, models.Values
      requires key in models
    {
      ContentOf(models[key].initialValue, models[key].edits)
    }

    /** A provider with no documents open; `backups` is what the backup directory already holds. */
    constructor (backups: map<string, string>)
      ensures Valid()
      ensures models == map[] && editors == map[] && activeEditor == None
      ensures bindings == map[] && disposed == {} && posts == [] && writes == []
      ensures this.backups == backups
    {
      models, editors, activeEditor := map[], map[], None;
      bindings, disposed, nextEditor := map[], {}, 0;
      posts, writes := [], [];
      this.backups := backups;
    }

    /** getModel: the registered model, or the 'no model' error. */
    method GetModel(resource: Uri) returns (r: Result<AbcModel>)
      ensures Key(resource) in models <==> r.Success?
      ensures r.Success? ==> r.value == models[Key(resource)]
      ensures r.Failure? ==> r.error == NoModel
    {
      if Key(resource) !in models {
        return Failure(NoModel);
      }
      return Success(models[Key(resource)]);
    }

    /**
     * loadOrCreateModel: the model registered for the resource, or a new
     * one, created from the backup or the resource and registered under
     * the resource's key; nothing is registered when the read fails.
     */
    method LoadOrCreateModel(resource: Uri, diskText: Option<string>) returns (r: Result<AbcModel>)
      modifies this`models
      ensures Key(resource) in old(models) ==> r == Success(old(models)[Key(resource)]) && models == old(models)
      ensures r.Failure? <==>
                Key(resource) !in old(models) && resource.scheme != "untitled"
                && BackupName(resource) !in backups && diskText.None?
      ensures r.Failure? ==> r.error == ReadFailed && models == old(models)
      ensures Key(resource) !in old(models) && r.Success? ==>
                && fresh(r.value) && r.value.edits == []
                && models == old(models)[Key(resource) := r.value]
                && r.value.initialValue ==
                     if resource.scheme == "untitled" then ""
                     else if BackupName(resource) in backups then backups[BackupName(resource)]
                     else diskText.value
    {
      var key := Key(resource);
      if key in models {
        return Success(models[key]);
      }
      var backup := if BackupName(resource) in backups then Some(backups[BackupName(resource)]) else None;
      var created := AbcModel.Create(resource, backup, diskText);
      if created.None? {
        return Failure(ReadFailed);
      }
      models := models[key := created.value];
      r := Success(created.value);
    }

    /**
     * The rest of resolveWebviewEditor, once the model is loaded: the new
     * editor posts the model's content, becomes the active editor and goes
     * last in the resource's editor set. `models0` is the registry before
     * the model was loaded.
     */
    method RegisterEditor(resource: Uri, model: AbcModel, ghost models0: map<string, AbcModel>) returns (id: EditorId)
      requires Registry(models0, editors, bindings, disposed, nextEditor, activeEditor)
      requires Key(resource) in models0 ==> models == models0 && model == models0[Key(resource)]
      requires Key(resource) !in models0 ==> models == models0[Key(resource) := model] && model !in models0.Values
      modifies this`nextEditor, this`bindings, this`posts, this`activeEditor, this`editors
      ensures Valid()
      ensures id == old(nextEditor) && id !in old(bindings)
      ensures bindings == old(bindings)[id := Binding(resource, model)]
      ensures editors == old(editors)[Key(resource) :=
                (if Key(resource) in old(editors) then old(editors)[Key(resource)] else []) + [id]]
      ensures activeEditor == Some(id)
      ensures posts == old(posts) + [Post(id, ContentOf(model.initialValue, model.edits))]
    {
      RegisterKeepsRegistry(models0, editors, bindings, disposed, nextEditor, activeEditor, resource, model, models);
      var key := Key(resource);
      id := nextEditor;
      var entry := if key in editors then editors[key] else [];
      nextEditor, bindings, activeEditor, editors :=
        nextEditor + 1, bindings[id := Binding(resource, model)], Some(id), editors[key := Add(entry, id)];
      posts := posts + [Post(id, ContentOf(model.initialValue, model.edits))];
    }

    /**
     * resolveWebviewEditor: load or create the resource's model (failing,
     * with nothing registered, when the resource cannot be read), then
     * create the editor, which posts the current content, make it the
     * active editor and add it to the resource's editor set.
     */
    method ResolveWebviewEditor(resource: Uri, diskText: Option<string>) returns (r: Result<EditorId>)
      requires Valid()
      modifies this
      ensures Valid()
      ensures r.Failure? <==>
                Key(resource) !in old(models) && resource.scheme != "untitled"
                && BackupName(resource) !in backups && diskText.None?
      ensures r.Failure? ==> r.error == ReadFailed && unchanged(this)
      ensures r.Success? ==> Key(resource) in models
      ensures Key(resource) in old(models) ==> models == old(models)
      ensures Key(resource) !in old(models) && r.Success? ==>
                && fresh(models[Key(resource)]) && models[Key(resource)].edits == []
                && models == old(models)[Key(resource) := models[Key(resource)]]
                && models[Key(resource)].initialValue ==
                     if resource.scheme == "untitled" then ""
                     else if BackupName(resource) in backups then backups[BackupName(resource)]
                     else diskText.value
      ensures r.Success? ==>
                && r.value !in old(bindings)
                && bindings == old(bindings)[r.value := Binding(resource, models[Key(resource)])]
                && editors == old(editors)[Key(resource) :=
                     (if Key(resource) in old(editors) then old(editors)[Key(resource)] else []) + [r.value]]
                && activeEditor == Some(r.value)
                && posts == old(posts) + [Post(r.value, ContentAt(Key(resource)))]
                && disposed == old(disposed) && backups == old(backups) && writes == old(writes)
    {
      var m := LoadOrCreateModel(resource, diskText);
      if m.Failure? {
        return Failure(m.error);
      }
      var id := RegisterEditor(resource, m.value, old(models));
      r := Success(id);
    }

    /** AbcEditor.update: post the bound model's content, unless the editor is disposed. */
    method UpdateEditor(e: EditorId)
      requires e in bindings
      modifies this`posts
      ensures posts == old(posts) + if e in disposed then []
                else [Post(e, ContentOf(bindings[e].model.initialValue, bindings[e].model.edits))]
    {
      if e in disposed {
        return;
      }
      var m := bindings[e].model;
      posts := posts + [Post(e, ContentOf(m.initialValue, m.edits))];
    }

    /**
     * update(resource, trigger): every editor of the resource except
     * `trigger` posts the content the model has now; throws when the
     * resource has no editor set.
     */
    method Update(resource: Uri, trigger: Option<EditorId>) returns (r: Outcome)
      requires Bound(Key(resource))
      modifies this`posts
      ensures Key(resource) !in editors ==> r == Fail(NoEditors(Key(resource))) && posts == old(posts)
      ensures Key(resource) in editors ==>
                r == Ok && posts == old(posts) + Broadcast(editors[Key(resource)], trigger, disposed, ContentAt(Key(resource)))
    {
      var key := Key(resource);
      if key !in editors {
        return Fail(NoEditors(key));
      }
      var entry := editors[key];
      var content := ContentAt(key);
      var model := models[key];
      assert forall x :: x in entry ==> x in bindings && bindings[x].model == model;
      ghost var start := posts;
      var i := 0;
      while i < |entry|
        invariant 0 <= i <= |entry|
        invariant content == ContentOf(model.initialValue, model.edits)
        invariant posts == start + Broadcast(entry[..i], trigger, disposed, content)
      {
        var e := entry[i];
        ghost var before := posts;
        assert e in bindings && bindings[e].model == model;
        if trigger != Some(e) {
          UpdateEditor(e);
        }
        BroadcastStep(start, before, posts, entry, i, trigger, disposed, content);
        i := i + 1;
      }
      assert entry[..|entry|] == entry;
      return Ok;
    }

    /**
     * The onEdit delegate of editor `e`: push the edit onto the model the
     * editor was bound to, then update every editor of its resource except
     * `e` itself, or every editor when the edit is external.
     */
    method OnEdit(e: EditorId, edit: Edit, external: bool) returns (r: Outcome)
      requires Valid() && e in bindings && e !in disposed
      modifies this`posts, bindings[e].model
      ensures Valid() && r == Ok
      ensures var key := Key(bindings[e].resource);
                && key in models
                && models[key].edits == old(models[key].edits) + [edit]
                && posts == old(posts) + Broadcast(editors[key], if external then None else Some(e), disposed, edit.value)
                && (forall k :: k in models && k != key ==> models[k].edits == old(models[k].edits))
    {
      var b := bindings[e];
      b.model.PushEdits([edit]);
      r := Update(b.resource, if external then None else Some(e));
    }

    /** An 'edit' message from the webview of `e`; a disposed editor no longer listens. */
    method ReceiveEdit(e: EditorId, value: string) returns (r: Outcome)
      requires Valid() && e in bindings
      modifies this`posts, bindings[e].model
      ensures Valid() && r == Ok
      ensures e in disposed ==> posts == old(posts) && unchanged(bindings[e].model)
      ensures e !in disposed ==>
                var key := Key(bindings[e].resource);
                && key in models
                && models[key].edits == old(models[key].edits) + [Edit(value)]
                && posts == old(posts) + Broadcast(editors[key], Some(e), disposed, value)
                && (forall k :: k in models && k != key ==> models[k].edits == old(models[k].edits))
    {
      if e in disposed {
        return Ok;
      }
      r := OnEdit(e, Edit(value), false);
    }

    /**
     * The '_abcEditor.edit' command: an external edit of the active
     * editor's document, shown by every editor of it; nothing happens when
     * no editor is active.
     */
    method ExternalEdit(content: string) returns (r: Outcome)
      requires Valid()
      modifies this`posts, models.Values
      ensures Valid() && r == Ok
      ensures activeEditor.None? ==> posts == old(posts) && forall k :: k in models ==> models[k].edits == old(models[k].edits)
      ensures activeEditor.Some? ==>
                var key := Key(bindings[activeEditor.value].resource);
                && key in models
                && models[key].edits == old(models[key].edits) + [Edit(content)]
                && posts == old(posts) + Broadcast(editors[key], None, disposed, content)
                && (forall k :: k in models && k != key ==> models[k].edits == old(models[k].edits))
    {
      if activeEditor.None? {
        return Ok;
      }
      r := OnEdit(activeEditor.value, Edit(content), true);
    }

    /** applyEdits (redo): push the edits, then update every editor of the resource. */
    method ApplyEdits(resource: Uri, es: seq<Edit>) returns (r: Outcome)
      requires Valid()
      modifies this`posts, models.Values
      ensures Valid()
      ensures Key(resource) !in models ==>
                r == Fail(NoModel) && posts == old(posts) && forall k :: k in models ==> models[k].edits == old(models[k].edits)
      ensures Key(resource) in models ==>
                && r == Ok
                && models[Key(resource)].edits == old(models[Key(resource)].edits) + es
                && posts == old(posts) + Broadcast(editors[Key(resource)], None, disposed, ContentAt(Key(resource)))
                && (forall k :: k in models && k != Key(resource) ==> models[k].edits == old(models[k].edits))
    {
      var m := GetModel(resource);
      if m.Failure? {
        return Fail(m.error);
      }
      m.value.PushEdits(es);
      r := Update(resource, None);
    }

    /** undoEdits: pop one edit per element of `es`, then update every editor of the resource. */
    method UndoEdits(resource: Uri, es: seq<Edit>) returns (r: Outcome)
      requires Valid()
      modifies this`posts, models.Values
      ensures Valid()
      ensures Key(resource) !in models ==>
                r == Fail(NoModel) && posts == old(posts) && forall k :: k in models ==> models[k].edits == old(models[k].edits)
      ensures Key(resource) in models ==>
                && r == Ok
                && models[Key(resource)].edits == PopMany(old(models[Key(resource)].edits), |es|)
                && posts == old(posts) + Broadcast(editors[Key(resource)], None, disposed, ContentAt(Key(resource)))
                && (forall k :: k in models && k != Key(resource) ==> models[k].edits == old(models[k].edits))
    {
      var m := GetModel(resource);
      if m.Failure? {
        return Fail(m.error);
      }
      m.value.PopEdits(es);
      r := Update(resource, None);
    }

    /**
     * save: write the content to the resource (an untitled document to the
     * workspace root joined with its path) and delete the backup. The edit
     * history is kept, so undo still works after a save.
     */
    method Save(resource: Uri, rootPath: string) returns (r: Outcome)
      requires Valid()
      modifies this`writes, this`backups
      ensures Valid()
      ensures Key(resource) !in models ==> r == Fail(NoModel) && writes == old(writes) && backups == old(backups)
      ensures Key(resource) in models ==>
                && r == Ok
                && writes == old(writes) + [FileWrite(
                     if resource.scheme == "untitled" then ToWorkspace(rootPath, resource.path) else ToResource(resource),
                     ContentAt(Key(resource)))]
                && backups == old(backups) - {BackupName(resource)}
    {
      var m := GetModel(resource);
      if m.Failure? {
        return Fail(m.error);
      }
      var target := if resource.scheme == "untitled" then ToWorkspace(rootPath, resource.path) else ToResource(resource);
      writes := writes + [FileWrite(target, ContentOf(m.value.initialValue, m.value.edits))];
      if BackupName(resource) in backups {
        backups := backups - {BackupName(resource)};
      }
      return Ok;
    }

    /** saveAs: write the content to `targetResource` and delete the backup of `resource`. */
    method SaveAs(resource: Uri, targetResource: Uri) returns (r: Outcome)
      requires Valid()
      modifies this`writes, this`backups
      ensures Valid()
      ensures Key(resource) !in models ==> r == Fail(NoModel) && writes == old(writes) && backups == old(backups)
      ensures Key(resource) in models ==>
                && r == Ok
                && writes == old(writes) + [FileWrite(ToResource(targetResource), ContentAt(Key(resource)))]
                && backups == old(backups) - {BackupName(resource)}
    {
      var m := GetModel(resource);
      if m.Failure? {
        return Fail(m.error);
      }
      writes := writes + [FileWrite(ToResource(targetResource), ContentOf(m.value.initialValue, m.value.edits))];
      if BackupName(resource) in backups {
        backups := backups - {BackupName(resource)};
      }
      return Ok;
    }

    /** backup: store the content under the resource's backup name; false, writing nothing, without a model. */
    method Backup(resource: Uri) returns (ok: bool)
      requires Valid()
      modifies this`backups
      ensures Valid()
      ensures ok <==> Key(resource) in models
      ensures ok ==> backups == old(backups)[BackupName(resource) := ContentAt(Key(resource))]
      ensures !ok ==> backups == old(backups)
    {
      if Key(resource) !in models {
        return false;
      }
      var m := models[Key(resource)];
      backups := backups[BackupName(resource) := ContentOf(m.initialValue, m.edits)];
      return true;
    }

    /**
     * AbcEditor.dispose with the cleanup closure of resolveWebviewEditor.
     * A second dispose does nothing. Otherwise the active editor is cleared
     * if it was `e`, `e` leaves its resource's set, and when the set becomes
     * empty both the set and the model of that resource are dropped.
     */
    method Dispose(e: EditorId)
      requires Valid() && e in bindings
      modifies this`disposed, this`activeEditor, this`editors, this`models
      ensures Valid()
      ensures old(e in disposed) ==> unchanged(this)
      ensures old(e !in disposed) ==>
                var key := Key(bindings[e].resource);
                && key in old(editors)
                && disposed == old(disposed) + {e}
                && activeEditor == (if old(activeEditor) == Some(e) then None else old(activeEditor))
                && (old(editors)[key] == [e] ==> editors == old(editors) - {key} && models == old(models) - {key})
                && (old(editors)[key] != [e] ==>
                      editors == old(editors)[key := Delete(old(editors)[key], e)] && models == old(models))
    {
      if e in disposed {
        return;
      }
      DisposeKeepsRegistry(models, editors, bindings, disposed, nextEditor, activeEditor, e);
      disposed := disposed + {e};
      if activeEditor == Some(e) {
        activeEditor := None;
      }
      var key := Key(bindings[e].resource);
      if key !in editors {
        return;
      }
      var entry := Delete(editors[key], e);
      if |entry| == 0 {
        editors := editors - {key};
        models := models - {key};
      } else {
        editors := editors[key := entry];
      }
    }

    /**
     * The view-state listener of editor `e`: it becomes the active editor
     * when its panel is active, and stops being it when its panel is not.
     * A disposed editor's listener is gone.
     */
    method ChangeViewState(e: EditorId, active: bool)
      requires Valid() && e in bindings
      modifies this`activeEditor
      ensures Valid()
      ensures e in disposed ==> activeEditor == old(activeEditor)
      ensures e !in disposed ==>
                activeEditor == if active then Some(e) else if old(activeEditor) == Some(e) then None else old(activeEditor)
    {
      if e in disposed {
        return;
      }
      if activeEditor == Some(e) && !active {
        activeEditor := None;
      }
      if active {
        activeEditor := Some(e);
      }
    }
  }
}
