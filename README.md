# Multi-view custom editors: a Dafny model

This project models the document-editing core of an experimental VS Code
extension that provides two custom editors:

- a **text** editor (`src/abcEditor.ts`);
- a **drawing** editor (`src/binaryEditor.ts`), together with the stroke model that runs inside its webview (`content/binary.js`).

Each document kind has three parts:

- A **model class** with an initial value and a tail-only edit stack.
  - `pushEdits` appends edits.
  - `popEdits` pops once per element of its argument. Undo is clamped at the empty stack.
  - The content is the last edit's payload, or the initial value when there are no edits.
- A **provider**. It keeps two registries keyed by `resource.toString()`:
  - one holds a model per resource;
  - the other holds the set of editors open on each resource.
- **Editors**. An editor posts the model's content to its webview. After an edit, the provider's `update(resource, trigger)` asks every editor of the resource except the triggering one to post again.

The text provider also tracks an active editor and keeps a backup directory. The drawing webview keeps its own list of stroke objects, with undo, redo and listeners.

## How the system is represented

- **Modules.** Each module follows one piece of the program:
  - `Host`: URIs and error outcomes.
  - `EditStack`: the pop loop shared by both models.
  - `InsertionSet`: a JavaScript `Set` as a sequence without repeats, in insertion order.
  - `Sync`: the broadcast of `update`.
  - `EditorRegistry`: the bookkeeping both providers share.
  - `AbcEditor`: the text document kind.
  - `BinaryEditor`: the drawing document kind.
  - `DrawingWebview`: the webview's stroke model and message handler.
  - `Scenarios`: end-to-end scenarios of the text provider.
- **Mutable objects are classes.** The models, the providers and the webview's `Stroke` and `Model` are classes. Their methods change fields named in `modifies` clauses.
  - The registries are `map` fields.
  - Each editor set is a `seq` field without repeats.
  - The pop loop and the broadcast loop are `while` loops, proved against the recursive functions `PopMany` and `Broadcast`.
- **Editors are numbers.** The provider hands editor ids out in order; a new id stands for a new `AbcEditor` or `CatDrawEditor`. Each editor's state is kept in provider fields:
  - `bindings` holds the resource and model its closures captured;
  - `disposed` holds the editors that have been disposed.
- **Messages to webviews are a log.** Every `setValue` message an editor posts is appended to `posts`.
- **Files are inputs or logs.** Reading a resource is an input: `Some(contents)`, or `None` when the read throws. Files written by `save` and `saveAs` are appended to `writes`.
- **Backups are a map.** The text provider's backup directory is the map `backups`. Its key is the string that `hashPath` would hash; the SHA-256 step is not modelled.
- **Errors are values.** The errors the providers throw ('no model', 'No editors found', a failed read) are returned as `Fail`/`Failure` values.
- **The invariant.** `EditorRegistry.Registry` is the provider invariant (`Valid()`). It states that:
  - both registries have the same keys;
  - no two resources share a model;
  - each resource's editor set lists, once each, exactly the live editors of that resource, each bound to the resource's model;
  - the active editor, if any, is live.

## Model

| member | source | states |
|---|---|---|
| EditStack.PopMany | src/abcEditor.ts:222-226 | `n` pops leave the prefix of the stack that is `n` shorter, or the empty stack when `n` exceeds the depth |
| EditStack.PushThenPop | src/abcEditor.ts:218-226 | popping as many edits as were just pushed restores the stack exactly |
| EditStack.PopManyAdditive | src/abcEditor.ts:222-226 | undoing `a` then `b` edits is undoing `a + b` |
| EditStack.PopEmpty | src/abcEditor.ts:222-226 | popping never underflows: an empty stack stays empty |
| InsertionSet.Add | src/abcEditor.ts:88-93 | Set.add: membership gains exactly `x`; a new member goes last, a present one changes nothing; no repeats |
| InsertionSet.Delete | src/abcEditor.ts:70 | Set.delete: membership loses exactly `x`, the others keep their order, the size drops by one when `x` was present |
| InsertionSet.DeleteKeepsOrder | src/abcEditor.ts:70 | deleting the editor at position `i` leaves exactly the editors before it followed by the editors after it, so later broadcasts keep their order |
| InsertionSet.DeleteLast | src/abcEditor.ts:70-74 | after the delete the set is empty exactly when the editor was its only member |
| Sync.Broadcast | src/abcEditor.ts:168-178 | the loop of `update`: at most one post per editor of the set, each carrying the current content and addressed to an editor that is not the trigger and not disposed |
| Sync.BroadcastSendsContent | src/abcEditor.ts:168-178 | one update posts no more messages than the set has editors, and at most one to each editor when the set has no repeats; only the current content, only to editors other than the trigger that are not disposed |
| Sync.DeliveredOnce | src/abcEditor.ts:168-178 | every editor of the set that is neither the trigger nor disposed receives exactly one post; every other editor receives none |
| Sync.BroadcastSnoc | src/abcEditor.ts:173-177 | posts follow the set's iteration order: one more editor adds at most its own post at the end |
| EditorRegistry.RegisterKeepsRegistry | src/abcEditor.ts:77-93 | registering a new editor (last in its resource's set, bound to the existing or a newly registered model, made active) keeps the provider invariant |
| EditorRegistry.DisposeKeepsRegistry | src/abcEditor.ts:60-75 | removing a disposed editor from its set, and dropping both registry entries when the set empties, keeps the provider invariant; the set empties exactly when the editor was alone in it |
| AbcEditor.ContentOf | src/abcEditor.ts:228-230 | getContent: the initial value while the history is empty, else the value of the newest edit; the content is always a value that was loaded or set |
| AbcEditor.BackupName | src/abcEditor.ts:191-192 | the backup key of a file or untitled resource is its file-system path, of any other resource its canonical string |
| AbcEditor.ContentAfterPush | src/abcEditor.ts:218-230 | after pushing a non-empty batch the content is the value of the batch's last edit |
| AbcEditor.UndoWalksBack | src/abcEditor.ts:222-230 | after `k` undos the content is the value `k` edits below the top, or the initial value once the history is used up |
| AbcEditor.PushPopRestoresContent | src/abcEditor.ts:218-230 | pushing a batch and undoing as many edits restores the previous content |
| AbcEditor.AbcModel.Create | src/abcEditor.ts:200-212 | an untitled document starts empty; otherwise a present backup is read in preference to the resource; a failed read yields no model |
| AbcEditor.AbcModel.PushEdits | src/abcEditor.ts:218-220 | the batch is appended in order after the existing history |
| AbcEditor.AbcModel.PopEdits | src/abcEditor.ts:222-226 | the stack becomes `PopMany` of the old stack by the length of `es`; the payloads of `es` are ignored |
| AbcEditor.AbcEditorProvider.GetModel | src/abcEditor.ts:109-115 | the registered model, or the 'no model' error exactly when none is registered |
| AbcEditor.AbcEditorProvider.LoadOrCreateModel | src/abcEditor.ts:96-107 | a registered model is reused and nothing changes; otherwise exactly one fresh model is registered, read from the backup (looked up by BackupName) or the resource; a failed read registers nothing |
| AbcEditor.AbcEditorProvider.RegisterEditor | src/abcEditor.ts:77-93 | the new editor posts the content, becomes active and goes last in the resource's set; the invariant is kept |
| AbcEditor.AbcEditorProvider.ResolveWebviewEditor | src/abcEditor.ts:50-94 | load or create the model, then create, activate and register the editor, which posts the current content; on a failed read nothing changes |
| AbcEditor.AbcEditorProvider.UpdateEditor | src/abcEditor.ts:314-323 | a live editor posts its model's content; a disposed one posts nothing |
| AbcEditor.AbcEditorProvider.Update | src/abcEditor.ts:168-178 | the posts are `Broadcast` of the current content over the resource's set, excluding the trigger; 'No editors found' when the resource has no set |
| AbcEditor.AbcEditorProvider.OnEdit | src/abcEditor.ts:53-57 | the edit is pushed on the editor's model and every other editor of the resource, or every editor for an external edit, is sent the new value; other models are untouched |
| AbcEditor.AbcEditorProvider.ReceiveEdit | src/abcEditor.ts:258-262 | an 'edit' message from a live editor goes through OnEdit excluding that editor; a disposed editor no longer listens |
| AbcEditor.AbcEditorProvider.ExternalEdit | src/abcEditor.ts:40-45 | the '_abcEditor.edit' command does nothing without an active editor, else edits its document and updates every editor of it |
| AbcEditor.AbcEditorProvider.ApplyEdits | src/abcEditor.ts:145-149 | 'no model' for an untracked resource; otherwise push and update every editor |
| AbcEditor.AbcEditorProvider.UndoEdits | src/abcEditor.ts:151-155 | 'no model' for an untracked resource; otherwise pop one edit per element and update every editor |
| AbcEditor.AbcEditorProvider.Save | src/abcEditor.ts:117-130 | 'no model' for an untracked resource; otherwise write the content to the resource (an untitled one to the workspace root joined with its path) and drop its backup; the edit history is kept |
| AbcEditor.AbcEditorProvider.SaveAs | src/abcEditor.ts:132-140 | 'no model' for an untracked resource; otherwise write the content to the target and drop the source's backup |
| AbcEditor.AbcEditorProvider.Backup | src/abcEditor.ts:157-166 | false, writing nothing, without a model; otherwise true and the content is stored under the resource's backup name |
| AbcEditor.AbcEditorProvider.Dispose | src/abcEditor.ts:60-75 | a second dispose does nothing; otherwise the active editor is cleared if it was this one, the editor leaves its set, and an emptied set drops both registry entries of that key only |
| AbcEditor.AbcEditorProvider.ChangeViewState | src/abcEditor.ts:79-86 | an editor whose panel becomes active becomes the active editor, and stops being it when its panel is inactive; a disposed editor's listener is gone |
| BinaryEditor.StrokesOf | src/binaryEditor.ts:142-144 | getStrokes: one point list per edit, in push order |
| BinaryEditor.StrokesAfterPush | src/binaryEditor.ts:128-130 | pushing a batch appends the batch's strokes after the existing ones |
| BinaryEditor.UndoDropsStrokes | src/binaryEditor.ts:132-136 | undoing `k` edits drops exactly the last `k` strokes, all of them when `k` exceeds the depth |
| BinaryEditor.ContentOf | src/binaryEditor.ts:138-140 | getContent: the initial image while the history is empty, else the image of the newest edit; the content is always an image that was loaded or drawn |
| BinaryEditor.ContentAfterPush | src/binaryEditor.ts:138-140 | after pushing a non-empty batch the content is the image of its last edit |
| BinaryEditor.PushPopRestores | src/binaryEditor.ts:128-144 | pushing a batch and undoing as many edits restores both the image and the stroke list |
| BinaryEditor.CatDrawModel.Create | src/binaryEditor.ts:119-122 | the initial image is the resource's contents; a failed read yields no model |
| BinaryEditor.CatDrawModel.PushEdits | src/binaryEditor.ts:128-130 | the batch is appended in order |
| BinaryEditor.CatDrawModel.PopEdits | src/binaryEditor.ts:132-136 | the stack becomes `PopMany` of the old stack by the length of `es`, never underflowing |
| BinaryEditor.CatDrawEditorProvider.GetModel | src/binaryEditor.ts:70-76 | the registered model, or 'no model' exactly when none is registered |
| BinaryEditor.CatDrawEditorProvider.LoadOrCreateModel | src/binaryEditor.ts:59-68 | a registered model is reused; otherwise one fresh model read from the resource is registered; a failed read registers nothing |
| BinaryEditor.CatDrawEditorProvider.RegisterEditor | src/binaryEditor.ts:51-56 | the new editor posts the strokes and goes last in the resource's set; the invariant is kept |
| BinaryEditor.CatDrawEditorProvider.ResolveWebviewEditor | src/binaryEditor.ts:28-57 | load or create the model, then create and register the editor, which posts the current strokes; on a failed read nothing changes |
| BinaryEditor.CatDrawEditorProvider.UpdateEditor | src/binaryEditor.ts:242-251 | a live editor posts its model's strokes; a disposed one posts nothing |
| BinaryEditor.CatDrawEditorProvider.Update | src/binaryEditor.ts:103-113 | the posts are `Broadcast` of the current strokes over the resource's set, excluding the trigger; 'No editors found' when there is no set |
| BinaryEditor.CatDrawEditorProvider.StrokeEdit | src/binaryEditor.ts:174-181 | a 'stroke' message pushes the edit on the editor's model, then updates every other editor of the resource; the originator is never sent it |
| BinaryEditor.CatDrawEditorProvider.ApplyEdits | src/binaryEditor.ts:91-95 | 'no model' for an untracked resource; otherwise push and update every editor |
| BinaryEditor.CatDrawEditorProvider.UndoEdits | src/binaryEditor.ts:97-101 | 'no model' for an untracked resource; otherwise pop one edit per element and update every editor |
| BinaryEditor.CatDrawEditorProvider.Save | src/binaryEditor.ts:78-81 | 'no model' for an untracked resource; otherwise the current image is written to the resource |
| BinaryEditor.CatDrawEditorProvider.SaveAs | src/binaryEditor.ts:83-86 | 'no model' for an untracked resource; otherwise the current image is written to the target |
| BinaryEditor.CatDrawEditorProvider.Dispose | src/binaryEditor.ts:38-49 | a second dispose does nothing; otherwise the editor leaves its set, and an emptied set drops both registry entries of that key only |
| DrawingWebview.Stroke.constructor | content/binary.js:9-12 | a new stroke holds the given points, or none when they are absent |
| DrawingWebview.Stroke.Add | content/binary.js:18-20 | one point is appended |
| DrawingWebview.RedoRestoresUndo | content/binary.js:61-72 | undo followed by redo with the popped stroke's points restores the drawing |
| DrawingWebview.UndoCancelsRedo | content/binary.js:61-72 | redo followed by undo leaves the drawing as it was |
| DrawingWebview.Model.constructor | content/binary.js:24-33 | no strokes, no current stroke, no listeners |
| DrawingWebview.Model.Listen | content/binary.js:35-37 | the listener is added last; nothing is called |
| DrawingWebview.Model.Begin | content/binary.js:39-42 | a fresh empty stroke becomes current and last in the list; the drawing gains an empty stroke; no listener is called |
| DrawingWebview.Model.End | content/binary.js:44-48 | the current stroke is cleared and returned |
| DrawingWebview.Model.Add | content/binary.js:54-59 | nothing happens without a current stroke; otherwise the point is appended to that stroke object, changing the drawing only where the stroke occurs, which is the last stroke when neither undo nor redo ran since begin |
| DrawingWebview.Model.Undo | content/binary.js:61-67 | with no stroke nothing happens and no listener is called; otherwise exactly the last stroke is removed and every listener is called once, in order |
| DrawingWebview.Model.Redo | content/binary.js:69-72 | a fresh stroke with the given points (none when absent) is appended and every listener is called once |
| DrawingWebview.Dispatch | content/binary.js:180-201 | 'undo' and 'redo' go to the model; 'save' is answered with 'save'; no other message changes the strokes or calls listeners |
| Scenarios.EditThenUndo | src/abcEditor.ts:151-155 | with the single-undo test's values: an edit from the only view sets the content to "undo test" and posts nothing; a host undo restores "single undo, init" and posts it to that view |
| Scenarios.TwoViews | src/abcEditor.ts:53-57 | with two views open, an edit in one posts the new value to the other only |
| Scenarios.RecoverFromBackup | src/abcEditor.ts:102-104 | a backup's contents win over the resource's when a document is opened |
| Scenarios.SaveThenReopen | src/abcEditor.ts:117-130 | with a backup taken before the edit, a save writes the edited content to the document itself and deletes the stale backup, so reopening shows the saved content rather than the backed-up one |

## Left out

- Saving an untitled document joins `vscode.workspace.rootPath!` with its path (src/abcEditor.ts:122). With no folder open that throws before anything is written; here `rootPath` is a string parameter, so the save always succeeds.
- The backup directory is `this.context.storagePath!` joined with `backups` (src/abcEditor.ts:186). With no workspace open `storagePath` is undefined and the join throws, so for the text kind opening a new document, `save`, `saveAs` and `backup` all throw; here the `backups` map is always available.
- The `console.log` calls in `backup` and `AbcModel.create` (src/abcEditor.ts:163, 206) are not modelled.
- File-system I/O is not modelled. This covers `fs.existsSync`, `mkdir` of the backup directory, `readFile`, `writeFile` and `unlink`. Reads are inputs to the methods, writes are recorded in `writes`, and the backup directory is the `backups` map.
- AbcEditor.BackupName: the SHA-256 digest of `hashPath` is a foreign cryptographic call. The hashed string stands in for the digest, which makes it injective. Only the choice between `fsPath` and `toString()` is modelled.
- AbcEditor.AbcModel.Create: a backup that exists is always readable here. The source's read of a backup file can itself fail; that failure is not modelled.
- Webview HTML, options, the CSP nonce and `asWebviewUri` are not modelled. The drawing editor's delayed `init` message (`setTimeout` in `setInitialContent`) is not modelled either. The drawing webview never reacts to `setValue`.
- The `_onEdit` events fired to the host's undo stack are not modelled. Command and provider registration, `EventEmitter` and the `Disposable` base class are not part of this model. The test-mode `didChangeContent` forwarding in the text editor is not modelled.
- Asynchronous interleaving is not modelled. Every operation runs to completion before the next starts, so two overlapping `loadOrCreateModel` calls for one resource are not covered.
- The `View` class of `content/binary.js` is not modelled: canvas drawing, JPEG encoding and mouse handling. The script's `ready` message is not modelled. The text webview script `content/abc.js` is not part of this model.
- Coordinates are JavaScript numbers and are modelled as `real`. Floating-point rounding is not modelled.
- `src/extension.ts`, `src/testing.ts`, `src/vscode.proposed.d.ts` and rename handling are not part of this model.
- The stray `s` token after the statement at `src/abcEditor.ts:134` is read as absent. As written, it would refer to an undeclared name.
