/**
 * End-to-end scenarios of the text provider, each stated as the values a
 * user would observe: what a view shows after an edit, an undo, a second
 * view's edit, a recovery from backup, and a save and reopen.
 */
module Scenarios {
  import opened Host
  import opened Sync
  import opened EditorRegistry
  import opened AbcEditor

  /** The document `x` on disk. */
  function DocX(): Uri
  {
    Uri("file", "/x", "/x", "file:///x")
  }

  /** A fresh text provider, with no backups, on which `x` (which reads `text`) is opened in one view `a`. */
  method OpenX(text: string) returns (p: AbcEditorProvider, a: EditorId)
    ensures fresh(p) && p.Valid()
    ensures p.models.Keys == {Key(DocX())} && fresh(p.models[Key(DocX())])
    ensures p.models[Key(DocX())].initialValue == text && p.models[Key(DocX())].edits == []
    ensures p.editors == map[Key(DocX()) := [a]] && p.disposed == {}
    ensures p.backups == map[] && p.posts == [Post(a, text)]
  {
    p := new AbcEditorProvider(map[]);
    var r := p.ResolveWebviewEditor(DocX(), Some(text));
    a := r.value;
    assert [] + [a] == [a];
  }

  /**
   * Open `x` (which reads "single undo, init"), edit it in its only view to
   * "undo test", then undo from the host: the edit sets the content to the
   * new value and posts nothing (the only view is the one that edited); the
   * undo restores the loaded value and posts it to that view.
   */
  method EditThenUndo() returns (afterEdit: string, afterUndo: string, posts: seq<Post<string>>)
    ensures afterEdit == "undo test" && afterUndo == "single undo, init"
    ensures |posts| == 2 && posts[1] == posts[0] && posts[0].content == "single undo, init"
  {
    var p, a := OpenX("single undo, init");
    var o := p.ReceiveEdit(a, "undo test");
    assert [a][..0] == [];
    assert Broadcast([a], Some(a), {}, "undo test") == [];
    afterEdit := p.ContentAt(Key(DocX()));
    o := p.UndoEdits(DocX(), [Edit("undo test")]);
    assert p.models[Key(DocX())].edits == [];
    afterUndo := p.ContentAt(Key(DocX()));
    assert Broadcast([a], None, {}, "single undo, init") == [Post(a, "single undo, init")];
    posts := p.posts;
  }

  /**
   * Two views A and B on `x`; A edits to "xyz". The edit posts "xyz" to B
   * and nothing to A, which keeps what it was sent when it opened.
   */
  method TwoViews() returns (a: EditorId, b: EditorId, sent: seq<Post<string>>)
    ensures a != b && sent == [Post(b, "xyz")]
  {
    var p;
    p, a := OpenX("abc");
    var rb := p.ResolveWebviewEditor(DocX(), None);
    b := rb.value;
    assert p.editors[Key(DocX())] == [a, b];
    var before := p.posts;
    var o := p.ReceiveEdit(a, "xyz");
    assert [a, b][..1] == [a] && [a][..0] == [];
    assert Broadcast([a], Some(a), {}, "xyz") == [];
    assert Broadcast([a, b], Some(a), {}, "xyz") == [Post(b, "xyz")];
    sent := p.posts[|before|..];
  }

  /** What a fresh provider, whose backup directory holds `backups`, shows when `x` (which reads `diskText`) is opened. */
  method OpenFresh(backups: map<string, string>, diskText: string) returns (shown: string)
    ensures shown == if BackupName(DocX()) in backups then backups[BackupName(DocX())] else diskText
  {
    var p := new AbcEditorProvider(backups);
    var r := p.ResolveWebviewEditor(DocX(), Some(diskText));
    shown := p.ContentAt(Key(DocX()));
  }

  /** A backup of `x` holding "recovered" wins over the disk's "disk" when `x` is opened. */
  method RecoverFromBackup() returns (shown: string)
    ensures shown == "recovered"
  {
    shown := OpenFresh(map[BackupName(DocX()) := "recovered"], "disk");
  }

  /**
   * Back `x` up while it still reads "original", edit it, then save it: the
   * write goes to `x` itself and holds the edited content, and the stale
   * backup is gone, so reopening `x` in a fresh provider shows what was
   * saved rather than the backed-up "original".
   */
  method SaveThenReopen() returns (target: SaveTarget, saved: string, reopened: string, backupLeft: bool)
    ensures target == ToResource(DocX()) && saved == "edited"
    ensures reopened == saved && !backupLeft
  {
    var p, a := OpenX("original");
    var ok := p.Backup(DocX());
    assert p.backups[BackupName(DocX())] == "original";
    var o := p.ReceiveEdit(a, "edited");
    assert p.ContentAt(Key(DocX())) == "edited";
    o := p.Save(DocX(), "/root");
    target := p.writes[|p.writes| - 1].target;
    saved := p.writes[|p.writes| - 1].content;
    backupLeft := BackupName(DocX()) in p.backups;
    reopened := OpenFresh(p.backups, saved);
  }
}
