/** The admin panel of docs/js/admin.js: a bearer token, the selected category
    and file, and `fileCache`, the edit buffers keyed by repository path. Each
    event handler is one method of `AdminPanel`, run to completion; what the
    network and `JSON.parse`/`JSON.stringify` return are parameters. */
module Admin {
  import opened Wrappers
  import opened Text
  import opened Catalog
  import Transport

  const Branch := "main"

  /** `JSON.parse` (does the text parse?) and `JSON.stringify(JSON.parse(t),
      null, 2)` (the pretty-printed form of a text that parses). Both are
      library code outside this model, so the panel is given them. */
  datatype Json = Json(parses: string -> bool, pretty: string -> string)

  /** One entry of `fileCache`: the editor text, the blob sha it was read at
      or last written as, and the last text known to be in the repository. */
  datatype Buffer = Buffer(content: string, sha: string, original: string)

  /** The `modified` flag of a tab and of the editor meta line. */
  predicate IsModified(b: Buffer)
  {
    b.content != b.original
  }

  /** What the contents API returns for a read: base 64 text and blob sha. */
  datatype RemoteFile = RemoteFile(encoded: string, sha: string)

  /** What the contents API returns for a write: the file's new blob sha and
      the sha of the commit. */
  datatype WriteReply = WriteReply(contentSha: string, commitSha: string)

  /** The body of the `PUT` request of a save, with the path it goes to. */
  datatype PutRequest = PutRequest(path: string, message: string, encoded: string, sha: string, branch: string)

  datatype LoadError = RemoteError(message: string) | EncodingError | ParseError

  /** Result of loading a file into the editor. */
  datatype LoadOutcome = Shown(fetched: bool) | LoadFailed(error: LoadError)

  datatype AuthOutcome = NoToken | Connected(login: string) | AuthFailed(message: string)

  datatype FormatOutcome = Formatted | FormatError

  /** The status a save ends with, in the order the handler checks them. */
  datatype SaveOutcome =
    | NoFile
    | NoBuffer
    | InvalidJson
    | NoChanges
    | Committed(shortSha: string)
    | CommitFailed(message: string)

  /** One button of the file tab strip. */
  datatype Tab = Tab(id: string, tabLabel: string, active: bool, modified: bool)

  /** The meta line under the editor, without its size in KB. */
  datatype EditorMeta = EditorMeta(lines: nat, modified: bool)

  /** The buffer a first load creates: the remote text, decoded and
      pretty-printed, as both the editor text and the saved text. */
  function Seed(json: Json, response: Result<RemoteFile>): (r: Result<Buffer>)
    ensures r.Ok? <==> response.Ok? && Transport.DecodeContent(response.value.encoded).Some?
                       && json.parses(Transport.DecodeContent(response.value.encoded).value)
    ensures r.Ok? ==> !IsModified(r.value) && r.value.sha == response.value.sha
    ensures r.Ok? ==> r.value.content == json.pretty(Transport.DecodeContent(response.value.encoded).value)
  {
    match response
    case Err(message) => Err(message)
    case Ok(file) =>
      match Transport.DecodeContent(file.encoded)
      case None => Err("")
      case Some(text) =>
        if !json.parses(text) then Err("")
        else
          var formatted := json.pretty(text);
          Ok(Buffer(formatted, file.sha, formatted))
  }

  /** Why a first load failed. */
  function LoadErrorOf(json: Json, response: Result<RemoteFile>): LoadError
  {
    match response
    case Err(message) => RemoteError(message)
    case Ok(file) =>
      if Transport.DecodeContent(file.encoded).None? then EncodingError else ParseError
  }

  /** The state `selectFile` leaves: the buffers, the editor text, the outcome. */
  datatype Loaded = Loaded(cache: map<string, Buffer>, editor: string, outcome: LoadOutcome)

  /** `selectFile(file)` on the buffers `cache`: a path already buffered is
      shown as it is; otherwise the response to the read is seeded into a new
      buffer, or nothing is buffered and the editor stays empty. */
  function Load(json: Json, cache: map<string, Buffer>, path: string, response: Result<RemoteFile>): (r: Loaded)
    ensures forall p :: p in cache ==> p in r.cache && r.cache[p] == cache[p]
    ensures r.cache.Keys == if r.outcome == Shown(true) then cache.Keys + {path} else cache.Keys
    ensures r.outcome.Shown? <==> path in r.cache
    ensures r.outcome == Shown(false) <==> path in cache
    ensures r.outcome.Shown? ==> r.editor == r.cache[path].content
    ensures r.outcome == Shown(true) ==> Seed(json, response) == Ok(r.cache[path])
    ensures r.outcome.LoadFailed? ==> r.editor == "" && r.outcome.error == LoadErrorOf(json, response)
  {
    if path in cache then
      Loaded(cache, cache[path].content, Shown(false))
    else
      match Seed(json, response)
      case Ok(b) => Loaded(cache[path := b], b.content, Shown(true))
      case Err(_) => Loaded(cache, "", LoadFailed(LoadErrorOf(json, response)))
  }

  /** An edit event: only the editor text of the buffer changes. */
  function Edit(b: Buffer, text: string): (r: Buffer)
    ensures r.content == text && r.sha == b.sha && r.original == b.original
    ensures IsModified(r) <==> text != b.original
  {
    b.(content := text)
  }

  /** The buffer after a successful write: the written buffer text is now the
      saved text (without the newline the write may have appended). */
  function Commit(b: Buffer, newSha: string): (r: Buffer)
    ensures r.content == b.content && r.original == b.content && r.sha == newSha
    ensures !IsModified(r)
  {
    b.(sha := newSha, original := b.content)
  }

  /** The write a save sends for the buffer of `path`: the buffer text with a
      final newline, encoded for transport, conditional on the buffer's sha. */
  function WriteRequest(path: string, b: Buffer): (r: PutRequest)
    ensures r.path == path && r.message == CommitMessage(path) && r.sha == b.sha && r.branch == Branch
  {
    PutRequest(path, CommitMessage(path), Transport.EncodeContent(WithTrailingNewline(b.content)), b.sha, Branch)
  }

  /** Reading back what a save writes gives the buffer text, ending in a newline. */
  lemma WriteRequestDecodes(path: string, b: Buffer)
    ensures Transport.DecodeContent(WriteRequest(path, b).encoded) == Some(WithTrailingNewline(b.content))
  {
    Transport.DecodeEncodeContent(WithTrailingNewline(b.content));
  }

  /** With distinct ids, comparing ids finds exactly the current entry. */
  lemma ActiveById(files: seq<CatalogEntry>, current: Option<CatalogEntry>, k: nat)
    requires k < |files| && (current.Some? ==> current.value in files)
    requires forall i, j :: 0 <= i < j < |files| ==> files[i].id != files[j].id
    ensures (current.Some? && current.value.id == files[k].id) <==> current == Some(files[k])
  {
    if current.Some? && current.value.id == files[k].id {
      var j :| 0 <= j < |files| && files[j] == current.value;
      assert !(j < k) && !(k < j);
    }
  }

  /** The tab of `f`: active when it is the current file, modified when its
      buffer differs from the saved text. */
  function TabFor(f: CatalogEntry, current: Option<CatalogEntry>, cache: map<string, Buffer>): Tab
  {
    Tab(f.id, f.tabLabel, current.Some? && current.value.id == f.id,
        f.path in cache && IsModified(cache[f.path]))
  }

  class AdminPanel {
    const json: Json
    var token: string
    /** `sessionStorage['gh_token']`. */
    var storedToken: string
    var editorShown: bool
    var currentCategory: Category
    var currentFile: Option<CatalogEntry>
    var fileCache: map<string, Buffer>
    /** `$editor.value`, the text area the handlers read. */
    var editor: string
    /** `$btnSave.disabled`. */
    var saveDisabled: bool

    /** Between events: the current file belongs to the current category, the
        editor shows the current file's buffer whenever there is one, and the
        save button is enabled. */
    ghost predicate Valid()
      reads this
    {
      && (currentFile.Some? ==> currentFile.value in Files(currentCategory))
      && (currentFile.Some? && currentFile.value.path in fileCache ==>
            editor == fileCache[currentFile.value.path].content)
      && !saveDisabled
    }

    /** The page as loaded: no token, the research category, nothing loaded. */
    constructor (json: Json, storedToken: string)
      ensures Valid()
      ensures this.json == json && this.storedToken == storedToken
      ensures token == "" && !editorShown && currentCategory == Research
      ensures currentFile == None && fileCache == map[] && editor == ""
    {
      this.json := json;
      this.storedToken := storedToken;
      token := "";
      editorShown := false;
      currentCategory := Research;
      currentFile := None;
      fileCache := map[];
      editor := "";
      saveDisabled := false;
    }

    /** `selectFile(file)`: makes `file` current and shows its buffer, loading
        it first when the path has none. */
    method SelectFile(file: CatalogEntry, response: Result<RemoteFile>) returns (outcome: LoadOutcome)
      requires Valid() && file in Files(currentCategory)
      modifies this
      ensures Valid()
      ensures currentFile == Some(file)
      ensures Loaded(fileCache, editor, outcome) == Load(json, old(fileCache), file.path, response)
      ensures token == old(token) && storedToken == old(storedToken) && editorShown == old(editorShown)
      ensures currentCategory == old(currentCategory)
    {
      currentFile := Some(file);
      editor := "";
      var loaded := Load(json, fileCache, file.path, response);
      fileCache := loaded.cache;
      editor := loaded.editor;
      outcome := loaded.outcome;
    }

    /** `showEditor`: the editor section appears and the first file of the
        current category is opened. */
    method ShowEditor(firstFile: Result<RemoteFile>) returns (outcome: LoadOutcome)
      requires Valid()
      modifies this
      ensures Valid()
      ensures editorShown && currentFile == Some(Files(currentCategory)[0])
      ensures Loaded(fileCache, editor, outcome) == Load(json, old(fileCache), currentFile.value.path, firstFile)
      ensures token == old(token) && storedToken == old(storedToken) && currentCategory == old(currentCategory)
    {
      editorShown := true;
      outcome := SelectFile(Files(currentCategory)[0], firstFile);
    }

    /** The click on the authenticate button: a non-blank token is kept and
        checked against the API; accepted, it is stored for the session and the
        first file of the current category is opened; rejected, it is cleared. */
    method Authenticate(input: string, user: Result<string>, firstFile: Result<RemoteFile>)
      returns (outcome: AuthOutcome)
      requires Valid()
      modifies this
      ensures Valid()
      ensures Trim(input) == [] ==> outcome == NoToken && token == old(token)
      ensures Trim(input) != [] && user.Err? ==> outcome == AuthFailed(user.message) && token == ""
      ensures Trim(input) != [] && user.Ok? ==>
                && outcome == Connected(user.value)
                && token == Trim(input) && storedToken == token && editorShown
                && currentFile == Some(Files(currentCategory)[0])
                && Load(json, old(fileCache), currentFile.value.path, firstFile).cache == fileCache
                && Load(json, old(fileCache), currentFile.value.path, firstFile).editor == editor
      ensures !outcome.Connected? ==>
                && storedToken == old(storedToken) && editorShown == old(editorShown)
                && currentFile == old(currentFile) && fileCache == old(fileCache) && editor == old(editor)
      ensures currentCategory == old(currentCategory)
    {
      var value := Trim(input);
      if value == [] {
        return NoToken;
      }
      token := value;
      match user {
        case Ok(login) =>
          storedToken := token;
          var _ := ShowEditor(firstFile);
          outcome := Connected(login);
        case Err(message) =>
          token := "";
          outcome := AuthFailed(message);
      }
    }

    /** Page start: a token kept in the session is put in the token field and
        the authenticate button is clicked. */
    method RestoreSession(user: Result<string>, firstFile: Result<RemoteFile>) returns (outcome: AuthOutcome)
      requires Valid()
      modifies this
      ensures Valid()
      ensures Trim(old(storedToken)) == [] ==> outcome == NoToken && token == old(token)
      ensures Trim(old(storedToken)) != [] && user.Err? ==> outcome == AuthFailed(user.message) && token == ""
      ensures Trim(old(storedToken)) != [] && user.Ok? ==>
                && outcome == Connected(user.value)
                && token == Trim(old(storedToken)) && storedToken == token && editorShown
                && currentFile == Some(Files(currentCategory)[0])
                && Load(json, old(fileCache), currentFile.value.path, firstFile).cache == fileCache
                && Load(json, old(fileCache), currentFile.value.path, firstFile).editor == editor
      ensures !outcome.Connected? ==>
                && storedToken == old(storedToken) && editorShown == old(editorShown)
                && currentFile == old(currentFile) && fileCache == old(fileCache) && editor == old(editor)
      ensures currentCategory == old(currentCategory)
    {
      if storedToken == [] {
        return NoToken;
      }
      outcome := Authenticate(storedToken, user, firstFile);
    }

    /** A click on the category tab strip: a click on a category tab switches
        to that category and opens its first file; any other click does nothing. */
    method SelectCategory(clicked: Option<Category>, response: Result<RemoteFile>) returns (outcome: Option<LoadOutcome>)
      requires Valid()
      modifies this
      ensures Valid()
      ensures clicked.None? ==> outcome.None? && currentFile == old(currentFile) && fileCache == old(fileCache)
                                && currentCategory == old(currentCategory) && editor == old(editor)
      ensures clicked.Some? ==>
                && currentCategory == clicked.value
                && currentFile == Some(Files(clicked.value)[0])
                && outcome.Some?
                && Loaded(fileCache, editor, outcome.value) == Load(json, old(fileCache), currentFile.value.path, response)
      ensures token == old(token) && storedToken == old(storedToken) && editorShown == old(editorShown)
    {
      if clicked.None? {
        return None;
      }
      currentCategory := clicked.value;
      currentFile := None;
      var loaded := SelectFile(Files(currentCategory)[0], response);
      outcome := Some(loaded);
    }

    /** The buffer of the current file, if there is one. */
    function CurrentBuffer(): (r: Option<Buffer>)
      reads this
      ensures r.Some? <==> currentFile.Some? && currentFile.value.path in fileCache
      ensures r.Some? ==> r.value == fileCache[currentFile.value.path]
    {
      if currentFile.Some? && currentFile.value.path in fileCache then Some(fileCache[currentFile.value.path])
      else None
    }

    /** An input event: the editor holds `text`, and the current file's buffer,
        if any, takes it as its content; nothing else changes. */
    method Input(text: string)
      requires Valid()
      modifies this
      ensures Valid()
      ensures currentFile == old(currentFile) && currentCategory == old(currentCategory) && token == old(token)
      ensures storedToken == old(storedToken) && editorShown == old(editorShown)
      ensures editor == text
      ensures old(CurrentBuffer()).None? ==> fileCache == old(fileCache)
      ensures old(CurrentBuffer()).Some? ==>
                fileCache == old(fileCache)[currentFile.value.path := Edit(old(CurrentBuffer()).value, text)]
    {
      editor := text;
      if currentFile.Some? && currentFile.value.path in fileCache {
        var path := currentFile.value.path;
        fileCache := fileCache[path := Edit(fileCache[path], editor)];
      }
    }

    /** The format button: text that parses is replaced by its pretty-printed
        form, in the editor and in the current buffer; otherwise nothing changes. */
    method Format() returns (outcome: FormatOutcome)
      requires Valid()
      modifies this
      ensures Valid()
      ensures currentFile == old(currentFile) && currentCategory == old(currentCategory) && token == old(token)
      ensures storedToken == old(storedToken) && editorShown == old(editorShown)
      ensures !json.parses(old(editor)) ==> outcome == FormatError && editor == old(editor) && fileCache == old(fileCache)
      ensures json.parses(old(editor)) ==> outcome == Formatted && editor == json.pretty(old(editor))
      ensures json.parses(old(editor)) && old(CurrentBuffer()).Some? ==>
                fileCache == old(fileCache)[currentFile.value.path := Edit(old(CurrentBuffer()).value, editor)]
      ensures old(CurrentBuffer()).None? ==> fileCache == old(fileCache)
    {
      if !json.parses(editor) {
        return FormatError;
      }
      editor := json.pretty(editor);
      if currentFile.Some? && currentFile.value.path in fileCache {
        var path := currentFile.value.path;
        fileCache := fileCache[path := Edit(fileCache[path], editor)];
      }
      outcome := Formatted;
    }

    /** The validate button: reports whether the editor text parses. */
    method Validate() returns (valid: bool)
      ensures valid <==> json.parses(editor)
    {
      valid := json.parses(editor);
    }

    /** The checks the save button makes before writing, in its order: a
        current file, a buffer for it, editor text that parses, a modified
        buffer. The first that fails gives the outcome; `None` lets the write go. */
    function SaveStop(): (r: Option<SaveOutcome>)
      reads this
      ensures currentFile.None? ==> r == Some(NoFile)
      ensures currentFile.Some? && CurrentBuffer().None? ==> r == Some(NoBuffer)
      ensures CurrentBuffer().Some? && !json.parses(editor) ==> r == Some(InvalidJson)
      ensures CurrentBuffer().Some? && json.parses(editor) && !IsModified(CurrentBuffer().value) ==> r == Some(NoChanges)
      ensures r.None? <==> CurrentBuffer().Some? && json.parses(editor) && IsModified(CurrentBuffer().value)
    {
      if currentFile.None? then Some(NoFile)
      else if currentFile.value.path !in fileCache then Some(NoBuffer)
      else if !json.parses(editor) then Some(InvalidJson)
      else if !IsModified(fileCache[currentFile.value.path]) then Some(NoChanges)
      else None
    }

    /** The save button. A write is sent only when no check stops it, and
        only a successful write changes the buffer. */
    method Save(reply: Result<WriteReply>) returns (outcome: SaveOutcome, sent: Option<PutRequest>)
      requires Valid()
      modifies this
      ensures Valid()
      ensures editor == old(editor) && currentFile == old(currentFile) && currentCategory == old(currentCategory)
      ensures token == old(token) && storedToken == old(storedToken) && editorShown == old(editorShown)
      ensures !saveDisabled
      ensures sent.Some? <==> old(SaveStop()).None?
      ensures old(SaveStop()).Some? ==> outcome == old(SaveStop()).value && fileCache == old(fileCache)
      ensures sent.Some? ==>
                && old(CurrentBuffer()).Some?
                && sent.value == WriteRequest(currentFile.value.path, old(CurrentBuffer()).value)
                && json.parses(old(CurrentBuffer()).value.content)
      ensures sent.Some? && reply.Ok? ==>
                && outcome == Committed(Take(reply.value.commitSha, 7))
                && fileCache == old(fileCache)[currentFile.value.path := Commit(old(CurrentBuffer()).value, reply.value.contentSha)]
      ensures sent.Some? && reply.Err? ==> outcome == CommitFailed(reply.message) && fileCache == old(fileCache)
      ensures sent.Some? ==> (IsModified(fileCache[currentFile.value.path]) <==> reply.Err?)
    {
      var stop := SaveStop();
      if stop.Some? {
        return stop.value, None;
      }
      var path := currentFile.value.path;
      saveDisabled := true;
      sent := Some(WriteRequest(path, fileCache[path]));
      outcome := ApplyReply(path, reply);
      saveDisabled := false;
    }

    /** What the reply to a write does to the buffer of `path`: a success
        records the new sha and takes the buffer text as saved; a failure
        changes nothing. */
    method ApplyReply(path: string, reply: Result<WriteReply>) returns (outcome: SaveOutcome)
      requires path in fileCache
      modifies this
      ensures reply.Ok? ==> outcome == Committed(Take(reply.value.commitSha, 7))
                            && fileCache == old(fileCache)[path := Commit(old(fileCache)[path], reply.value.contentSha)]
      ensures reply.Err? ==> outcome == CommitFailed(reply.message) && fileCache == old(fileCache)
      ensures editor == old(editor) && currentFile == old(currentFile) && currentCategory == old(currentCategory)
      ensures token == old(token) && storedToken == old(storedToken) && editorShown == old(editorShown)
      ensures saveDisabled == old(saveDisabled)
    {
      match reply {
        case Ok(written) =>
          fileCache := fileCache[path := Commit(fileCache[path], written.contentSha)];
          outcome := Committed(Take(written.commitSha, 7));
        case Err(message) =>
          outcome := CommitFailed(message);
      }
    }

    /** `renderFileTabs`: one tab per file of the current category, in catalog
        order; the current file's tab is the only active one. */
    method RenderFileTabs() returns (tabs: seq<Tab>)
      requires Valid()
      ensures |tabs| == |Files(currentCategory)|
      ensures forall i :: 0 <= i < |tabs| ==>
                && tabs[i].id == Files(currentCategory)[i].id
                && tabs[i].tabLabel == Files(currentCategory)[i].tabLabel
                && (tabs[i].active <==> currentFile == Some(Files(currentCategory)[i]))
                && (tabs[i].modified <==> Files(currentCategory)[i].path in fileCache
                                          && IsModified(fileCache[Files(currentCategory)[i].path]))
    {
      var files := Files(currentCategory);
      tabs := [];
      var i := 0;
      while i < |files|
        invariant 0 <= i <= |files|
        invariant |tabs| == i
        invariant forall k :: 0 <= k < i ==> tabs[k] == TabFor(files[k], currentFile, fileCache)
      {
        tabs := tabs + [TabFor(files[i], currentFile, fileCache)];
        i := i + 1;
      }
      FileIdsDistinct(currentCategory);
      forall k | 0 <= k < |tabs|
        ensures tabs[k].active <==> currentFile == Some(files[k])
      {
        ActiveById(files, currentFile, k);
      }
    }

    /** `updateMeta`: nothing without a current buffer; otherwise the number
        of lines of the editor text and whether the buffer is modified. */
    function Meta(): (m: Option<EditorMeta>)
      reads this
      ensures m.Some? <==> CurrentBuffer().Some?
      ensures m.Some? ==> m.value.lines == Count(editor, '\n') + 1
      ensures m.Some? ==> (m.value.modified <==> IsModified(CurrentBuffer().value))
    {
      match CurrentBuffer()
      case None => None
      case Some(b) => Some(EditorMeta(LineCount(editor), IsModified(b)))
    }
  }
}
