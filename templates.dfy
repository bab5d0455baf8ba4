/** Template descriptors and the two template loaders
    (internal/templates/templates.go:16-99). */
module Templates {
  import opened Wrappers
  import opened Paths

  /** The descriptor read from template.json. Its fields are whatever the
      JSON decoder produced: nothing is checked, an empty `name` included. */
  datatype TemplateMeta = TemplateMeta(
    name: string,
    description: string,
    variables: seq<string>,
    postInit: seq<string>)

  /** A loaded template: its descriptor and the map from output path
      (relative, marker suffix removed) to raw template text. */
  datatype TemplateFS = TemplateFS(meta: TemplateMeta, files: map<string, string>)

  /** A path relative to the walked root, as filepath.Rel gives it: clean,
      so never empty ("." for the root itself) and never ending in '/'. */
  type RelPath = s: string | s != "" && s[|s| - 1] != '/' witness "."

  /** One call of the filepath.Walk callback: the entry at `rel`, or the
      error Walk reports for it (a failed lstat or directory read). */
  datatype WalkEntry =
    | Visit(rel: RelPath, isDir: bool)
    | VisitError(rel: RelPath, err: Error)

  /** One entry of an embed.FS ReadDir listing. */
  datatype DirEntry = DirEntry(name: string, isDir: bool)

  /** The callback keeps an entry: not a directory, and its full path ends
      in the marker suffix. */
  predicate Selected(dir: string, e: WalkEntry) {
    e.Visit? && !e.isDir && HasSuffix(Join(dir, e.rel), TemplateSuffix)
  }

  /** The callback returns an error for this entry. */
  predicate Fails(dir: string, e: WalkEntry, read: string -> Result<string>) {
    e.VisitError? || (Selected(dir, e) && read(Join(dir, e.rel)).Err?)
  }

  /** The error the callback returns for a failing entry. */
  function FailureOf(dir: string, e: WalkEntry, read: string -> Result<string>): Error
    requires Fails(dir, e, read)
  {
    if e.VisitError? then e.err else read(Join(dir, e.rel)).error
  }

  /** The map the Walk callback builds over the entries visited so far, or
      the first error it returns. */
  function WalkFiles(dir: string, walk: seq<WalkEntry>, read: string -> Result<string>)
    : Result<map<string, string>>
    decreases |walk|
  {
    if walk == [] then Ok(map[])
    else
      var files :- WalkFiles(dir, walk[..|walk| - 1], read);
      match walk[|walk| - 1]
      case VisitError(_, err) => Err(err)
      case Visit(rel, isDir) =>
        if isDir || !HasSuffix(Join(dir, rel), TemplateSuffix) then Ok(files)
        else
          var content :- read(Join(dir, rel));
          Ok(files[TrimSuffix(rel, TemplateSuffix) := content])
  }

  /** LoadTemplateFromDir as a function of what the file system shows:
      `read` is os.ReadFile, `walk` what filepath.Walk visits under `dir`,
      `parseMeta` the JSON decoder. */
  function LoadDir(dir: string, read: string -> Result<string>, walk: seq<WalkEntry>,
                   parseMeta: string -> Result<TemplateMeta>): Result<TemplateFS>
  {
    var data :- read(Join(dir, MetaFileName));
    var meta :- parseMeta(data);
    var files :- WalkFiles(dir, walk, read);
    Ok(TemplateFS(meta, files))
  }

  /** The directory loader: read and decode the descriptor, then walk the
      tree filling `files` in place, giving up on the first error. */
  method LoadTemplateFromDir(dir: string, read: string -> Result<string>, walk: seq<WalkEntry>,
                             parseMeta: string -> Result<TemplateMeta>)
    returns (r: Result<TemplateFS>)
    ensures r == LoadDir(dir, read, walk, parseMeta)
  {
    var data := read(Join(dir, MetaFileName));
    if data.Err? {
      return Err(data.error);
    }
    var meta := parseMeta(data.value);
    if meta.Err? {
      return Err(meta.error);
    }
    var files: map<string, string> := map[];
    var i := 0;
    while i < |walk|
      invariant 0 <= i <= |walk|
      invariant WalkFiles(dir, walk[..i], read) == Ok(files)
    {
      var e := walk[i];
      assert walk[..i + 1][..i] == walk[..i];
      if e.VisitError? {
        WalkFilesKeepsError(dir, walk, i + 1, read);
        return Err(e.err);
      }
      if !e.isDir && HasSuffix(Join(dir, e.rel), TemplateSuffix) {
        var content := read(Join(dir, e.rel));
        if content.Err? {
          WalkFilesKeepsError(dir, walk, i + 1, read);
          return Err(content.error);
        }
        var outPath := TrimSuffix(e.rel, TemplateSuffix);
        files := files[outPath := content.value];
      }
      i := i + 1;
    }
    assert walk[..i] == walk;
    return Ok(TemplateFS(meta.value, files));
  }

  /** Once the callback has failed, later entries change nothing: Walk stops. */
  lemma {:induction false} WalkFilesKeepsError(dir: string, walk: seq<WalkEntry>, j: nat,
                                               read: string -> Result<string>)
    requires j <= |walk|
    requires WalkFiles(dir, walk[..j], read).Err?
    ensures WalkFiles(dir, walk, read) == WalkFiles(dir, walk[..j], read)
    decreases |walk| - j
  {
    if j < |walk| {
      assert walk[..j + 1][..j] == walk[..j];
      WalkFilesKeepsError(dir, walk, j + 1, read);
    } else {
      assert walk[..j] == walk;
    }
  }

  /** The walk succeeds exactly when no entry makes the callback fail: any
      Walk error or template read error aborts the whole load. */
  lemma {:induction false} WalkFilesSucceeds(dir: string, walk: seq<WalkEntry>,
                                             read: string -> Result<string>)
    ensures WalkFiles(dir, walk, read).Ok? <==>
            forall i :: 0 <= i < |walk| ==> !Fails(dir, walk[i], read)
    decreases |walk|
  {
    if walk != [] {
      var init := walk[..|walk| - 1];
      WalkFilesSucceeds(dir, init, read);
      assert forall i :: 0 <= i < |init| ==> init[i] == walk[i];
    }
  }

  /** A failed walk reports the error of the first failing entry. */
  lemma {:induction false} WalkFilesFirstError(dir: string, walk: seq<WalkEntry>,
                                               read: string -> Result<string>)
    requires WalkFiles(dir, walk, read).Err?
    ensures exists i :: 0 <= i < |walk| && Fails(dir, walk[i], read)
                        && FailureOf(dir, walk[i], read) == WalkFiles(dir, walk, read).error
                        && forall j :: 0 <= j < i ==> !Fails(dir, walk[j], read)
    decreases |walk|
  {
    var init := walk[..|walk| - 1];
    assert forall i :: 0 <= i < |init| ==> init[i] == walk[i];
    if WalkFiles(dir, init, read).Err? {
      WalkFilesFirstError(dir, init, read);
      var i :| 0 <= i < |init| && Fails(dir, init[i], read)
               && FailureOf(dir, init[i], read) == WalkFiles(dir, init, read).error
               && forall j :: 0 <= j < i ==> !Fails(dir, init[j], read);
      assert walk[i] == init[i];
    } else {
      WalkFilesSucceeds(dir, init, read);
      var i := |walk| - 1;
      assert Fails(dir, walk[i], read) && FailureOf(dir, walk[i], read) == WalkFiles(dir, walk, read).error;
    }
  }

  /** The entry is a selected file whose path is `k` plus ".tmpl". */
  predicate Lists(dir: string, e: WalkEntry, k: string) {
    Selected(dir, e) && e.rel == k + TemplateSuffix
  }

  /** Some walked entry lists `k`. */
  ghost predicate Listed(dir: string, walk: seq<WalkEntry>, k: string) {
    exists i :: 0 <= i < |walk| && Lists(dir, walk[i], k)
  }

  /** A key is listed by a walk when the prefix lists it or the last entry does. */
  lemma ListedSnoc(dir: string, walk: seq<WalkEntry>, k: string)
    requires walk != []
    ensures Listed(dir, walk, k) <==>
              Listed(dir, walk[..|walk| - 1], k) || Lists(dir, walk[|walk| - 1], k)
  {
    var init := walk[..|walk| - 1];
    if i :| 0 <= i < |walk| && Lists(dir, walk[i], k) {
      if i < |init| {
        assert init[i] == walk[i];
        assert Listed(dir, init, k);
      }
    }
    if i :| 0 <= i < |init| && Lists(dir, init[i], k) {
      assert walk[i] == init[i];
      assert Listed(dir, walk, k);
    }
    if Lists(dir, walk[|walk| - 1], k) {
      assert Listed(dir, walk, k);
    }
  }

  /** One more walked entry: a key is present when it was before or the
      entry lists it; a listed key holds what reading its file gave, and any
      other key keeps its value. */
  lemma WalkFilesStep(dir: string, walk: seq<WalkEntry>, read: string -> Result<string>, k: string)
    requires walk != [] && WalkFiles(dir, walk, read).Ok?
    ensures WalkFiles(dir, walk[..|walk| - 1], read).Ok?
    ensures var files := WalkFiles(dir, walk, read).value;
            var before := WalkFiles(dir, walk[..|walk| - 1], read).value;
            var e := walk[|walk| - 1];
            && (k in files <==> k in before || Lists(dir, e, k))
            && (Lists(dir, e, k) ==> read(Join(dir, k + TemplateSuffix)) == Ok(files[k]))
            && (k in files && !Lists(dir, e, k) ==> files[k] == before[k])
  {
    var e := walk[|walk| - 1];
    if Selected(dir, e) {
      assert '/' !in TemplateSuffix;
      JoinHasSuffix(dir, e.rel, TemplateSuffix);
      TrimSuffixOfAppend(k, TemplateSuffix);
      if TrimSuffix(e.rel, TemplateSuffix) == k {
        assert e.rel == k + TemplateSuffix;
      }
    }
  }

  /** The keys of a loaded directory are exactly the selected files' relative
      paths minus one ".tmpl" (so `key + ".tmpl"` is the file's path, and
      template.json or any other file never becomes a key); each value is what
      reading that file gave. */
  lemma {:induction false} WalkFilesKeys(dir: string, walk: seq<WalkEntry>,
                                         read: string -> Result<string>)
    requires WalkFiles(dir, walk, read).Ok?
    ensures var files := WalkFiles(dir, walk, read).value;
            forall k :: k in files <==>
              exists i :: 0 <= i < |walk| && Lists(dir, walk[i], k)
    ensures var files := WalkFiles(dir, walk, read).value;
            forall k | k in files :: read(Join(dir, k + TemplateSuffix)) == Ok(files[k])
    decreases |walk|
  {
    if walk != [] {
      var init := walk[..|walk| - 1];
      var files := WalkFiles(dir, walk, read).value;
      WalkFilesStep(dir, walk, read, "");
      WalkFilesKeys(dir, init, read);
      forall k
        ensures (k in files <==> Listed(dir, walk, k))
                && (k in files ==> read(Join(dir, k + TemplateSuffix)) == Ok(files[k]))
      {
        WalkFilesStep(dir, walk, read, k);
        ListedSnoc(dir, walk, k);
      }
    }
  }

  /** The directory loader fails with the read error when template.json is
      missing or unreadable, with the decoder's error when it is malformed,
      and otherwise with the walk's first error; when everything reads it
      succeeds with the decoded descriptor, unvalidated. */
  lemma LoadDirOutcome(dir: string, read: string -> Result<string>, walk: seq<WalkEntry>,
                       parseMeta: string -> Result<TemplateMeta>)
    ensures var meta := read(Join(dir, MetaFileName));
            meta.Err? ==> LoadDir(dir, read, walk, parseMeta) == Err(meta.error)
    ensures var meta := read(Join(dir, MetaFileName));
            meta.Ok? && parseMeta(meta.value).Err? ==>
              LoadDir(dir, read, walk, parseMeta) == Err(parseMeta(meta.value).error)
    ensures var meta := read(Join(dir, MetaFileName));
            LoadDir(dir, read, walk, parseMeta).Ok? <==>
              meta.Ok? && parseMeta(meta.value).Ok?
              && forall i :: 0 <= i < |walk| ==> !Fails(dir, walk[i], read)
    ensures var meta := read(Join(dir, MetaFileName));
            meta.Ok? && parseMeta(meta.value).Ok? && WalkFiles(dir, walk, read).Err? ==>
              LoadDir(dir, read, walk, parseMeta) == Err(WalkFiles(dir, walk, read).error)
    ensures var meta := read(Join(dir, MetaFileName));
            LoadDir(dir, read, walk, parseMeta).Ok? ==>
              LoadDir(dir, read, walk, parseMeta).value
                == TemplateFS(parseMeta(meta.value).value, WalkFiles(dir, walk, read).value)
  {
    WalkFilesSucceeds(dir, walk, read);
  }

  /** What the embedded loader keeps from a failed content read: nothing. */
  function ContentOrEmpty(c: Result<string>): string {
    if c.Ok? then c.value else ""
  }

  /** The map the embedded loader builds over the entries listed so far:
      only top-level non-directories ending in ".tmpl"; a read failure
      yields empty content. */
  function EmbeddedFiles(base: string, entries: seq<DirEntry>, read: string -> Result<string>)
    : map<string, string>
    decreases |entries|
  {
    if entries == [] then map[]
    else
      var files := EmbeddedFiles(base, entries[..|entries| - 1], read);
      var e := entries[|entries| - 1];
      if e.isDir || !HasSuffix(e.name, TemplateSuffix) then files
      else files[TrimSuffix(e.name, TemplateSuffix) := ContentOrEmpty(read(Join(base, e.name)))]
  }

  /** The namespace of template `name` inside the bundle. */
  function EmbeddedBase(name: string): string {
    "embedded/" + name
  }

  /** LoadEmbeddedTemplate as a function of the bundle: `read` is
      embed.FS.ReadFile and `readDir` embed.FS.ReadDir. */
  function LoadEmbedded(name: string, read: string -> Result<string>,
                        readDir: string -> Result<seq<DirEntry>>,
                        parseMeta: string -> Result<TemplateMeta>): Result<TemplateFS>
  {
    var base := EmbeddedBase(name);
    var data :- read(base + "/" + MetaFileName);
    var meta :- parseMeta(data);
    var entries :- readDir(base);
    Ok(TemplateFS(meta, EmbeddedFiles(base, entries, read)))
  }

  /** The embedded loader: read and decode the descriptor, list the
      namespace's top level, and fill `files` in place from the listing. */
  method LoadEmbeddedTemplate(name: string, read: string -> Result<string>,
                              readDir: string -> Result<seq<DirEntry>>,
                              parseMeta: string -> Result<TemplateMeta>)
    returns (r: Result<TemplateFS>)
    ensures r == LoadEmbedded(name, read, readDir, parseMeta)
  {
    var base := EmbeddedBase(name);
    var data := read(base + "/" + MetaFileName);
    if data.Err? {
      return Err(data.error);
    }
    var meta := parseMeta(data.value);
    if meta.Err? {
      return Err(meta.error);
    }
    var files: map<string, string> := map[];
    var entries := readDir(base);
    if entries.Err? {
      return Err(entries.error);
    }
    var listing := entries.value;
    for i := 0 to |listing|
      invariant files == EmbeddedFiles(base, listing[..i], read)
    {
      var e := listing[i];
      assert listing[..i + 1][..i] == listing[..i];
      if e.isDir {
        continue;
      }
      if HasSuffix(e.name, TemplateSuffix) {
        var content := ContentOrEmpty(read(Join(base, e.name)));
        var outPath := TrimSuffix(e.name, TemplateSuffix);
        files := files[outPath := content];
      }
    }
    assert listing[..|listing|] == listing;
    return Ok(TemplateFS(meta.value, files));
  }

  /** The listed entry is a file named `k` plus ".tmpl". */
  predicate EntryLists(e: DirEntry, k: string) {
    !e.isDir && e.name == k + TemplateSuffix
  }

  /** Some listed entry lists `k`. */
  ghost predicate EntryListed(entries: seq<DirEntry>, k: string) {
    exists i :: 0 <= i < |entries| && EntryLists(entries[i], k)
  }

  /** A key is listed when the prefix lists it or the last entry does. */
  lemma EntryListedSnoc(entries: seq<DirEntry>, k: string)
    requires entries != []
    ensures EntryListed(entries, k) <==>
              EntryListed(entries[..|entries| - 1], k) || EntryLists(entries[|entries| - 1], k)
  {
    var init := entries[..|entries| - 1];
    if i :| 0 <= i < |entries| && EntryLists(entries[i], k) {
      if i < |init| {
        assert init[i] == entries[i];
        assert EntryListed(init, k);
      }
    }
    if i :| 0 <= i < |init| && EntryLists(init[i], k) {
      assert entries[i] == init[i];
      assert EntryListed(entries, k);
    }
    if EntryLists(entries[|entries| - 1], k) {
      assert EntryListed(entries, k);
    }
  }

  /** One more listed entry: a key is present when it was before or the
      entry lists it; a listed key holds the read content or "", and any
      other key keeps its value. */
  lemma EmbeddedFilesStep(base: string, entries: seq<DirEntry>, read: string -> Result<string>,
                          k: string)
    requires entries != []
    ensures var files := EmbeddedFiles(base, entries, read);
            var before := EmbeddedFiles(base, entries[..|entries| - 1], read);
            var e := entries[|entries| - 1];
            && (k in files <==> k in before || EntryLists(e, k))
            && (EntryLists(e, k) ==> files[k] == ContentOrEmpty(read(Join(base, k + TemplateSuffix))))
            && (k in files && !EntryLists(e, k) ==> files[k] == before[k])
  {
    var e := entries[|entries| - 1];
    TrimSuffixOfAppend(k, TemplateSuffix);
    if !e.isDir && HasSuffix(e.name, TemplateSuffix) && TrimSuffix(e.name, TemplateSuffix) == k {
      assert e.name == k + TemplateSuffix;
    }
  }

  /** The keys of an embedded template are exactly the names of its
      top-level non-directory entries ending in ".tmpl", minus that suffix;
      subdirectories are skipped; each value is the read content, or "" when
      the read failed. */
  lemma {:induction false} EmbeddedFilesKeys(base: string, entries: seq<DirEntry>,
                                             read: string -> Result<string>)
    ensures var files := EmbeddedFiles(base, entries, read);
            forall k :: k in files <==>
              exists i :: 0 <= i < |entries| && EntryLists(entries[i], k)
    ensures var files := EmbeddedFiles(base, entries, read);
            forall k | k in files :: files[k] == ContentOrEmpty(read(Join(base, k + TemplateSuffix)))
    decreases |entries|
  {
    if entries != [] {
      var init := entries[..|entries| - 1];
      var files := EmbeddedFiles(base, entries, read);
      EmbeddedFilesKeys(base, init, read);
      forall k
        ensures (k in files <==> EntryListed(entries, k))
                && (k in files ==> files[k] == ContentOrEmpty(read(Join(base, k + TemplateSuffix))))
      {
        EmbeddedFilesStep(base, entries, read, k);
        EntryListedSnoc(entries, k);
      }
    }
  }

  /** The embedded loader fails exactly when the descriptor cannot be read or
      decoded or the namespace cannot be listed; content reads never fail it. */
  lemma LoadEmbeddedOutcome(name: string, read: string -> Result<string>,
                            readDir: string -> Result<seq<DirEntry>>,
                            parseMeta: string -> Result<TemplateMeta>)
    ensures var meta := read(EmbeddedBase(name) + "/" + MetaFileName);
            LoadEmbedded(name, read, readDir, parseMeta).Ok? <==>
              meta.Ok? && parseMeta(meta.value).Ok? && readDir(EmbeddedBase(name)).Ok?
    ensures var meta := read(EmbeddedBase(name) + "/" + MetaFileName);
            LoadEmbedded(name, read, readDir, parseMeta).Ok? ==>
              LoadEmbedded(name, read, readDir, parseMeta).value
                == TemplateFS(parseMeta(meta.value).value,
                              EmbeddedFiles(EmbeddedBase(name), readDir(EmbeddedBase(name)).value, read))
  {
  }

  /** A walk that begins with a directory visit, as every walk begins with
      its root, builds the same map as the rest of the walk. */
  lemma {:induction false} WalkFilesSkipsLeadingDir(dir: string, rel: RelPath, rest: seq<WalkEntry>,
                                                    read: string -> Result<string>)
    ensures WalkFiles(dir, [Visit(rel, true)] + rest, read) == WalkFiles(dir, rest, read)
    decreases |rest|
  {
    var walk := [Visit(rel, true)] + rest;
    if rest == [] {
      assert walk[..0] == [];
    } else {
      var n := |rest| - 1;
      assert walk[..|walk| - 1] == [Visit(rel, true)] + rest[..n];
      assert walk[|walk| - 1] == rest[n];
      WalkFilesSkipsLeadingDir(dir, rel, rest[..n], read);
    }
  }

  /** The entries after the root visit match the listing one for one. */
  lemma {:induction false} VisitsMatchListing(
    dir: string, base: string, visits: seq<WalkEntry>, entries: seq<DirEntry>,
    read: string -> Result<string>, embeddedRead: string -> Result<string>)
    requires |visits| == |entries|
    requires forall i :: 0 <= i < |visits| ==>
               visits[i].Visit? && visits[i].rel == entries[i].name && visits[i].isDir == entries[i].isDir
    requires forall i :: 0 <= i < |entries| && !entries[i].isDir && HasSuffix(entries[i].name, TemplateSuffix) ==>
               read(Join(dir, entries[i].name)).Ok?
               && embeddedRead(Join(base, entries[i].name)) == read(Join(dir, entries[i].name))
    ensures WalkFiles(dir, visits, read) == Ok(EmbeddedFiles(base, entries, embeddedRead))
    decreases |visits|
  {
    if visits != [] {
      var n := |visits| - 1;
      VisitsMatchListing(dir, base, visits[..n], entries[..n], read, embeddedRead);
      assert '/' !in TemplateSuffix;
      JoinHasSuffix(dir, visits[n].rel, TemplateSuffix);
    }
  }

  /** Loading a flat directory and loading an embedded namespace that lists
      the same entries with the same contents give the same file map: the
      walk visits the root "." first and then, in the listing's order, the
      entries `ReadDir` returns. */
  lemma DirectoryAndEmbeddedAgree(
    dir: string, base: string, walk: seq<WalkEntry>, entries: seq<DirEntry>,
    read: string -> Result<string>, embeddedRead: string -> Result<string>)
    requires |walk| == |entries| + 1 && walk[0] == Visit(".", true)
    requires forall i :: 0 <= i < |entries| ==>
               walk[i + 1].Visit? && walk[i + 1].rel == entries[i].name && walk[i + 1].isDir == entries[i].isDir
    requires forall i :: 0 <= i < |entries| && !entries[i].isDir && HasSuffix(entries[i].name, TemplateSuffix) ==>
               read(Join(dir, entries[i].name)).Ok?
               && embeddedRead(Join(base, entries[i].name)) == read(Join(dir, entries[i].name))
    ensures WalkFiles(dir, walk, read) == Ok(EmbeddedFiles(base, entries, embeddedRead))
  {
    var visits := walk[1..];
    assert walk == [Visit(".", true)] + visits;
    WalkFilesSkipsLeadingDir(dir, ".", visits, read);
    forall i | 0 <= i < |visits|
      ensures visits[i].Visit? && visits[i].rel == entries[i].name && visits[i].isDir == entries[i].isDir
    {
      assert i < |entries|;
      assert walk[i + 1].Visit? && walk[i + 1].rel == entries[i].name && walk[i + 1].isDir == entries[i].isDir;
      assert visits[i] == walk[i + 1];
    }
    VisitsMatchListing(dir, base, visits, entries, read, embeddedRead);
  }
}
