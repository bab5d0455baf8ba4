/** `wm template init` (cmd/template.go:26-88): pick the template source,
    load it, and render it into ./<project name>. */
module Command {
  import opened Wrappers
  import opened Paths
  import opened Templates
  import opened FileSystem
  import opened Render

  /** The places a template may come from, in the order they are tried. */
  datatype Source =
    | Explicit(path: string)  // the --from path
    | Local(path: string)     // ~/.wm/templates/<name>
    | Defaults(path: string)  // internal/templates/defaults/<name>
    | Bundled(name: string)   // embedded/<name> inside the binary

  /** ~/.wm/templates/<name>. `home` is what os.UserHomeDir returned; its
      error is dropped, so a failed lookup leaves a relative path. */
  function LocalDir(home: Option<string>, name: string): (r: string)
    ensures home.None? && TrimTrailingSlashes(name) != "" ==>
              r == ".wm/templates/" + TrimTrailingSlashes(name)
    ensures home.None? && TrimTrailingSlashes(name) == "" ==> r == ".wm/templates"
  {
    assert TrimTrailingSlashes(".wm") == ".wm";
    assert TrimTrailingSlashes("templates") == "templates";
    var h := if home.Some? then home.value else "";
    Join(Join(Join(h, ".wm"), "templates"), name)
  }

  /** internal/templates/defaults/<name>, relative to the working directory. */
  function DefaultsDir(name: string): string {
    Join(Join(Join("internal", "templates"), "defaults"), name)
  }

  /** The candidate sources in precedence order. */
  function Candidates(from: string, name: string, home: Option<string>): seq<Source> {
    if from != "" then [Explicit(from)]
    else [Local(LocalDir(home, name)), Defaults(DefaultsDir(name)), Bundled(name)]
  }

  /** A source counts as there when os.Stat finds its path; the bundle is
      never tested, it is the last resort. */
  predicate Present(src: Source, found: string -> bool) {
    if src.Bundled? then true else found(src.path)
  }

  /** First-match-wins: the index of the first present candidate, or |cands|. */
  function FirstPresentIndex(cands: seq<Source>, found: string -> bool): (i: nat)
    ensures i <= |cands|
    ensures forall j :: 0 <= j < i ==> !Present(cands[j], found)
    ensures i < |cands| ==> Present(cands[i], found)
    decreases |cands|
  {
    if cands == [] then 0
    else if Present(cands[0], found) then 0
    else 1 + FirstPresentIndex(cands[1..], found)
  }

  /** Loading a chosen source: a directory goes to the directory loader and
      its result, error or not, is final; a failed bundle load becomes a
      single not-found error naming the template. */
  function LoadSource(src: Source, loadDir: string -> Result<TemplateFS>,
                      loadEmbedded: string -> Result<TemplateFS>): Result<TemplateFS>
  {
    match src
    case Bundled(name) =>
      if loadEmbedded(name).Ok? then loadEmbedded(name) else Err(TemplateNotFound(name))
    case _ => loadDir(src.path)
  }

  /** The resolution chain of cmd/template.go:37-72. `found` is "os.Stat
      succeeds", `loadDir` LoadTemplateFromDir and `loadEmbedded`
      LoadEmbeddedTemplate. A missing --from path is final; otherwise the
      first candidate that exists is loaded, and its outcome is the answer:
      existence, not loadability, decides. */
  function Resolve(from: string, name: string, home: Option<string>, found: string -> bool,
                   loadDir: string -> Result<TemplateFS>,
                   loadEmbedded: string -> Result<TemplateFS>): (r: Result<TemplateFS>)
    ensures from != "" && !found(from) ==> r == Err(FromPathNotFound)
    ensures !(from != "" && !found(from)) ==>
              var cands := Candidates(from, name, home);
              var i := FirstPresentIndex(cands, found);
              i < |cands| && r == LoadSource(cands[i], loadDir, loadEmbedded)
  {
    if from != "" then
      if found(from) then loadDir(from) else Err(FromPathNotFound)
    else
      var localDir := LocalDir(home, name);
      var defaultDir := DefaultsDir(name);
      var cands := [Local(localDir), Defaults(defaultDir), Bundled(name)];
      assert cands[1..] == [Defaults(defaultDir), Bundled(name)];
      assert cands[1..][1..] == [Bundled(name)];
      if found(localDir) then loadDir(localDir)
      else
        if found(defaultDir) then loadDir(defaultDir)
        else
          assert FirstPresentIndex(cands[1..][1..], found) == 0;
          assert FirstPresentIndex(cands[1..], found) == 1;
          assert FirstPresentIndex(cands, found) == 2;
          var tpl := loadEmbedded(name);
          if tpl.Err? then Err(TemplateNotFound(name)) else tpl
  }

  /** Two views of the file system that agree on every candidate up to the
      chosen one pick the same index: what exists after it is never asked. */
  lemma {:induction false} FirstPresentAgree(cands: seq<Source>, found1: string -> bool,
                                             found2: string -> bool)
    requires forall j :: 0 <= j < |cands| && j <= FirstPresentIndex(cands, found1) ==>
               Present(cands[j], found1) == Present(cands[j], found2)
    ensures FirstPresentIndex(cands, found1) == FirstPresentIndex(cands, found2)
    decreases |cands|
  {
    if cands != [] && !Present(cands[0], found1) {
      var rest := cands[1..];
      forall j | 0 <= j < |rest| && j <= FirstPresentIndex(rest, found1)
        ensures Present(rest[j], found1) == Present(rest[j], found2)
      {
        assert rest[j] == cands[j + 1];
      }
      FirstPresentAgree(rest, found1, found2);
    }
  }

  /** Whether later candidates exist, and what their loaders would return,
      has no effect: resolution depends only on the candidates up to the
      first one present and on that one's load. */
  lemma ResolveIgnoresLaterCandidates(from: string, name: string, home: Option<string>,
                                      found1: string -> bool, found2: string -> bool,
                                      loadDir1: string -> Result<TemplateFS>,
                                      loadDir2: string -> Result<TemplateFS>,
                                      loadEmbedded1: string -> Result<TemplateFS>,
                                      loadEmbedded2: string -> Result<TemplateFS>)
    requires var cands := Candidates(from, name, home);
             forall j :: 0 <= j < |cands| && j <= FirstPresentIndex(cands, found1) ==>
               Present(cands[j], found1) == Present(cands[j], found2)
    requires var cands := Candidates(from, name, home);
             var i := FirstPresentIndex(cands, found1);
             i < |cands| ==> LoadSource(cands[i], loadDir1, loadEmbedded1)
                             == LoadSource(cands[i], loadDir2, loadEmbedded2)
    ensures Resolve(from, name, home, found1, loadDir1, loadEmbedded1)
            == Resolve(from, name, home, found2, loadDir2, loadEmbedded2)
  {
    FirstPresentAgree(Candidates(from, name, home), found1, found2);
  }

  /** What the command sees of the machine, read-only: */
  datatype Host = Host(
    stat: string -> bool,                              // os.Stat finds the path
    homeDir: Option<string>,                           // os.UserHomeDir
    readFile: string -> Result<string>,                // os.ReadFile
    walk: string -> seq<WalkEntry>,                    // what filepath.Walk visits under a root
    embeddedRead: string -> Result<string>,            // embeddedFS.ReadFile
    embeddedReadDir: string -> Result<seq<DirEntry>>,  // embeddedFS.ReadDir
    parseMeta: string -> Result<TemplateMeta>)         // json.Unmarshal into TemplateMeta

  /** Resolution on a host, with the two loaders of internal/templates. */
  function ResolveOn(host: Host, from: string, name: string): Result<TemplateFS> {
    Resolve(from, name, host.homeDir, host.stat,
            dir => LoadDir(dir, host.readFile, host.walk(dir), host.parseMeta),
            n => LoadEmbedded(n, host.embeddedRead, host.embeddedReadDir, host.parseMeta))
  }

  /** The variables every template is rendered with. */
  function InitVars(projectName: string, author: string): map<string, string> {
    map["ProjectName" := projectName, "Author" := author]
  }

  /** The destination ./<projectName>. */
  function Destination(projectName: string): string {
    Join(".", projectName)
  }

  /** templateInitCmd's RunE: an empty project name fails before anything
      else; a resolution error is returned and nothing is written;
      otherwise the template is rendered into ./<projectName> and the
      render's outcome is the command's. */
  method TemplateInit<C>(fs: FileSystem, host: Host, projectName: string, tplName: string,
                         author: string, fromRepo: string,
                         parse: (string, string) -> Result<C>,
                         execute: (C, map<string, string>) -> Execution)
    returns (err: Option<Error>, ghost order: seq<string>)
    requires fs.Valid()
    modifies fs
    ensures fs.Valid()
    ensures projectName == "" ==> err == Some(MissingProjectName) && fs.State() == old(fs.State())
    ensures projectName != "" && ResolveOn(host, fromRepo, tplName).Err? ==>
              err == Some(ResolveOn(host, fromRepo, tplName).error) && fs.State() == old(fs.State())
    ensures projectName != "" && ResolveOn(host, fromRepo, tplName).Ok? ==>
              var files := ResolveOn(host, fromRepo, tplName).value.files;
              && Distinct(order) && Elems(order) <= files.Keys
              && (err.None? ==> Elems(order) == files.Keys)
              && (err.Some? ==>
                    order != []
                    && RenderFiles(old(fs.State()), Destination(projectName), files, order[..|order| - 1],
                                   InitVars(projectName, author), parse, execute).err.None?)
              && Step(fs.State(), err)
                 == RenderFiles(old(fs.State()), Destination(projectName), files, order,
                                InitVars(projectName, author), parse, execute)
  {
    order := [];
    if projectName == "" {
      return Some(MissingProjectName), order;
    }
    var tpl := ResolveOn(host, fromRepo, tplName);
    if tpl.Err? {
      return Some(tpl.error), order;
    }
    var vars := InitVars(projectName, author);
    var dest := Destination(projectName);
    err, order := RenderTemplate(fs, dest, Some(tpl.value), vars, parse, execute);
  }
}
