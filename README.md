# Template resolution and rendering in `wm template init`

This project is a Dafny model of the part of the `wm` command-line tool that
scaffolds a new project from a named template. The modelled code lives in
`cmd/template.go` and `internal/templates/templates.go`. It covers:

- **Resolution.** `template init` picks where the template comes from, first
  match wins. An explicit `--from` path is used when given. Otherwise the tool
  tries `~/.wm/templates/<name>`, then `internal/templates/defaults/<name>`,
  then the bundle embedded in the binary. `os.Stat` decides whether a
  directory candidate is there: existence, not loadability, chooses.
- **Loading.** The descriptor `template.json` is read and decoded. Then every
  file ending in `.tmpl` becomes an entry of a file map, keyed by its path
  with the suffix removed. The directory loader walks the whole tree. The
  embedded loader lists only the top level.
- **Rendering.** Each file's parent directories are created, its text is
  parsed as a template, the output file is created or truncated, and the
  template is executed into it. The first error aborts the render and leaves
  the files already written in place.

Modules:

- `Wrappers`: `Option`, `Result` and the `Error` values of the command.
- `Paths`: the `.tmpl` suffix, `HasSuffix`/`TrimSuffix`, and `Join`, `Dir` and
  the directories `MkdirAll` makes.
- `Templates`: the descriptor, the loaded template, and both loaders. Each
  loader is a looping method proved equal to a specification function, with
  lemmas about that function.
- `FileSystem`: the file system that rendering changes, as a class over a
  map from path to content and a set of directories.
- `Render`: `RenderTemplate`, a loop over the file map that updates the
  `FileSystem` object one operation at a time.
- `Command`: the resolution chain and the `template init` command.

Collaborators that are not modelled are parameters:

- `os.Stat`.
- `os.UserHomeDir`.
- `os.ReadFile`.
- What `filepath.Walk` visits, as a sequence of visits or visit errors.
- `embed.FS.ReadFile` and `embed.FS.ReadDir`.
- The JSON decoder, as `string -> Result<TemplateMeta>`.
- `template.New(name).Parse`, as `(name, text) -> Result<C>`.
- `Execute`, as `(compiled, vars) -> Execution`. An `Execution` holds the
  output written before Execute returned, plus its error if it had one.

Go's map iteration order is unspecified. `RenderTemplate` therefore takes
the keys in an arbitrary order of its own choosing, reports that order as a
ghost result, and every render lemma holds for any repetition-free order.
Two keys can share an output path: `filepath.Join` drops a trailing '/', so
the keys `a` and `a/` both write `dest/a`. The file then holds the text of
whichever key the loop reached last.

The code behaves as follows in these cases, and so does the model:

- `--from` is checked for existence only. It does not have to be a
  directory.
- The error for a template found nowhere names only the template, not
  every location that was tried.
- A descriptor with an empty `name` is accepted.
- Relative paths containing `..` are not rejected.

## Model

| member | source | states |
|---|---|---|
| `Paths.TrimSuffix` | internal/templates/templates.go:56 | removing the suffix from a name that has it gives back the name once the suffix is appended again; a name without it is unchanged |
| `Paths.TrimSuffixOfAppend` | internal/templates/templates.go:56 | removing the suffix undoes appending it: `key + ".tmpl"` has the suffix and trims back to `key` |
| `Paths.TrimSuffixInjective` | internal/templates/templates.go:55-57 | two `.tmpl` names with the same stripped key are the same name, so distinct template files get distinct keys |
| `Paths.TrimTrailingSlashesShape` | internal/templates/templates.go:107 | the cleaning `filepath.Join` applies to a key keeps a prefix that does not end in '/', and drops only slashes |
| `Paths.JoinInjective` | internal/templates/templates.go:107 | under one destination, two keys give the same output path only if they agree once their trailing slashes are dropped |
| `Paths.JoinTrailingSlash` | internal/templates/templates.go:107 | a key with a trailing '/' has the same output path as the key without it, so `a` and `a/` collide |
| `Paths.JoinHasSuffix` | internal/templates/templates.go:50 | the suffix test on the walked full path agrees with the test on the root-relative path, so every selected `rel` ends in `.tmpl` |
| `Paths.Dir` | internal/templates/templates.go:108 | the parent is "." for a path without '/'; a path with a '/' after its first character is cut right before its last '/'; a path whose only '/' leads gives "/" |
| `Paths.DirOfJoin` | internal/templates/templates.go:107-108 | the parent of `dest/name`, for a name without '/', is `dest` |
| `Paths.Ancestors` | internal/templates/templates.go:108 | what `MkdirAll` makes a directory: the path itself and exactly its prefixes that end before a '/' |
| `Templates.LoadTemplateFromDir` | internal/templates/templates.go:29-66 | the loop that fills `files` from the walk returns exactly `LoadDir`: descriptor read, then decode, then the walk, each error returned and no partial map |
| `Templates.WalkFilesKeepsError` | internal/templates/templates.go:43-46 | once the walk callback has returned an error, later entries change nothing |
| `Templates.WalkFilesSucceeds` | internal/templates/templates.go:43-63 | the walk succeeds if and only if no entry is a walk error and no selected file fails to read |
| `Templates.WalkFilesFirstError` | internal/templates/templates.go:43-63 | a failed walk returns the error of the first failing entry |
| `Templates.WalkFilesStep` | internal/templates/templates.go:47-57 | one more visited entry adds exactly the key it lists, holding that file's content, and leaves every other key and value as it was |
| `Templates.WalkFilesKeys` | internal/templates/templates.go:47-57 | a key is present if and only if some visited non-directory entry with a `.tmpl` path has `rel == key + ".tmpl"` (`Lists`), so `template.json` is never a key; each value is that file's content |
| `Templates.LoadDirOutcome` | internal/templates/templates.go:30-66 | a missing or unreadable `template.json` returns the read error, malformed JSON returns the decoder error, a failed walk returns the walk's error, success holds the decoded descriptor unvalidated and the walk's file map, and success happens exactly when all reads succeed |
| `Templates.LoadEmbeddedTemplate` | internal/templates/templates.go:69-99 | the loop over the `ReadDir` listing returns exactly `LoadEmbedded` |
| `Templates.EmbeddedFilesStep` | internal/templates/templates.go:86-96 | one more listed entry adds exactly the key of a non-directory `<key>.tmpl`, holding its content or "", and leaves every other key and value as it was |
| `Templates.EmbeddedFilesKeys` | internal/templates/templates.go:86-96 | keys are exactly the top-level non-directory names ending in `.tmpl`, minus the suffix, with subdirectories skipped; a failed content read gives "" |
| `Templates.LoadEmbeddedOutcome` | internal/templates/templates.go:70-85 | the embedded load fails exactly when the descriptor cannot be read or decoded or `ReadDir` fails, and content reads never make it fail |
| `Templates.WalkFilesSkipsLeadingDir` | internal/templates/templates.go:47-48 | a directory visit, such as the root visit `filepath.Walk` makes first, adds nothing to the file map |
| `Templates.DirectoryAndEmbeddedAgree` | internal/templates/templates.go:43-96 | a flat directory, walked as its root visit followed by its entries, and an embedded namespace with the same entries and contents give the same file map |
| `FileSystem.FileSystem.MkdirAll` | internal/templates/templates.go:108 | fails, changing nothing, when the path or an ancestor is a regular file; otherwise all of them become directories; the file/directory disjointness holds either way |
| `FileSystem.FileSystem.Create` | internal/templates/templates.go:115 | fails on a directory or in a missing directory; otherwise the file exists and is empty, whether it was created or truncated |
| `FileSystem.FileSystem.Write` | internal/templates/templates.go:119 | the executed output is appended to the open file |
| `Render.RenderTemplate` | internal/templates/templates.go:102-126 | a nil template is an error with nothing changed; otherwise the file system ends as `RenderFiles` for the repetition-free key order taken, which covers every key on success and stops right after the failing key |
| `Render.RenderStep` | internal/templates/templates.go:107-123 | one loop iteration on the file system object moves it exactly as `RenderOne` says: `MkdirAll`, then Parse, then `Create`, then Execute writing into the file, stopping at the first error |
| `Render.RenderOneEffect` | internal/templates/templates.go:107-123 | one iteration writes only `dest/key` and creates only ancestors of its parent; on success the file holds the executed text |
| `Render.ParseFailureLeavesFile` | internal/templates/templates.go:108-114 | on a parse failure the parent directories exist but the file is neither created nor truncated, and the parse error is returned |
| `Render.ExecuteFailureKeepsPartialFile` | internal/templates/templates.go:115-122 | on an Execute failure the file has been created or truncated and holds the partial output, and Execute's error is returned |
| `Render.RenderFrame` | internal/templates/templates.go:106-125 | whatever the outcome, no file outside the keys' output paths changes, and only ancestors of those paths become directories |
| `Render.LastWriter` | internal/templates/templates.go:106-107 | the key found for a path is in the order, writes that path, and no later key writes it; when none is found, no key writes that path |
| `Render.RenderSucceeds` | internal/templates/templates.go:106-125 | after a successful render every key parsed and executed, and each output path holds the executed text of the last key that wrote it |
| `Render.RenderSucceedsOwnPath` | internal/templates/templates.go:106-125 | after a successful render, a key whose output path no other key shares finds its own executed text there |
| `Render.RenderSucceedsDirs` | internal/templates/templates.go:107-110 | after a successful render the new directories are exactly the ancestors of the output files' parents |
| `Render.RenderStopsAtFirstFailure` | internal/templates/templates.go:106-123 | a failed render returns the failing key's error, and every file rendered before it stays on disk with the text of its last writer, and a key with its own path keeps its own text: there is no rollback |
| `Render.RenderOrderIrrelevant` | internal/templates/templates.go:106 | two successful renders of the same keys in different map orders leave the same file system, when no two keys share an output path |
| `Command.LocalDir` | cmd/template.go:49-50 | a failed home lookup leaves the relative path `.wm/templates/<name>`, with the name's trailing slashes dropped, or `.wm/templates` for a name of slashes only |
| `Command.FirstPresentIndex` | cmd/template.go:37-72 | first match wins: every candidate before the chosen one is absent, and the chosen one is present |
| `Command.Resolve` | cmd/template.go:37-72 | a missing `--from` fails with no fallback; otherwise the result is the load of the first present candidate, in the order `--from`, local, defaults, embedded; a directory's load error is returned unchanged and an embedded failure becomes a not-found error |
| `Command.FirstPresentAgree` | cmd/template.go:48-69 | when two existence views agree up to the chosen candidate, they choose the same one: later candidates are never consulted |
| `Command.ResolveIgnoresLaterCandidates` | cmd/template.go:51-69 | resolution depends only on whether the candidates up to the first present one exist, and on that one's load; later loaders are never tried |
| `Command.TemplateInit` | cmd/template.go:29-87 | an empty project name fails with nothing changed; a resolution error is returned with nothing changed; otherwise the template is rendered into `./<name>` with exactly `{ProjectName, Author}`, and the command succeeds only when the render does |

## Left out

- Filesystem faults other than a file/directory clash are not modelled. This covers permissions, a full disk, a write error on the open file, and errors from `f.Close`, which the source ignores. The state model has no way to produce them.
- `filepath.Join`, `Rel` and `Clean` are modelled with one part of Go's cleaning: `Join` drops the trailing slashes of its second part, then drops empty parts and inserts one '/'. `Dir` cuts at the last '/'. Other cleaning is not modelled: `.` and `..` elements, doubled slashes, and slashes in the first part stay as written. So the destination is `./<name>`, where Go would clean it to `<name>`, and a key containing `..` is not normalised. The source rejects neither.
- Render.RenderOrderIrrelevant: holds only when no two keys share an output path (`OwnPath`). With the keys `a` and `a/` the shared file's content depends on map order, as it does in the source.
- The read side (`Host`: stat, read, walk, bundle) is not tied to the `FileSystem` object that rendering writes. Resolution and loading happen before any write, so the two never interleave.
- The walk is any sequence of visits. Walk's lexical order, symbolic links and `SkipDir` are not modelled. The model does not derive the walk from the file tree.
- `FileSystem.FileSystem.MkdirAll` is atomic, and its error names the requested directory rather than the component that is a file. In a real tree a file ancestor is found before anything is created, so the outcome on disk is the same.
- `encoding/json`, `text/template` (parsing, execution, missing keys) and `embed.FS` path rules are opaque function parameters.
- On Windows, the embedded loader joins the content path with a backslash. The model uses '/' throughout.
- The `post_init` field is decoded but never run, as in the source.
- Log and terminal output (`slog.Info`, `fmt.Println`) and `templateListCmd` (cmd/template.go:90-118) only print.
- Flag parsing and command dispatch (cmd/root.go, cmd/run.go), process start-up (main.go), the database layer (internal/db/connect.go), logging (internal/log/log.go) and build-version reporting (internal/version/version.go) are not part of this model. They are library calls and I/O.
