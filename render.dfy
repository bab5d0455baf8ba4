/** RenderTemplate (internal/templates/templates.go:101-126): write every
    file of a loaded template under a destination, one file after another,
    stopping at the first error and leaving what was written in place. */
module Render {
  import opened Wrappers
  import opened Paths
  import opened Templates
  import opened FileSystem

  /** What text/template's Execute leaves behind: the output it wrote
      before returning, and its error, if any. */
  datatype Execution = Execution(output: string, failure: Option<Error>)

  /** No key is processed twice. */
  predicate Distinct(order: seq<string>) {
    forall i, j | 0 <= i < j < |order| :: order[i] != order[j]
  }

  function Elems(order: seq<string>): set<string> {
    set k | k in order
  }

  /** Appending a key not yet in a repetition-free order keeps it
      repetition-free and adds exactly that key. */
  lemma DistinctSnoc(order: seq<string>, key: string)
    requires Distinct(order) && key !in Elems(order)
    ensures Distinct(order + [key]) && Elems(order + [key]) == Elems(order) + {key}
  {
    assert (order + [key])[..|order|] == order;
    ElemsSnoc(order + [key]);
  }

  /** The keys of a non-empty order: those before the last one, and the last. */
  lemma ElemsSnoc(order: seq<string>)
    requires order != []
    ensures Elems(order) == Elems(order[..|order| - 1]) + {order[|order| - 1]}
  {
    assert order == order[..|order| - 1] + [order[|order| - 1]];
  }

  /** The files a render of `keys` may write. */
  function OutPaths(dest: string, keys: set<string>): set<string> {
    set k | k in keys :: Join(dest, k)
  }

  /** The directories a render of `keys` may create. */
  function DirsFor(dest: string, keys: set<string>): set<string> {
    set k, a | k in keys && a in Ancestors(Dir(Join(dest, k))) :: a
  }

  /** The template text of `key` compiles and executes without error. */
  predicate Renders<C>(key: string, content: string, vars: map<string, string>,
                       parse: (string, string) -> Result<C>,
                       execute: (C, map<string, string>) -> Execution) {
    parse(key, content).Ok? && execute(parse(key, content).value, vars).failure.None?
  }

  /** The text Execute produces for `content` with `vars` (for a key whose
      template parses; the contracts only ask for it under Renders). */
  function Rendered<C>(key: string, content: string, vars: map<string, string>,
                       parse: (string, string) -> Result<C>,
                       execute: (C, map<string, string>) -> Execution): string
  {
    if parse(key, content).Ok? then execute(parse(key, content).value, vars).output else ""
  }

  /** One iteration of the loop: MkdirAll the parent, Parse, Create
      (truncating), Execute into the file. `parse` is
      template.New(key).Parse and `execute` is Execute. */
  function RenderOne<C>(s: FsState, dest: string, key: string, content: string,
                        vars: map<string, string>,
                        parse: (string, string) -> Result<C>,
                        execute: (C, map<string, string>) -> Execution): Step
  {
    var full := Join(dest, key);
    var made := MkdirAllEffect(s, Dir(full));
    if made.err.Some? then made
    else
      match parse(key, content)
      case Err(e) => Step(made.state, Some(e))
      case Ok(t) =>
        var created := CreateEffect(made.state, full);
        if created.err.Some? then created
        else
          var x := execute(t, vars);
          Step(WriteEffect(created.state, full, x.output), x.failure)
  }

  /** The loop over the keys in the order `order` in which the map happens
      to be iterated, stopping at the first error. */
  function RenderFiles<C>(s: FsState, dest: string, files: map<string, string>, order: seq<string>,
                          vars: map<string, string>,
                          parse: (string, string) -> Result<C>,
                          execute: (C, map<string, string>) -> Execution): Step
    requires forall k | k in order :: k in files
    decreases |order|
  {
    if order == [] then Step(s, None)
    else
      var before := RenderFiles(s, dest, files, order[..|order| - 1], vars, parse, execute);
      if before.err.Some? then before
      else
        var key := order[|order| - 1];
        RenderOne(before.state, dest, key, files[key], vars, parse, execute)
  }

  /** A render of one more key, after the earlier keys succeeded, is that
      key's iteration on the state they left. */
  lemma RenderFilesSnoc<C>(s: FsState, dest: string, files: map<string, string>,
                           init: seq<string>, key: string, vars: map<string, string>,
                           parse: (string, string) -> Result<C>,
                           execute: (C, map<string, string>) -> Execution)
    requires forall k | k in init :: k in files
    requires key in files
    requires RenderFiles(s, dest, files, init, vars, parse, execute).err.None?
    ensures forall k | k in init + [key] :: k in files
    ensures RenderFiles(s, dest, files, init + [key], vars, parse, execute)
            == RenderOne(RenderFiles(s, dest, files, init, vars, parse, execute).state,
                         dest, key, files[key], vars, parse, execute)
  {
    assert (init + [key])[..|init|] == init;
  }

  /** One iteration of RenderTemplate's loop on the file system object:
      MkdirAll the parent, Parse, Create, Execute into the file. */
  method RenderStep<C>(fs: FileSystem, dest: string, key: string, content: string,
                       vars: map<string, string>,
                       parse: (string, string) -> Result<C>,
                       execute: (C, map<string, string>) -> Execution)
    returns (err: Option<Error>)
    requires fs.Valid()
    modifies fs
    ensures fs.Valid()
    ensures Step(fs.State(), err) == RenderOne(old(fs.State()), dest, key, content, vars, parse, execute)
  {
    var fullPath := Join(dest, key);
    err := fs.MkdirAll(Dir(fullPath));
    if err.Some? {
      return;
    }
    var t := parse(key, content);
    if t.Err? {
      return Some(t.error);
    }
    err := fs.Create(fullPath);
    if err.Some? {
      return;
    }
    var x := execute(t.value, vars);
    fs.Write(fullPath, x.output);
    return x.failure;
  }

  /** RenderTemplate: a nil template is an error that touches nothing;
      otherwise the keys are taken in some order (Go leaves map order
      unspecified), `order` records it, and the file system ends as
      RenderFiles says for that order. */
  method RenderTemplate<C>(fs: FileSystem, dest: string, tpl: Option<TemplateFS>,
                           vars: map<string, string>,
                           parse: (string, string) -> Result<C>,
                           execute: (C, map<string, string>) -> Execution)
    returns (err: Option<Error>, ghost order: seq<string>)
    requires fs.Valid()
    modifies fs
    ensures fs.Valid()
    ensures tpl.None? ==> err == Some(NilTemplate) && fs.State() == old(fs.State())
    ensures tpl.Some? ==> Distinct(order) && Elems(order) <= tpl.value.files.Keys
    ensures tpl.Some? && err.None? ==> Elems(order) == tpl.value.files.Keys
    ensures tpl.Some? && err.Some? ==>
              order != []
              && RenderFiles(old(fs.State()), dest, tpl.value.files, order[..|order| - 1],
                             vars, parse, execute).err.None?
    ensures tpl.Some? ==>
              Step(fs.State(), err)
                == RenderFiles(old(fs.State()), dest, tpl.value.files, order, vars, parse, execute)
  {
    order := [];
    if tpl.None? {
      return Some(NilTemplate), order;
    }
    var files := tpl.value.files;
    var remaining := files.Keys;
    while remaining != {}
      invariant fs.Valid()
      invariant Elems(order) + remaining == files.Keys && Elems(order) !! remaining
      invariant Distinct(order)
      invariant Step(fs.State(), None) == RenderFiles(old(fs.State()), dest, files, order, vars, parse, execute)
      decreases remaining
    {
      var relPath :| relPath in remaining;
      var content := files[relPath];
      ghost var done := order;
      DistinctSnoc(done, relPath);
      RenderFilesSnoc(old(fs.State()), dest, files, done, relPath, vars, parse, execute);
      order := done + [relPath];
      remaining := remaining - {relPath};
      err := RenderStep(fs, dest, relPath, content, vars, parse, execute);
      if err.Some? {
        return;
      }
    }
    return None, order;
  }

  /** One iteration writes at most its own file and creates at most the
      ancestors of that file; when it succeeds, the file holds the rendered
      text and all its ancestors are directories. */
  lemma RenderOneEffect<C>(s: FsState, dest: string, key: string, content: string,
                           vars: map<string, string>,
                           parse: (string, string) -> Result<C>,
                           execute: (C, map<string, string>) -> Execution)
    ensures var r := RenderOne(s, dest, key, content, vars, parse, execute);
            forall p | p != Join(dest, key) ::
              (p in r.state.files <==> p in s.files) && (p in s.files ==> r.state.files[p] == s.files[p])
    ensures var r := RenderOne(s, dest, key, content, vars, parse, execute);
            s.dirs <= r.state.dirs <= s.dirs + Ancestors(Dir(Join(dest, key)))
    ensures var r := RenderOne(s, dest, key, content, vars, parse, execute);
            r.err.None? ==>
              Renders(key, content, vars, parse, execute)
              && r.state.files == s.files[Join(dest, key) := Rendered(key, content, vars, parse, execute)]
              && r.state.dirs == s.dirs + Ancestors(Dir(Join(dest, key)))
  {
    RenderOneFrame(s, dest, key, content, vars, parse, execute);
    RenderOneDirs(s, dest, key, content, vars, parse, execute);
    RenderOneSuccess(s, dest, key, content, vars, parse, execute);
  }

  /** The file half of RenderOneEffect's frame. */
  lemma RenderOneFrame<C>(s: FsState, dest: string, key: string, content: string,
                          vars: map<string, string>,
                          parse: (string, string) -> Result<C>,
                          execute: (C, map<string, string>) -> Execution)
    ensures var r := RenderOne(s, dest, key, content, vars, parse, execute);
            forall p | p != Join(dest, key) ::
              (p in r.state.files <==> p in s.files) && (p in s.files ==> r.state.files[p] == s.files[p])
  {
  }

  /** The directory half of RenderOneEffect's frame. */
  lemma RenderOneDirs<C>(s: FsState, dest: string, key: string, content: string,
                         vars: map<string, string>,
                         parse: (string, string) -> Result<C>,
                         execute: (C, map<string, string>) -> Execution)
    ensures var r := RenderOne(s, dest, key, content, vars, parse, execute);
            s.dirs <= r.state.dirs <= s.dirs + Ancestors(Dir(Join(dest, key)))
  {
  }

  /** RenderOneEffect's success case. */
  lemma RenderOneSuccess<C>(s: FsState, dest: string, key: string, content: string,
                            vars: map<string, string>,
                            parse: (string, string) -> Result<C>,
                            execute: (C, map<string, string>) -> Execution)
    ensures var r := RenderOne(s, dest, key, content, vars, parse, execute);
            r.err.None? ==>
              Renders(key, content, vars, parse, execute)
              && r.state.files == s.files[Join(dest, key) := Rendered(key, content, vars, parse, execute)]
              && r.state.dirs == s.dirs + Ancestors(Dir(Join(dest, key)))
  {
    var full := Join(dest, key);
    var made := MkdirAllEffect(s, Dir(full));
    var r := RenderOne(s, dest, key, content, vars, parse, execute);
    if made.err.None? && parse(key, content).Ok? {
      var t := parse(key, content).value;
      var created := CreateEffect(made.state, full);
      if created.err.None? {
        var x := execute(t, vars);
        assert r == Step(WriteEffect(created.state, full, x.output), x.failure);
        assert made.state == FsState(s.files, s.dirs + Ancestors(Dir(full)));
        assert created.state == FsState(s.files[full := ""], made.state.dirs);
        assert Rendered(key, content, vars, parse, execute) == x.output;
        assert "" + x.output == x.output;
        assert WriteEffect(created.state, full, x.output).files == s.files[full := x.output];
      } else {
        assert r == created;
      }
    } else if made.err.None? {
      assert r.err == Some(parse(key, content).error);
    } else {
      assert r == made;
    }
  }

  /** A template that does not parse gets its parent directories but its
      file is neither created nor truncated. */
  lemma ParseFailureLeavesFile<C>(s: FsState, dest: string, key: string, content: string,
                                  vars: map<string, string>,
                                  parse: (string, string) -> Result<C>,
                                  execute: (C, map<string, string>) -> Execution)
    requires parse(key, content).Err?
    requires Ancestors(Dir(Join(dest, key))) !! s.files.Keys
    ensures var r := RenderOne(s, dest, key, content, vars, parse, execute);
            r.err == Some(parse(key, content).error)
            && r.state.files == s.files
            && r.state.dirs == s.dirs + Ancestors(Dir(Join(dest, key)))
  {
  }

  /** A template that fails while executing has already created or
      truncated its file, which keeps the partial output. */
  lemma ExecuteFailureKeepsPartialFile<C>(s: FsState, dest: string, key: string, content: string,
                                          vars: map<string, string>,
                                          parse: (string, string) -> Result<C>,
                                          execute: (C, map<string, string>) -> Execution)
    requires parse(key, content).Ok?
    requires execute(parse(key, content).value, vars).failure.Some?
    requires Ancestors(Dir(Join(dest, key))) !! s.files.Keys
    requires Join(dest, key) !in s.dirs + Ancestors(Dir(Join(dest, key)))
    ensures var r := RenderOne(s, dest, key, content, vars, parse, execute);
            r.err == execute(parse(key, content).value, vars).failure
            && r.state.files == s.files[Join(dest, key) := Rendered(key, content, vars, parse, execute)]
  {
    var full := Join(dest, key);
    var made := MkdirAllEffect(s, Dir(full));
    assert made.err.None? && made.state.dirs == s.dirs + Ancestors(Dir(full));
    var created := CreateEffect(made.state, full);
    assert created.err.None? && created.state.files == s.files[full := ""];
    var out := execute(parse(key, content).value, vars).output;
    assert Rendered(key, content, vars, parse, execute) == out;
    assert "" + out == out;
    assert WriteEffect(created.state, full, out).files == s.files[full := out];
  }

  /** Whatever the outcome, a render changes no file outside the outputs of
      its keys and creates no directory outside their ancestors. */
  lemma {:induction false} RenderFrame<C>(s: FsState, dest: string, files: map<string, string>,
                                          order: seq<string>, vars: map<string, string>,
                                          parse: (string, string) -> Result<C>,
                                          execute: (C, map<string, string>) -> Execution)
    requires forall k | k in order :: k in files
    ensures var r := RenderFiles(s, dest, files, order, vars, parse, execute);
            forall p | p !in OutPaths(dest, Elems(order)) ::
              (p in r.state.files <==> p in s.files) && (p in s.files ==> r.state.files[p] == s.files[p])
    ensures var r := RenderFiles(s, dest, files, order, vars, parse, execute);
            s.dirs <= r.state.dirs <= s.dirs + DirsFor(dest, Elems(order))
    decreases |order|
  {
    if order != [] {
      var init := order[..|order| - 1];
      var key := order[|order| - 1];
      ElemsSnoc(order);
      RenderFrame(s, dest, files, init, vars, parse, execute);
      var before := RenderFiles(s, dest, files, init, vars, parse, execute);
      assert Join(dest, key) in OutPaths(dest, Elems(order));
      assert OutPaths(dest, Elems(init)) <= OutPaths(dest, Elems(order));
      assert DirsFor(dest, Elems(init)) <= DirsFor(dest, Elems(order));
      if before.err.None? {
        RenderOneEffect(before.state, dest, key, files[key], vars, parse, execute);
        assert Ancestors(Dir(Join(dest, key))) <= DirsFor(dest, Elems(order));
      }
    }
  }

  /** The last key of `order` whose output path is `p`, if any. Two keys
      can share an output path, as "a" and "a/" do; the file at that path
      then holds the text of the one rendered last. */
  function LastWriter(dest: string, order: seq<string>, p: string): (w: Option<string>)
    ensures w.Some? ==> w.value in order && Join(dest, w.value) == p
    ensures w.Some? ==> exists i | 0 <= i < |order| ::
              order[i] == w.value && forall j | i < j < |order| :: Join(dest, order[j]) != p
    ensures w.None? ==> forall k | k in order :: Join(dest, k) != p
    decreases |order|
  {
    if order == [] then None
    else
      var init := order[..|order| - 1];
      assert order == init + [order[|order| - 1]];
      if Join(dest, order[|order| - 1]) == p then Some(order[|order| - 1])
      else
        var w := LastWriter(dest, init, p);
        assert w.Some? ==> exists i | 0 <= i < |init| ::
          order[i] == w.value && forall j | i < j < |order| :: Join(dest, order[j]) != p;
        w
  }

  /** No other key of `order` shares the output path of `k`. */
  predicate OwnPath(dest: string, order: seq<string>, k: string) {
    forall k2 | k2 in order :: Join(dest, k2) == Join(dest, k) ==> k2 == k
  }

  /** One more key in the order is the last writer of its own path and
      changes no other path's last writer. */
  lemma LastWriterSnoc(dest: string, init: seq<string>, key: string, p: string)
    ensures LastWriter(dest, init + [key], p)
            == if Join(dest, key) == p then Some(key) else LastWriter(dest, init, p)
  {
    assert (init + [key])[..|init + [key]| - 1] == init;
  }

  /** A key that shares its output path with no other key is the last
      writer of that path. */
  lemma LastWriterOwn(dest: string, order: seq<string>, k: string)
    requires k in order && OwnPath(dest, order, k)
    ensures LastWriter(dest, order, Join(dest, k)) == Some(k)
  {
  }

  /** A render that succeeds has parsed and executed every key, and the file
      at each key's output path holds the rendered text of the last key
      written there. */
  lemma {:induction false} RenderSucceeds<C>(s: FsState, dest: string, files: map<string, string>,
                                             order: seq<string>, vars: map<string, string>,
                                             parse: (string, string) -> Result<C>,
                                             execute: (C, map<string, string>) -> Execution)
    requires forall k | k in order :: k in files
    requires RenderFiles(s, dest, files, order, vars, parse, execute).err.None?
    ensures forall k | k in order :: Renders(k, files[k], vars, parse, execute)
    ensures var r := RenderFiles(s, dest, files, order, vars, parse, execute);
            forall k | k in order ::
              var w := LastWriter(dest, order, Join(dest, k));
              && w.Some? && w.value in files
              && Join(dest, k) in r.state.files
              && r.state.files[Join(dest, k)] == Rendered(w.value, files[w.value], vars, parse, execute)
    decreases |order|
  {
    if order != [] {
      var init := order[..|order| - 1];
      var key := order[|order| - 1];
      var before := RenderFiles(s, dest, files, init, vars, parse, execute);
      var r := RenderFiles(s, dest, files, order, vars, parse, execute);
      assert order == init + [key];
      assert before.err.None?;
      assert r == RenderOne(before.state, dest, key, files[key], vars, parse, execute);
      RenderSucceeds(s, dest, files, init, vars, parse, execute);
      RenderOneEffect(before.state, dest, key, files[key], vars, parse, execute);
      forall k | k in order
        ensures Renders(k, files[k], vars, parse, execute)
      {
        if k != key {
          assert k in init;
        }
      }
      forall k | k in order
        ensures var w := LastWriter(dest, order, Join(dest, k));
                && w.Some? && w.value in files
                && Join(dest, k) in r.state.files
                && r.state.files[Join(dest, k)] == Rendered(w.value, files[w.value], vars, parse, execute)
      {
        LastWriterSnoc(dest, init, key, Join(dest, k));
        if Join(dest, k) != Join(dest, key) {
          assert k in init;
          var w := LastWriter(dest, init, Join(dest, k));
          assert LastWriter(dest, order, Join(dest, k)) == w;
          assert before.state.files[Join(dest, k)] == Rendered(w.value, files[w.value], vars, parse, execute);
          assert r.state.files[Join(dest, k)] == before.state.files[Join(dest, k)];
        } else {
          assert LastWriter(dest, order, Join(dest, k)) == Some(key);
          assert r.state.files[Join(dest, key)] == Rendered(key, files[key], vars, parse, execute);
        }
      }
    }
  }

  /** After a successful render, a key that shares its output path with no
      other key finds its own rendered text there. */
  lemma RenderSucceedsOwnPath<C>(s: FsState, dest: string, files: map<string, string>,
                                 order: seq<string>, vars: map<string, string>,
                                 parse: (string, string) -> Result<C>,
                                 execute: (C, map<string, string>) -> Execution)
    requires forall k | k in order :: k in files
    requires RenderFiles(s, dest, files, order, vars, parse, execute).err.None?
    ensures var r := RenderFiles(s, dest, files, order, vars, parse, execute);
            forall k | k in order && OwnPath(dest, order, k) ::
              Join(dest, k) in r.state.files
              && r.state.files[Join(dest, k)] == Rendered(k, files[k], vars, parse, execute)
  {
    RenderSucceeds(s, dest, files, order, vars, parse, execute);
    forall k | k in order && OwnPath(dest, order, k)
      ensures LastWriter(dest, order, Join(dest, k)) == Some(k)
    {
      LastWriterOwn(dest, order, k);
    }
  }

  /** The directories a render of the keys of `order` creates, key by key. */
  function DirsAlong(dest: string, order: seq<string>): set<string>
    decreases |order|
  {
    if order == [] then {}
    else DirsAlong(dest, order[..|order| - 1]) + Ancestors(Dir(Join(dest, order[|order| - 1])))
  }

  /** Creating the directories key by key gives those of the whole key set. */
  lemma {:induction false} DirsAlongIsDirsFor(dest: string, order: seq<string>)
    ensures DirsAlong(dest, order) == DirsFor(dest, Elems(order))
    decreases |order|
  {
    if order != [] {
      var init := order[..|order| - 1];
      var key := order[|order| - 1];
      DirsAlongIsDirsFor(dest, init);
      ElemsSnoc(order);
      DirsForAdd(dest, Elems(init), key);
      assert DirsAlong(dest, order) == DirsAlong(dest, init) + Ancestors(Dir(Join(dest, key)));
    }
  }

  /** The directories after a successful render, key by key. */
  lemma {:induction false} RenderSucceedsDirsAlong<C>(s: FsState, dest: string, files: map<string, string>,
                                                      order: seq<string>, vars: map<string, string>,
                                                      parse: (string, string) -> Result<C>,
                                                      execute: (C, map<string, string>) -> Execution)
    requires forall k | k in order :: k in files
    requires RenderFiles(s, dest, files, order, vars, parse, execute).err.None?
    ensures RenderFiles(s, dest, files, order, vars, parse, execute).state.dirs
            == s.dirs + DirsAlong(dest, order)
    decreases |order|
  {
    if order != [] {
      var init := order[..|order| - 1];
      var key := order[|order| - 1];
      var before := RenderFiles(s, dest, files, init, vars, parse, execute);
      assert before.err.None?;
      RenderSucceedsDirsAlong(s, dest, files, init, vars, parse, execute);
      RenderOneEffect(before.state, dest, key, files[key], vars, parse, execute);
    }
  }

  /** A render that succeeds creates exactly the ancestors of its output
      files as directories. */
  lemma RenderSucceedsDirs<C>(s: FsState, dest: string, files: map<string, string>,
                              order: seq<string>, vars: map<string, string>,
                              parse: (string, string) -> Result<C>,
                              execute: (C, map<string, string>) -> Execution)
    requires forall k | k in order :: k in files
    requires RenderFiles(s, dest, files, order, vars, parse, execute).err.None?
    ensures RenderFiles(s, dest, files, order, vars, parse, execute).state.dirs
            == s.dirs + DirsFor(dest, Elems(order))
  {
    RenderSucceedsDirsAlong(s, dest, files, order, vars, parse, execute);
    DirsAlongIsDirsFor(dest, order);
  }

  /** A render that fails at the last key of `order` (RenderTemplate stops
      right there): the error and state are that key's iteration on the
      state the earlier keys left; every earlier key rendered, and the files
      they wrote stay on disk with the rendered text, except where the
      failing key shares their path. */
  lemma {:induction false} RenderStopsAtFirstFailure<C>(
    s: FsState, dest: string, files: map<string, string>, order: seq<string>,
    vars: map<string, string>, parse: (string, string) -> Result<C>,
    execute: (C, map<string, string>) -> Execution)
    requires forall k | k in order :: k in files
    requires Distinct(order)
    requires order != []
    requires RenderFiles(s, dest, files, order[..|order| - 1], vars, parse, execute).err.None?
    requires RenderFiles(s, dest, files, order, vars, parse, execute).err.Some?
    ensures var init := order[..|order| - 1];
            var key := order[|order| - 1];
            var before := RenderFiles(s, dest, files, init, vars, parse, execute);
            RenderOne(before.state, dest, key, files[key], vars, parse, execute)
               == RenderFiles(s, dest, files, order, vars, parse, execute)
    ensures forall k | k in order[..|order| - 1] :: Renders(k, files[k], vars, parse, execute)
    ensures var init := order[..|order| - 1];
            var r := RenderFiles(s, dest, files, order, vars, parse, execute);
            forall k | k in init && Join(dest, k) != Join(dest, order[|order| - 1]) ::
              var w := LastWriter(dest, init, Join(dest, k));
              && w.Some? && w.value in files
              && Join(dest, k) in r.state.files
              && r.state.files[Join(dest, k)] == Rendered(w.value, files[w.value], vars, parse, execute)
    ensures var r := RenderFiles(s, dest, files, order, vars, parse, execute);
            forall k | k in order[..|order| - 1] && OwnPath(dest, order, k) ::
              Join(dest, k) in r.state.files
              && r.state.files[Join(dest, k)] == Rendered(k, files[k], vars, parse, execute)
  {
    var init := order[..|order| - 1];
    var key := order[|order| - 1];
    RenderSucceeds(s, dest, files, init, vars, parse, execute);
    FailureKeepsEarlierFiles(s, dest, files, order, vars, parse, execute);
    FailureKeepsOwnFiles(s, dest, files, order, vars, parse, execute);
  }

  /** The own-path half of RenderStopsAtFirstFailure. */
  lemma FailureKeepsOwnFiles<C>(
    s: FsState, dest: string, files: map<string, string>, order: seq<string>,
    vars: map<string, string>, parse: (string, string) -> Result<C>,
    execute: (C, map<string, string>) -> Execution)
    requires forall k | k in order :: k in files
    requires Distinct(order)
    requires order != []
    requires RenderFiles(s, dest, files, order[..|order| - 1], vars, parse, execute).err.None?
    ensures var r := RenderFiles(s, dest, files, order, vars, parse, execute);
            forall k | k in order[..|order| - 1] && OwnPath(dest, order, k) ::
              Join(dest, k) in r.state.files
              && r.state.files[Join(dest, k)] == Rendered(k, files[k], vars, parse, execute)
  {
    var init := order[..|order| - 1];
    var key := order[|order| - 1];
    var r := RenderFiles(s, dest, files, order, vars, parse, execute);
    FailureKeepsEarlierFiles(s, dest, files, order, vars, parse, execute);
    forall k | k in init && OwnPath(dest, order, k)
      ensures Join(dest, k) in r.state.files
              && r.state.files[Join(dest, k)] == Rendered(k, files[k], vars, parse, execute)
    {
      var i :| 0 <= i < |init| && init[i] == k;
      assert order[i] == k;
      assert k != key;
      assert Join(dest, k) != Join(dest, key);
      assert OwnPath(dest, init, k) by {
        assert forall k2 | k2 in init :: k2 in order;
      }
      LastWriterOwn(dest, init, k);
    }
  }

  /** The step behind RenderStopsAtFirstFailure: after a successful render
      of all keys but the last, rendering the last (whatever its outcome)
      leaves every path other than its own with the text of that path's
      last writer. */
  lemma FailureKeepsEarlierFiles<C>(
    s: FsState, dest: string, files: map<string, string>, order: seq<string>,
    vars: map<string, string>, parse: (string, string) -> Result<C>,
    execute: (C, map<string, string>) -> Execution)
    requires forall k | k in order :: k in files
    requires order != []
    requires RenderFiles(s, dest, files, order[..|order| - 1], vars, parse, execute).err.None?
    ensures var before := RenderFiles(s, dest, files, order[..|order| - 1], vars, parse, execute);
            RenderOne(before.state, dest, order[|order| - 1], files[order[|order| - 1]], vars, parse, execute)
              == RenderFiles(s, dest, files, order, vars, parse, execute)
    ensures var r := RenderFiles(s, dest, files, order, vars, parse, execute);
            forall k | k in order[..|order| - 1] && Join(dest, k) != Join(dest, order[|order| - 1]) ::
              var w := LastWriter(dest, order[..|order| - 1], Join(dest, k));
              && w.Some? && w.value in files
              && Join(dest, k) in r.state.files
              && r.state.files[Join(dest, k)] == Rendered(w.value, files[w.value], vars, parse, execute)
  {
    var init := order[..|order| - 1];
    var key := order[|order| - 1];
    var before := RenderFiles(s, dest, files, init, vars, parse, execute);
    var r := RenderFiles(s, dest, files, order, vars, parse, execute);
    assert r == RenderOne(before.state, dest, key, files[key], vars, parse, execute);
    RenderSucceeds(s, dest, files, init, vars, parse, execute);
    RenderOneEffect(before.state, dest, key, files[key], vars, parse, execute);
    forall k | k in init && Join(dest, k) != Join(dest, key)
      ensures var w := LastWriter(dest, init, Join(dest, k));
              && w.Some? && w.value in files
              && Join(dest, k) in r.state.files
              && r.state.files[Join(dest, k)] == Rendered(w.value, files[w.value], vars, parse, execute)
    {
      assert Join(dest, k) in before.state.files;
    }
  }

  lemma DirsForAdd(dest: string, keys: set<string>, key: string)
    ensures DirsFor(dest, keys + {key}) == DirsFor(dest, keys) + Ancestors(Dir(Join(dest, key)))
  {
  }

  /** A key that owns its output path under two successful renders finds
      the same text there after both. */
  lemma OwnOutputAgrees<C>(s: FsState, dest: string, files: map<string, string>,
                           order1: seq<string>, order2: seq<string>, k: string,
                           vars: map<string, string>,
                           parse: (string, string) -> Result<C>,
                           execute: (C, map<string, string>) -> Execution)
    requires forall k | k in order1 :: k in files
    requires forall k | k in order2 :: k in files
    requires k in order1 && OwnPath(dest, order1, k)
    requires k in order2 && OwnPath(dest, order2, k)
    requires RenderFiles(s, dest, files, order1, vars, parse, execute).err.None?
    requires RenderFiles(s, dest, files, order2, vars, parse, execute).err.None?
    ensures var f1 := RenderFiles(s, dest, files, order1, vars, parse, execute).state.files;
            var f2 := RenderFiles(s, dest, files, order2, vars, parse, execute).state.files;
            Join(dest, k) in f1 && Join(dest, k) in f2 && f1[Join(dest, k)] == f2[Join(dest, k)]
  {
    RenderSucceedsOwnPath(s, dest, files, order1, vars, parse, execute);
    RenderSucceedsOwnPath(s, dest, files, order2, vars, parse, execute);
  }

  /** Map iteration order does not matter for a render that succeeds: two
      orders of the same keys that both succeed leave the same file system. */
  lemma RenderOrderIrrelevant<C>(s: FsState, dest: string, files: map<string, string>,
                                 order1: seq<string>, order2: seq<string>,
                                 vars: map<string, string>,
                                 parse: (string, string) -> Result<C>,
                                 execute: (C, map<string, string>) -> Execution)
    requires forall k | k in order1 :: k in files
    requires forall k | k in order2 :: k in files
    requires Elems(order1) == Elems(order2)
    requires forall k | k in order1 :: OwnPath(dest, order1, k)
    requires RenderFiles(s, dest, files, order1, vars, parse, execute).err.None?
    requires RenderFiles(s, dest, files, order2, vars, parse, execute).err.None?
    ensures RenderFiles(s, dest, files, order1, vars, parse, execute).state
            == RenderFiles(s, dest, files, order2, vars, parse, execute).state
  {
    RenderedFilesAgree(s, dest, files, order1, order2, vars, parse, execute);
    RenderSucceedsDirs(s, dest, files, order1, vars, parse, execute);
    RenderSucceedsDirs(s, dest, files, order2, vars, parse, execute);
  }

  /** The file half of RenderOrderIrrelevant: both renders leave the same
      files. */
  lemma RenderedFilesAgree<C>(s: FsState, dest: string, files: map<string, string>,
                              order1: seq<string>, order2: seq<string>,
                              vars: map<string, string>,
                              parse: (string, string) -> Result<C>,
                              execute: (C, map<string, string>) -> Execution)
    requires forall k | k in order1 :: k in files
    requires forall k | k in order2 :: k in files
    requires Elems(order1) == Elems(order2)
    requires forall k | k in order1 :: OwnPath(dest, order1, k)
    requires RenderFiles(s, dest, files, order1, vars, parse, execute).err.None?
    requires RenderFiles(s, dest, files, order2, vars, parse, execute).err.None?
    ensures RenderFiles(s, dest, files, order1, vars, parse, execute).state.files
            == RenderFiles(s, dest, files, order2, vars, parse, execute).state.files
  {
    var f1 := RenderFiles(s, dest, files, order1, vars, parse, execute).state.files;
    var f2 := RenderFiles(s, dest, files, order2, vars, parse, execute).state.files;
    forall k ensures k in order1 <==> k in order2 {
      assert k in order1 <==> k in Elems(order1);
      assert k in order2 <==> k in Elems(order2);
    }
    assert forall k | k in order2 :: OwnPath(dest, order2, k);
    forall p
      ensures (p in f1 <==> p in f2) && (p in f1 ==> f1[p] == f2[p])
    {
      FileAgreesAt(s, dest, files, order1, order2, p, vars, parse, execute);
    }
  }

  /** RenderedFilesAgree at one path. */
  lemma FileAgreesAt<C>(s: FsState, dest: string, files: map<string, string>,
                        order1: seq<string>, order2: seq<string>, p: string,
                        vars: map<string, string>,
                        parse: (string, string) -> Result<C>,
                        execute: (C, map<string, string>) -> Execution)
    requires forall k | k in order1 :: k in files
    requires forall k | k in order2 :: k in files
    requires Elems(order1) == Elems(order2)
    requires forall k | k in order1 :: k in order2 && OwnPath(dest, order1, k)
    requires forall k | k in order2 :: OwnPath(dest, order2, k)
    requires RenderFiles(s, dest, files, order1, vars, parse, execute).err.None?
    requires RenderFiles(s, dest, files, order2, vars, parse, execute).err.None?
    ensures var f1 := RenderFiles(s, dest, files, order1, vars, parse, execute).state.files;
            var f2 := RenderFiles(s, dest, files, order2, vars, parse, execute).state.files;
            (p in f1 <==> p in f2) && (p in f1 ==> f1[p] == f2[p])
  {
    if p in OutPaths(dest, Elems(order1)) {
      var k :| k in Elems(order1) && p == Join(dest, k);
      OwnOutputAgrees(s, dest, files, order1, order2, k, vars, parse, execute);
    } else {
      RenderFrame(s, dest, files, order1, vars, parse, execute);
      RenderFrame(s, dest, files, order2, vars, parse, execute);
    }
  }
}
