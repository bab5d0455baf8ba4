/** The part of the operating system's file system that RenderTemplate
    changes: regular files with their contents, and directories. */
module FileSystem {
  import opened Wrappers
  import opened Paths

  /** A snapshot of the file system: path to content, and the set of
      directories. */
  datatype FsState = FsState(files: map<string, string>, dirs: set<string>)

  /** No path is both a file and a directory. */
  ghost predicate WellFormed(s: FsState) {
    s.files.Keys !! s.dirs
  }

  /** A state and the error, if any, of one file-system operation. */
  datatype Step = Step(state: FsState, err: Option<Error>)

  /** os.MkdirAll(d): fails when `d` or one of its ancestors is a regular
      file, and then creates nothing; otherwise all of them are directories
      afterwards. */
  function MkdirAllEffect(s: FsState, d: string): Step {
    if Ancestors(d) !! s.files.Keys then Step(FsState(s.files, s.dirs + Ancestors(d)), None)
    else Step(s, Some(NotADirectory(d)))
  }

  /** os.Create(p): fails on a directory or in a missing directory;
      otherwise `p` is an empty file afterwards (created or truncated). */
  function CreateEffect(s: FsState, p: string): Step {
    if p in s.dirs then Step(s, Some(IsADirectory(p)))
    else if Dir(p) !in s.dirs then Step(s, Some(NoSuchDirectory(p)))
    else Step(FsState(s.files[p := ""], s.dirs), None)
  }

  /** Writing `data` to the open file `p` appends it. */
  function WriteEffect(s: FsState, p: string, data: string): FsState
    requires p in s.files
  {
    FsState(s.files[p := s.files[p] + data], s.dirs)
  }

  /** The file system as a mutable object. */
  class FileSystem {
    var files: map<string, string>
    var dirs: set<string>

    ghost predicate Valid()
      reads this
    {
      WellFormed(State())
    }

    function State(): FsState
      reads this
    {
      FsState(files, dirs)
    }

    constructor (initial: FsState)
      requires WellFormed(initial)
      ensures Valid() && State() == initial
    {
      files := initial.files;
      dirs := initial.dirs;
    }

    method MkdirAll(d: string) returns (err: Option<Error>)
      requires Valid()
      modifies this
      ensures Valid()
      ensures Step(State(), err) == MkdirAllEffect(old(State()), d)
    {
      if Ancestors(d) !! files.Keys {
        dirs := dirs + Ancestors(d);
        err := None;
      } else {
        err := Some(NotADirectory(d));
      }
    }

    method Create(p: string) returns (err: Option<Error>)
      requires Valid()
      modifies this
      ensures Valid()
      ensures Step(State(), err) == CreateEffect(old(State()), p)
    {
      if p in dirs {
        err := Some(IsADirectory(p));
      } else if Dir(p) !in dirs {
        err := Some(NoSuchDirectory(p));
      } else {
        files := files[p := ""];
        err := None;
      }
    }

    method Write(p: string, data: string)
      requires Valid() && p in files
      modifies this
      ensures Valid()
      ensures State() == WriteEffect(old(State()), p, data)
    {
      files := files[p := files[p] + data];
    }
  }
}
