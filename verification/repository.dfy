/**
 Opening a project's repository (repository.go): the version control
 system checks the project, and on success the repository records the
 project path and the path of the repository directory.
 */
module Repositories {
  import opened Wrappers
  import opened Errors
  import opened GitCommands

  /**
   A repository: the version control system (git is the only
   implementation; `None` is Go's nil interface of the zero value), the
   project path and the repository directory's path.
   */
  datatype Repository = Repository(cmd: Option<Git>, projectPath: string, repositoryPath: string)

  /** Go's zero `Repository`. */
  const ZeroRepository := Repository(None, "", "")

  datatype Opened = Opened(repo: Repository, err: Option<Error>)

  /**
   `NewRepository`: when the check fails, the zero repository and the
   check's error; otherwise the project's repository and no error.
   */
  function NewRepository(projectPath: string, vcs: Git, sep: char, stat: string -> StatResult): (r: Opened)
    ensures r.err == CheckRepository(vcs, projectPath, sep, stat)
    ensures r.err.Some? ==> r.repo == ZeroRepository
    ensures r.err.None? ==> r.repo != ZeroRepository && r.repo.cmd == Some(vcs) && r.repo.projectPath == projectPath
    ensures r.err.None? ==> r.repo.repositoryPath == MarkerPath(vcs, projectPath, sep)
  {
    var err := CheckRepository(vcs, projectPath, sep, stat);
    if err.Some? then Opened(ZeroRepository, err)
    else Opened(Repository(Some(vcs), projectPath, projectPath + [sep] + RepositoryPathname(vcs)), None)
  }

  /**
   A repository is opened exactly when the repository directory exists, and
   its recorded path is the project path, the separator and `.git`: the very
   path that was checked.
   */
  lemma NewRepositoryOpensIff(projectPath: string, vcs: Git, sep: char, stat: string -> StatResult)
    ensures NewRepository(projectPath, vcs, sep, stat).err.None? <==> stat(MarkerPath(vcs, projectPath, sep)) == Found(true)
    ensures var r := NewRepository(projectPath, vcs, sep, stat).repo;
      r.cmd.Some? ==>
        && stat(r.repositoryPath) == Found(true)
        && r.repositoryPath[..|projectPath|] == projectPath
        && r.repositoryPath[|projectPath|] == sep
        && r.repositoryPath[|projectPath| + 1..] == ".git"
  {
  }

  /** The repository is opened under the path it was asked for, and different projects never share a repository path. */
  lemma NewRepositoryDistinct(p1: string, p2: string, vcs: Git, sep: char, stat: string -> StatResult)
    requires NewRepository(p1, vcs, sep, stat).err.None? && NewRepository(p2, vcs, sep, stat).err.None?
    requires p1 != p2
    ensures NewRepository(p1, vcs, sep, stat).repo.repositoryPath != NewRepository(p2, vcs, sep, stat).repo.repositoryPath
  {
    if MarkerPath(vcs, p1, sep) == MarkerPath(vcs, p2, sep) {
      MarkerPathInjective(vcs, p1, p2, sep);
    }
  }

  /** A stat failure comes back unchanged, with the zero repository. */
  lemma StatFailurePassedOn(projectPath: string, vcs: Git, sep: char, stat: string -> StatResult, e: Error)
    requires stat(MarkerPath(vcs, projectPath, sep)) == StatFailed(e)
    ensures NewRepository(projectPath, vcs, sep, stat) == Opened(ZeroRepository, Some(e))
  {
  }
}
