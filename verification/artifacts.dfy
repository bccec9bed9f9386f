/** The two download artifacts derived from a repository URL: the ZIP archive
    link (which always names the `master` branch) and the clone command. */
module Artifacts {
  import opened Text
  import opened Wrappers

  const ArchiveSuffix := "/archive/refs/heads/master.zip"
  const ClonePrefix := "git clone "
  const GitSuffix := ".git"

  /** `getDownloadUrl`: the repository followed by the archive path. */
  function DownloadUrl(repo: string): (u: string)
    ensures |u| == |repo| + 30
    ensures IsPrefix(repo, u)
    ensures IsSuffix(ArchiveSuffix, u)
  {
    repo + ArchiveSuffix
  }

  /** `getCloneCommand`: the clone verb, the repository, then ".git". */
  function CloneCommand(repo: string): (c: string)
    ensures |c| == |repo| + 14
    ensures IsPrefix(ClonePrefix, c)
    ensures IsSuffix(GitSuffix, c)
    ensures c[|ClonePrefix|..|c| - |GitSuffix|] == repo
  {
    ClonePrefix + repo + GitSuffix
  }

  /** Recovers the repository from a download link; `None` for any string that
      does not end in the archive path. */
  function RepositoryOfDownloadUrl(u: string): (r: Option<string>)
    ensures r.Some? <==> IsSuffix(ArchiveSuffix, u)
    ensures r.Some? ==> |r.value| == |u| - 30
  {
    if IsSuffix(ArchiveSuffix, u) then Some(u[..|u| - |ArchiveSuffix|]) else None
  }

  /** Recovers the repository from a clone command; `None` for any string
      without the clone prefix and the ".git" suffix. */
  function RepositoryOfCloneCommand(c: string): (r: Option<string>)
    ensures r.Some? <==> |c| >= 14 && IsPrefix(ClonePrefix, c) && IsSuffix(GitSuffix, c)
    ensures r.Some? ==> |r.value| == |c| - 14
  {
    if |c| >= |ClonePrefix| + |GitSuffix| && IsPrefix(ClonePrefix, c) && IsSuffix(GitSuffix, c)
    then Some(c[|ClonePrefix|..|c| - |GitSuffix|])
    else None
  }

  /** Every download link names the repository it came from. */
  lemma DownloadUrlRoundTrip(repo: string)
    ensures RepositoryOfDownloadUrl(DownloadUrl(repo)) == Some(repo)
  {
    assert DownloadUrl(repo)[..|repo|] == repo;
  }

  /** Every string that parses as a download link is the link of what it parses to. */
  lemma DownloadUrlParseRoundTrip(u: string)
    requires RepositoryOfDownloadUrl(u).Some?
    ensures DownloadUrl(RepositoryOfDownloadUrl(u).value) == u
  {
    var repo := u[..|u| - |ArchiveSuffix|];
    assert repo + u[|u| - |ArchiveSuffix|..] == u;
  }

  /** Distinct repositories never share a download link. */
  lemma DownloadUrlInjective(a: string, b: string)
    requires DownloadUrl(a) == DownloadUrl(b)
    ensures a == b
  {
    DownloadUrlRoundTrip(a);
    DownloadUrlRoundTrip(b);
  }

  lemma CloneCommandRoundTrip(repo: string)
    ensures RepositoryOfCloneCommand(CloneCommand(repo)) == Some(repo)
  {
    var c := CloneCommand(repo);
    assert c[..|ClonePrefix|] == ClonePrefix;
  }

  lemma CloneCommandParseRoundTrip(c: string)
    requires RepositoryOfCloneCommand(c).Some?
    ensures CloneCommand(RepositoryOfCloneCommand(c).value) == c
  {
    var repo := c[|ClonePrefix|..|c| - |GitSuffix|];
    assert c[..|ClonePrefix|] + repo + c[|c| - |GitSuffix|..] == c;
  }

  /** Distinct repositories never share a clone command. */
  lemma CloneCommandInjective(a: string, b: string)
    requires CloneCommand(a) == CloneCommand(b)
    ensures a == b
  {
    CloneCommandRoundTrip(a);
    CloneCommandRoundTrip(b);
  }
}
