/** The records the repository directory service returns (gitHubService.ts),
    and the results of its two calls as the orchestrator sees them. The HTTPS
    transport and the JSON decoding are not part of this model: a call
    either yields the decoded value or fails with the error's text. */
module GitHub {
  import opened Base

  /** One entry of `GET /users/{username}/repos?page={n}&per_page=30`. */
  datatype RepoResult = RepoResult(
    id: int,
    name: string,
    fullName: string,
    fork: bool,
    cloneUrl: string)

  /** The answer of `GET /repos/{username}/{name}`: a summary plus the parent
      (absent for a repository that is not a fork) and the default branch. */
  datatype DetailedRepoResult = DetailedRepoResult(
    id: int,
    name: string,
    fullName: string,
    fork: bool,
    cloneUrl: string,
    parent: Option<RepoResult>,
    defaultBranch: string)

  /** The outcome of `getRepos(username, page)`. */
  datatype PageResult = Page(repos: seq<RepoResult>) | PageFailed(text: string)

  /** The outcome of `getRepo(username, name)`. */
  datatype DetailResult = Detail(repo: DetailedRepoResult) | DetailFailed(text: string)
}
