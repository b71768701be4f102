/** `GithubUrl` in src/repo_radar/models/github_url.py: a repository URL
    found in text, with its owner and repository name. */
module GitHubUrls {
  datatype GithubUrl = GithubUrl(fullUrl: string, orgUser: string, repo: string)
}
