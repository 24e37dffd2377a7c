/**
 * `GetRepositoryUrl` (Program.cs:134-157): each non-empty candidate is sent
 * through `GetFinalRedirectUrlAsync`, a candidate whose resolution throws
 * becomes "", and the resolved repository URL wins over the resolved project
 * URL unless it is empty.
 */
module Redirects {
  import opened Wrappers

  /**
   * `GetFinalRedirectUrlAsync` (Program.cs:159-169), an HTTP HEAD request
   * seen from outside: `Some(final)` for the URL it returns, `None` when it throws.
   */
  type Resolver = string -> Option<string>

  /** One candidate after its try/catch: "" stays "" without a request, a throw degrades to "". */
  function Resolve(resolver: Resolver, candidate: string): (r: string)
    ensures candidate == "" ==> r == ""
    ensures candidate != "" ==> r == (if resolver(candidate).Some? then resolver(candidate).value else "")
  {
    if candidate == "" then ""
    else match resolver(candidate)
      case None => ""
      case Some(final) => final
  }

  /** The URL `GetRepositoryUrl` returns for project URL `str1` and repository URL `str2`. */
  function RepositoryUrl(resolver: Resolver, str1: string, str2: string): (url: string)
    ensures Resolve(resolver, str2) != "" ==> url == Resolve(resolver, str2)
    ensures Resolve(resolver, str2) == "" ==> url == Resolve(resolver, str1)
    ensures url == "" || (str2 != "" && resolver(str2) == Some(url)) || (str1 != "" && resolver(str1) == Some(url))
  {
    var r2 := Resolve(resolver, str2);
    if r2 == "" then Resolve(resolver, str1) else r2
  }

  /**
   * The resolved repository URL when it is non-empty, the resolved project
   * URL otherwise; the answer is "" or what the resolver returned for a
   * non-empty candidate.
   */
  method GetRepositoryUrl(resolver: Resolver, str1: string, str2: string) returns (url: string)
    ensures url == RepositoryUrl(resolver, str1, str2)
    ensures str2 != "" && resolver(str2).Some? && resolver(str2).value != "" ==> url == resolver(str2).value
    ensures str2 == "" || resolver(str2).None? || resolver(str2) == Some("") ==> url == Resolve(resolver, str1)
    ensures url == "" || (str2 != "" && resolver(str2) == Some(url)) || (str1 != "" && resolver(str1) == Some(url))
  {
    var project := str1;
    if project != "" {
      var resolved := resolver(project);
      project := if resolved.Some? then resolved.value else "";
    }
    var repository := str2;
    if repository != "" {
      var resolved := resolver(repository);
      repository := if resolved.Some? then resolved.value else "";
    }
    url := if repository == "" then project else repository;
  }
}
