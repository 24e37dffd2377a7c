/** The exceptions of the generator that abort the whole run (nothing is printed then). */
module Failures {

  datatype Failure =
    /** `.First()` on an empty version list (Program.cs:54-56). */
    | NoVersions(packageId: string)
    /** `repos[1]` on a GitHub path with fewer than two segments (Program.cs:108-110). */
    | MissingRepositorySegment(reposUrl: string)
    /** `GetLicenseContents(owner, repo)` threw, e.g. NotFound (Program.cs:112). */
    | LicenseLookupFailed(owner: string, repo: string)
    /** `GetStringAsync(downloadUrl)` threw (Program.cs:113). */
    | DownloadFailed(downloadUrl: string)
}
