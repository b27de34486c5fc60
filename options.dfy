/** The command-line options (options.ts). The three required options may be
    missing (`null` or `undefined`), which `Option` models; `appName`,
    `version` and `homepage` come from package.json and are plain values here. */
module Settings {
  import opened Base

  datatype Options = Options(
    username: Option<string>,
    directoryPath: Option<string>,
    apiToken: Option<string>,
    appName: string,
    version: string,
    homepage: string)

  /** JavaScript's `!!v` for a string that may be missing: `null`,
      `undefined` and the empty string are falsy. */
  predicate Truthy(v: Option<string>) {
    v.Some? && v.value != ""
  }

  /** `Options.isValid()`: each required option passes `!!x && x.length > 0`. */
  predicate IsValid(o: Options)
    ensures IsValid(o) <==>
      && o.username.Some? && |o.username.value| > 0
      && o.apiToken.Some? && |o.apiToken.value| > 0
      && o.directoryPath.Some? && |o.directoryPath.value| > 0
  {
    && Truthy(o.username) && |o.username.value| > 0
    && Truthy(o.apiToken) && |o.apiToken.value| > 0
    && Truthy(o.directoryPath) && |o.directoryPath.value| > 0
  }

  /** Validity is decided by the three required options alone. */
  lemma IsValidIgnoresPackageFields(o: Options, appName: string, version: string, homepage: string)
    ensures IsValid(o.(appName := appName, version := version, homepage := homepage)) == IsValid(o)
  {
  }
}
