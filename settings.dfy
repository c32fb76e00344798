/**
 * The package's configuration and what the host reports about the active
 * project. Both are read fresh before every decision, so the model passes them
 * in as values.
 */
module Settings {
  import opened Wrappers

  /** The five `atom-standard-formatter.*` settings. */
  datatype Config = Config(
    formatOnSave: bool,
    style: string,
    checkStyleDevDependencies: bool,
    honorPackageConfig: bool,
    usePrettier: bool)

  /** The defaults declared by the package's config schema. */
  const DEFAULTS: Config := Config(
    formatOnSave := false,
    style := "standard",
    checkStyleDevDependencies := false,
    honorPackageConfig := true,
    usePrettier := true)

  /** A `standard` / `semistandard` section of package.json; only `ignore` is used. */
  datatype PackageConfig = PackageConfig(ignore: Option<seq<string>>)

  /**
   * What pkg-config finds from the active editor's path: the `devDependencies`
   * section (package name to version string), and any other section by name.
   * `None` is a lookup that finds nothing.
   */
  datatype Project = Project(
    devDependencies: Option<map<string, string>>,
    section: string -> Option<PackageConfig>)
}
