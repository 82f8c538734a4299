/** The package record the front end filters, classifies, sorts and groups. */
module Packages {
  import opened Text

  /** One catalog entry. `name` is a required string; every other descriptive field
      may be missing, and `None` and `Some("")` are both falsy, as in JavaScript. */
  datatype Package = Package(
    key: string,
    name: string,
    version: string,
    pkgType: Option<string>,
    architecture: Option<string>,
    description: Option<string>,
    maintainer: Option<string>,
    license: Option<string>,
    sourceRepo: Option<string>)

  /** `pkg.architecture || 'unknown'`. */
  function ArchOrUnknown(p: Package): string { OrElse(p.architecture, "unknown") }

  /** `pkg.maintainer || 'unknown'`. */
  function MaintainerOrUnknown(p: Package): string { OrElse(p.maintainer, "unknown") }

  /** `pkg.license || 'unknown'`. */
  function LicenseOrUnknown(p: Package): string { OrElse(p.license, "unknown") }

  /** `pkg._source_repo || 'unknown'`. */
  function SourceOrUnknown(p: Package): string { OrElse(p.sourceRepo, "unknown") }
}
