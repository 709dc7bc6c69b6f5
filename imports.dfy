/**
 * What the importers hand to the import pipeline (src/import/mod.rs), in the
 * shape the importers themselves build it: a remote file or archive with the
 * request headers to send, or a remote file whose kind is decided later.
 */
module Imports {
  import opened Wrappers

  /** Request headers by lower-case name. */
  type Headers = map<string, string>

  datatype ImportSource =
    | RemoteHttp(url: string, headers: Option<Headers>)
    | RemoteHttpArchive(url: string, headers: Option<Headers>)
    | RemoteHttpAuto(url: string)

  /** `ImportError`, keeping the variants the importers raise; `Other` carries the report's message. */
  datatype ImportError =
    | RequestError(reason: string)
    | GameNotFound
    | Other(message: string)
}
