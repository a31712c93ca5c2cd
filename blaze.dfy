/**
 * The build-system values the AAR cache consumes: resolved artifacts and the
 * libraries a project declares. Artifact resolution and library collection are
 * done by collaborators; their results are given here as plain values.
 */
module Blaze {
  import opened Wrappers

  /**
   * A resolved artifact. Every kind but `RemoteOutput` is a local-file artifact,
   * with a path and a modification time.
   */
  datatype Artifact =
    | LocalOutput(key: string, path: string, mtime: int)  // an output artifact present on disk
    | RemoteOutput(key: string)                           // an output artifact that must be fetched
    | Source(path: string, mtime: int)                    // a source file of the workspace
    | OtherLocal(path: string, mtime: int)                // a local file of neither kind
  {
    predicate IsLocal() {
      !RemoteOutput?
    }
  }

  /** An AAR library: its key, its archive and, when it has a library artifact, the jar for the IDE. */
  datatype AarLibrary = AarLibrary(key: string, aar: Artifact, jar: Option<Artifact>)

  datatype Library = Aar(lib: AarLibrary) | NonAar(name: string)
}
