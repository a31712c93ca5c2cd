/** The work item that pairs an archive with its optional jar and its library key. */
module Records {
  import opened Wrappers
  import opened Blaze

  /**
   * One declared AAR to cache. Only `jar` may be absent; the archive and the
   * library key are always present (the source's value class rejects null for them).
   */
  datatype AarAndJar = AarAndJar(aar: Artifact, jar: Option<Artifact>, libraryKey: string)

  /** The factory: each accessor gives back what was passed in. */
  function Create(aar: Artifact, jar: Option<Artifact>, libraryKey: string): (r: AarAndJar)
    ensures r.aar == aar && r.jar == jar && r.libraryKey == libraryKey
  {
    AarAndJar(aar, jar, libraryKey)
  }

  /** Value semantics: two records are equal exactly when all three components are. */
  lemma CreateEquality(a1: Artifact, j1: Option<Artifact>, k1: string,
                       a2: Artifact, j2: Option<Artifact>, k2: string)
    ensures Create(a1, j1, k1) == Create(a2, j2, k2) <==> a1 == a2 && j1 == j2 && k1 == k2
  {
  }
}
