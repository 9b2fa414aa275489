/** The canonical record shape cached and served by the search endpoint
    (internal/models/custom_repository.go). */
module Models {

  /** Instants are integers supplied by the caller; Go's zero `time.Time` is 0. */
  type Timestamp = int

  const ZeroTime: Timestamp := 0

  /** Byte count of one language in one repository. */
  datatype Language = Language(bytes: int)

  datatype CustomRepository = CustomRepository(
    fullName: string,
    owner: string,
    repository: string,
    languages: map<string, Language>,
    license: string,
    createdAt: Timestamp,
    updatedAt: Timestamp,
    pushedAt: Timestamp,
    stars: int,
    forks: int,
    issues: int
  )
}
