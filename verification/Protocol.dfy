/** Records that the server, the builder and the signer exchange, and the retry class of an error code. */
module Protocol {

  datatype Option<+T> = None | Some(value: T)

  /** How often a transiently failed build is retried, the first attempt not counted. */
  const MAXIMUM_TRANSIENT_RETRIES: nat := 2

  const UPLOAD_CHUNK_BYTES: nat := 32 * 1024 * 1024
  const MAXIMUM_ARTIFACT_BYTES: nat := 8 * 1024 * 1024 * 1024
  const PUBLISH_PLAN_FORMAT: nat := 1
  const KEYRING_NAME := "aursmith-keyring"

  datatype ArtifactRecord = ArtifactRecord(
    file: string, sha256: string, size: nat,
    packageName: string, packageVersion: string, architecture: string)

  /** The repository contents the server asks for. */
  datatype PublishPlan = PublishPlan(format: nat, repositoryName: string, artifacts: seq<ArtifactRecord>)

  /** A plan is named by the SHA-256 of its canonical bytes. The digest is taken to be injective. */
  datatype PlanId = Sha256Of(plan: PublishPlan)

  datatype ErrorClass = Transient | Deterministic | Config

  function ClassifyErrorCode(code: string): ErrorClass {
    if code in TRANSIENT_CODES then Transient
    else if code in CONFIG_CODES then Config
    else Deterministic
  }

  const TRANSIENT_CODES: set<string> := {
    "DOCKER_DAEMON_UNAVAILABLE", "DOCKER_PULL_FAILED", "DOCKER_NETWORK_TIMEOUT", "BUILD_NETWORK_TRANSIENT",
    "BUILDER_RESTARTED", "LEASE_EXPIRED", "UPLOAD_FAILED", "DEPENDENCY_DOWNLOAD_FAILED" }

  const CONFIG_CODES: set<string> := {
    "BUILD_IMAGE_MISSING", "BUILDER_CONFIG", "INPUT_INVALID",
    "DOCKER_PERMISSION_DENIED", "DOCKER_CLI_UNAVAILABLE", "DOCKER_DISK_FULL" }

  ghost predicate NoRepeats<T>(s: seq<T>) {
    forall i, j :: 0 <= i < j < |s| ==> s[i] != s[j]
  }

  predicate DistinctFiles(artifacts: seq<ArtifactRecord>) {
    forall i, j :: 0 <= i < j < |artifacts| ==> artifacts[i].file != artifacts[j].file
  }

  predicate DistinctNames(artifacts: seq<ArtifactRecord>) {
    forall i, j :: 0 <= i < j < |artifacts| ==> artifacts[i].packageName != artifacts[j].packageName
  }
}
