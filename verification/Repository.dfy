/** The signer's directories as one value, and every file-system call of the release protocol as one step.

    A crash leaves the state after some prefix of the steps of a run, so a property of all prefixes is a
    property of all crashes. */
module Repository {
  import opened Protocol

  // ---------------------------------------------------------------- state

  /** What a package says about itself in `.PKGINFO`. */
  datatype PackageInfo = PackageInfo(name: string, version: string, architecture: string)

  /** The bytes of a package file: their digest, their length and the metadata inside. */
  datatype PackageFile = PackageFile(sha256: string, size: nat, info: Option<PackageInfo>)

  /** The keyring package, fixed by the signing key. */
  datatype Keyring = Keyring(record: ArtifactRecord, file: PackageFile)

  datatype ReleaseFile = Database | DatabaseSig | FilesDatabase | FilesDatabaseSig | Manifest | ManifestSig

  /** A database maps a package name to its version and file. A signature names the bytes it covers. */
  datatype ReleaseContent =
    | PackageList(entries: map<string, (string, string)>)
    | ManifestText(manifest: PublishManifest)
    | SignatureOf(signed: ReleaseContent)

  datatype PublishManifest = PublishManifest(
    planId: PlanId, artifacts: seq<ArtifactRecord>, keyring: ArtifactRecord,
    database: ReleaseContent, filesDatabase: ReleaseContent)

  type ReleaseDirectory = map<ReleaseFile, ReleaseContent>

  datatype StagingDirectory = StagingDirectory(
    packages: map<string, PackageFile>, signatures: map<string, PackageFile>, release: ReleaseDirectory)

  datatype InboxDirectory = InboxDirectory(plan: Option<PublishPlan>, files: map<string, PackageFile>)

  datatype LinkName = DbSig | FilesSig | Files | Db | Previous | Current

  /** `hot` and `signatures` are the package files of the architecture directory and what their `.sig` files
      cover; `temporaries` are the `.<name>.new` links that wait to be renamed over a link. */
  datatype Disk = Disk(
    keyring: Keyring,
    inbox: map<PlanId, InboxDirectory>,
    hot: map<string, PackageFile>, signatures: map<string, PackageFile>,
    staging: map<PlanId, StagingDirectory>, releases: map<PlanId, ReleaseDirectory>,
    links: map<LinkName, PlanId>, temporaries: map<LinkName, PlanId>)

  // ---------------------------------------------------------------- steps

  datatype Step =
    | ClearStaging(id: PlanId)
    | MakeStaging(id: PlanId)
    | StagePackage(id: PlanId, file: string, content: PackageFile)
    | SignPackage(id: PlanId, file: string)
    | BuildDatabases(id: PlanId, entries: map<string, (string, string)>)
    | SignFile(id: PlanId, source: ReleaseFile, target: ReleaseFile)
    | WriteManifest(id: PlanId, manifest: PublishManifest)
    | MovePackage(id: PlanId, file: string)
    | MoveSignature(id: PlanId, file: string)
    | Commit(id: PlanId)
    | DropTemporary(link: LinkName)
    | MakeTemporary(link: LinkName, id: PlanId)
    | SwapLink(link: LinkName)
    | UnlinkReleaseFile(id: PlanId, source: ReleaseFile)
    | RemoveReleaseDirectory(id: PlanId)
    | RemovePackage(file: string)
    | RemoveSignature(file: string)

  /** The call finds what it works on. A rename onto a directory needs that directory to be absent or empty;
      a symbolic link is only created where nothing is. */
  predicate Enabled(d: Disk, s: Step) {
    match s
    case ClearStaging(id) => id in d.staging
    case MakeStaging(id) => id !in d.staging
    case StagePackage(id, _, _) => id in d.staging
    case SignPackage(id, file) => id in d.staging && file in d.staging[id].packages
    case BuildDatabases(id, _) => id in d.staging
    case SignFile(id, source, _) => id in d.staging && source in d.staging[id].release
    case WriteManifest(id, _) => id in d.staging
    case MovePackage(id, file) => id in d.staging && file in d.staging[id].packages
    case MoveSignature(id, file) => id in d.staging && file in d.staging[id].signatures
    case Commit(id) => id in d.staging && Vacant(d, id)
    case DropTemporary(link) => link in d.temporaries
    case MakeTemporary(link, _) => link !in d.temporaries
    case SwapLink(link) => link in d.temporaries
    case UnlinkReleaseFile(id, source) => id in d.releases && source in d.releases[id]
    case RemoveReleaseDirectory(id) => id in d.releases && d.releases[id] == map[]
    case RemovePackage(file) => file in d.hot
    case RemoveSignature(file) => file in d.signatures
  }

  predicate Vacant(d: Disk, id: PlanId) {
    id !in d.releases || d.releases[id] == map[]
  }

  /** A call that fails changes nothing. */
  function Apply(d: Disk, s: Step): Disk {
    if !Enabled(d, s) then d else
    match s
    case ClearStaging(id) => d.(staging := d.staging - {id})
    case MakeStaging(id) => d.(staging := d.staging[id := StagingDirectory(map[], map[], map[])])
    case StagePackage(id, file, content) =>
      d.(staging := d.staging[id := d.staging[id].(packages := d.staging[id].packages[file := content])])
    case SignPackage(id, file) =>
      var t := d.staging[id];
      d.(staging := d.staging[id := t.(signatures := t.signatures[file := t.packages[file]])])
    case BuildDatabases(id, entries) =>
      var t := d.staging[id];
      d.(staging := d.staging[id := t.(release :=
        t.release[Database := PackageList(entries)][FilesDatabase := PackageList(entries)])])
    case SignFile(id, source, target) =>
      var t := d.staging[id];
      d.(staging := d.staging[id := t.(release := t.release[target := SignatureOf(t.release[source])])])
    case WriteManifest(id, manifest) =>
      var t := d.staging[id];
      d.(staging := d.staging[id := t.(release := t.release[Manifest := ManifestText(manifest)])])
    case MovePackage(id, file) =>
      var t := d.staging[id];
      d.(hot := d.hot[file := t.packages[file]],
         staging := d.staging[id := t.(packages := t.packages - {file})])
    case MoveSignature(id, file) =>
      var t := d.staging[id];
      d.(signatures := d.signatures[file := t.signatures[file]],
         staging := d.staging[id := t.(signatures := t.signatures - {file})])
    case Commit(id) =>
      d.(releases := d.releases[id := d.staging[id].release], staging := d.staging - {id})
    case DropTemporary(link) => d.(temporaries := d.temporaries - {link})
    case MakeTemporary(link, id) => d.(temporaries := d.temporaries[link := id])
    case SwapLink(link) =>
      d.(links := d.links[link := d.temporaries[link]], temporaries := d.temporaries - {link})
    case UnlinkReleaseFile(id, source) => d.(releases := d.releases[id := d.releases[id] - {source}])
    case RemoveReleaseDirectory(id) => d.(releases := d.releases - {id})
    case RemovePackage(file) => d.(hot := d.hot - {file})
    case RemoveSignature(file) => d.(signatures := d.signatures - {file})
  }

  function Run(d: Disk, steps: seq<Step>): Disk {
    if |steps| == 0 then d else Apply(Run(d, steps[..|steps| - 1]), steps[|steps| - 1])
  }

  /** No call of the list fails when the list runs from `d`. */
  predicate Executable(d: Disk, steps: seq<Step>) {
    forall i :: 0 <= i < |steps| ==> Enabled(Run(d, steps[..i]), steps[i])
  }

  // ---------------------------------------------------------------- what a run does

  /** The calls of a run, and whether it ends without an error. */
  datatype Script = Script(steps: seq<Step>, ok: bool)

  predicate ValidPlan(plan: PublishPlan) {
    && plan.format == PUBLISH_PLAN_FORMAT
    && (forall a <- plan.artifacts :: a.size > 0 && a.packageName != KEYRING_NAME)
    && DistinctFiles(plan.artifacts)
    && DistinctNames(plan.artifacts)
  }

  predicate ReadablePlan(d: Disk, id: PlanId) {
    id in d.inbox && d.inbox[id].plan == Some(id.plan) && ValidPlan(id.plan)
  }

  /** The content has the length and the digest the record declares. */
  predicate Matches(content: PackageFile, a: ArtifactRecord) {
    content.size == a.size && content.sha256 == a.sha256
  }

  predicate Reusable(d: Disk, a: ArtifactRecord) {
    a.file in d.hot && a.file in d.signatures && Matches(d.hot[a.file], a)
  }

  predicate Verified(d: Disk, file: string) {
    file in d.hot && file in d.signatures && d.signatures[file] == d.hot[file]
  }

  predicate Delivered(d: Disk, id: PlanId, a: ArtifactRecord) {
    && id in d.inbox && a.file in d.inbox[id].files
    && Matches(d.inbox[id].files[a.file], a)
    && d.inbox[id].files[a.file].info == Some(PackageInfo(a.packageName, a.packageVersion, a.architecture))
  }

  function OpenSteps(d: Disk, id: PlanId): seq<Step> {
    (if id in d.staging then [ClearStaging(id)] else []) + [MakeStaging(id)]
  }

  /** Reuse each artifact that is already published; copy and sign the others from the inbox. */
  function CollectScript(d: Disk, id: PlanId, artifacts: seq<ArtifactRecord>): Script {
    if |artifacts| == 0 then Script([], true) else
    var before := CollectScript(d, id, artifacts[..|artifacts| - 1]);
    var a := artifacts[|artifacts| - 1];
    if !before.ok then before
    else if Reusable(d, a) then Script(before.steps, Verified(d, a.file))
    else if Delivered(d, id, a) then
      Script(before.steps + [StagePackage(id, a.file, d.inbox[id].files[a.file]), SignPackage(id, a.file)], true)
    else Script(before.steps, false)
  }

  /** The files the loop above takes from the inbox, in plan order. */
  function NewFiles(d: Disk, artifacts: seq<ArtifactRecord>): seq<string> {
    if |artifacts| == 0 then [] else
    var before := NewFiles(d, artifacts[..|artifacts| - 1]);
    var a := artifacts[|artifacts| - 1];
    if Reusable(d, a) then before else before + [a.file]
  }

  predicate KeyringFound(d: Disk) {
    var file := d.keyring.record.file;
    file in d.hot && file in d.signatures && d.hot[file] == d.keyring.file
  }

  function KeyringScript(d: Disk, id: PlanId): Script {
    var file := d.keyring.record.file;
    if KeyringFound(d) then Script([], Verified(d, file))
    else Script([StagePackage(id, file, d.keyring.file), SignPackage(id, file)], true)
  }

  function FilesToMove(d: Disk, id: PlanId): seq<string> {
    NewFiles(d, id.plan.artifacts) + (if KeyringFound(d) then [] else [d.keyring.record.file])
  }

  /** The package files given to `repo-add`: published ones where they are, new ones in the staging directory. */
  function PackagePaths(d: Disk, id: PlanId, artifacts: seq<ArtifactRecord>): seq<(string, PackageFile)> {
    if |artifacts| == 0 then [] else
    var before := PackagePaths(d, id, artifacts[..|artifacts| - 1]);
    var a := artifacts[|artifacts| - 1];
    if Reusable(d, a) then before + [(a.file, d.hot[a.file])]
    else if Delivered(d, id, a) then before + [(a.file, d.inbox[id].files[a.file])]
    else before
  }

  /** `repo-add` indexes each package under the name its own metadata gives. */
  function RepoAdd(paths: seq<(string, PackageFile)>): Option<map<string, (string, string)>> {
    if |paths| == 0 then Some(map[]) else
    var before := RepoAdd(paths[..|paths| - 1]);
    var (file, content) := paths[|paths| - 1];
    if before.None? || content.info.None? then None
    else Some(before.value[content.info.value.name := (content.info.value.version, file)])
  }

  /** The database the plan calls for. */
  function ExpectedEntries(artifacts: seq<ArtifactRecord>, keyring: ArtifactRecord): map<string, (string, string)> {
    PlannedEntries(artifacts)[KEYRING_NAME := (keyring.packageVersion, keyring.file)]
  }

  function PlannedEntries(artifacts: seq<ArtifactRecord>): map<string, (string, string)> {
    if |artifacts| == 0 then map[] else
    var a := artifacts[|artifacts| - 1];
    PlannedEntries(artifacts[..|artifacts| - 1])[a.packageName := (a.packageVersion, a.file)]
  }

  function ManifestFor(d: Disk, id: PlanId, entries: map<string, (string, string)>): PublishManifest {
    PublishManifest(id, id.plan.artifacts, d.keyring.record, PackageList(entries), PackageList(entries))
  }

  function SealSteps(d: Disk, id: PlanId, entries: map<string, (string, string)>): seq<Step> {
    [SignFile(id, Database, DatabaseSig), SignFile(id, FilesDatabase, FilesDatabaseSig),
     WriteManifest(id, ManifestFor(d, id, entries)), SignFile(id, Manifest, ManifestSig)]
  }

  function MoveSteps(id: PlanId, files: seq<string>): seq<Step> {
    if |files| == 0 then [] else
    MoveSteps(id, files[..|files| - 1])
      + [MovePackage(id, files[|files| - 1]), MoveSignature(id, files[|files| - 1])]
  }

  function GatherScript(d: Disk, id: PlanId): Script {
    var packages := CollectScript(d, id, id.plan.artifacts);
    var keyring := KeyringScript(d, id);
    if packages.ok then Script(OpenSteps(d, id) + packages.steps + keyring.steps, keyring.ok)
    else Script(OpenSteps(d, id) + packages.steps, false)
  }

  function AllPaths(d: Disk, id: PlanId): seq<(string, PackageFile)> {
    PackagePaths(d, id, id.plan.artifacts) + [(d.keyring.record.file, d.keyring.file)]
  }

  /** Index the packages, sign both databases, write and sign the manifest. */
  function IndexAndSeal(d: Disk, id: PlanId): seq<Step> {
    var entries := ExpectedEntries(id.plan.artifacts, d.keyring.record);
    [BuildDatabases(id, entries)] + SealSteps(d, id, entries)
  }

  /** Everything before the commit: stage, sign, index, and move the new packages into place. */
  function PrepareScript(d: Disk, id: PlanId): Script {
    var gathered := GatherScript(d, id);
    var entries := RepoAdd(AllPaths(d, id));
    if !gathered.ok || entries.None? then Script(gathered.steps, false)
    else if entries.value != ExpectedEntries(id.plan.artifacts, d.keyring.record) then
      Script(gathered.steps + [BuildDatabases(id, entries.value)], false)
    else Script(gathered.steps + IndexAndSeal(d, id) + MoveSteps(id, FilesToMove(d, id)), true)
  }

  // ---------------------------------------------------------------- activation

  predicate SignedFile(r: ReleaseDirectory, source: ReleaseFile, signature: ReleaseFile) {
    source in r && signature in r && r[signature] == SignatureOf(r[source])
  }

  /** Every check that activation makes before it touches a link. */
  predicate Activatable(d: Disk, id: PlanId) {
    && id in d.releases
    && var r := d.releases[id];
       && SignedFile(r, Manifest, ManifestSig) && r[Manifest].ManifestText?
       && var manifest := r[Manifest].manifest;
          && manifest.planId == id
          && SignedFile(r, Database, DatabaseSig) && r[Database] == manifest.database
          && SignedFile(r, FilesDatabase, FilesDatabaseSig) && r[FilesDatabase] == manifest.filesDatabase
          && (forall a <- manifest.artifacts + [manifest.keyring] ::
                a.file in d.hot && d.hot[a.file].size == a.size && Verified(d, a.file))
  }

  /** The link `current`; without one, the release the database link points into. */
  function CurrentRelease(d: Disk): Option<PlanId> {
    if Current in d.links then Some(d.links[Current])
    else if Db in d.links then Some(d.links[Db])
    else None
  }

  /** The links activation replaces, in order. */
  function Targets(d: Disk, id: PlanId): seq<(LinkName, PlanId)> {
    var current := CurrentRelease(d);
    [(DbSig, id), (FilesSig, id), (Files, id), (Db, id)]
      + (if current.Some? && current.value != id then [(Previous, current.value)] else [])
      + [(Current, id)]
  }

  function AtomicLinkSteps(d: Disk, link: LinkName, id: PlanId): seq<Step> {
    (if link in d.temporaries then [DropTemporary(link)] else []) + [MakeTemporary(link, id), SwapLink(link)]
  }

  function LinkSteps(d: Disk, targets: seq<(LinkName, PlanId)>): seq<Step> {
    if |targets| == 0 then [] else
    LinkSteps(d, targets[..|targets| - 1])
      + AtomicLinkSteps(d, targets[|targets| - 1].0, targets[|targets| - 1].1)
  }

  function ActivateScript(d: Disk, id: PlanId): Script {
    if Activatable(d, id) then Script(LinkSteps(d, Targets(d, id)), true) else Script([], false)
  }

  predicate Committed(d: Disk, id: PlanId) {
    id in d.releases && Manifest in d.releases[id]
  }

  // ---------------------------------------------------------------- pruning

  datatype Entry = Package(file: string) | Signature(file: string)

  /** The order in which the operating system happens to list the directories that are scanned. */
  datatype ScanOrder = ScanOrder(releases: seq<PlanId>, inside: seq<ReleaseFile>, entries: seq<Entry>)

  /** Every entry is listed once. */
  ghost predicate Lists(d: Disk, order: ScanOrder) {
    && NoRepeats(order.releases) && NoRepeats(order.inside) && NoRepeats(order.entries)
    && (forall id :: id in d.releases <==> id in order.releases)
    && (forall f :: f in order.inside)
    && (forall file :: file in d.hot <==> Package(file) in order.entries)
    && (forall file :: file in d.signatures <==> Signature(file) in order.entries)
  }

  function KeptReleases(d: Disk): set<PlanId> {
    set link | link in {Current, Previous} && link in d.links :: d.links[link]
  }

  function ReferencedFiles(r: ReleaseDirectory): set<string> {
    if Manifest in r && r[Manifest].ManifestText? then
      (set a | a in r[Manifest].manifest.artifacts :: a.file) + {r[Manifest].manifest.keyring.file}
    else {}
  }

  function KeptFiles(d: Disk): set<string> {
    set id, file | id in KeptReleases(d) && id in d.releases && file in ReferencedFiles(d.releases[id]) :: file
  }

  predicate KeptReadable(d: Disk) {
    forall id <- KeptReleases(d) :: Committed(d, id)
  }

  function UnlinkSteps(r: ReleaseDirectory, id: PlanId, inside: seq<ReleaseFile>): seq<Step> {
    if |inside| == 0 then [] else
    UnlinkSteps(r, id, inside[..|inside| - 1])
      + (if inside[|inside| - 1] in r then [UnlinkReleaseFile(id, inside[|inside| - 1])] else [])
  }

  function RemoveReleasesSteps(d: Disk, order: ScanOrder, ids: seq<PlanId>): seq<Step> {
    if |ids| == 0 then [] else
    var id := ids[|ids| - 1];
    RemoveReleasesSteps(d, order, ids[..|ids| - 1])
      + (if id in d.releases && id !in KeptReleases(d)
         then UnlinkSteps(d.releases[id], id, order.inside) + [RemoveReleaseDirectory(id)] else [])
  }

  function RemoveEntriesSteps(d: Disk, entries: seq<Entry>): seq<Step> {
    if |entries| == 0 then [] else
    var entry := entries[|entries| - 1];
    RemoveEntriesSteps(d, entries[..|entries| - 1])
      + (if entry.file in KeptFiles(d) then []
         else if entry.Package? then [RemovePackage(entry.file)] else [RemoveSignature(entry.file)])
  }

  function PruneScript(d: Disk, order: ScanOrder): Script {
    if KeptReleases(d) == {} then Script([], true)
    else if !KeptReadable(d) then Script([], false)
    else Script(RemoveReleasesSteps(d, order, order.releases) + RemoveEntriesSteps(d, order.entries), true)
  }

  // ---------------------------------------------------------------- whole runs

  /** Publishing up to and including activation. */
  function PublishScript(d: Disk, id: PlanId): Script {
    if !ReadablePlan(d, id) then Script([], false)
    else if Committed(d, id) then ActivateScript(d, id)
    else
      var prepared := PrepareScript(d, id);
      if !prepared.ok || !Vacant(d, id) then Script(prepared.steps, false)
      else
        var committed := prepared.steps + [Commit(id)];
        var activated := ActivateScript(Run(d, committed), id);
        Script(committed + activated.steps, activated.ok)
  }

  /** Publishing with the pruning that follows a fresh commit. An error in pruning is only logged. */
  function PublishSteps(d: Disk, id: PlanId, order: ScanOrder): seq<Step> {
    var published := PublishScript(d, id);
    published.steps
      + (if published.ok && !Committed(d, id)
         then PruneScript(Run(d, published.steps), order).steps else [])
  }

  function RollbackScript(d: Disk): Script {
    if Previous in d.links then ActivateScript(d, d.links[Previous]) else Script([], false)
  }
}
