// The journal record as a decoded JSON value: `payload` and `_parse_record`.

module JournalCodec {
  import opened JsonValues
  import opened Prelude
  import opened FileIdentities
  import opened Paths
  import opened StagingRecords

  const SCHEMA := "lca.container_staging_attempt.v3"

  // ---- Writing ----

  function StateText(s: State): string {
    match s
    case Reserved => "reserved"
    case Allocated => "allocated"
    case Prepared => "prepared"
    case CreatePossible => "create_possible"
    case ExecutionCreatePossible => "execution_create_possible"
    case ExecutionAbsent => "execution_absent"
    case ContainerAbsent => "container_absent"
    case CleanupStarted => "cleanup_started"
  }

  function RootPayload(r: RootIdentity): Json {
    JDict(Member("device", JInt(r.device), Member("inode", JInt(r.inode), Member("mode", JInt(r.mode), End))))
  }

  function DirectoryPayload(d: DirectoryIdentity): Json {
    JDict(Member("changed_ns", JInt(d.changedNs), Member("device", JInt(d.device),
      Member("inode", JInt(d.inode), Member("mode", JInt(d.mode), End)))))
  }

  function FilePayload(f: FileIdentity): Json {
    JDict(Member("changed_ns", JInt(f.changedNs), Member("device", JInt(f.device),
      Member("inode", JInt(f.inode), Member("mode", JInt(f.mode),
      Member("modified_ns", JInt(f.modifiedNs), Member("size", JInt(f.size), End)))))))
  }

  function WorkspacePayload(w: WorkspaceBinding): Json {
    JDict(Member("device", JInt(w.device), Member("inode", JInt(w.inode),
      Member("manifest_sha256", JText(w.manifestSha256), Member("path", JText(Text(w.path)), End)))))
  }

  function WorkspaceItems(ws: seq<WorkspaceBinding>): seq<Json> {
    if ws == [] then [] else [WorkspacePayload(ws[0])] + WorkspaceItems(ws[1..])
  }

  function TextItems(ts: seq<string>): seq<Json> {
    if ts == [] then [] else [JText(ts[0])] + TextItems(ts[1..])
  }

  function ContainerPayload(c: ContainerBinding): Json {
    JDict(
      Member("client_config_directory", JText(Text(c.clientConfigDirectory)),
      Member("client_config_identity", FilePayload(c.clientConfigIdentity),
      Member("executable", JText(Text(c.executable)),
      Member("executable_sha256", JText(c.executableSha256),
      Member("gate_image_digest", JText(c.gateImageDigest),
      Member("gate_image_reference", JText(c.gateImageReference),
      Member("instance_name", JText(c.instanceName),
      Member("prep_instance_name", JText(c.prepInstanceName),
      Member("runtime_image", JText(c.runtimeImage),
      Member("socket_identity", FilePayload(c.socketIdentity),
      Member("socket_path", JText(Text(c.socketPath)),
      Member("volume_names", JList(TextItems(c.volumeNames)), End)))))))))))))
  }

  function Payload(r: Record): Json {
    JDict(
      Member("attempt_id", JText(r.attemptId),
      Member("attempt_identity", if r.attemptIdentity.Some? then RootPayload(r.attemptIdentity.value) else JNull,
      Member("attempt_path_identity",
        if r.attemptPathIdentity.Some? then DirectoryPayload(r.attemptPathIdentity.value) else JNull,
      Member("authority_identity", RootPayload(r.authorityIdentity),
      Member("authority_path_identity", DirectoryPayload(r.authorityPathIdentity),
      Member("authority_root", JText(Text(r.authorityRoot)),
      Member("container", if r.container.Some? then ContainerPayload(r.container.value) else JNull,
      Member("schema", JText(SCHEMA),
      Member("state", JText(StateText(r.state)),
      Member("workspace_roots", JList(WorkspaceItems(r.workspaceRoots)),
      Member("workspace_roots_revision", JInt(r.workspaceRootsRevision), End))))))))))))
  }

  // ---- Reading ----

  function NonEmptyText(v: Json): Option<string> {
    if v.JText? && v.text != "" then Some(v.text) else None
  }

  /** A plain integer that is not negative; a JSON boolean is not an integer. */
  function Natural(v: Json): Option<int> {
    if v.JInt? && v.number >= 0 then Some(v.number) else None
  }

  function ParseState(v: Json): Option<State> {
    var text :- NonEmptyText(v);
    if text == "reserved" then Some(Reserved)
    else if text == "allocated" then Some(Allocated)
    else if text == "prepared" then Some(Prepared)
    else if text == "create_possible" then Some(CreatePossible)
    else if text == "execution_create_possible" then Some(ExecutionCreatePossible)
    else if text == "execution_absent" then Some(ExecutionAbsent)
    else if text == "container_absent" then Some(ContainerAbsent)
    else if text == "cleanup_started" then Some(CleanupStarted)
    else None
  }

  function ParseRoot(v: Json): Option<RootIdentity> {
    match v
    case JDict(Member("device", d, Member("inode", i, Member("mode", m, End)))) =>
      var device :- Natural(d);
      var inode :- Natural(i);
      var mode :- Natural(m);
      var r := RootIdentity(device, inode, mode);
      if RootIdentityValid(r) then Some(r) else None
    case _ => None
  }

  function ParseDirectory(v: Json): Option<DirectoryIdentity> {
    match v
    case JDict(Member("changed_ns", c, Member("device", d, Member("inode", i, Member("mode", m, End))))) =>
      var changedNs :- Natural(c);
      var device :- Natural(d);
      var inode :- Natural(i);
      var mode :- Natural(m);
      var r := DirectoryIdentity(device, inode, mode, changedNs);
      if DirectoryIdentityValid(r) then Some(r) else None
    case _ => None
  }

  function ParseFile(v: Json): Option<FileIdentity> {
    match v
    case JDict(Member("changed_ns", c, Member("device", d, Member("inode", i, Member("mode", m,
               Member("modified_ns", t, Member("size", s, End))))))) =>
      var changedNs :- Natural(c);
      var device :- Natural(d);
      var inode :- Natural(i);
      var mode :- Natural(m);
      var modifiedNs :- Natural(t);
      var size :- Natural(s);
      var f := FileIdentity(device, inode, mode, size, modifiedNs, changedNs);
      if FileIdentityValid(f) then Some(f) else None
    case _ => None
  }

  function ParseWorkspace(v: Json): Option<WorkspaceBinding> {
    match v
    case JDict(Member("device", d, Member("inode", i, Member("manifest_sha256", s, Member("path", p, End))))) =>
      var device :- Natural(d);
      var inode :- Natural(i);
      var manifest :- NonEmptyText(s);
      var path :- NonEmptyText(p);
      var w := WorkspaceBinding(FromText(path), device, inode, manifest);
      if WorkspaceBindingValid(w) then Some(w) else None
    case _ => None
  }

  function ParseWorkspaces(items: seq<Json>): Option<seq<WorkspaceBinding>> {
    if items == [] then Some([])
    else
      var head :- ParseWorkspace(items[0]);
      var rest :- ParseWorkspaces(items[1..]);
      Some([head] + rest)
  }

  function ParseTexts(items: seq<Json>): Option<seq<string>> {
    if items == [] then Some([])
    else
      var head :- NonEmptyText(items[0]);
      var rest :- ParseTexts(items[1..]);
      Some([head] + rest)
  }

  function ContainerFrom(configPath: Json, config: Json, executablePath: Json, sha256: Json, digest: Json,
                         reference: Json, instance: Json, prep: Json, image: Json, socket: Json,
                         socketText: Json, volumes: seq<Json>): Option<ContainerBinding>
  {
    var instanceName :- NonEmptyText(instance);
    var prepInstanceName :- NonEmptyText(prep);
    var volumeNames :- ParseTexts(volumes);
    var runtimeImage :- NonEmptyText(image);
    var executable :- NonEmptyText(executablePath);
    var executableSha256 :- NonEmptyText(sha256);
    var socketPath :- NonEmptyText(socketText);
    var socketIdentity :- ParseFile(socket);
    var clientConfigDirectory :- NonEmptyText(configPath);
    var clientConfigIdentity :- ParseFile(config);
    var gateImageReference :- NonEmptyText(reference);
    var gateImageDigest :- NonEmptyText(digest);
    var c := ContainerBinding(
      instanceName, prepInstanceName, volumeNames, runtimeImage, FromText(executable), executableSha256,
      FromText(socketPath), socketIdentity, FromText(clientConfigDirectory), clientConfigIdentity,
      gateImageReference, gateImageDigest);
    if ContainerBindingValid(c) then Some(c) else None
  }

  function ParseContainer(v: Json): Option<ContainerBinding> {
    match v
    case JDict(
      Member("client_config_directory", configPath,
      Member("client_config_identity", config,
      Member("executable", executablePath,
      Member("executable_sha256", sha256,
      Member("gate_image_digest", digest,
      Member("gate_image_reference", reference,
      Member("instance_name", instance,
      Member("prep_instance_name", prep,
      Member("runtime_image", image,
      Member("socket_identity", socket,
      Member("socket_path", socketText,
      Member("volume_names", JList(volumes), End))))))))))))) =>
      ContainerFrom(configPath, config, executablePath, sha256, digest, reference, instance, prep, image, socket,
                    socketText, volumes)
    case _ => None
  }

  /** A member that may be JSON null: the outer option is the parse failure. */
  function Optional<T>(v: Json, parse: Json -> Option<T>): Option<Option<T>> {
    if v.JNull? then Some(None)
    else
      var t :- parse(v);
      Some(Some(t))
  }

  function RecordFrom(id: Json, attempt: Json, attemptPath: Json, authority: Json, authorityPath: Json,
                      root: Json, bound: Json, schema: Json, stateText: Json, items: seq<Json>,
                      revisionNumber: Json): Option<Record>
  {
    if schema != JText(SCHEMA) then None
    else
      var attemptId :- NonEmptyText(id);
      var state :- ParseState(stateText);
      var authorityRoot :- NonEmptyText(root);
      var authorityIdentity :- ParseRoot(authority);
      var authorityPathIdentity :- ParseDirectory(authorityPath);
      var attemptIdentity :- Optional(attempt, ParseRoot);
      var attemptPathIdentity :- Optional(attemptPath, ParseDirectory);
      var revision :- Natural(revisionNumber);
      var roots :- ParseWorkspaces(items);
      var container :- Optional(bound, ParseContainer);
      var r := Record(attemptId, state, FromText(authorityRoot), authorityIdentity, authorityPathIdentity,
                      attemptIdentity, attemptPathIdentity, revision, roots, container);
      if RecordValid(r) then Some(r) else None
  }

  function ParseRecord(v: Json): Option<Record> {
    match v
    case JDict(
      Member("attempt_id", id,
      Member("attempt_identity", attempt,
      Member("attempt_path_identity", attemptPath,
      Member("authority_identity", authority,
      Member("authority_path_identity", authorityPath,
      Member("authority_root", root,
      Member("container", bound,
      Member("schema", schema,
      Member("state", stateText,
      Member("workspace_roots", JList(items),
      Member("workspace_roots_revision", revisionNumber, End)))))))))))) =>
      RecordFrom(id, attempt, attemptPath, authority, authorityPath, root, bound, schema, stateText, items,
                 revisionNumber)
    case _ => None
  }

  // ---- Round trip ----

  lemma FileRoundTrip(f: FileIdentity)
    requires FileIdentityValid(f)
    ensures ParseFile(FilePayload(f)) == if f.mode >= 0 then Some(f) else None
  {
  }

  lemma RootRoundTrip(r: Option<RootIdentity>)
    requires r.Some? ==> RootIdentityValid(r.value)
    ensures Optional(if r.Some? then RootPayload(r.value) else JNull, ParseRoot) == Some(r)
  {
  }

  lemma DirectoryRoundTrip(d: Option<DirectoryIdentity>)
    requires d.Some? ==> DirectoryIdentityValid(d.value)
    ensures Optional(if d.Some? then DirectoryPayload(d.value) else JNull, ParseDirectory) == Some(d)
  {
  }

  lemma WorkspaceRoundTrip(w: WorkspaceBinding)
    requires WorkspaceBindingValid(w)
    ensures ParseWorkspace(WorkspacePayload(w)) == Some(w)
  {
    TextRoundTrip(w.path);
  }

  lemma {:induction false} WorkspacesRoundTrip(ws: seq<WorkspaceBinding>)
    requires forall i :: 0 <= i < |ws| ==> WorkspaceBindingValid(ws[i])
    ensures ParseWorkspaces(WorkspaceItems(ws)) == Some(ws)
  {
    if ws != [] {
      WorkspaceRoundTrip(ws[0]);
      WorkspacesRoundTrip(ws[1..]);
      assert ws == [ws[0]] + ws[1..];
    }
  }

  lemma {:induction false} TextsRoundTrip(ts: seq<string>)
    requires forall i :: 0 <= i < |ts| ==> ts[i] != ""
    ensures ParseTexts(TextItems(ts)) == Some(ts)
  {
    if ts != [] {
      TextsRoundTrip(ts[1..]);
      assert ts == [ts[0]] + ts[1..];
    }
  }

  lemma StateRoundTrip(s: State)
    ensures ParseState(JText(StateText(s))) == Some(s)
  {
  }

  /** A binding survives the journal exactly when neither file mode is negative. */
  lemma ContainerRoundTrip(c: ContainerBinding)
    requires ContainerBindingValid(c)
    ensures ParseContainer(ContainerPayload(c)) ==
            if c.socketIdentity.mode >= 0 && c.clientConfigIdentity.mode >= 0 then Some(c) else None
  {
    TextRoundTrip(c.executable);
    TextRoundTrip(c.socketPath);
    TextRoundTrip(c.clientConfigDirectory);
    FileRoundTrip(c.socketIdentity);
    FileRoundTrip(c.clientConfigIdentity);
    TextsRoundTrip(c.volumeNames);
  }

  /** Every valid record read back from its own payload is the same record, unless a bound file's
      mode is negative; then the payload is refused. */
  lemma RecordRoundTrip(r: Record)
    requires RecordValid(r)
    ensures ParseRecord(Payload(r)) ==
            if r.container.Some? ==>
                 r.container.value.socketIdentity.mode >= 0 && r.container.value.clientConfigIdentity.mode >= 0
            then Some(r) else None
  {
    TextRoundTrip(r.authorityRoot);
    StateRoundTrip(r.state);
    WorkspacesRoundTrip(r.workspaceRoots);
    RootRoundTrip(Some(r.authorityIdentity));
    DirectoryRoundTrip(Some(r.authorityPathIdentity));
    RootRoundTrip(r.attemptIdentity);
    DirectoryRoundTrip(r.attemptPathIdentity);
    if r.container.Some? {
      ContainerRoundTrip(r.container.value);
    }
    PayloadFields(r);
    hide Payload, ParseRecord, ParseContainer, ContainerPayload, ParseWorkspaces, WorkspaceItems, ParseState, StateText,
      ParseRoot, RootPayload, ParseDirectory, DirectoryPayload, Text, FromText, RecordValid;
    assert RecordValid(r);
  }

  /** Reading a payload finds every member where it was written. */
  lemma PayloadFields(r: Record)
    ensures ParseRecord(Payload(r)) == RecordFrom(
      JText(r.attemptId),
      if r.attemptIdentity.Some? then RootPayload(r.attemptIdentity.value) else JNull,
      if r.attemptPathIdentity.Some? then DirectoryPayload(r.attemptPathIdentity.value) else JNull,
      RootPayload(r.authorityIdentity), DirectoryPayload(r.authorityPathIdentity), JText(Text(r.authorityRoot)),
      if r.container.Some? then ContainerPayload(r.container.value) else JNull, JText(SCHEMA),
      JText(StateText(r.state)), WorkspaceItems(r.workspaceRoots), JInt(r.workspaceRootsRevision))
  {
    hide RecordFrom, RootPayload, DirectoryPayload, ContainerPayload, WorkspaceItems, Text, StateText;
  }

  lemma AcceptedContainerModes(v: Json)
    requires ParseContainer(v).Some?
    ensures ParseContainer(v).value.socketIdentity.mode >= 0
    ensures ParseContainer(v).value.clientConfigIdentity.mode >= 0
  {
  }

  /** Whatever the reader accepts is a valid record that the journal can hold again. */
  lemma AcceptedRecordIsStable(v: Json)
    requires ParseRecord(v).Some?
    ensures RecordValid(ParseRecord(v).value)
    ensures ParseRecord(Payload(ParseRecord(v).value)) == ParseRecord(v)
  {
    var r := ParseRecord(v).value;
    if r.container.Some? {
      var bound := v.members.rest.rest.rest.rest.rest.rest.value;
      assert ParseContainer(bound) == r.container;
      AcceptedContainerModes(bound);
    }
    RecordRoundTrip(r);
  }
}
