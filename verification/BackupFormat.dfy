/**
 What makes a backup acceptable: backend/app/services/backups.py without its file handling.

 gzip, SHA-256, the JSON reader and printer and SQLite's inspection of a database are the functions of
 a `World`; `Sound` says what is assumed of them.
 */
module BackupFormat {
  import opened Wrappers
  import opened FileSystem

  const BACKUP_FORMAT_VERSION := 1
  const MAX_METADATA_BYTES := 1024 * 1024
  const MAX_UNCOMPRESSED_BACKUP_BYTES := 10 * 1024 * 1024 * 1024
  const CHUNK_BYTES := 1024 * 1024
  const GZIP_MAGIC: Bytes := [0x1f, 0x8b]
  /** "SQLite format 3" and a zero byte. */
  const SQLITE_HEADER: Bytes :=
    [0x53, 0x51, 0x4c, 0x69, 0x74, 0x65, 0x20, 0x66, 0x6f, 0x72, 0x6d, 0x61, 0x74, 0x20, 0x33, 0x00]
  const NAME_PREFIX := "alphawave-taskd-"
  const NAME_SUFFIX := ".sqlite.gz"

  /** How decompression ends; zlib raises an error of its own when the compressed data make no sense. */
  datatype Ending = Clean | Broken | Corrupt

  /** What reading a gzip file yields: the bytes it delivers, and how it ends. */
  datatype Stream = Stream(data: Bytes, ending: Ending)

  /** What SQLite says of a file: not a database, or its integrity and the columns of its tables. */
  datatype Inspection = NotADatabase | Inspected(integrityOk: bool, tables: map<string, set<string>>)

  datatype Integrity = IntegrityOk | IntegrityFailed | NotChecked

  datatype Reason =
    | NoReason | Missing | EmptyFile | NotGzip | NotSqlite | BadIntegrity | BadSchema
    | NoMetadata | IncompleteMetadata | OtherMetadata | BadChecksum | InternalError

  datatype Validation = Validation(
    integrity: Integrity,
    readable: bool,
    gzipValid: Option<bool>,
    headerValid: Option<bool>,
    schemaValid: Option<bool>,
    metadataValid: Option<bool>,
    checksumValid: Option<bool>,
    reason: Reason)

  /** The JSON object beside a backup. */
  datatype Sidecar = Sidecar(
    formatVersion: Field<int>,
    id: Field<string>,
    filename: Field<string>,
    createdAt: Field<string>,
    pathRedacted: Field<string>,
    source: Field<string>,
    sizeBytes: Field<int>,
    dbSizeBytes: Field<int>,
    sha256: Field<string>,
    sqliteSha256: Field<string>,
    valid: Field<bool>,
    validation: Field<Validation>)

  const EMPTY_SIDECAR :=
    Sidecar(Absent, Absent, Absent, Absent, Absent, Absent, Absent, Absent, Absent, Absent, Absent, Absent)

  datatype Json = Object(sidecar: Sidecar) | NotAnObject | NotUtf8

  datatype World = World(
    gzip: Bytes -> Bytes,
    gunzip: Bytes -> Stream,
    sha256: Bytes -> string,
    parse: Bytes -> Json,
    render: Sidecar -> Bytes,
    inspect: Bytes -> Inspection)

  /** gzip files start with ID1 and ID2 (section 2.3.1 of RFC 1952) and decompress to what was compressed. */
  ghost predicate Sound(w: World) {
    && (forall b :: w.gunzip(w.gzip(b)) == Stream(b, Clean))
    && (forall b :: GZIP_MAGIC <= w.gzip(b))
    && (forall m :: w.parse(w.render(m)) == Object(m))
    && (forall b :: w.sha256(b) != "")
  }

  // ---------- Names ----------

  function BackupName(id: string): Name {
    NAME_PREFIX + id + NAME_SUFFIX
  }

  function SidecarName(path: Name): Name {
    path + ".json"
  }

  predicate EndsWith(s: string, suffix: string) {
    |suffix| <= |s| && s[|s| - |suffix|..] == suffix
  }

  function RemoveSuffix(s: string, suffix: string): string {
    if EndsWith(s, suffix) then s[..|s| - |suffix|] else s
  }

  function LastDot(s: string): (i: int)
    ensures -1 <= i < |s|
  {
    if s == [] then -1 else if s[|s| - 1] == '.' then |s| - 1 else LastDot(s[..|s| - 1])
  }

  /** `Path.stem` */
  function Stem(name: Name): string {
    if 0 < LastDot(name) < |name| - 1 then name[..LastDot(name)] else name
  }

  /** `backup_id_from_path` */
  function BackupId(name: Name): string {
    if NAME_PREFIX <= name && EndsWith(name, NAME_SUFFIX)
    then RemoveSuffix(name[|NAME_PREFIX|..], NAME_SUFFIX)
    else Stem(name)
  }

  /** The glob pattern of backups. */
  predicate IsBackupFile(name: Name) {
    |NAME_PREFIX| + |NAME_SUFFIX| <= |name| && NAME_PREFIX <= name && EndsWith(name, NAME_SUFFIX)
  }

  /** `tempfile.mkstemp` is only called with prefixes that start with a dot. */
  predicate IsTemporary(name: Name) {
    "." <= name
  }

  lemma BackupNames(id: string)
    ensures BackupId(BackupName(id)) == id && IsBackupFile(BackupName(id))
    ensures !IsTemporary(BackupName(id)) && !IsTemporary(SidecarName(BackupName(id)))
    ensures !IsBackupFile(SidecarName(BackupName(id)))
  {
    var n := BackupName(id);
    assert n[|NAME_PREFIX|..] == id + NAME_SUFFIX;
    assert EndsWith(n, NAME_SUFFIX) && EndsWith(id + NAME_SUFFIX, NAME_SUFFIX);
    var m := SidecarName(n);
    assert m[|m| - 1] == 'n';
    assert n[0] == 'a' == m[0];
  }

  // ---------- Metadata ----------

  const MINIMUM_SCHEMA: map<string, set<string>> := map["app_state" := {"key", "value"}, "tasks" := {"id", "title"}]

  /** `has_minimum_schema` */
  predicate HasMinimumSchema(tables: map<string, set<string>>) {
    MINIMUM_SCHEMA.Keys <= tables.Keys && forall t | t in MINIMUM_SCHEMA :: MINIMUM_SCHEMA[t] <= tables[t]
  }

  /** `_read_metadata`; `None` when it lets an exception through. */
  function ReadMetadata(w: World, file: Option<Bytes>): Option<Sidecar> {
    if file.None? || |file.value| > MAX_METADATA_BYTES then Some(EMPTY_SIDECAR)
    else match w.parse(file.value)
      case Object(m) => Some(m)
      case NotAnObject => Some(EMPTY_SIDECAR)
      case NotUtf8 => None
  }

  /** A value that Python's `or` passes over: none, or the empty string. */
  function TextOr(f: Field<string>, default: string): string {
    if f.Value? && f.value != "" then f.value else default
  }

  predicate HasRequiredKeys(m: Sidecar) {
    !m.formatVersion.Absent? && !m.id.Absent? && !m.filename.Absent? &&
    !m.sha256.Absent? && !m.sqliteSha256.Absent? && !m.dbSizeBytes.Absent?
  }

  predicate MetadataMatches(path: Name, content: Bytes, m: Sidecar) {
    && m.formatVersion == Value(BACKUP_FORMAT_VERSION)
    && m.id == Value(BackupId(path))
    && m.filename == Value(path)
    && m.dbSizeBytes == Value(|content|)
  }

  predicate ChecksumsMatch(w: World, file: Bytes, content: Bytes, m: Sidecar) {
    m.sha256 == Value(w.sha256(file)) && m.sqliteSha256 == Value(w.sha256(content))
  }

  /**
   The three results of `_validate_metadata`, given whether there is a sidecar and what reading it gave;
   `None` when it lets an exception through.
   */
  function ValidateMetadata(w: World, path: Name, file: Bytes, found: bool, read: Option<Sidecar>, content: Bytes)
    : Option<(bool, bool, Reason)>
  {
    if !found then Some((false, false, NoMetadata))
    else if read.None? then None
    else
      var m := read.value;
      if !HasRequiredKeys(m) then Some((false, false, IncompleteMetadata))
      else if !MetadataMatches(path, content, m) then Some((false, false, OtherMetadata))
      else if ChecksumsMatch(w, file, content, m) then Some((true, true, NoReason))
      else Some((true, false, BadChecksum))
  }

  // ---------- Validation ----------

  const FAILED :=
    Validation(IntegrityFailed, false, Some(false), Some(false), Some(false), Some(false), Some(false), Missing)
  const INTERNAL := FAILED.(reason := InternalError)
  const DEFAULT_VALIDATION := Validation(NotChecked, true, None, None, None, None, None, NoReason)

  /** `_validation_passed` */
  predicate Passed(v: Validation) {
    v.integrity == IntegrityOk && v.gzipValid == Some(true) && v.headerValid == Some(true) &&
    v.schemaValid == Some(true) && v.metadataValid == Some(true) && v.checksumValid == Some(true)
  }

  /** What `validate_backup` reports once the content is decompressed and starts with the SQLite header. */
  function Examined(w: World, path: Name, file: Bytes, found: bool, read: Option<Sidecar>, content: Bytes): Validation {
    var database := w.inspect(content);
    var metadata := ValidateMetadata(w, path, file, found, read, content);
    if database.NotADatabase? || metadata.None? then INTERNAL
    else
      var (metadataValid, checksumValid, why) := metadata.value;
      var schemaValid := HasMinimumSchema(database.tables);
      Validation(
        if database.integrityOk then IntegrityOk else IntegrityFailed, true, Some(true), Some(true),
        Some(schemaValid), Some(metadataValid), Some(checksumValid),
        if !database.integrityOk then BadIntegrity else if !schemaValid then BadSchema else why)
  }

  /**
   What `validate_backup` reports, given whether there is a sidecar and what reading it gave; `None` when it raises,
   as it does not catch the errors of zlib.
   */
  function VerdictFrom(w: World, path: Name, file: Option<Bytes>, found: bool, read: Option<Sidecar>)
    : Option<Validation>
  {
    if file.None? then Some(FAILED)
    else if file.value == [] then Some(FAILED.(readable := true, reason := EmptyFile))
    else if !(GZIP_MAGIC <= file.value) then Some(FAILED.(readable := true, reason := NotGzip))
    else
      var stream := w.gunzip(file.value);
      if stream.ending.Corrupt? then None
      else if stream.ending.Broken? || |stream.data| > MAX_UNCOMPRESSED_BACKUP_BYTES then Some(INTERNAL)
      else if !(SQLITE_HEADER <= stream.data) then
        Some(FAILED.(readable := true, gzipValid := Some(true), reason := NotSqlite))
      else Some(Examined(w, path, file.value, found, read, stream.data))
  }

  /** What `validate_backup` reports when no system call fails. */
  function Verdict(w: World, path: Name, file: Option<Bytes>, sidecar: Option<Bytes>): Option<Validation> {
    VerdictFrom(w, path, file, sidecar.Some?, ReadMetadata(w, sidecar))
  }

  /** What it reports when there is a sidecar that cannot be read: the error is taken for an empty sidecar. */
  function UnreadVerdict(w: World, path: Name, file: Option<Bytes>): Option<Validation> {
    VerdictFrom(w, path, file, true, Some(EMPTY_SIDECAR))
  }

  /** A database that a backup may be restored to. */
  predicate Restorable(w: World, content: Bytes) {
    && |content| <= MAX_UNCOMPRESSED_BACKUP_BYTES
    && SQLITE_HEADER <= content
    && w.inspect(content).Inspected? && w.inspect(content).integrityOk && HasMinimumSchema(w.inspect(content).tables)
  }

  /** The sidecar vouches for this file and this content under this name. */
  predicate Vouches(w: World, path: Name, file: Bytes, sidecar: Option<Bytes>, content: Bytes) {
    && sidecar.Some? && |sidecar.value| <= MAX_METADATA_BYTES
    && w.parse(sidecar.value).Object?
    && MetadataMatches(path, content, w.parse(sidecar.value).sidecar)
    && ChecksumsMatch(w, file, content, w.parse(sidecar.value).sidecar)
  }

  /** What acceptance of a backup means. */
  predicate Accepts(w: World, path: Name, file: Option<Bytes>, sidecar: Option<Bytes>) {
    && file.Some? && GZIP_MAGIC <= file.value
    && w.gunzip(file.value).ending.Clean?
    && Restorable(w, w.gunzip(file.value).data)
    && Vouches(w, path, file.value, sidecar, w.gunzip(file.value).data)
  }

  /** The chain of early returns accepts exactly the backups that meet every requirement. */
  lemma VerdictIsAcceptance(w: World, path: Name, file: Option<Bytes>, sidecar: Option<Bytes>)
    ensures var verdict := Verdict(w, path, file, sidecar);
      && (verdict.Some? && Passed(verdict.value) <==> Accepts(w, path, file, sidecar))
      && (verdict.Some? && Passed(verdict.value) ==> verdict.value.reason == NoReason)
  {
  }

  /** The tables and columns that a database must have. */
  lemma SchemaIs(tables: map<string, set<string>>)
    ensures HasMinimumSchema(tables) <==>
      && "app_state" in tables && "key" in tables["app_state"] && "value" in tables["app_state"]
      && "tasks" in tables && "id" in tables["tasks"] && "title" in tables["tasks"]
  {
    assert MINIMUM_SCHEMA.Keys == {"app_state", "tasks"};
    assert MINIMUM_SCHEMA["app_state"] == {"key", "value"} && MINIMUM_SCHEMA["tasks"] == {"id", "title"};
  }

  /** Each part of a verdict tells its own requirement, and the reason is the first that is not met. */
  lemma VerdictTells(w: World, path: Name, file: Bytes, found: bool, read: Option<Sidecar>)
    requires GZIP_MAGIC <= file && w.gunzip(file).ending.Clean?
    requires |w.gunzip(file).data| <= MAX_UNCOMPRESSED_BACKUP_BYTES && SQLITE_HEADER <= w.gunzip(file).data
    requires w.inspect(w.gunzip(file).data).Inspected? && (found ==> read.Some?)
    ensures var content := w.gunzip(file).data;
      var database, verdict := w.inspect(content), VerdictFrom(w, path, Some(file), found, read);
      var complete := found && HasRequiredKeys(read.value);
      var matches := complete && MetadataMatches(path, content, read.value);
      var vouches := matches && ChecksumsMatch(w, file, content, read.value);
      && verdict.Some?
      && var v := verdict.value;
      && v.readable && v.gzipValid == Some(true) && v.headerValid == Some(true)
      && (v.integrity == IntegrityOk <==> database.integrityOk)
      && (v.integrity == IntegrityFailed <==> !database.integrityOk)
      && v.schemaValid == Some(HasMinimumSchema(database.tables))
      && v.metadataValid == Some(matches) && v.checksumValid == Some(vouches)
      && (v.reason == BadIntegrity <==> !database.integrityOk)
      && (v.reason == BadSchema <==> database.integrityOk && !HasMinimumSchema(database.tables))
      && (database.integrityOk && HasMinimumSchema(database.tables) ==>
           && (v.reason == NoMetadata <==> !found) && (v.reason == IncompleteMetadata <==> found && !complete)
           && (v.reason == OtherMetadata <==> complete && !matches)
           && (v.reason == BadChecksum <==> matches && !vouches)
           && (v.reason == NoReason <==> vouches))
  {
  }

  /** What is said of a backup that cannot be decompressed or is no database. */
  lemma EarlyVerdictTells(w: World, path: Name, file: Option<Bytes>, found: bool, read: Option<Sidecar>)
    ensures var verdict := VerdictFrom(w, path, file, found, read);
      verdict.Some? ==>
        && (verdict.value.reason == Missing <==> file.None?)
        && (verdict.value.reason == EmptyFile <==> file == Some([]))
        && (verdict.value.reason == NotGzip <==> file.Some? && file.value != [] && !(GZIP_MAGIC <= file.value))
        && (verdict.value.reason == NotSqlite <==>
             && file.Some? && GZIP_MAGIC <= file.value && w.gunzip(file.value).ending.Clean?
             && |w.gunzip(file.value).data| <= MAX_UNCOMPRESSED_BACKUP_BYTES
             && !(SQLITE_HEADER <= w.gunzip(file.value).data))
  {
  }

  /** Validation raises, instead of reporting, exactly for a file with corrupt compressed data. */
  lemma RaisesIffCorrupt(w: World, path: Name, file: Option<Bytes>, found: bool, read: Option<Sidecar>)
    ensures VerdictFrom(w, path, file, found, read).None? <==>
      file.Some? && GZIP_MAGIC <= file.value && w.gunzip(file.value).ending.Corrupt?
  {
  }

  /** A backup whose sidecar could not be read does not pass, whatever it is worth. */
  lemma UnreadDoesNotPass(w: World, path: Name, file: Option<Bytes>)
    ensures var verdict := UnreadVerdict(w, path, file); !(verdict.Some? && Passed(verdict.value))
  {
  }

  // ---------- Metadata of a new backup, and recording a validation ----------

  /** `_new_backup_metadata` */
  function NewMetadata(w: World, path: Name, file: Bytes, content: Bytes, source: string, createdAt: string): Sidecar {
    Sidecar(
      Value(BACKUP_FORMAT_VERSION), Value(BackupId(path)), Value(path), Value(createdAt), Absent, Value(source),
      Value(|file|), Value(|content|), Value(w.sha256(file)), Value(w.sha256(content)),
      Absent, Value(DEFAULT_VALIDATION))
  }

  function NullIfAbsent<T>(f: Field<T>): Field<T> {
    if f.Absent? then Null else f
  }

  /** `backup_metadata` with a validation, as `record_validation` stores it. */
  function RecordedMetadata(w: World, path: Name, file: Bytes, m: Sidecar, v: Validation, modifiedAt: string,
                            redacted: string): Sidecar {
    Sidecar(
      NullIfAbsent(m.formatVersion), Value(BackupId(path)), Value(TextOr(m.filename, path)),
      Value(TextOr(m.createdAt, modifiedAt)), Value(redacted), Value(TextOr(m.source, "unknown")),
      Value(|file|), NullIfAbsent(m.dbSizeBytes), Value(TextOr(m.sha256, w.sha256(file))), NullIfAbsent(m.sqliteSha256),
      Value(Passed(v)), Value(v))
  }

  /** The sidecar of a new backup says what was made, when and for whom, and that nobody has validated it yet. */
  lemma NewSidecarTells(w: World, path: Name, file: Bytes, content: Bytes, source: string, createdAt: string)
    requires Sound(w)
    ensures var stored := w.parse(w.render(NewMetadata(w, path, file, content, source, createdAt)));
      && stored.Object?
      && var m := stored.sidecar;
      && m.source == Value(source) && m.createdAt == Value(createdAt) && m.sizeBytes == Value(|file|)
      && MetadataMatches(path, content, m) && ChecksumsMatch(w, file, content, m)
      && m.valid.Absent? && m.validation.Value? && m.validation.value.integrity == NotChecked
  {
  }

  /** A text that was there and not empty stays; otherwise it is the default. */
  predicate KeepsText(before: Field<string>, after: Field<string>, default: string) {
    if before.Value? && before.value != "" then after == before else after == Value(default)
  }

  predicate KeepsField<T(==)>(before: Field<T>, after: Field<T>) {
    if before.Absent? then after.Null? else after == before
  }

  /** What recording a validation makes of a sidecar: it adds the validation, and loses nothing that was said. */
  predicate Records(w: World, path: Name, file: Bytes, before: Sidecar, after: Sidecar, v: Validation,
                    modifiedAt: string, redacted: string) {
    && after.validation == Value(v) && after.valid == Value(Passed(v))
    && after.id == Value(BackupId(path)) && after.sizeBytes == Value(|file|) && after.pathRedacted == Value(redacted)
    && KeepsText(before.source, after.source, "unknown") && KeepsText(before.createdAt, after.createdAt, modifiedAt)
    && KeepsText(before.filename, after.filename, path) && KeepsText(before.sha256, after.sha256, w.sha256(file))
    && KeepsField(before.formatVersion, after.formatVersion) && KeepsField(before.dbSizeBytes, after.dbSizeBytes)
    && KeepsField(before.sqliteSha256, after.sqliteSha256)
  }

  lemma RecordedRecords(w: World, path: Name, file: Bytes, m: Sidecar, v: Validation, modifiedAt: string,
                        redacted: string)
    ensures Records(w, path, file, m, RecordedMetadata(w, path, file, m, v, modifiedAt, redacted), v, modifiedAt,
                    redacted)
  {
  }

  /** A backup of a restorable snapshot is accepted with the metadata made for it. */
  lemma NewBackupIsAccepted(w: World, path: Name, content: Bytes, source: string, createdAt: string)
    requires Sound(w) && Restorable(w, content)
    ensures var file := w.gzip(content);
      var sidecar := w.render(NewMetadata(w, path, file, content, source, createdAt));
      Accepts(w, path, Some(file), Some(sidecar)) <==> |sidecar| <= MAX_METADATA_BYTES
  {
    var file := w.gzip(content);
    assert w.gunzip(file) == Stream(content, Clean);
    var m := NewMetadata(w, path, file, content, source, createdAt);
    assert w.parse(w.render(m)) == Object(m);
  }

  /** The old sidecar vouched for everything that `record_validation` copies from it. */
  predicate RecordingVouches(w: World, path: Name, file: Bytes, m: Sidecar, content: Bytes) {
    && m.formatVersion == Value(BACKUP_FORMAT_VERSION)
    && TextOr(m.filename, path) == path
    && m.dbSizeBytes == Value(|content|)
    && TextOr(m.sha256, w.sha256(file)) == w.sha256(file)
    && m.sqliteSha256 == Value(w.sha256(content))
  }

  /**
   Exactly when a backup is accepted after `record_validation`: its content is restorable, the old sidecar
   agreed with it where it said anything (the `id` is made anew), and the new sidecar can be read back.
   */
  lemma AcceptedAfterRecording(w: World, path: Name, file: Bytes, m: Sidecar, v: Validation, modifiedAt: string,
                               redacted: string)
    requires Sound(w)
    ensures var sidecar := w.render(RecordedMetadata(w, path, file, m, v, modifiedAt, redacted));
      var stream := w.gunzip(file);
      Accepts(w, path, Some(file), Some(sidecar)) <==>
        && GZIP_MAGIC <= file && stream.ending.Clean? && Restorable(w, stream.data)
        && RecordingVouches(w, path, file, m, stream.data)
        && |sidecar| <= MAX_METADATA_BYTES
  {
    var r := RecordedMetadata(w, path, file, m, v, modifiedAt, redacted);
    assert w.parse(w.render(r)) == Object(r);
  }

  /** Recording a validation keeps an accepted backup accepted, as long as the sidecar stays readable. */
  lemma RecordingKeepsAcceptance(w: World, path: Name, file: Bytes, sidecar: Bytes, v: Validation,
                                 modifiedAt: string, redacted: string)
    requires Sound(w) && path != "" && Accepts(w, path, Some(file), Some(sidecar))
    ensures var m := ReadMetadata(w, Some(sidecar)).value;
      var recorded := w.render(RecordedMetadata(w, path, file, m, v, modifiedAt, redacted));
      Accepts(w, path, Some(file), Some(recorded)) <==> |recorded| <= MAX_METADATA_BYTES
  {
    AcceptedAfterRecording(w, path, file, ReadMetadata(w, Some(sidecar)).value, v, modifiedAt, redacted);
  }

  /**
   A validation recorded while the sidecar could not be read: the backup is never accepted again, whatever it
   was worth.
   */
  lemma UnreadRecordingLoses(w: World, path: Name, file: Bytes, v: Validation, modifiedAt: string, redacted: string)
    requires Sound(w)
    ensures var recorded := w.render(RecordedMetadata(w, path, file, EMPTY_SIDECAR, v, modifiedAt, redacted));
      !Accepts(w, path, Some(file), Some(recorded))
  {
    AcceptedAfterRecording(w, path, file, EMPTY_SIDECAR, v, modifiedAt, redacted);
  }

  function Letters(n: nat): string {
    seq(n, _ => 'a')
  }

  /** A plain text as the source of a backup makes its sidecar longer by its length. */
  ghost predicate SourceAddsLength(w: World) {
    forall m: Sidecar, n: nat ::
      |w.render(m.(source := Value(Letters(n))))| == |w.render(m.(source := Value("")))| + n
  }

  /** Recording this validation makes the sidecar of a new backup longer: it adds the redacted path and the result. */
  ghost predicate RecordingAddsLength(w: World, path: Name, content: Bytes, createdAt: string, v: Validation,
                                      modifiedAt: string, redacted: string) {
    forall source: string ::
      var m := NewMetadata(w, path, w.gzip(content), content, source, createdAt);
      |w.render(RecordedMetadata(w, path, w.gzip(content), m, v, modifiedAt, redacted))| > |w.render(m)|
  }

  /**
   A backup that recording a validation loses, because the new sidecar is too long to be read: one that is accepted
   with a sidecar whose source fills it up to the limit.
   */
  lemma LongRecordingLoses(w: World, path: Name, content: Bytes, createdAt: string, v: Validation, modifiedAt: string,
                           redacted: string)
    requires Sound(w) && Restorable(w, content) && SourceAddsLength(w)
    requires RecordingAddsLength(w, path, content, createdAt, v, modifiedAt, redacted)
    requires |w.render(NewMetadata(w, path, w.gzip(content), content, "", createdAt))| <= MAX_METADATA_BYTES
    ensures var file := w.gzip(content);
      var n := MAX_METADATA_BYTES - |w.render(NewMetadata(w, path, file, content, "", createdAt))|;
      var m := NewMetadata(w, path, file, content, Letters(n), createdAt);
      && Accepts(w, path, Some(file), Some(w.render(m)))
      && !Accepts(w, path, Some(file), Some(w.render(RecordedMetadata(w, path, file, m, v, modifiedAt, redacted))))
  {
    var file := w.gzip(content);
    var short := NewMetadata(w, path, file, content, "", createdAt);
    var n := MAX_METADATA_BYTES - |w.render(short)|;
    var m := NewMetadata(w, path, file, content, Letters(n), createdAt);
    assert m == short.(source := Value(Letters(n))) && short == short.(source := Value(""));
    NewBackupIsAccepted(w, path, content, Letters(n), createdAt);
    AcceptedAfterRecording(w, path, file, m, v, modifiedAt, redacted);
  }
}
