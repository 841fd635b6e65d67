/** The staging area of the Android client (WispFileTransfer.kt): the page hands over its files in
    chunks, which are written in place until every file of the action is complete. */
module FileTransferStagers {
  import opened MapSums
  import opened Wrappers
  import Transcripts

  type Octet = bv8

  /** Kotlin's `Long`; that no operation leaves its range is part of what is proved. */
  newtype Long = x: int | -0x8000_0000_0000_0000 <= x < 0x8000_0000_0000_0000

  const MAX_FILES: nat := 32
  const MAX_ACTIVE_TRANSFERS: nat := 4
  const MAX_TOTAL_BYTES: Long := 256 * 1024 * 1024
  const MAX_STAGING_CHUNK_BYTES: nat := 256 * 1024

  datatype Manifest = Manifest(id: string, field: string, name: string, contentType: string, size: Long)

  datatype Error =
    | TooManyTransfers | MalformedAction | WrongFileCount | InvalidManifest | DuplicateFileId | SizeLimit
    | UnknownTransfer | UnknownFile | UnexpectedOffset | InvalidChunk | ChunkTooLarge | TransferIncomplete

  // ---------------------------------------------------------------- which actions are accepted

  /** `Char.isWhitespace`. */
  predicate IsWhitespace(c: char) {
    || '\U{9}' <= c <= '\U{D}' || '\U{1C}' <= c <= '\U{20}' || c == '\U{A0}' || c == '\U{1680}'
    || '\U{2000}' <= c <= '\U{200A}' || c == '\U{2028}' || c == '\U{2029}' || c == '\U{202F}' || c == '\U{205F}'
        || c == '\U{3000}'
  }

  predicate IsBlank(s: string) {
    forall c :: c in s ==> IsWhitespace(c)
  }

  predicate ValidManifest(m: Manifest) {
    && !IsBlank(m.id) && |m.id| <= 128
    && !IsBlank(m.field) && |m.field| <= 128
    && !IsBlank(m.name) && |m.name| <= 512
    && |m.contentType| <= 128 && m.size >= 0
  }

  /** The declared bytes of an action; only valid manifests matter, and their sizes are not negative. */
  function SizeOf(ms: seq<Manifest>): nat {
    if ms == [] then 0
    else
      var last := ms[|ms| - 1].size;
      SizeOf(ms[..|ms| - 1]) + if last >= 0 then last as nat else 0
  }

  predicate DistinctManifests(ms: seq<Manifest>) {
    forall i, j :: 0 <= i < j < |ms| ==> ms[i].id != ms[j].id
  }

  /** The files of one action are acceptable next to `reserved` bytes that are already promised. */
  predicate Acceptable(ms: seq<Manifest>, reserved: nat) {
    && 1 <= |ms| <= MAX_FILES
    && (forall i :: 0 <= i < |ms| ==> ValidManifest(ms[i]))
    && DistinctManifests(ms)
    && reserved + SizeOf(ms) <= MAX_TOTAL_BYTES as int
  }

  lemma {:induction false} SizeOfPrefix(ms: seq<Manifest>, n: nat)
    requires n <= |ms|
    ensures SizeOf(ms[..n]) <= SizeOf(ms)
    decreases |ms|
  {
    if n == |ms| {
      assert ms[..n] == ms;
    } else {
      SizeOfPrefix(ms[..|ms| - 1], n);
      assert ms[..|ms| - 1][..n] == ms[..n];
    }
  }

  lemma SizeOfEntry(ms: seq<Manifest>, i: nat)
    requires i < |ms|
    ensures ms[i].size as int <= SizeOf(ms)
  {
    assert ms[..i + 1][..i] == ms[..i];
    SizeOfPrefix(ms, i + 1);
  }

  /** No declared size of an accepted action exceeds the limit. */
  lemma UploadIsSmall(action: StagedFileAction, u: StagedUpload)
    requires WellFormed(action) && u in action.files
    ensures u.manifest.size <= MAX_TOTAL_BYTES
  {
    var i :| 0 <= i < |action.files| && action.files[i] == u;
    SizeOfEntry(Manifests(action.files), i);
  }

  /** A prefix that is over the limit condemns the whole list. */
  lemma TooLarge(ms: seq<Manifest>, n: nat, reserved: nat)
    requires n < |ms| && ms[n].size as int > MAX_TOTAL_BYTES as int - reserved - SizeOf(ms[..n])
    ensures !Acceptable(ms, reserved)
  {
    assert ms[..n + 1][..n] == ms[..n];
    SizeOfPrefix(ms, n + 1);
  }

  /** Entry `i` can be added to the entries before it. */
  predicate Fits(ms: seq<Manifest>, i: nat, reserved: nat)
    requires i < |ms|
  {
    && ValidManifest(ms[i])
    && (forall j :: 0 <= j < i ==> ms[j].id != ms[i].id)
    && ms[i].size as int <= MAX_TOTAL_BYTES as int - reserved - SizeOf(ms[..i])
  }

  /** One entry that does not fit condemns the whole list. */
  lemma Rejected(ms: seq<Manifest>, i: nat, reserved: nat)
    requires i < |ms| && !Fits(ms, i, reserved)
    ensures !Acceptable(ms, reserved)
  {
    if ms[i].size as int > MAX_TOTAL_BYTES as int - reserved - SizeOf(ms[..i]) {
      TooLarge(ms, i, reserved);
    }
  }

  lemma AllEntriesFit(ms: seq<Manifest>, reserved: nat)
    requires 1 <= |ms| <= MAX_FILES && forall j :: 0 <= j < |ms| ==> ValidManifest(ms[j])
    requires DistinctManifests(ms) && reserved + SizeOf(ms) <= MAX_TOTAL_BYTES as int
    ensures Acceptable(ms, reserved)
  {
  }

  lemma NewEntry(ms: seq<Manifest>, i: nat, reserved: nat)
    requires i < |ms| && DistinctManifests(ms[..i]) && Fits(ms, i, reserved)
    ensures DistinctManifests(ms[..i + 1]) && ms[..i + 1] == ms[..i] + [ms[i]]
    ensures SizeOf(ms[..i + 1]) == SizeOf(ms[..i]) + ms[i].size as int
  {
    assert ms[..i + 1][..i] == ms[..i];
  }

  // ---------------------------------------------------------------- the files

  function Joined(chunks: seq<seq<Octet>>): seq<Octet> {
    if chunks == [] then [] else Joined(chunks[..|chunks| - 1]) + chunks[|chunks| - 1]
  }

  /** `RandomAccessFile`: seek and write. A gap is filled with zeros. */
  function WriteAt(content: seq<Octet>, offset: nat, chunk: seq<Octet>): seq<Octet> {
    var head := if offset <= |content| then content[..offset] else content + seq(offset - |content|, _ => 0);
    var end := offset + |chunk|;
    head + chunk + if end < |content| then content[end..] else []
  }

  class StagedUpload {
    const manifest: Manifest
    var received: Long
    var content: seq<Octet>
    ghost var chunks: seq<seq<Octet>>

    constructor (manifest: Manifest)
      ensures this.manifest == manifest && received == 0 && content == [] && chunks == []
    {
      this.manifest := manifest;
      received, content, chunks := 0, [], [];
    }

    /** What is on disk is what was accepted, in order and without a gap, and not more than declared. */
    ghost predicate Sound()
      reads this
    {
      received as int == |content| <= manifest.size as int && content == Joined(chunks)
    }

    /** The file access of `append`. */
    method Write(bytes: seq<Octet>)
      requires Sound() && received as int + |bytes| <= manifest.size as int
      modifies this
      ensures Sound()
      ensures chunks == old(chunks) + [bytes] && content == old(content) + bytes
    {
      content := WriteAt(content, received as nat, bytes);
      received := received + |bytes| as Long;
      chunks := chunks + [bytes];
    }

    predicate Complete()
      reads this
    {
      received == manifest.size
    }
  }

  datatype StagedFileAction = StagedFileAction(transferId: string, actionData: string, files: seq<StagedUpload>)

  type Table = map<string, StagedFileAction>

  function Manifests(files: seq<StagedUpload>): (ms: seq<Manifest>)
    ensures |ms| == |files|
  {
    seq(|files|, i requires 0 <= i < |files| => files[i].manifest)
  }

  // ---------------------------------------------------------------- the table

  predicate WellFormed(action: StagedFileAction) {
    Acceptable(Manifests(action.files), 0)
  }

  ghost function Sizes(table: Table): map<string, nat> {
    map t | t in table :: SizeOf(Manifests(table[t].files))
  }

  /** The nested sum of declared sizes. */
  ghost function Reserved(table: Table): nat {
    Total(Sizes(table))
  }

  predicate Apart(a: StagedFileAction, b: StagedFileAction) {
    forall u :: u in a.files ==> u !in b.files
  }

  predicate ApartFromAll(table: Table, action: StagedFileAction) {
    forall t :: t in table ==> Apart(table[t], action)
  }

  predicate NoSharing(table: Table) {
    forall t, u :: t in table && u in table && t != u ==> Apart(table[t], table[u])
  }

  /** Every action is acceptable by itself. */
  predicate AllWellFormed(table: Table) {
    forall t :: t in table ==> WellFormed(table[t]) && table[t].transferId == t
  }

  ghost predicate WithinLimits(table: Table) {
    && |table| <= MAX_ACTIVE_TRANSFERS
    && AllWellFormed(table) && NoSharing(table)
    && Reserved(table) <= MAX_TOTAL_BYTES as int
  }

  lemma AddKeepsApart(table: Table, action: StagedFileAction)
    requires NoSharing(table)
    requires ApartFromAll(table, action)
    ensures NoSharing(table[action.transferId := action])
  {
    var next := table[action.transferId := action];
    forall t, u | t in next && u in next && t != u ensures Apart(next[t], next[u]) {
      if t in table && u in table && t != action.transferId && u != action.transferId {
        assert Apart(table[t], table[u]);
      }
    }
  }

  lemma ReservedAfterAdd(table: Table, action: StagedFileAction)
    requires action.transferId !in table
    ensures Reserved(table[action.transferId := action]) == Reserved(table) + SizeOf(Manifests(action.files))
  {
    var t, size := action.transferId, SizeOf(Manifests(action.files));
    assert Sizes(table[t := action]) == Sizes(table)[t := size];
    TotalUpdate(Sizes(table), t, size);
  }

  lemma AddKeepsWellFormed(table: Table, action: StagedFileAction)
    requires AllWellFormed(table) && WellFormed(action)
    ensures AllWellFormed(table[action.transferId := action])
  {
    var next := table[action.transferId := action];
    forall t | t in next ensures WellFormed(next[t]) && next[t].transferId == t {
      if t != action.transferId { assert WellFormed(table[t]); }
    }
  }

  lemma OneMore(table: Table, action: StagedFileAction)
    requires action.transferId !in table
    ensures |table[action.transferId := action]| == |table| + 1
  {
    assert table[action.transferId := action].Keys == table.Keys + {action.transferId};
  }

  lemma AddKeepsLimits(table: Table, action: StagedFileAction)
    requires WithinLimits(table) && |table| < MAX_ACTIVE_TRANSFERS && action.transferId !in table
    requires Acceptable(Manifests(action.files), Reserved(table))
    requires ApartFromAll(table, action)
    ensures WithinLimits(table[action.transferId := action])
  {
    assert WellFormed(action);
    AddKeepsApart(table, action);
    AddKeepsWellFormed(table, action);
    OneMore(table, action);
    ReservedAfterAdd(table, action);
  }

  lemma FewerKeepsReserved(table: Table, part: Table)
    requires part.Keys <= table.Keys && forall t :: t in part ==> part[t] == table[t]
    ensures |part| <= |table| && Reserved(part) <= Reserved(table)
  {
    assert table.Keys == part.Keys + (table.Keys - part.Keys);
    TotalOfPart(Sizes(part), Sizes(table));
  }

  lemma RemoveKeepsLimits(table: Table, part: Table)
    requires WithinLimits(table) && part.Keys <= table.Keys && forall t :: t in part ==> part[t] == table[t]
    ensures WithinLimits(part)
  {
    FewerKeepsReserved(table, part);
    forall t | t in part ensures WellFormed(part[t]) && part[t].transferId == t {
      assert WellFormed(table[t]);
    }
    forall t, u | t in part && u in part && t != u ensures Apart(part[t], part[u]) {
      assert Apart(table[t], table[u]);
    }
  }

  // ---------------------------------------------------------------- the loops of `begin`

  /** `action.files.sumOf(StagedUpload::size)`. */
  method SumOfSizes(action: StagedFileAction) returns (total: Long)
    requires WellFormed(action)
    ensures total as int == SizeOf(Manifests(action.files)) <= MAX_TOTAL_BYTES as int
  {
    total := 0;
    ghost var ms := Manifests(action.files);
    for i := 0 to |action.files|
      invariant total as int == SizeOf(ms[..i]) <= MAX_TOTAL_BYTES as int
    {
      assert ms[..i + 1][..i] == ms[..i];
      SizeOfPrefix(ms, i + 1);
      total := total + action.files[i].manifest.size;
    }
    assert ms[..|action.files|] == ms;
  }

  lemma ReservedWithout(table: Table, t: string)
    requires t in table && AllWellFormed(table)
    ensures WellFormed(table[t]) && AllWellFormed(table - {t})
    ensures Reserved(table) == SizeOf(Manifests(table[t].files)) + Reserved(table - {t})
  {
    TotalAt(Sizes(table), t);
    assert Sizes(table - {t}) == Sizes(table) - {t};
  }

  lemma LimitsGive(table: Table)
    requires WithinLimits(table)
    ensures AllWellFormed(table) && Reserved(table) <= MAX_TOTAL_BYTES as int
    ensures Reserved(map[]) == 0
  {
    assert Sizes(map[]) == map[];
  }

  /** `transfers.values.sumOf { action -> ... }`. */
  method ReservedBytes(table: Table) returns (reserved: Long)
    requires WithinLimits(table)
    ensures reserved as int == Reserved(table) <= MAX_TOTAL_BYTES as int
  {
    hide *;
    LimitsGive(table);
    reserved := 0;
    var rest := table;
    while rest != map[]
      invariant AllWellFormed(rest)
      invariant reserved as int + Reserved(rest) == Reserved(table) && reserved >= 0
      decreases |rest|
    {
      var t :| t in rest;
      ReservedWithout(rest, t);
      var bytes := SumOfSizes(rest[t]);
      reserved := reserved + bytes;
      rest := rest - {t};
    }
  }

  predicate Untouched(u: StagedUpload)
    reads u
  {
    u.received == 0 && u.content == []
  }

  lemma SameIds(files: seq<StagedUpload>, ms: seq<Manifest>, i: nat)
    requires i < |ms| && Manifests(files) == ms[..i]
    ensures (forall u :: u in files ==> u.manifest.id != ms[i].id) <==>
        (forall j :: 0 <= j < i ==> ms[j].id != ms[i].id)
  {
    assert forall j :: 0 <= j < i ==> ms[j] == ms[..i][j] == files[j].manifest && files[j] in files;
  }

  /** The checks of one pass of the manifest loop. */
  method CheckManifest(m: Manifest, files: seq<StagedUpload>, left: Long) returns (problem: Option<Error>)
    ensures problem.None? <==> ValidManifest(m) && m.size <= left && forall u :: u in files ==> u.manifest.id != m.id
  {
    if !ValidManifest(m) { return Some(InvalidManifest); }
    if u :| u in files && u.manifest.id == m.id { return Some(DuplicateFileId); }
    problem := if m.size > left then Some(SizeLimit) else None;
  }

  /** The manifest loop. It stops at the first entry it cannot take, yet its verdict depends only on
      the list as a whole. */
  method StageFiles(ms: seq<Manifest>, reserved: Long) returns (result: Result<seq<StagedUpload>, Error>)
    requires 1 <= |ms| <= MAX_FILES && 0 <= reserved <= MAX_TOTAL_BYTES
    ensures result.Ok? <==> Acceptable(ms, reserved as nat)
    ensures result.Ok? ==> Manifests(result.value) == ms
    ensures result.Ok? ==> forall u :: u in result.value ==> fresh(u) && Untouched(u) && u.Sound()
  {
    var files: seq<StagedUpload>, total: Long := [], 0;
    assert DistinctManifests(ms[..0]);
    hide DistinctManifests, Acceptable;
    for i := 0 to |ms|
      invariant Manifests(files) == ms[..i]
      invariant forall u :: u in files ==> fresh(u) && Untouched(u) && u.Sound()
      invariant forall j :: 0 <= j < i ==> ValidManifest(ms[j])
      invariant DistinctManifests(ms[..i])
      invariant total as int == SizeOf(ms[..i]) && reserved as int + total as int <= MAX_TOTAL_BYTES as int
    {
      var problem := CheckManifest(ms[i], files, MAX_TOTAL_BYTES - reserved - total);
      SameIds(files, ms, i);
      if problem.Some? {
        Rejected(ms, i, reserved as nat);
        return Err(problem.value);
      }
      NewEntry(ms, i, reserved as nat);
      var upload := new StagedUpload(ms[i]);
      total := total + ms[i].size;
      files := files + [upload];
    }
    assert ms[..|ms|] == ms;
    AllEntriesFit(ms, reserved as nat);
    result := Ok(files);
  }

  // ---------------------------------------------------------------- the stager

  /** `action.files.firstOrNull { it.id == fileId }`. */
  function FirstWithId(files: seq<StagedUpload>, fileId: string): (r: Option<StagedUpload>)
    ensures r.Some? ==> r.value in files && r.value.manifest.id == fileId
    ensures r.None? ==> forall u :: u in files ==> u.manifest.id != fileId
  {
    if files == [] then None
    else if files[0].manifest.id == fileId then Some(files[0])
    else FirstWithId(files[1..], fileId)
  }

  function Find(table: Table, transferId: string, fileId: string): Option<StagedUpload> {
    if transferId in table then FirstWithId(table[transferId].files, fileId) else None
  }

  lemma FoundIsSmall(table: Table, transferId: string, u: StagedUpload)
    requires WithinLimits(table) && transferId in table && u in table[transferId].files
    ensures u.manifest.size <= MAX_TOTAL_BYTES
  {
    assert WellFormed(table[transferId]);
    UploadIsSmall(table[transferId], u);
  }

  /** What `append` asks of a chunk: it continues the file and does not exceed the declared size. */
  predicate Continues(u: StagedUpload, offset: Long, chunk: Option<seq<Octet>>)
    reads u
  {
    && offset == u.received
    && chunk.Some? && |chunk.value| <= MAX_STAGING_CHUNK_BYTES
    && u.received as int + |chunk.value| <= u.manifest.size as int
  }

  ghost function UploadsOf(table: Table): set<StagedUpload> {
    set t, u | t in table && u in table[t].files :: u
  }

  class FileTransferStager {
    var transfers: Table

    ghost function Uploads(): set<StagedUpload>
      reads this
    {
      UploadsOf(transfers)
    }

    ghost predicate Valid()
      reads this, Uploads()
    {
      WithinLimits(transfers) && forall u :: u in Uploads() ==> u.Sound()
    }

    ghost function Target(transferId: string, fileId: string): set<StagedUpload>
      reads this
    {
      var found := Find(transfers, transferId, fileId);
      if found.Some? then {found.value} else {}
    }

    /** `append` takes this chunk. */
    ghost predicate Accepts(transferId: string, fileId: string, offset: Long, chunk: Option<seq<Octet>>)
      reads this, Uploads()
    {
      var found := Find(transfers, transferId, fileId);
      found.Some? && Continues(found.value, offset, chunk)
    }

    constructor ()
      ensures Valid() && transfers == map[]
    {
      transfers := map[];
      new;
      assert Sizes(transfers) == map[];
    }

    /** `begin`. None stands for text that is not a JSON object, or not an array of complete entries;
        the transfer id is a random UUID. */
    method Begin(actionData: Option<string>, manifests: Option<seq<Manifest>>, transferId: string)
      returns (result: Result<string, Error>)
      requires Valid() && transferId !in transfers
      modifies this
      ensures Valid()
      ensures result.Ok? <==> && |old(transfers)| < 4 && actionData.Some? && manifests.Some?
                              && Acceptable(manifests.value, Reserved(old(transfers)))
      ensures result.Err? ==> transfers == old(transfers)
      ensures result.Ok? ==> result.value == transferId && transferId in transfers
                             && transfers == old(transfers)[transferId := transfers[transferId]]
                             && transfers[transferId].actionData == actionData.value
                             && Manifests(transfers[transferId].files) == manifests.value
                             && forall u :: u in transfers[transferId].files ==> fresh(u) && Untouched(u)
    {
      hide WithinLimits;
      if |transfers| >= MAX_ACTIVE_TRANSFERS { return Err(TooManyTransfers); }
      if actionData.None? || manifests.None? { return Err(MalformedAction); }
      var ms := manifests.value;
      if |ms| < 1 || |ms| > MAX_FILES { return Err(WrongFileCount); }
      hide Acceptable;
      var reserved := ReservedBytes(transfers);
      var files := StageFiles(ms, reserved);
      if files.Err? { return Err(files.error); }
      var action := StagedFileAction(transferId, actionData.value, files.value);
      assert forall t, u :: t in transfers && u in transfers[t].files ==> u !in action.files;
      assert ApartFromAll(transfers, action);
      AddKeepsLimits(transfers, action);
      hide ApartFromAll;
      transfers := transfers[transferId := action];
      result := Ok(transferId);
    }

    /** `append`; `chunk` is None when the text is not base64url. */
    method Append(transferId: string, fileId: string, offset: Long, chunk: Option<seq<Octet>>)
      returns (result: Result<Long, Error>)
      requires Valid()
      modifies Target(transferId, fileId)
      ensures Valid()
      ensures result.Ok? <==> old(Accepts(transferId, fileId, offset, chunk))
      ensures result.Ok? ==> chunk.Some?
      ensures result.Ok? <==>
                var found := Find(transfers, transferId, fileId);
                && found.Some? && chunk.Some? && |chunk.value| <= 262144
                && offset as int == |old(found.value.content)|
                && |old(found.value.content)| + |chunk.value| <= found.value.manifest.size as int
      ensures var found := Find(transfers, transferId, fileId);
              found.Some? ==>
                var u := found.value;
                && u.chunks == old(u.chunks) + (if result.Ok? then [chunk.value] else [])
                && u.content == old(u.content) + (if result.Ok? then chunk.value else [])
                && (result.Ok? ==> result == Ok(u.received))
    {
      hide WithinLimits, WellFormed, Acceptable;
      if transferId !in transfers { return Err(UnknownTransfer); }
      var found := FirstWithId(transfers[transferId].files, fileId);
      if found.None? { return Err(UnknownFile); }
      var file := found.value;
      FoundIsSmall(transfers, transferId, file);
      assert file in Uploads();
      if offset != file.received { return Err(UnexpectedOffset); }
      if chunk.None? { return Err(InvalidChunk); }
      var bytes := chunk.value;
      if |bytes| > MAX_STAGING_CHUNK_BYTES { return Err(ChunkTooLarge); }
      if file.received + |bytes| as Long > file.manifest.size { return Err(ChunkTooLarge); }
      file.Write(bytes);
      result := Ok(file.received);
    }

    /** `finish`: only complete files are handed over, and the transfer is forgotten. */
    method Finish(transferId: string) returns (result: Result<StagedFileAction, Error>)
      requires Valid()
      modifies this
      ensures Valid()
      ensures result.Ok? <==> transferId in old(transfers)
                              && forall u :: u in old(transfers)[transferId].files ==>
                                  |u.content| == u.manifest.size as int
      ensures result.Ok? ==> result.value == old(transfers)[transferId] && transfers == old(transfers) - {transferId}
      ensures result.Err? ==> transfers == old(transfers)
    {
      hide WithinLimits;
      if transferId !in transfers { return Err(UnknownTransfer); }
      var action := transfers[transferId];
      assert forall u :: u in action.files ==> u in Uploads();
      if u :| u in action.files && !u.Complete() { return Err(TransferIncomplete); }
      RemoveKeepsLimits(transfers, transfers - {transferId});
      transfers := transfers - {transferId};
      result := Ok(action);
    }

    /** `cancel`. */
    method Cancel(transferId: string)
      requires Valid()
      modifies this
      ensures Valid() && transfers == old(transfers) - {transferId}
    {
      hide WithinLimits;
      RemoveKeepsLimits(transfers, transfers - {transferId});
      transfers := transfers - {transferId};
    }

    /** `cancelAll`. */
    method CancelAll()
      requires Valid()
      modifies this
      ensures Valid() && transfers == map[]
    {
      RemoveKeepsLimits(transfers, map[]);
      transfers := map[];
    }
  }

  // ---------------------------------------------------------------- the page's side

  const FORM_CHUNK: nat := 256 * 1024

  /** A file that the user chose in a form. Its size is a safe integer of JavaScript. */
  datatype FormFile = FormFile(field: string, name: string, contentType: string, content: seq<Octet>)

  predicate SafeSizes(files: seq<FormFile>) {
    forall f :: f in files ==> |f.content| < 0x20_0000_0000_0000
  }

  function FileId(i: nat): string {
    "file-" + Transcripts.Decimal(i)
  }

  function FormManifest(files: seq<FormFile>): (ms: seq<Manifest>)
    requires SafeSizes(files)
    ensures |ms| == |files|
  {
    seq(|files|, i requires 0 <= i < |files| =>
      var f := files[i];
      assert f in files;
      Manifest(FileId(i), f.field, f.name, if f.contentType == "" then "application/octet-stream" else f.contentType,
               |f.content| as Long))
  }

  /** The identifiers that the page makes up are short, not blank and distinct. */
  lemma FileIdsAreValid(i: nat, j: nat)
    requires i < MAX_FILES
    ensures !IsBlank(FileId(i)) && |FileId(i)| <= 128
    ensures i != j ==> FileId(i) != FileId(j)
  {
    var c := FileId(i)[0];
    assert c in FileId(i) && !IsWhitespace(c);
    assert |Transcripts.Decimal(i / 10)| == 1;
    if FileId(i) == FileId(j) {
      assert FileId(i)[5..] == Transcripts.Decimal(i) && FileId(j)[5..] == Transcripts.Decimal(j);
      Transcripts.DecimalInjective(i, j);
    }
  }

  function FormBytes(files: seq<FormFile>): nat {
    if files == [] then 0 else FormBytes(files[..|files| - 1]) + |files[|files| - 1].content|
  }

  predicate ValidFormFile(f: FormFile) {
    && !IsBlank(f.field) && |f.field| <= 128
    && !IsBlank(f.name) && |f.name| <= 512
    && |f.contentType| <= 128
  }

  /** What can go wrong with a form: its file count, its texts or its size, never its file ids. */
  predicate AcceptableForm(files: seq<FormFile>, reserved: nat) {
    && 1 <= |files| <= 32
    && (forall f :: f in files ==> ValidFormFile(f))
    && reserved + FormBytes(files) <= 268435456
  }

  lemma {:induction false} FormSize(files: seq<FormFile>)
    requires SafeSizes(files)
    ensures SizeOf(FormManifest(files)) == FormBytes(files)
  {
    if files != [] {
      var n := |files| - 1;
      FormSize(files[..n]);
      assert FormManifest(files)[..n] == FormManifest(files[..n]);
    }
  }

  lemma FormEntries(files: seq<FormFile>)
    requires SafeSizes(files) && |files| <= MAX_FILES
    ensures (forall i :: 0 <= i < |files| ==> ValidManifest(FormManifest(files)[i])) <==>
        (forall f :: f in files ==> ValidFormFile(f))
    ensures DistinctManifests(FormManifest(files))
  {
    var ms := FormManifest(files);
    forall i | 0 <= i < |files| ensures ValidManifest(ms[i]) <==> ValidFormFile(files[i]) {
      FileIdsAreValid(i, i);
      assert |"application/octet-stream"| <= 128;
    }
    forall i, j | 0 <= i < j < |ms| ensures ms[i].id != ms[j].id {
      FileIdsAreValid(i, j);
    }
    if forall i :: 0 <= i < |files| ==> ValidManifest(ms[i]) {
      forall f | f in files ensures ValidFormFile(f) {
        var i :| 0 <= i < |files| && files[i] == f;
        assert ValidManifest(ms[i]);
      }
    }
  }

  lemma FormIsAcceptable(files: seq<FormFile>, reserved: nat)
    requires SafeSizes(files)
    ensures Acceptable(FormManifest(files), reserved) <==> AcceptableForm(files, reserved)
  {
    FormSize(files);
    if |files| <= MAX_FILES {
      FormEntries(files);
    }
  }

  lemma OnlyOneHasId(files: seq<StagedUpload>, i: nat, u: StagedUpload)
    requires i < |files| && DistinctManifests(Manifests(files))
    requires u in files && u.manifest.id == files[i].manifest.id
    ensures u == files[i]
  {
    var j :| 0 <= j < |files| && files[j] == u;
    var ids := Manifests(files);
    assert ids[i].id == ids[j].id;
  }

  lemma FindsDistinct(files: seq<StagedUpload>, i: nat)
    requires i < |files| && DistinctManifests(Manifests(files))
    ensures FirstWithId(files, files[i].manifest.id) == Some(files[i])
  {
    hide DistinctManifests, Manifests;
    assert files[i] in files;
    var r := FirstWithId(files, files[i].manifest.id);
    hide FirstWithId;
    OnlyOneHasId(files, i, r.value);
  }

  lemma FindsUpload(stager: FileTransferStager, t: string, i: nat)
    requires stager.Valid() && t in stager.transfers && i < |stager.transfers[t].files|
    ensures var u := stager.transfers[t].files[i]; Find(stager.transfers, t, u.manifest.id) == Some(u)
    ensures stager.transfers[t].files[i].Sound()
  {
    hide FirstWithId, SizeOf, IsBlank, ValidManifest, DistinctManifests;
    var files := stager.transfers[t].files;
    assert files[i] in files && files[i] in stager.Uploads();
    assert WellFormed(stager.transfers[t]);
    FindsDistinct(files, i);
  }

  // ---------------------------------------------------------------- other forms at the same time

  /** The uploads of every action but one. */
  ghost function OthersOf(table: Table, mine: string): set<StagedUpload> {
    set t, u | t in table && t != mine && u in table[t].files :: u
  }

  /** The page's own action is where it was. */
  predicate SameEntry(before: Table, after: Table, mine: string) {
    (mine in before <==> mine in after) && (mine in before ==> after[mine] == before[mine])
  }

  /** Any call that another form, or another page, makes: its identifier is not this page's. */
  method OneOtherCall(stager: FileTransferStager, mine: string)
    requires stager.Valid()
    modifies stager, OthersOf(stager.transfers, mine)
    ensures stager.Valid() && SameEntry(old(stager.transfers), stager.transfers, mine)
    ensures forall u :: u in OthersOf(stager.transfers, mine) ==> u in old(OthersOf(stager.transfers, mine)) || fresh(u)
  {
    hide WithinLimits, Acceptable, Manifests, FirstWithId;
    var kind: nat, id: string := *, *;
    if id == mine {
    } else if kind == 0 && id !in stager.transfers {
      var actionData: Option<string>, manifests: Option<seq<Manifest>> := *, *;
      var begun := stager.Begin(actionData, manifests, id);
    } else if kind == 1 {
      var fileId: string, offset: Long, chunk: Option<seq<Octet>> := *, *, *;
      TargetIsOther(stager.transfers, id, fileId, mine);
      var appended := stager.Append(id, fileId, offset, chunk);
    } else if kind == 2 {
      var finished := stager.Finish(id);
    } else {
      stager.Cancel(id);
    }
  }

  lemma TargetIsOther(table: Table, id: string, fileId: string, mine: string)
    requires id != mine
    ensures Find(table, id, fileId).Some? ==> Find(table, id, fileId).value in OthersOf(table, mine)
  {
  }

  /** What the others may change: nothing if nobody else is at work. */
  ghost function OthersFrame(stager: FileTransferStager, mine: string, busy: bool): set<object>
    reads stager
  {
    if busy then {stager as object} + set u | u in OthersOf(stager.transfers, mine) :: u as object else {}
  }

  lemma FrameIs(stager: FileTransferStager, mine: string, busy: bool)
    ensures forall o: object :: o in OthersFrame(stager, mine, busy)
                                <==> busy && (|| o == stager
                                              || exists u :: u in OthersOf(stager.transfers, mine) && o == u)
  {
  }

  /** Any number of such calls, or none if nobody else is at work. */
  method OtherCalls(stager: FileTransferStager, mine: string, busy: bool)
    requires stager.Valid()
    modifies OthersFrame(stager, mine, busy)
    ensures stager.Valid() && SameEntry(old(stager.transfers), stager.transfers, mine)
    ensures forall u :: u in OthersOf(stager.transfers, mine) ==> u in old(OthersOf(stager.transfers, mine)) || fresh(u)
  {
    hide WithinLimits;
    if !busy { return; }
    var calls: nat := *;
    while calls > 0
      invariant stager.Valid() && SameEntry(old(stager.transfers), stager.transfers, mine)
      invariant forall u :: u in OthersOf(stager.transfers, mine) ==>
                  u in old(OthersOf(stager.transfers, mine)) || fresh(u)
    {
      OneOtherCall(stager, mine);
      calls := calls - 1;
    }
  }

  /** The page's own files are not among those of the others. */
  lemma MineIsNotOther(stager: FileTransferStager, t: string, u: StagedUpload)
    requires stager.Valid() && t in stager.transfers && u in stager.transfers[t].files
    ensures u !in OthersOf(stager.transfers, t)
  {
    var table := stager.transfers;
    forall id | id in table && id != t ensures u !in table[id].files {
      assert Apart(table[t], table[id]);
    }
  }

  // ---------------------------------------------------------------- the loops of the page

  predicate Holds(u: StagedUpload, content: seq<Octet>)
    reads u
  {
    u.content == content
  }

  /** Every upload holds the file that was chosen for it. */
  predicate HoldForm(staged: seq<StagedUpload>, files: seq<FormFile>)
    reads staged
  {
    |staged| == |files| && forall i :: 0 <= i < |files| ==> Holds(staged[i], files[i].content)
  }

  lemma NextPiece(content: seq<Octet>, offset: nat, end: nat)
    requires offset <= end <= |content|
    ensures content[..offset] + content[offset..end] == content[..end]
  {
  }

  /** The inner loop of `submitForm`: the page waits for each chunk, anything may be called meanwhile
      for other actions, and yet every chunk is accepted. */
  method StageFile(stager: FileTransferStager, t: string, i: nat, content: seq<Octet>, busy: bool)
    requires stager.Valid() && t in stager.transfers && i < |stager.transfers[t].files|
    requires Untouched(stager.transfers[t].files[i]) && stager.transfers[t].files[i].manifest.size as int == |content|
    modifies stager.transfers[t].files[i], OthersFrame(stager, t, busy)
    ensures stager.Valid() && SameEntry(old(stager.transfers), stager.transfers, t)
    ensures Holds(stager.transfers[t].files[i], content)
    ensures forall u :: u in OthersOf(stager.transfers, t) ==> u in old(OthersOf(stager.transfers, t)) || fresh(u)
  {
    hide WithinLimits, Find, FirstWithId;
    var u := stager.transfers[t].files[i];
    var offset := 0;
    while offset < |content|
      invariant stager.Valid() && SameEntry(old(stager.transfers), stager.transfers, t)
      invariant u.content == content[..if offset < |content| then offset else |content|]
      invariant forall o :: o in OthersOf(stager.transfers, t) ==> o in old(OthersOf(stager.transfers, t)) || fresh(o)
    {
      MineIsNotOther(stager, t, u);
      OtherCalls(stager, t, busy);
      var end := if offset + FORM_CHUNK < |content| then offset + FORM_CHUNK else |content|;
      var piece := content[offset..end];
      FindsUpload(stager, t, i);
      var accepted := stager.Append(t, u.manifest.id, offset as Long, Some(piece));
      assert accepted.Ok?;
      NextPiece(content, offset, end);
      offset := offset + FORM_CHUNK;
    }
    assert content[..|content|] == content;
  }

  /** The outer loop of `submitForm`, over the uploads `staged` of transfer `t`. */
  method StageAll(stager: FileTransferStager, t: string, staged: seq<StagedUpload>, files: seq<FormFile>,
                  busy: bool)
    requires stager.Valid() && t in stager.transfers && stager.transfers[t].files == staged && SafeSizes(files)
    requires Manifests(staged) == FormManifest(files) && forall u :: u in staged ==> Untouched(u)
    modifies (set u | u in staged), OthersFrame(stager, t, busy)
    ensures stager.Valid() && SameEntry(old(stager.transfers), stager.transfers, t) && HoldForm(staged, files)
  {
    hide *;
    DifferentUploads(stager, t);
    FrameIs(stager, t, busy);
    assert forall j :: 0 <= j < |staged| ==> staged[j] in staged;
    SameEntryIsReflexive(stager.transfers, t);
    for i := 0 to |files|
      invariant stager.Valid() && SameEntry(old(stager.transfers), stager.transfers, t)
      invariant t in stager.transfers && stager.transfers[t].files == staged
      invariant forall j :: 0 <= j < i ==> Holds(staged[j], files[j].content)
      invariant forall j :: i <= j < |staged| ==> Untouched(staged[j])
      invariant forall o :: o in OthersOf(stager.transfers, t) ==> o in old(OthersOf(stager.transfers, t)) || fresh(o)
    {
      FormManifestAt(files, i);
      ManifestAt(staged, i);
      NoneIsOther(stager, t);
      FrameIs(stager, t, busy);
      label before:
      StageFile(stager, t, i, files[i].content, busy);
      SameEntryTrans(old(stager.transfers), old@before(stager.transfers), stager.transfers, t);
    }
    FormHeld(staged, files);
  }

  lemma SameEntryIsReflexive(table: Table, mine: string)
    ensures SameEntry(table, table, mine)
  {
  }

  lemma SameEntryTrans(a: Table, b: Table, c: Table, mine: string)
    requires SameEntry(a, b, mine) && SameEntry(b, c, mine)
    ensures SameEntry(a, c, mine)
    ensures mine in b ==> mine in c && c[mine] == b[mine]
  {
  }

  lemma NoneIsOther(stager: FileTransferStager, t: string)
    requires stager.Valid() && t in stager.transfers
    ensures forall u :: u in stager.transfers[t].files ==> u !in OthersOf(stager.transfers, t)
  {
    forall u | u in stager.transfers[t].files ensures u !in OthersOf(stager.transfers, t) {
      MineIsNotOther(stager, t, u);
    }
  }

  lemma FormHeld(staged: seq<StagedUpload>, files: seq<FormFile>)
    requires |staged| == |files| && forall i :: 0 <= i < |files| ==> Holds(staged[i], files[i].content)
    ensures HoldForm(staged, files)
  {
  }

  lemma DifferentUploads(stager: FileTransferStager, t: string)
    requires stager.Valid() && t in stager.transfers
    ensures var files := stager.transfers[t].files;
            forall i, j :: 0 <= i < j < |files| ==> files[i] != files[j]
  {
    assert WellFormed(stager.transfers[t]);
    hide WithinLimits;
    var files := stager.transfers[t].files;
    var ms := Manifests(files);
    forall i, j | 0 <= i < j < |files| ensures files[i] != files[j] {
      assert ms[i] == files[i].manifest && ms[j] == files[j].manifest && ms[i].id != ms[j].id;
    }
  }

  lemma ManifestAt(staged: seq<StagedUpload>, i: nat)
    requires i < |staged|
    ensures Manifests(staged)[i] == staged[i].manifest
  {
  }

  lemma FormManifestAt(files: seq<FormFile>, i: nat)
    requires SafeSizes(files) && i < |files|
    ensures FormManifest(files)[i].size as int == |files[i].content|
  {
  }

  lemma AllComplete(staged: seq<StagedUpload>, files: seq<FormFile>)
    requires SafeSizes(files) && Manifests(staged) == FormManifest(files)
    requires HoldForm(staged, files)
    ensures forall u :: u in staged ==> |u.content| == u.manifest.size as int
  {
    forall u | u in staged ensures |u.content| == u.manifest.size as int {
      var i :| 0 <= i < |staged| && staged[i] == u;
      assert Manifests(staged)[i] == u.manifest;
      FormManifestAt(files, i);
    }
  }

  lemma UploadsAre(stager: FileTransferStager)
    ensures stager.Uploads() == UploadsOf(stager.transfers)
  {
  }

  lemma OthersWereThere(stager: FileTransferStager, table: Table, t: string, action: StagedFileAction)
    requires stager.transfers == table[t := action]
    ensures OthersOf(stager.transfers, t) <= UploadsOf(table)
  {
  }

  /** The manifest of the file number `i` of a form. */
  predicate StagedAs(m: Manifest, f: FormFile, i: nat) {
    && m.id == "file-" + Transcripts.Decimal(i) && m.field == f.field && m.name == f.name
    && m.contentType == (if f.contentType == "" then "application/octet-stream" else f.contentType)
    && m.size as int == |f.content|
  }

  lemma FormIsStaged(files: seq<FormFile>, staged: seq<StagedUpload>)
    requires SafeSizes(files) && Manifests(staged) == FormManifest(files)
    ensures |staged| == |files| && forall i :: 0 <= i < |files| ==> StagedAs(staged[i].manifest, files[i], i)
  {
    forall i | 0 <= i < |files| ensures StagedAs(staged[i].manifest, files[i], i) {
      assert Manifests(staged)[i] == staged[i].manifest && FormManifest(files)[i] == staged[i].manifest;
    }
  }

  /** `submitForm` for a form with files. Once `begin` has accepted the form nothing fails, whatever
      begin, append, finish and cancel calls are made for other actions while the page waits: the
      action is handed over with exactly the chosen files. If there are none, all else is as it was. */
  method SubmitForm(stager: FileTransferStager, actionData: string, files: seq<FormFile>, transferId: string,
      busy: bool)
    returns (result: Result<StagedFileAction, Error>)
    requires stager.Valid() && transferId !in stager.transfers && files != [] && SafeSizes(files)
    modifies stager, if busy then stager.Uploads() else {}
    ensures stager.Valid() && transferId !in stager.transfers
    ensures result.Ok? <==>
              |old(stager.transfers)| < 4 && AcceptableForm(files, Reserved(old(stager.transfers)))
    ensures result.Ok? ==> result.value.actionData == actionData
    ensures result.Ok? ==> Manifests(result.value.files) == FormManifest(files)
    ensures result.Ok? ==> forall i :: 0 <= i < |files| ==> StagedAs(result.value.files[i].manifest, files[i], i)
    ensures result.Ok? ==> HoldForm(result.value.files, files)
    ensures result.Err? || !busy ==> stager.transfers == old(stager.transfers)
  {
    hide *;
    UploadsAre(stager);
    FormIsAcceptable(files, Reserved(stager.transfers));
    var begun := stager.Begin(Some(actionData), Some(FormManifest(files)), transferId);
    if begun.Err? { return Err(begun.error); }
    var action := stager.transfers[transferId];
    OthersWereThere(stager, old(stager.transfers), transferId, action);
    FrameIs(stager, transferId, busy);
    label before:
    StageAll(stager, transferId, action.files, files, busy);
    SameEntryTrans(old@before(stager.transfers), old@before(stager.transfers), stager.transfers, transferId);
    AllComplete(action.files, files);
    FormIsStaged(files, action.files);
    result := stager.Finish(transferId);
    assert !busy ==> old(stager.transfers)[transferId := action] - {transferId} == old(stager.transfers);
  }
}
